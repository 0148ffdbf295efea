/**
 `RuntimeState`: the table of open logical channels, each with its own selected file, against
 one card. Selecting on a channel, opening, closing and resetting keep every channel coherent.
 */
module RuntimeChannels {
  import opened Bytes
  import opened Wrappers
  import opened ClaBytes
  import opened CardFiles
  import opened FileTree
  import opened SelectPaths
  import opened Selectables
  import opened Names
  import opened CardSelect
  import opened RuntimeChannel

  /** A step of a run: a selection on one channel, by name or of a file, a command of the shell, or a reset. */
  datatype Step =
    | SelectOn(n: nat, name: string)
    | SelectFileOn(channel: nat, file: File)
    | OpenFrom(opener: nat, toOpen: nat)
    | CloseFrom(sender: nat, closed: nat)
    | ResetCard

  lemma IsPresent(card: Card, n: nat)
    requires card.Valid() && n in card.current
    ensures card.current[n] in card.present
  {
  }

  class RuntimeState {
    const card: Card
    var lchan: map<nat, RuntimeLchan>

    /** Only the basic channel is open, nothing is known of its MF yet. */
    constructor (card: Card)
      requires card.Sound() && card.Valid() && card.current == map[0 := card.t.mf]
      ensures this.card == card && Valid() && fresh(lchan[0]) && lchan.Keys == {0}
    {
      hide Card.Sound, Card.Valid, Tree.Valid, Tree.Linked, UniqueIds, AncestorClosed;
      IsPresent(card, 0);
      card.SoundHas(card.current[0]);
      this.card := card;
      var basic := new RuntimeLchan(0, card);
      lchan := map[0 := basic];
      new;
      assert ChannelOk(0);
    }

    /**
     The basic channel exists, each table entry has its key as its number, the table lists the
     channels open on the card, and on every one of them the program's file is the card's.
     */
    ghost predicate Valid()
      reads this, card, lchan.Values
    {
      && card.Valid() && 0 in lchan && lchan.Keys == card.current.Keys
      && forall n {:trigger ChannelOk(n)} :: n in lchan ==> ChannelOk(n)
    }

    ghost predicate ChannelOk(n: nat)
      requires n in lchan
      reads this`lchan, card, lchan[n]
    {
      lchan[n].lchanNr == n && lchan[n].card == card && lchan[n].Coherent()
    }

    lemma IsChannel(n: nat)
      requires Valid() && n in lchan
      ensures card.Valid() && ChannelOk(n)
    {
    }

    lemma HasBasic()
      requires Valid()
      ensures card.Valid() && 0 in lchan && lchan[0].lchanNr == 0 && lchan[0].card == card
      ensures lchan[0].selectedFile in card.present
    {
      assert ChannelOk(0);
    }

    lemma OnlyBasic()
      requires card.Valid() && lchan.Keys == {0} && card.current.Keys == {0}
      requires lchan[0].lchanNr == 0 && lchan[0].card == card && lchan[0].Coherent()
      ensures Valid()
    {
    }

    lemma IsReady(n: nat)
      requires card.Sound() && card.Valid() && n in lchan && ChannelOk(n)
      ensures lchan[n].Ready() && lchan[n].card == card && lchan[n].selectedFile in card.t.parent
    {
      card.SoundHas(lchan[n].selectedFile);
    }

    /**
     `select` on one channel: what it does there is what `RuntimeLchan.Select` says, and the other channels are as
     they were.
     */
    method Select(n: nat, name: string) returns (r: Outcome)
      requires card.Sound() && Valid() && n in lchan
      modifies lchan[n], card
      ensures !r.Astray() ==> Valid()
      ensures lchan.Keys == card.current.Keys && lchan[n].MistakenIf(r) && lchan[n].Settled(r, old(card.current))
      ensures old(lchan[n].FcpExact()) && !r.Astray() ==> lchan[n].FcpExact()
      ensures forall m {:trigger ChannelOk(m)} :: m in lchan && m != n ==> ChannelOk(m)
      ensures forall m :: m in lchan && m != n ==> lchan[m].selectedFile == old(lchan[m].selectedFile)
      ensures lchan[n].Answers(r, old(lchan[n].selectedFile), PathElements(name))
      ensures lchan[n].Loyal() && r != Done && !r.Recorded? ==> lchan[n].selectedFile == old(lchan[n].selectedFile)
      ensures r.Astray() ==> MayProbe(PathElements(name))
    {
      hide Card.Sound, Card.Valid, Tree.Valid, Tree.Linked, RuntimeLchan.FcpExact, RuntimeLchan.Answers,
        RuntimeLchan.MistakenIf, MayProbe;
      var c := lchan[n];
      assert ChannelOk(n);
      IsReady(n);
      r := c.Select(name);
      forall m | m in lchan && m != n
        ensures ChannelOk(m)
      {
        assert old(ChannelOk(m)) && lchan[m] != c;
      }
    }

    /** `select_file` on one channel. */
    method SelectFile(n: nat, file: File) returns (r: Outcome)
      requires card.Sound() && Valid() && n in lchan && file in card.t.parent
      modifies lchan[n], card
      ensures Valid() && lchan[n].Held(old(card.current))
      ensures forall m :: m in lchan && m != n ==> lchan[m].selectedFile == old(lchan[m].selectedFile)
      ensures r == Done ==> lchan[n].selectedFile == file && lchan[n].FcpExact()
      ensures old(lchan[n].FcpExact()) ==> lchan[n].FcpExact()
      ensures lchan[n].Reliable() ==> lchan[n].PlayedTo(r, old(lchan[n].selectedFile), file)
      ensures lchan[n].Loyal() && file in old(card.granted) ==> r == Done
    {
      hide Card.Sound, Card.Valid, Tree.Valid, Tree.Linked, RuntimeLchan.FcpExact, RunHops, SelectPath;
      var c := lchan[n];
      assert ChannelOk(n);
      IsReady(n);
      r := c.SelectFile(file);
      forall m | m in lchan && m != n
        ensures ChannelOk(m)
      {
        assert old(ChannelOk(m)) && lchan[m] != c;
      }
    }

    /** `add_lchan` for a channel the card has just opened: its entry starts where the card does. */
    method AddLchan(from: nat, n: nat)
      requires card.Valid() && 0 in lchan && from in lchan && lchan.Keys + {n} == card.current.Keys && n !in lchan
      requires forall m {:trigger ChannelOk(m)} :: m in lchan ==> ChannelOk(m)
      requires lchan[from].selectedFile in card.t.parent
      requires card.current[n] == if from == 0 then card.t.mf else Cwd(card.t, lchan[from].selectedFile)
      modifies this`lchan
      ensures Valid() && n in lchan && lchan == old(lchan)[n := lchan[n]] && fresh(lchan[n])
    {
      assert ChannelOk(from);
      var newLchan := new RuntimeLchan.Fork(n, lchan[from]);
      lchan := lchan[n := newLchan];
      assert ChannelOk(n);
      forall m | m in lchan && m != n
        ensures ChannelOk(m)
      {
        assert old(ChannelOk(m));
      }
    }

    /** MANAGE CHANNEL sent on channel `from`: the channels the table lists are as they were. */
    method SendOpen(from: nat, n: nat) returns (ok: bool)
      requires card.Sound() && Valid() && from in lchan && lchan[from].selectedFile in card.t.parent
      modifies card
      ensures !ok ==> Valid()
      ensures ok ==> n !in lchan && lchan.Keys + {n} == card.current.Keys
      ensures ok ==> card.current[n] == if from == 0 then card.t.mf else Cwd(card.t, lchan[from].selectedFile)
      ensures card.Valid() && 0 in lchan && forall m {:trigger ChannelOk(m)} :: m in lchan ==> ChannelOk(m)
    {
      hide Card.Sound, Card.Valid, RuntimeLchan.FcpExact, Cwd;
      assert ChannelOk(from);
      ok := card.OpenChannel(from, n);
      forall m | m in lchan
        ensures ChannelOk(m)
      {
        assert old(ChannelOk(m));
      }
    }

    /**
     `open_channel`: MANAGE CHANNEL sent on channel `from`, then `add_lchan`. The program's and
     the card's notion of what a new channel starts with agree.
     */
    method OpenChannel(from: nat, n: nat) returns (ok: bool)
      requires card.Sound() && Valid() && from in lchan && 1 <= n <= 15
      modifies this`lchan, card
      ensures Valid()
      ensures ok ==> n !in old(lchan) && n in lchan && lchan == old(lchan)[n := lchan[n]] && fresh(lchan[n])
      ensures !ok ==> lchan == old(lchan)
    {
      hide Card.Sound, Card.Valid, Valid, ChannelOk, LchanNrToCla, Cwd;
      if LchanNrToCla(card.cla, from).None? {
        return false;
      }
      IsChannel(from);
      IsReady(from);
      ok := SendOpen(from, n);
      if ok {
        AddLchan(from, n);
      }
    }

    /** `close_channel`: MANAGE CHANNEL, then `del_lchan`. */
    method CloseChannel(from: nat, n: nat) returns (ok: bool)
      requires card.Sound() && Valid() && from in lchan && 1 <= n <= 15
      modifies this`lchan, card
      ensures Valid()
      ensures lchan == if ok then old(lchan) - {n} else old(lchan)
    {
      hide Card.Sound, Card.Valid, RuntimeLchan.FcpExact, LchanNrToCla;
      if LchanNrToCla(card.cla, from).None? {
        return false;
      }
      ok := card.CloseChannel(n);
      if ok {
        lchan := lchan - {n};
      }
      forall m | m in lchan
        ensures ChannelOk(m)
      {
        assert old(ChannelOk(m));
      }
    }

    /** `reset`: forget all channels but the basic one, reset the card, select the MF again. */
    method Reset() returns (ok: bool)
      requires card.Sound() && Valid() && card.t.mf.name == Some("MF") && NotAnApp(card.t, "MF")
      modifies this`lchan, lchan[0], card
      ensures lchan.Keys == {0} && lchan[0] == old(lchan[0])
      ensures ok ==> Valid() && lchan[0].selectedFile == card.t.mf && lchan[0].selectedAdf == None
      ensures !ok ==> lchan[0].selectedFile == old(lchan[0].selectedFile) && card.current == map[0 := card.t.mf]
      ensures old(lchan[0]).Loyal() ==> ok
    {
      hide Valid, ChannelOk, Card.Sound, Card.Valid, Tree.Valid, Tree.Linked, NotAnApp;
      HasBasic();
      lchan := map[0 := lchan[0]];
      card.Reset();
      var r := lchan[0].SelectMfAfterReset();
      ok := r == Done;
      if ok {
        lchan[0].selectedAdf := None;
        OnlyBasic();
      }
    }

    /** `get_lchan_by_cla`: a class byte stamped for an open channel leads back to that channel. */
    method GetLchanByCla(cla: byte) returns (r: Option<RuntimeLchan>)
      ensures r.Some? ==> exists n :: n in lchan && lchan[n] == r.value && LchanNrFromCla(cla) == Some(n)
      ensures forall n, base: byte :: n in lchan && LchanNrToCla(base, n) == Some(cla) && (n < 4 || base / 16 % 2 == 0) ==>
                r == Some(lchan[n])
    {
      var nr := LchanNrFromCla(cla);
      r := if nr.Some? && nr.value in lchan then Some(lchan[nr.value]) else None;
      forall n, base: byte | n in lchan && LchanNrToCla(base, n) == Some(cla) && (n < 4 || base / 16 % 2 == 0)
        ensures r == Some(lchan[n])
      {
        StampResolves(base, n);
      }
    }

    /** Only these steps can leave the program and the card apart: a SELECT of an unlisted identifier, or a reset. */
    predicate CanPart(step: Step) {
      match step
      case SelectOn(_, name) => MayProbe(PathElements(name))
      case ResetCard => !(card.steady || card.loyal) || LchanNrToCla(card.cla, 0).None?
      case _ => false
    }

    /** A step that can leave them apart selects an identifier, or resets a card that is not loyal. */
    lemma CanPartMeans(step: Step)
      requires CanPart(step)
      ensures step.SelectOn? || step.ResetCard?
      ensures step.SelectOn? ==> exists p :: p in PathElements(step.name) && IsFid(p)
      ensures step.ResetCard? ==> (!card.steady && !card.loyal) || LchanNrToCla(card.cla, 0).None?
    {
    }

    /** One step of a run is taken, as far as it addresses an open channel; the result says whether it came apart. */
    method Take(step: Step) returns (apart: bool)
      requires card.Sound() && Valid() && card.t.mf.name == Some("MF") && NotAnApp(card.t, "MF")
      modifies this`lchan, lchan.Values, card
      ensures !apart ==> Valid()
      ensures fresh(lchan.Values - old(lchan.Values))
      ensures apart ==> CanPart(step)
    {
      hide Card.Sound, Card.Valid, Valid, ChannelOk, NotAnApp, MayProbe, LchanNrToCla, PathElements, RunHops,
        SelectPath, RuntimeLchan.Answers, RuntimeLchan.MistakenIf, RuntimeLchan.Settled;
      apart := false;
      match step {
        case SelectOn(n, name) =>
          if n in lchan {
            var r := Select(n, name);
            apart := r.Astray();
          }
        case SelectFileOn(n, file) =>
          if n in lchan && file in card.t.parent {
            var r := SelectFile(n, file);
          }
        case OpenFrom(from, n) =>
          if from in lchan && 1 <= n <= 15 {
            var ok := OpenChannel(from, n);
          }
        case CloseFrom(from, n) =>
          if from in lchan && 1 <= n <= 15 {
            var ok := CloseChannel(from, n);
          }
        case ResetCard =>
          HasBasic();
          var ok := Reset();
          apart := !ok;
      }
    }

    /**
     Any run of selections, of opening and closing channels and of resets, on any card: the program and the card agree
     on every channel after each step, up to a probe that goes wrong or a reset after which the MF cannot be selected.
     A run that only selects by names and never resets a card that may refuse the MF comes through.
     */
    method Run(steps: seq<Step>) returns (taken: nat)
      requires card.Sound() && Valid() && card.t.mf.name == Some("MF") && NotAnApp(card.t, "MF")
      modifies this`lchan, lchan.Values, card
      ensures taken <= |steps| && (taken == |steps| ==> Valid())
      ensures taken < |steps| ==> CanPart(steps[taken])
      ensures taken < |steps| ==>
                || (steps[taken].SelectOn? && exists p :: p in PathElements(steps[taken].name) && IsFid(p))
                || (steps[taken].ResetCard? && (LchanNrToCla(card.cla, 0).None? || (!card.steady && !card.loyal)))
    {
      hide Card.Sound, Card.Valid, Valid, ChannelOk, NotAnApp, CanPart, PathElements, IsFid, LchanNrToCla;
      taken := 0;
      while taken < |steps|
        invariant taken <= |steps| && Valid()
        invariant fresh(lchan.Values - old(lchan.Values))
      {
        var apart := Take(steps[taken]);
        if apart {
          CanPartMeans(steps[taken]);
          return;
        }
        taken := taken + 1;
      }
    }
  }
}
