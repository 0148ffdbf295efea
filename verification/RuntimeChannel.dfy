/**
 `RuntimeLchan`: what the program believes is selected on one logical channel, kept equal to
 what the card has selected there.
 */
module RuntimeChannel {
  import opened Wrappers
  import opened ClaBytes
  import opened CardFiles
  import opened FileTree
  import opened SelectPaths
  import opened BuildSelectPath
  import opened Selectables
  import opened Names
  import opened CardSelect
  import opened Probing

  /**
   How a selection ends: it succeeded; the card refused a SELECT (SwMatchError); the name is
   not selectable and not a file identifier (ValueError); the class byte cannot carry the
   channel number (ValueError); what `probe_file` reached could not be recorded as a child of
   the selected file (an exception of `add_file`, or no such method); it was recorded below
   `below`, which counts as a success; or it could not be recorded and the card refused to go
   back from there.
   */
  datatype Outcome = Done | Refused | Unknown | CannotStamp | Unrecorded | Recorded(below: File) | Strayed
  {
    /** The program and the card are left on different files. */
    predicate Astray() {
      Recorded? || Strayed?
    }
  }

  /** What a probe comes to on a card that has exactly `present`. */
  ghost function ProbeOutcome(t: Tree, present: set<File>, at: File, id: string): Outcome
    requires t.Linked() && at in t.parent
  {
    if !IsFid(id) then Unknown
    else if !AnyBesideCwd(t, present, at, id) then Refused
    else if Recordable(t, at, id) then Recorded(at)
    else Unrecorded
  }

  /** Some element could be sent to the card without being selectable. */
  predicate MayProbe(names: seq<string>) {
    exists p :: p in names && IsFid(Norm(p))
  }

  lemma ElementMayProbe(names: seq<string>, i: nat)
    requires i < |names| && IsFid(Norm(names[i]))
    ensures MayProbe(names)
  {
  }

  /** What `select` reports of a walk along the elements. */
  ghost function OutcomeOf(t: Tree, present: set<File>, w: Walked): Outcome
    requires t.Linked() && (w.NoSuchName? ==> w.at in t.parent)
  {
    match w
    case Arrived(_) => Done
    case NotThere(_) => Refused
    case NoSuchName(at, id) => ProbeOutcome(t, present, at, id)
  }

  /** The file then selected, unless a probe recorded one: the end of the walk, or `start` again. */
  ghost function EndsAt(w: Walked, start: File): File {
    match w
    case Arrived(f) => f
    case _ => start
  }

  // ---------------------------------------------------------------------------------------
  // Playing hops against a set of files

  /** Where a card that has exactly `present` is left by a list of hops; it stops at the first it lacks. */
  ghost function RunHops(present: set<File>, from: File, hops: seq<File>): File
    decreases hops
  {
    if hops == [] || hops[0] !in present then from else RunHops(present, hops[0], hops[1..])
  }

  /** The file selected after `i` hops were accepted. */
  function After(from: File, hops: seq<File>, i: nat): File
    requires i <= |hops|
  {
    if i == 0 then from else hops[i - 1]
  }

  /** One accepted hop further, the rest of the run is the same run. */
  lemma RunHopsStep(present: set<File>, from: File, hops: seq<File>, i: nat)
    requires i < |hops|
    ensures RunHops(present, from, hops[i..])
         == if hops[i] in present then RunHops(present, hops[i], hops[i + 1..]) else from
  {
    assert hops[i..][1..] == hops[i + 1..];
  }

  lemma {:induction false} LegalRunAt(t: Tree, from: File, hops: seq<File>, i: nat)
    requires LegalRun(t, from, hops) && i < |hops|
    ensures LegalHop(t, After(from, hops, i), hops[i])
    decreases i
  {
    if i > 0 {
      LegalRunAt(t, hops[0], hops[1..], i - 1);
    }
  }

  lemma NextHop(t: Tree, from: File, hops: seq<File>, i: nat)
    requires t.Valid() && LegalRun(t, from, hops) && i < |hops|
    ensures LegalHop(t, After(from, hops, i), hops[i])
    ensures hops[i].kind != Adf ==> hops[i].fid.Some?
  {
    LegalRunAt(t, from, hops, i);
    assert t.UpOk(hops[i]);
  }

  lemma {:induction false} AboveIsPresent(t: Tree, present: set<File>, a: File, f: File)
    requires t.Linked() && AncestorClosed(t, present) && f in present && t.Above(a, f)
    ensures a in present
    decreases t.rank[f]
  {
    if a != f {
      AboveIsPresent(t, present, a, t.parent[f]);
    }
  }

  /** Between two files the card has, it has every hop of the path. */
  lemma PathIsPresent(t: Tree, present: set<File>, cur: File, target: File)
    requires t.Linked() && AncestorClosed(t, present) && cur in present && target in present
    ensures forall h :: h in SelectPath(t, cur, target) ==> h in present
  {
    SelectPathEnds(t, cur, target);
    forall h | h in SelectPath(t, cur, target)
      ensures h in present
    {
      if t.Above(h, cur) {
        AboveIsPresent(t, present, h, cur);
      } else {
        AboveIsPresent(t, present, h, target);
      }
    }
  }

  /** What a completed or stopped play of the path means; it is played on a card that starts at `start`. */
  lemma PlayedPath(t: Tree, present: set<File>, cur: File, file: File, start: File, played: nat)
    requires t.Linked() && AncestorClosed(t, present) && cur in present && file in t.parent
    requires played <= |SelectPath(t, cur, file)|
    requires var hops := SelectPath(t, cur, file);
             && RunHops(present, start, hops) == RunHops(present, After(start, hops, played), hops[played..])
             && (played < |hops| ==> hops[played] !in present)
    ensures var hops := SelectPath(t, cur, file);
            && After(start, hops, played) == RunHops(present, start, hops)
            && (played == |hops| ==> After(start, hops, played) == file)
            && (file in present ==> played == |hops|)
  {
    hide SelectPath, Tree.Linked;
    SelectPathEnds(t, cur, file);
    if file in present {
      PathIsPresent(t, present, cur, file);
    }
  }

  lemma Overwrite(m: map<nat, File>, k: nat, v: File, w: File)
    ensures m[k := v][k := w] == m[k := w]
    ensures k in m ==> m[k := m[k]] == m
  {
  }

  /** With unique identifiers a SELECT that is accepted reaches the file it was meant for. */
  lemma HopTarget(t: Tree, from: File, f: File, g: File)
    requires UniqueIds(t) && LegalHop(t, from, f) && f.kind != Adf
    requires InScope(t, from, g) && f.fid.Some? && g.fid == f.fid
    ensures g == f
  {
  }

  // ---------------------------------------------------------------------------------------

  class RuntimeLchan {
    const lchanNr: nat
    const card: Card
    var selectedFile: File
    var selectedAdf: Option<File>
    var fcpHex: Option<string>

    constructor (lchanNr: nat, card: Card)
      ensures this.lchanNr == lchanNr && this.card == card
      ensures selectedFile == card.t.mf && selectedAdf == None && fcpHex == None
    {
      this.lchanNr := lchanNr;
      this.card := card;
      selectedFile := card.t.mf;
      selectedAdf := None;
      fcpHex := None;
    }

    /** `add_lchan` on channel `opener`: a non-basic channel passes its directory and ADF on. */
    constructor Fork(lchanNr: nat, opener: RuntimeLchan)
      requires opener.selectedFile in opener.card.t.parent
      ensures this.lchanNr == lchanNr && card == opener.card && fcpHex == None
      ensures selectedFile == if opener.lchanNr != 0 then Cwd(card.t, opener.selectedFile) else card.t.mf
      ensures selectedAdf == if opener.lchanNr != 0 then opener.selectedAdf else None
    {
      this.lchanNr := lchanNr;
      card := opener.card;
      selectedFile := if opener.lchanNr != 0 then Cwd(opener.card.t, opener.selectedFile) else opener.card.t.mf;
      selectedAdf := if opener.lchanNr != 0 then opener.selectedAdf else None;
      fcpHex := None;
    }

    /** The channel is open and the program's file is the card's; what is cached is that file's FCP. */
    ghost predicate Coherent()
      reads this, card
    {
      && lchanNr in card.current && card.current[lchanNr] == selectedFile
      && selectedFile in card.present
      && FcpHolds()
    }

    /** The cached FCP is the answer to the SELECT of the selected file; an empty answer is kept as nothing. */
    ghost predicate FcpExact()
      reads this
    {
      fcpHex == if selectedFile.fcp == "" then None else Some(selectedFile.fcp)
    }

    /** What is cached, if anything, is that answer. */
    ghost predicate FcpHolds()
      reads this
    {
      fcpHex.Some? ==> fcpHex.value == selectedFile.fcp && selectedFile.fcp != ""
    }

    /** Where every selection starts. */
    ghost predicate Ready()
      reads this, card
    {
      card.Sound() && card.Valid() && Coherent()
    }

    /** The program and the card agree, and of what was selected on the card `before` only this channel has changed. */
    ghost predicate Held(before: map<nat, File>)
      reads this, card
    {
      card.Valid() && Coherent() && card.current == before[lchanNr := selectedFile]
    }

    /** They agree unless the call went astray; in any case the other channels are as `before`. */
    ghost predicate Settled(r: Outcome, before: map<nat, File>)
      reads this, card
    {
      && card.Valid() && lchanNr in card.current && card.current == before[lchanNr := card.current[lchanNr]]
      && (!r.Astray() ==> Coherent())
    }

    lemma ReadyHas()
      requires Ready()
      ensures card.Sound() && card.t.Valid() && card.t.Linked() && AncestorClosed(card.t, card.present)
      ensures card.Valid() && lchanNr in card.current && card.current[lchanNr] == selectedFile
      ensures selectedFile in card.granted && AncestorClosed(card.t, card.granted) && card.granted <= card.present
      ensures selectedFile in card.present && selectedFile in card.t.parent && card.t.mf in card.present
      ensures Coherent() && FcpHolds()
    {
      card.SoundHas(selectedFile);
    }

    lemma IsHeld(before: map<nat, File>)
      requires card.Valid() && lchanNr in card.current && card.current[lchanNr] == selectedFile
      requires selectedFile in card.present && FcpHolds()
      requires card.current == before[lchanNr := card.current[lchanNr]]
      ensures Held(before) && card.current == before[lchanNr := selectedFile]
      ensures fcpHex.Some? ==> fcpHex.value == selectedFile.fcp
    {
    }

    lemma HeldIsReady(before: map<nat, File>)
      requires card.Sound() && Held(before)
      ensures Ready()
    {
    }

    lemma SettledIsHeld(r: Outcome, before: map<nat, File>)
      requires Settled(r, before)
      ensures || r.Recorded? || r.Strayed?
              || (card.current == before[lchanNr := selectedFile]
                  && (fcpHex.Some? ==> fcpHex.value == selectedFile.fcp))
    {
    }

    lemma HeldIsSettled(r: Outcome, before: map<nat, File>)
      requires Held(before)
      ensures Settled(r, before)
    {
    }

    /** Two calls in a row change no more than the second. */
    lemma StillHeld(before: map<nat, File>, between: map<nat, File>)
      requires lchanNr in between && between == before[lchanNr := between[lchanNr]]
      ensures Held(between) ==> Held(before)
      ensures forall r :: Settled(r, between) ==> Settled(r, before)
    {
    }

    /** The card accepts every SELECT of a file it has, and commands for this channel can be built. */
    ghost predicate Reliable() {
      card.steady && LchanNrToCla(card.cla, lchanNr).Some?
    }

    /** Likewise, as far as it has accepted the file before. */
    ghost predicate Loyal() {
      (card.steady || card.loyal) && LchanNrToCla(card.cla, lchanNr).Some?
    }

    /** The files whose SELECT may succeed: all of them, as far as one knows of an unreliable card. */
    ghost function Seen(): set<File> {
      if Reliable() then card.present else card.t.parent.Keys
    }

    /** One SELECT of a hop: an ADF by its AID, any other file by its FID. */
    method Hop(f: File, ghost from: File) returns (r: Result<string, Outcome>)
      requires card.Sound() && card.Valid() && lchanNr in card.current && card.current[lchanNr] == from
      requires LegalHop(card.t, from, f) && (f.kind != Adf ==> f.fid.Some?)
      modifies card
      ensures card.Valid() && old(card.granted) <= card.granted
      ensures r.Ok? ==> r.value == f.fcp && f in card.present && card.current == old(card.current)[lchanNr := f]
      ensures r.Err? ==> card.current == old(card.current) && (r.error == Refused || r.error == CannotStamp)
      ensures r == Err(CannotStamp) <==> LchanNrToCla(card.cla, lchanNr).None?
      ensures Reliable() && f in card.present ==> r.Ok?
      ensures Loyal() && f in old(card.granted) ==> r.Ok?
    {
      hide Tree.Valid, Tree.Linked;
      if LchanNrToCla(card.cla, lchanNr).None? {
        return Err(CannotStamp);
      }
      var a: Option<string>;
      ghost var g: File;
      if f.kind == Adf {
        a, g := card.SelectAid(lchanNr, f.aid);
        assert a.Some? ==> SameAid(f, g);
      } else {
        a, g := card.SelectFid(lchanNr, f.fid.value);
        if a.Some? {
          HopTarget(card.t, from, f, g);
        }
      }
      r := if a.Some? then Ok(a.value) else Err(Refused);
    }

    /** `_select_post`, called with a file. */
    method SelectPost(file: File, data: Option<string>)
      modifies this
      ensures selectedFile == file
      ensures fcpHex == if data.Some? && data.value != "" then data else None
      ensures selectedAdf == if file.kind == Adf then Some(file) else old(selectedAdf)
    {
      selectedFile := file;
      if file.kind == Adf {
        selectedAdf := Some(file);
      }
      if data.Some? && data.value != "" {
        fcpHex := data;
      } else {
        fcpHex := None;
      }
    }

    /**
     `i` of the hops were accepted: the card is on the last of them, `data` is its answer, and
     the rest of the run is the same run. Before the loop the card was on `start`.
     */
    ghost predicate Playing(start: File, hops: seq<File>, i: nat, data: Option<string>, before: map<nat, File>)
      reads this, card
      requires i <= |hops|
    {
      && card.Valid() && card.current == before[lchanNr := After(start, hops, i)]
      && (if i == 0 then data == fcpHex
          else data == Some(hops[i - 1].fcp) && LchanNrToCla(card.cla, lchanNr).Some?)
      && RunHops(card.present, start, hops) == RunHops(card.present, After(start, hops, i), hops[i..])
    }

    /** One round of the loop below. */
    method HopAt(ghost start: File, hops: seq<File>, i: nat, ghost data: Option<string>, ghost before: map<nat, File>)
      returns (r: Result<string, Outcome>)
      requires card.Sound() && i < |hops| && LegalRun(card.t, start, hops)
      requires Playing(start, hops, i, data, before)
      modifies card
      ensures r.Ok? ==> Playing(start, hops, i + 1, Some(r.value), before)
      ensures r.Err? ==> Playing(start, hops, i, data, before) && (r.error == Refused || r.error == CannotStamp)
      ensures r == Err(CannotStamp) ==> i == 0 && LchanNrToCla(card.cla, lchanNr).None?
      ensures r.Err? && Reliable() ==> hops[i] !in card.present
      ensures r.Err? && Loyal() ==> hops[i] !in old(card.granted)
      ensures old(card.granted) <= card.granted
    {
      hide UniqueIds, AncestorClosed, Tree.Linked;
      ghost var from := After(start, hops, i);
      NextHop(card.t, start, hops, i);
      Overwrite(before, lchanNr, from, hops[i]);
      RunHopsStep(card.present, from, hops, i);
      r := Hop(hops[i], from);
    }

    /**
     The loop of `select_file` over the hops: SELECT each, stop at the first that fails. The
     card is then on `After(start, hops, played)`, and `data` is what `_select_post` is given.
     */
    method PlayHops(ghost start: File, hops: seq<File>) returns (r: Outcome, played: nat, data: Option<string>)
      requires card.Sound() && card.Valid() && lchanNr in card.current && card.current[lchanNr] == start
      requires LegalRun(card.t, start, hops)
      modifies card
      ensures played <= |hops| && (r == Done <==> played == |hops|)
      ensures Playing(start, hops, played, data, old(card.current))
      ensures r == Done || r == Refused || (r == CannotStamp && played == 0 && !Reliable())
      ensures Reliable() && r != Done ==> hops[played] !in card.present
      ensures Loyal() && r != Done ==> hops[played] !in old(card.granted)
      ensures old(card.granted) <= card.granted
    {
      hide Card.Sound, LegalRun, Playing;
      played, data := 0, fcpHex;
      PlayStarts(start, hops, data);
      r := Done;
      while played < |hops|
        invariant played <= |hops| && Playing(start, hops, played, data, old(card.current)) && r == Done
        invariant old(card.granted) <= card.granted
      {
        var answer := HopAt(start, hops, played, data, old(card.current));
        if answer.Err? {
          return answer.error, played, data;
        }
        data := Some(answer.value);
        played := played + 1;
      }
    }

    lemma PlayStarts(start: File, hops: seq<File>, data: Option<string>)
      requires card.Valid() && lchanNr in card.current && card.current[lchanNr] == start && data == fcpHex
      ensures Playing(start, hops, 0, data, card.current)
    {
      assert hops[0..] == hops;
    }

    /**
     `select_file` up to `_select_post`: find the path from the program's file and play it on a
     card that is on `start`, normally the same file. `at` is the last file accepted, if any.
     */
    method PlayPathTo(file: File, ghost start: File) returns (r: Outcome, at: File, data: Option<string>)
      requires card.Sound() && card.Valid() && selectedFile in card.granted && file in card.t.parent
      requires lchanNr in card.current && card.current[lchanNr] == start && card.t.Linked()
      requires selectedFile in card.t.parent && LegalRun(card.t, start, SelectPath(card.t, selectedFile, file))
      modifies card
      ensures card.Valid() && lchanNr in card.current && at in card.present && old(card.granted) <= card.granted
      ensures card.current == old(card.current)[lchanNr := card.current[lchanNr]]
      ensures r == Done || start == selectedFile ==> card.current[lchanNr] == at
      ensures card.current[lchanNr] == at || at == selectedFile
      ensures (at == selectedFile && data == fcpHex) || data == Some(at.fcp)
      ensures r == Done ==> at == file && data == Some(at.fcp)
      ensures r == Done || r == Refused || (r == CannotStamp && at == selectedFile && !Reliable())
      ensures Reliable() ==> (r == Done <==> file in card.present)
      ensures Loyal() && file in old(card.granted) ==> r == Done
      ensures Reliable() && start == selectedFile ==>
                at == RunHops(card.present, selectedFile, SelectPath(card.t, selectedFile, file))
    {
      hide UniqueIds, Tree.Valid, Tree.Linked, SelectPath, LegalRun, AncestorClosed;
      var interPath := BuildSelectPathTo(card.t, selectedFile, file);
      SelectPathEnds(card.t, selectedFile, file);
      ValidAt(file);
      var played;
      r, played, data := PlayHops(start, interPath.value);
      at := After(selectedFile, interPath.value, played);
      Overwrite(old(card.current), lchanNr, start, start);
      assert card.current[lchanNr] == After(start, interPath.value, played);
      if r == Done || Reliable() {
        PlayedPath(card.t, card.present, selectedFile, file, start, played);
      }
    }

    /** What was accepted so far has every hop between two of its files. */
    lemma ValidAt(file: File)
      requires card.Valid() && card.t.Linked() && selectedFile in card.granted && file in card.t.parent
      ensures selectedFile in card.present
      ensures file in card.granted ==> forall h :: h in SelectPath(card.t, selectedFile, file) ==> h in card.granted
    {
      hide SelectPath, Tree.Linked;
      if file in card.granted {
        PathIsPresent(card.t, card.granted, selectedFile, file);
      }
    }

    /** On a reliable card the call succeeds exactly if the card has the file, or stops where the hops leave the card. */
    ghost predicate PlayedTo(r: Outcome, start: File, file: File)
      reads this
    {
      && card.t.Linked() && start in card.t.parent && file in card.t.parent
      && (r == Done <==> file in card.present)
      && selectedFile == RunHops(card.present, start, SelectPath(card.t, start, file))
    }

    /**
     `select_file`. Whatever the card refuses, the program's file stays the card's file; against
     a reliable card the call succeeds exactly if the card has the file, against a loyal one at
     least if it accepted the file before.
     */
    method SelectFile(file: File) returns (r: Outcome)
      requires Ready() && file in card.t.parent
      modifies this, card
      ensures Held(old(card.current)) && card.current == old(card.current)[lchanNr := selectedFile]
      ensures fcpHex.Some? ==> fcpHex.value == selectedFile.fcp
      ensures r == Done || r == Refused || (r == CannotStamp && !Reliable())
      ensures r == Done ==> selectedFile == file && FcpExact()
      ensures r == Done ==> fcpHex == if file.fcp == "" then None else Some(file.fcp)
      ensures old(FcpExact()) ==> FcpExact()
      ensures Reliable() ==> PlayedTo(r, old(selectedFile), file)
      ensures Loyal() && file in old(card.granted) ==> r == Done
      ensures old(card.granted) <= card.granted
    {
      hide Held, Ready, Card.Sound, Card.Valid, Tree.Valid, Tree.Linked, AncestorClosed, RunHops, SelectPath,
        LegalRun;
      ReadyHas();
      ghost var before := card.current;
      SelectPathIsLegal(card.t, selectedFile, file);
      var at, data;
      r, at, data := PlayPathTo(file, selectedFile);
      if r == CannotStamp {
        IsHeld(before);
        return;   // raised while building the first command: nothing was sent and nothing is recorded
      }
      SelectPost(at, data);
      IsHeld(before);
    }

    // -------------------------------------------------------------------------------------
    // Probing

    /** The program took the unlisted `id` for a child of `at`, but the card is on a DF beside the current directory. */
    ghost predicate Mistaken(at: File, id: string)
      reads this, card
    {
      && card.t.Linked() && at in card.t.parent
      && id !in TableOf(card.t, at)
      && lchanNr in card.current && BesideCwd(card.t, at, id, card.current[lchanNr])
      && Recordable(card.t, at, id)
      && selectedFile !in card.t.parent && selectedFile.fid == Some(id) && selectedFile.name == Some(DfName(id))
    }

    /** The card, but not the program, is on a DF beside the current directory. */
    ghost predicate LedAside(id: string)
      reads this, card
    {
      && card.Sound() && card.Valid() && selectedFile in card.granted && FcpHolds()
      && card.t.Linked() && selectedFile in card.t.parent && id !in TableOf(card.t, selectedFile)
      && lchanNr in card.current && BesideCwd(card.t, selectedFile, id, card.current[lchanNr])
    }

    /** What a probe comes to on a reliable card. */
    ghost predicate Probed(r: Outcome, at: File, id: string) {
      card.t.Linked() && at in card.t.parent && r == ProbeOutcome(card.t, card.present, at, id)
    }

    /** The end of `probe_file`: a new DF, taken for a child of the selected directory, is what is selected now. */
    method RecordChild(id: string, data: Option<string>)
      requires card.t.Linked() && selectedFile in card.t.parent && lchanNr in card.current && data.Some?
      requires BesideCwd(card.t, selectedFile, id, card.current[lchanNr]) && Recordable(card.t, selectedFile, id)
      requires id !in TableOf(card.t, selectedFile)
      modifies this
      ensures Mistaken(old(selectedFile), id)
      ensures fcpHex == if data.value != "" then data else None
    {
      hide TableOf, BesideCwd, Recordable, Tree.Linked;
      var n := NewId(card.t.parent.Keys);
      SelectPost(File(n, Df, Some(id), None, Some(DfName(id)), "", data.value, true), data);
    }

    /** What the card's answer to a blind SELECT means. */
    lemma ProbedAs(data: Option<string>, at: File, id: string, g: File)
      requires card.Sound() && card.Valid() && card.t.Linked() && at in card.t.parent && IsFid(id)
      requires id !in TableOf(card.t, at) && selectedFile == at && at in card.granted && FcpHolds()
      requires data.None? && card.steady ==>
                 forall h :: h in card.present && InScope(card.t, at, h) ==> h.fid != Some(id)
      requires data.Some? ==>
                 && g in card.present && InScope(card.t, at, g) && g.fid == Some(id)
                 && lchanNr in card.current && card.current[lchanNr] == g
      ensures data.Some? ==> BesideCwd(card.t, at, id, g) && LedAside(id)
      ensures Reliable() ==>
                Probed(if data.None? then Refused else if Recordable(card.t, at, id) then Recorded(at) else Unrecorded,
                       at, id)
    {
      hide FcpExact, TableOf, BesideCwd, Recordable, InScope, Tree.Linked, AncestorClosed, UniqueIds;
      ProbeAnswers(card.t, card.present, at, id);
      if data.Some? {
        ProbeReaches(card.t, at, id, g);
      }
    }

    /**
     `probe_file`: SELECT the identifier blindly. If that reaches a file, it is a DF beside the current directory;
     the program makes up a new DF for it and records that as a child of the selected directory.
     */
    method Probe(id: string) returns (r: Outcome)
      requires Ready() && IsFid(id) && selectedFile in card.t.parent && card.t.Linked()
      requires id !in TableOf(card.t, selectedFile)
      modifies this, card
      ensures r in {Refused, CannotStamp, Unrecorded, Recorded(old(selectedFile))}
      ensures card.Valid() && lchanNr in card.current && old(card.granted) <= card.granted
      ensures card.current == old(card.current)[lchanNr := card.current[lchanNr]]
      ensures !r.Recorded? ==> selectedFile == old(selectedFile) && fcpHex == old(fcpHex)
      ensures r in {Refused, CannotStamp} ==> Coherent()
      ensures r.Recorded? ==> Mistaken(old(selectedFile), id)
      ensures r.Unrecorded? ==> LedAside(id)
      ensures Reliable() ==> Probed(r, old(selectedFile), id)
    {
      hide Ready, Mistaken, LedAside, Probed, FcpExact, FcpHolds, Recordable, Card.Sound, Card.Valid, Tree.Valid,
        Tree.Linked, AncestorClosed, TableOf, BesideCwd, InScope;
      ReadyHas();
      Overwrite(card.current, lchanNr, selectedFile, selectedFile);
      ghost var at := selectedFile;
      if LchanNrToCla(card.cla, lchanNr).None? {
        return CannotStamp;
      }
      var data, g := card.SelectFid(lchanNr, id);
      ProbedAs(data, at, id, g);
      if data.None? {
        return Refused;
      }
      if !Recordable(card.t, selectedFile, id) {
        return Unrecorded;
      }
      r := Recorded(selectedFile);
      RecordChild(id, data);
    }

    /**
     `select_file` of the program's own file, by the `except` branch of `select` after a probe whose result could
     not be recorded, while the card is still on a DF beside the current directory.
     */
    method ComeBack(id: string) returns (r: Outcome)
      requires LedAside(id)
      modifies this, card
      ensures r != Done && !r.Recorded? && Settled(r, old(card.current))
      ensures r.Astray() ==> !Loyal()
      ensures old(FcpExact()) ==> FcpExact()
      ensures Loyal() ==> r == Unrecorded && selectedFile == old(selectedFile)
      ensures old(card.granted) <= card.granted
    {
      hide Card.Sound, Card.Valid, Tree.Valid, Tree.Linked, AncestorClosed, TableOf, RunHops, SelectPath, LegalRun,
        BesideCwd;
      card.GrantedHas(selectedFile);
      card.SoundHas(selectedFile);
      var start := card.current[lchanNr];
      WayBack(card.t, selectedFile, id, start);
      Overwrite(card.current, lchanNr, start, start);
      var at, data;
      r, at, data := PlayPathTo(selectedFile, start);
      if r != CannotStamp {
        SelectPost(at, data);
      }
      if r == Done {
        r := Unrecorded;
      } else if card.current[lchanNr] != selectedFile {
        r := Strayed;
      }
    }

    /** The `except` branches of `select`: select `prev` again, then raise again what was raised. */
    method RollBack(prev: File, raised: Outcome) returns (r: Outcome)
      requires Ready() && prev in card.granted && raised != Done && !raised.Astray()
      modifies this, card
      ensures Held(old(card.current)) && old(card.granted) <= card.granted
      ensures r != Done && !r.Astray()
      ensures old(FcpExact()) ==> FcpExact()
      ensures Loyal() ==> r == raised && selectedFile == prev && FcpExact()
    {
      hide Ready, Held, FcpExact, RunHops, SelectPath, Card.Sound, Card.Valid, Tree.Valid, Tree.Linked,
        AncestorClosed;
      ReadyHas();
      card.SoundHas(prev);
      var again := SelectFile(prev);
      r := if again == Done then raised else again;
    }

    /** `select_file` inside `select`: on failure the previously selected file is selected again. */
    method SelectOrRollBack(file: File) returns (r: Outcome)
      requires Ready() && file in card.t.parent
      modifies this, card
      ensures Held(old(card.current)) && !r.Astray() && old(card.granted) <= card.granted
      ensures Loyal() && r != Done ==> selectedFile == old(selectedFile)
      ensures old(FcpExact()) ==> FcpExact()
      ensures r == Done ==> selectedFile == file && FcpExact()
      ensures Reliable() ==>
                (r, selectedFile) == if file in card.present then (Done, file) else (Refused, old(selectedFile))
    {
      hide Ready, Held, FcpExact, RunHops, SelectPath, Card.Sound, Card.Valid, Tree.Valid, Tree.Linked,
        AncestorClosed;
      ReadyHas();
      var prevSelFile, before := selectedFile, card.current;
      r := SelectFile(file);
      if r != Done {
        HeldIsReady(before);
        BetweenIs(before);
        ghost var between := card.current;
        r := RollBack(prevSelFile, r);
        StillHeld(before, between);
      }
    }

    lemma BetweenIs(before: map<nat, File>)
      requires Held(before)
      ensures lchanNr in card.current && card.current == before[lchanNr := card.current[lchanNr]]
    {
    }

    /** `probe_file` inside `select`: after any failure the previously selected file is selected again. */
    method ProbeOrRollBack(id: string) returns (r: Outcome)
      requires Ready() && IsFid(id) && selectedFile in card.t.parent && card.t.Linked()
      requires id !in TableOf(card.t, selectedFile)
      modifies this, card
      ensures r != Done && Settled(r, old(card.current)) && old(card.granted) <= card.granted
      ensures Loyal() && !r.Recorded? ==> selectedFile == old(selectedFile) && !r.Astray()
      ensures r.Recorded? ==> r == Recorded(old(selectedFile)) && Mistaken(old(selectedFile), id)
      ensures old(FcpExact()) && !r.Astray() ==> FcpExact()
      ensures Reliable() ==> Probed(r, old(selectedFile), id) && (!r.Recorded? ==> selectedFile == old(selectedFile))
    {
      hide Card.Sound, Card.Valid, Tree.Linked, ProbeOutcome, TableOf, BesideCwd, Mistaken, LedAside;
      ReadyHas();
      ghost var before := card.current;
      r := Probe(id);
      ghost var between := card.current;
      if r == Unrecorded {
        r := ComeBack(id);
      } else if !r.Recorded? {
        r := RollBack(selectedFile, r);
      }
      StillHeld(before, between);
    }

    // -------------------------------------------------------------------------------------
    // Names and paths

    /**
     The call to select the elements `names` from `start` ended so: after a success the file they denote is selected;
     on a reliable card outcome and file are those of the walk.
     */
    ghost predicate Answers(r: Outcome, start: File, names: seq<string>)
      reads this
    {
      && card.t.Valid() && start in card.t.parent
      && (r == Done ==> FcpExact() && Resolve(card.t, Seen(), start, names) == Arrived(selectedFile))
      && (Reliable() ==> var w := Resolve(card.t, card.present, start, names);
                         FailsOrArrives(r, w) && (!r.Recorded? ==> selectedFile == EndsAt(w, start)))
    }

    /** The outcome is that of the walk. */
    ghost predicate FailsOrArrives(r: Outcome, w: Walked) {
      card.t.Linked() && (w.NoSuchName? ==> w.at in card.t.parent) && r == OutcomeOf(card.t, card.present, w)
    }

    /** A recorded file was taken for a child of the directory selected then, which it is not. */
    ghost predicate MistakenIf(r: Outcome)
      reads this, card
    {
      r.Recorded? ==> exists id :: Mistaken(r.below, id)
    }

    /** The name was found, and its file was selected or the previous one again. */
    lemma FoundAnswers(r: Outcome, start: File, name: string)
      requires card.t.Valid() && start in card.t.parent && Norm(name) in TableOf(card.t, start) && !r.Astray()
      requires r == Done ==> selectedFile == TableOf(card.t, start)[Norm(name)] && FcpExact()
      requires Reliable() ==>
                 var file := TableOf(card.t, start)[Norm(name)];
                 (r, selectedFile) == if file in card.present then (Done, file) else (Refused, start)
      ensures Answers(r, start, [name]) && MistakenIf(r)
    {
      hide TableOf, Norm, FcpExact, Tree.Valid, Tree.Linked;
      CwdInTree(card.t, start);
      ResolveOne(card.t, Seen(), start, name);
      TableEntryInTree(card.t, start, Norm(name));
    }

    /** The name was not found, and this came of it. */
    lemma NotFoundAnswers(r: Outcome, start: File, name: string)
      requires card.t.Valid() && start in card.t.parent && Norm(name) !in TableOf(card.t, start) && r != Done
      requires Reliable() ==> Probed(r, start, Norm(name)) && (!r.Recorded? ==> selectedFile == start)
      ensures Answers(r, start, [name])
    {
      hide TableOf, Norm, FcpExact, Tree.Valid, Tree.Linked, ProbeOutcome;
      ResolveOne(card.t, Seen(), start, name);
    }

    lemma MistakenIn(r: Outcome, at: File, id: string)
      requires r.Recorded? ==> r == Recorded(at) && Mistaken(at, id)
      ensures MistakenIf(r)
    {
    }

    lemma UnknownProbed(at: File, id: string)
      requires card.t.Linked() && at in card.t.parent && !IsFid(id)
      ensures Probed(Unknown, at, id)
    {
    }

    ghost predicate Unlisted(at: File, name: string) {
      card.t.Linked() && at in card.t.parent && Norm(name) !in TableOf(card.t, at)
    }

    /** `select` with a name that is not a path. */
    method SelectName(name: string) returns (r: Outcome)
      requires Ready()
      modifies this, card
      ensures Settled(r, old(card.current)) && MistakenIf(r)
      ensures old(FcpExact()) && !r.Astray() ==> FcpExact()
      ensures Answers(r, old(selectedFile), [name])
      ensures r.Astray() ==> IsFid(Norm(name)) && Unlisted(old(selectedFile), name)
      ensures Loyal() && r != Done && !r.Recorded? ==> selectedFile == old(selectedFile) && !r.Astray()
      ensures old(card.granted) <= card.granted
    {
      hide Ready, Held, Settled, Answers, Mistaken, MistakenIf, Probed, FcpExact, Norm, TableOf, IsFid, Card.Sound,
        Card.Valid, Tree.Valid, Tree.Linked, AncestorClosed;
      ReadyHas();
      var id := Norm(name);
      ghost var start, before := selectedFile, card.current;
      if id in TableOf(card.t, selectedFile) {
        TableEntryInTree(card.t, selectedFile, id);
        r := SelectOrRollBack(TableOf(card.t, selectedFile)[id]);
        HeldIsSettled(r, before);
        FoundAnswers(r, start, name);
      } else if IsFid(id) {
        r := ProbeOrRollBack(id);
        MistakenIn(r, start, id);
        NotFoundAnswers(r, start, name);
      } else {
        UnknownProbed(selectedFile, id);
        r := RollBack(selectedFile, Unknown);
        HeldIsSettled(r, before);
        MistakenIn(r, start, id);
        NotFoundAnswers(r, start, name);
      }
    }

    /** The first `i` elements of a path were selected, starting from `start`. */
    ghost predicate Walking(names: seq<string>, i: nat, start: File, before: map<nat, File>)
      reads this, card
      requires i <= |names|
    {
      && card.t.Valid() && start in card.t.parent && selectedFile in card.t.parent
      && Ready() && Held(before)
      && (i > 0 ==> FcpExact())
      && Resolve(card.t, Seen(), start, names) == Resolve(card.t, Seen(), selectedFile, names[i..])
    }

    /** The walk does not arrive, and this is its outcome. */
    ghost predicate FailsWith(r: Outcome, start: File, names: seq<string>) {
      && card.t.Valid() && start in card.t.parent
      && !Resolve(card.t, card.present, start, names).Arrived?
      && FailsOrArrives(r, Resolve(card.t, card.present, start, names))
    }

    /** One round of the loop below. */
    method SelectElement(names: seq<string>, i: nat, ghost start: File, ghost before: map<nat, File>)
      returns (r: Outcome)
      requires i < |names| && Walking(names, i, start, before)
      modifies this, card
      ensures Settled(r, before) && MistakenIf(r)
      ensures r == Done ==> Walking(names, i + 1, start, before)
      ensures old(FcpExact()) && !r.Astray() ==> FcpExact()
      ensures Reliable() && r != Done ==> FailsWith(r, start, names)
      ensures r.Astray() ==> MayProbe(names)
      ensures Loyal() ==> !r.Strayed?
      ensures old(card.granted) <= card.granted
    {
      hide Ready, Walking, Settled, MistakenIf, FcpExact, FailsWith, Answers, MayProbe, IsFid, Norm, Card.Sound,
        Card.Valid, Tree.Valid, Tree.Linked;
      WalkingHas(names, i, start, before);
      ghost var from, between := selectedFile, card.current;
      r := SelectName(names[i]);
      StillHeld(before, between);
      ElementDone(r, names, i, start, from, before);
      if r.Astray() {
        ElementMayProbe(names, i);
      }
    }

    lemma WalkingHas(names: seq<string>, i: nat, start: File, before: map<nat, File>)
      requires i <= |names| && Walking(names, i, start, before)
      ensures Ready() && card.Sound() && start in card.t.parent && selectedFile in card.t.parent && card.t.Valid()
      ensures lchanNr in card.current && card.current == before[lchanNr := card.current[lchanNr]]
      ensures Resolve(card.t, Seen(), start, names) == Resolve(card.t, Seen(), selectedFile, names[i..])
    {
    }

    /** What one more element means for the walk. */
    lemma ElementDone(r: Outcome, names: seq<string>, i: nat, start: File, from: File, before: map<nat, File>)
      requires card.Sound() && card.t.Valid() && i < |names| && start in card.t.parent && from in card.t.parent
      requires Resolve(card.t, Seen(), start, names) == Resolve(card.t, Seen(), from, names[i..])
      requires Settled(r, before) && Answers(r, from, [names[i]])
      ensures r == Done ==> Walking(names, i + 1, start, before)
      ensures Reliable() && r != Done ==> FailsWith(r, start, names)
    {
      hide Card.Sound, Card.Valid, Tree.Valid, Tree.Linked, FcpExact, OutcomeOf, ProbeOutcome;
      OneFurther(card.t, Seen(), from, names, i);
      if r == Done {
        DoneIsHeld(before);
      } else if Reliable() {
        NotDone(r, Resolve(card.t, card.present, from, [names[i]]));
      }
    }

    lemma DoneIsHeld(before: map<nat, File>)
      requires card.Sound() && Settled(Done, before)
      ensures Ready() && Held(before)
    {
      hide Card.Sound, Card.Valid, FcpExact;
    }

    lemma NotDone(r: Outcome, w: Walked)
      requires FailsOrArrives(r, w) && r != Done
      ensures !w.Arrived?
    {
    }

    /** The loop of `select` over the elements of a path; it stops at the first that fails. */
    method SelectElements(names: seq<string>) returns (r: Outcome)
      requires Ready() && names != []
      modifies this, card
      ensures Settled(r, old(card.current)) && MistakenIf(r)
      ensures old(FcpExact()) && !r.Astray() ==> FcpExact()
      ensures r == Done ==> Answers(r, old(selectedFile), names)
      ensures Reliable() && r != Done ==> FailsWith(r, old(selectedFile), names)
      ensures r.Astray() ==> MayProbe(names)
      ensures Loyal() ==> !r.Strayed?
      ensures old(card.granted) <= card.granted
    {
      hide Ready, Settled, MistakenIf, FcpExact, FailsWith, Walking, MayProbe;
      ghost var start, before := selectedFile, card.current;
      WalkStarts(names);
      var i := 0;
      r := Done;
      while i < |names|
        invariant i <= |names| && r == Done
        invariant Walking(names, i, start, before)
        invariant old(FcpExact()) ==> FcpExact()
        invariant old(card.granted) <= card.granted
      {
        r := SelectElement(names, i, start, before);
        if r != Done {
          return;
        }
        i := i + 1;
      }
      WalkEnds(names, start, before);
    }

    lemma WalkStarts(names: seq<string>)
      requires Ready()
      ensures Walking(names, 0, selectedFile, card.current)
    {
      ReadyHas();
      assert names[0..] == names;
    }

    lemma WalkAnswers(start: File, names: seq<string>)
      requires card.t.Valid() && start in card.t.parent && selectedFile in card.t.parent && FcpExact()
      requires Resolve(card.t, Seen(), start, names) == Resolve(card.t, Seen(), selectedFile, [])
      ensures Answers(Done, start, names)
    {
      hide Tree.Linked, FcpExact;
    }

    lemma WalkEnds(names: seq<string>, start: File, before: map<nat, File>)
      requires names != [] && Walking(names, |names|, start, before)
      ensures Settled(Done, before) && MistakenIf(Done) && Answers(Done, start, names)
    {
      hide Held, Settled, Answers, Card.Sound, Card.Valid, Tree.Valid, Tree.Linked, FcpExact, AncestorClosed;
      assert names[|names|..] == [];
      ReadyHas();
      HeldIsSettled(Done, before);
      WalkAnswers(start, names);
    }

    /** The branch of `select` for slash paths. */
    method SelectPathOrRollBack(names: seq<string>) returns (r: Outcome)
      requires Ready() && names != []
      modifies this, card
      ensures Settled(r, old(card.current)) && MistakenIf(r)
      ensures old(FcpExact()) && !r.Astray() ==> FcpExact()
      ensures Answers(r, old(selectedFile), names)
      ensures r.Astray() ==> MayProbe(names)
      ensures Loyal() && r != Done && !r.Recorded? ==> selectedFile == old(selectedFile)
      ensures Loyal() ==> !r.Strayed?
      ensures old(card.granted) <= card.granted
    {
      hide Ready, Held, Settled, MistakenIf, FcpExact, FailsWith, Answers, MayProbe, Card.Sound, Card.Valid,
        Tree.Valid, Tree.Linked, AncestorClosed;
      ReadyHas();
      var prevSelFile := selectedFile;
      ghost var before := card.current;
      r := SelectElements(names);
      if r != Done {
        SettledHas(r, before);
        if !r.Astray() {
          ghost var raised, between := r, card.current;
          r := RollBack(prevSelFile, r);
          StillHeld(before, between);
          HeldIsSettled(r, before);
          RolledBack(raised, r, prevSelFile, names);
        } else {
          WentAstray(r, prevSelFile, names);
        }
      }
    }

    lemma SettledHas(r: Outcome, before: map<nat, File>)
      requires card.Sound() && Settled(r, before)
      ensures lchanNr in card.current && card.current == before[lchanNr := card.current[lchanNr]]
      ensures !r.Astray() ==> Ready()
    {
    }

    lemma RolledBack(raised: Outcome, r: Outcome, start: File, names: seq<string>)
      requires card.t.Valid() && start in card.t.parent && r != Done && !r.Astray()
      requires Reliable() ==> FailsWith(raised, start, names) && r == raised && selectedFile == start
      ensures Answers(r, start, names) && MistakenIf(r)
    {
    }

    lemma WentAstray(r: Outcome, start: File, names: seq<string>)
      requires card.t.Valid() && start in card.t.parent && r.Astray()
      requires Reliable() ==> FailsWith(r, start, names)
      ensures Answers(r, start, names)
    {
      hide Tree.Valid, Tree.Linked, ProbeOutcome, OutcomeOf, FailsOrArrives, Resolve, FcpExact;
      if Reliable() {
        NotRecordedIsStart(r, start, names);
      }
    }

    lemma NotRecordedIsStart(r: Outcome, start: File, names: seq<string>)
      requires r.Astray() && FailsWith(r, start, names)
      ensures r.Recorded?
    {
    }

    /** A path that starts with a slash, in a tree with an MF of that name. */
    ghost predicate AbsoluteFrom(name: string) {
      name != "" && name[0] == '/' && card.t.mf.name == Some("MF") && NotAnApp(card.t, "MF")
    }

    /**
     The call to select `q` behind a slash ended so: outcome and file are those of the walk along its parts from the MF,
     wherever the call started. Only a failure has to do with `start`, which is selected again.
     */
    ghost predicate AnswersFromMf(r: Outcome, start: File, q: string)
      reads this
    {
      && card.t.Valid() && card.t.mf in card.t.parent
      && (r == Done ==> Resolve(card.t, Seen(), card.t.mf, Split(q)) == Arrived(selectedFile))
      && (Reliable() ==> var w := Resolve(card.t, card.present, card.t.mf, Split(q));
                         FailsOrArrives(r, w) && (!r.Recorded? ==> selectedFile == EndsAt(w, start)))
    }

    lemma FromMf(r: Outcome, start: File, name: string)
      requires AbsoluteFrom(name) && Answers(r, start, PathElements(name))
      requires card.t.Valid() && card.t.mf in card.present && start in card.t.parent
      ensures AnswersFromMf(r, start, name[1..])
    {
      hide Resolve, PathElements, Split, Tree.Valid, Tree.Linked, NotAnApp, FcpExact, FailsOrArrives;
      MfIsSeen();
      assert name == "/" + name[1..];
      AbsolutePath(card.t, Seen(), start, name[1..]);
      AbsolutePath(card.t, card.present, start, name[1..]);
    }

    lemma MfIsSeen()
      requires card.t.Valid() && card.t.mf in card.present
      ensures card.t.mf in Seen()
    {
    }

    lemma DoneIsExact(r: Outcome, start: File, names: seq<string>)
      requires Answers(r, start, names)
      ensures r == Done ==> fcpHex == if selectedFile.fcp == "" then None else Some(selectedFile.fcp)
    {
    }

    /**
     `select` with a name or a slash path. Whatever the card refuses, the program's file stays
     the card's file, unless a probe goes wrong. A successful call ends on the file the elements
     denote. Against a loyal card a failure leaves the file selected that was selected before, in
     the program and on the card. Against a reliable card the call succeeds exactly if every
     element denotes a file the card has; and they are left apart exactly if some element is an
     identifier that is not selectable, a DF beside the current directory has it, and it can be
     recorded. What a path with a slash in front comes to does not depend on what is selected.
     */
    method Select(name: string) returns (r: Outcome)
      requires Ready()
      modifies this, card
      ensures Settled(r, old(card.current)) && MistakenIf(r)
      ensures old(FcpExact()) && !r.Astray() ==> FcpExact()
      ensures Answers(r, old(selectedFile), PathElements(name))
      ensures r == Done ==> fcpHex == if selectedFile.fcp == "" then None else Some(selectedFile.fcp)
      ensures || r.Recorded? || r.Strayed?
              || (card.current == old(card.current)[lchanNr := selectedFile]
                  && (fcpHex.Some? ==> fcpHex.value == selectedFile.fcp))
      ensures AbsoluteFrom(name) ==> AnswersFromMf(r, old(selectedFile), name[1..])
      ensures r.Astray() ==> MayProbe(PathElements(name)) && ('/' !in name ==> Unlisted(old(selectedFile), name))
      ensures Loyal() && r != Done && !r.Recorded? ==> selectedFile == old(selectedFile) && !r.Strayed?
      ensures old(card.granted) <= card.granted
    {
      hide Ready, Settled, MistakenIf, FcpExact, Answers, AnswersFromMf, MayProbe, IsFid, Norm, PathElements;
      ReadyHas();
      ghost var start, before := selectedFile, card.current;
      if '/' in name {
        r := SelectPathOrRollBack(PathElements(name));
      } else {
        PlainElements(name);
        r := SelectName(name);
        if r.Astray() {
          ElementMayProbe([name], 0);
        }
      }
      DoneIsExact(r, start, PathElements(name));
      SettledIsHeld(r, before);
      if AbsoluteFrom(name) {
        FromMf(r, start, name);
      }
    }

    /** `get_file_by_name`, which starts in the current directory and leaves the card alone. */
    method GetFileByName(name: string) returns (file: Option<File>)
      requires card.t.Valid() && selectedFile in card.t.parent
      ensures Cwd(card.t, selectedFile) in card.t.parent
      ensures file == Follow(card.t, Cwd(card.t, selectedFile), PathElements(name))
      ensures AbsoluteFrom(name) ==> card.t.mf in card.t.parent && file == Follow(card.t, card.t.mf, Split(name[1..]))
    {
      hide Tree.Valid, Tree.Linked, Cwd, Lookup, Follow, PathElements, Split, NotAnApp;
      var pathlist := PathElements(name);
      CwdInTree(card.t, selectedFile);
      if AbsoluteFrom(name) {
        assert name == "/" + name[1..];
        AbsolutePath(card.t, {card.t.mf}, Cwd(card.t, selectedFile), name[1..]);
      }
      var at := Cwd(card.t, selectedFile);
      ghost var start := at;
      var i := 0;
      assert pathlist[0..] == pathlist;
      while i < |pathlist|
        invariant i <= |pathlist| && at in card.t.parent
        invariant Follow(card.t, start, pathlist) == Follow(card.t, at, pathlist[i..])
      {
        FollowHead(card.t, at, pathlist[i..]);
        assert pathlist[i..][0] == pathlist[i] && pathlist[i..][1..] == pathlist[i + 1..];
        var next := Lookup(card.t, at, pathlist[i]);
        if next.None? {
          return None;
        }
        at := next.value;
        i := i + 1;
      }
      assert pathlist[i..] == [];
      FollowNothing(card.t, at);
      file := Some(at);
    }

    /** From any file the name `MF` leads to the MF, in one hop. */
    method PathToMf() returns (f: File)
      requires card.t.Valid() && selectedFile in card.t.parent
      requires card.t.mf.name == Some("MF") && NotAnApp(card.t, "MF")
      ensures f == card.t.mf && LegalHop(card.t, f, f) && f.fid.Some?
    {
      var t := card.t;
      assert t.DownOk(selectedFile) && t.UpOk(t.mf);
      MfByName(t, selectedFile);
      var interPath := BuildSelectPathTo(t, selectedFile, TableOf(t, selectedFile)["MF"]);
      MfIsLegal(t, t.mf);
      f := interPath.value[0];
    }

    /**
     `select('MF')` right after a card reset, when the program's file is still the one from
     before the reset: the path to the MF does not depend on it, so one SELECT restores coherence.
     If even that SELECT is refused the call fails with the program's file unchanged.
     */
    method SelectMfAfterReset() returns (r: Outcome)
      requires card.Sound() && card.Valid() && lchanNr in card.current && card.current[lchanNr] == card.t.mf
      requires selectedFile in card.present && card.t.mf.name == Some("MF") && NotAnApp(card.t, "MF")
      modifies this, card
      ensures card.Valid() && card.current == old(card.current) && old(card.granted) <= card.granted
      ensures r == Done ==> Coherent() && FcpExact() && selectedFile == card.t.mf
      ensures r != Done ==> selectedFile == old(selectedFile)
      ensures Loyal() ==> r == Done
    {
      hide Card.Sound, Card.Valid, Tree.Valid, Tree.Linked, AncestorClosed, NotAnApp, LegalHop;
      card.SoundHas(selectedFile);
      card.ValidHas(lchanNr);
      var f := PathToMf();
      Overwrite(card.current, lchanNr, f, f);
      var answer := Hop(f, f);
      if answer.Err? {
        return answer.error;
      }
      SelectPost(f, Some(answer.value));
      r := Done;
    }
  }
}
