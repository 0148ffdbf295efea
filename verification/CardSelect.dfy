/**
 The card as a second state machine: a fixed set of files, closed under "parent of", and one
 current file for every open logical channel, moved by SELECT as section 8.4.1 of ETSI
 TS 102 221 describes. A refused SELECT changes nothing.
 */
module CardSelect {
  import opened Bytes
  import opened Wrappers
  import opened CardFiles
  import opened FileTree
  import opened SelectPaths

  /** Within the scope of one SELECT no two files answer to the same identifier. */
  ghost predicate UniqueIds(t: Tree) {
    && (forall f, g, h {:trigger InScope(t, f, g), InScope(t, f, h)} :: InScope(t, f, g) && InScope(t, f, h) ==>
            g.fid.None? || g.fid != h.fid || g == h)
    && (forall g, h {:trigger SameAid(g, h)} :: g in t.parent && h in t.parent && SameAid(g, h) ==> g == h)
  }

  predicate SameAid(g: File, h: File) {
    g.kind == Adf && h.kind == Adf && g.aid == h.aid
  }

  /** A set of files that contains the MF and, with every file, its parent. */
  ghost predicate AncestorClosed(t: Tree, present: set<File>) {
    && t.mf in present
    && (forall f :: f in present ==> f in t.parent)
    && (forall f {:trigger t.parent[f]} :: f in present ==> t.parent[f] in present)
  }

  /** A file and everything above it. */
  function Upwards(t: Tree, f: File): (r: set<File>)
    requires t.Linked() && f in t.parent
    ensures f in r
    decreases t.rank[f]
  {
    if f == t.mf then {f} else {f} + Upwards(t, t.parent[f])
  }

  lemma {:induction false} UpwardsIsClosed(t: Tree, f: File)
    requires t.Linked() && f in t.parent
    ensures AncestorClosed(t, Upwards(t, f))
    decreases t.rank[f]
  {
    hide Tree.Linked;
    OneUp(t, f);
    if f != t.mf {
      UpwardsIsClosed(t, t.parent[f]);
    }
  }

  lemma {:induction false} UpwardsIsWithin(t: Tree, within: set<File>, f: File)
    requires t.Linked() && AncestorClosed(t, within) && f in within
    ensures Upwards(t, f) <= within
    decreases t.rank[f]
  {
    hide Tree.Linked;
    OneUp(t, f);
    if f != t.mf {
      UpwardsIsWithin(t, within, t.parent[f]);
    }
  }

  /**
   A *steady* card obeys every SELECT of a file it has. A *loyal* one may refuse, but not what it has accepted once, nor
   what is above that. Any other card may refuse any SELECT at any time.
   */
  class Card {
    const t: Tree
    const present: set<File>
    const cla: byte                    // class byte commands are built with before stamping
    const steady: bool
    const loyal: bool
    var current: map<nat, File>        // current file of each open channel
    var granted: set<File>             // what was accepted so far, with everything above

    constructor (t: Tree, present: set<File>, cla: byte, steady: bool, loyal: bool)
      requires t.Valid() && UniqueIds(t) && AncestorClosed(t, present)
      ensures Valid() && current == map[0 := t.mf]
      ensures Sound()
      ensures this.t == t && this.present == present && this.cla == cla && this.steady == steady && this.loyal == loyal
    {
      hide Tree.Valid, Tree.Linked, UniqueIds, AncestorClosed;
      this.t := t;
      this.present := present;
      this.cla := cla;
      this.steady, this.loyal := steady, loyal;
      current := map[0 := t.mf];
      granted := {t.mf};
      new;
      TreeIsLinked(t);
      MfAlone(t, present);
    }

    /** What holds of the constant part. */
    ghost predicate Sound() {
      t.Valid() && UniqueIds(t) && AncestorClosed(t, present)
    }

    lemma SoundHas(f: File)
      requires Sound() && f in present
      ensures t.Valid() && t.Linked() && UniqueIds(t) && AncestorClosed(t, present)
      ensures f in t.parent && t.mf in t.parent && t.mf in present
    {
    }

    ghost predicate Valid()
      reads this
    {
      && granted <= present && AncestorClosed(t, granted)
      && forall ch :: ch in current ==> current[ch] in granted
    }

    lemma ValidHas(ch: nat)
      requires Valid() && ch in current
      ensures granted <= present && AncestorClosed(t, granted) && current[ch] in granted && current[ch] in present
    {
    }

    lemma GrantedHas(f: File)
      requires Valid() && f in granted
      ensures f in present && AncestorClosed(t, granted)
    {
    }

    /** Whether a SELECT of `f`, if it could be obeyed, must be. */
    predicate Obeys(f: File)
      reads this
    {
      steady || (loyal && f in granted)
    }

    method MakeCurrent(ch: nat, f: File)
      requires Sound() && Valid() && f in present
      modifies this
      ensures Valid() && current == old(current)[ch := f] && old(granted) <= granted && f in granted
    {
      hide Tree.Valid, Tree.Linked, UniqueIds, AncestorClosed, Upwards;
      SoundHas(f);
      UpwardsIsClosed(t, f);
      UpwardsIsWithin(t, present, f);
      BothAreClosed(t, granted, Upwards(t, f));
      current := current[ch := f];
      granted := granted + Upwards(t, f);
    }

    /** SELECT by file identifier; the answer is the FCP of the file found. */
    method SelectFid(ch: nat, fid: string) returns (r: Option<string>, ghost g: File)
      requires Sound() && Valid() && ch in current
      modifies this
      ensures Valid() && old(granted) <= granted
      ensures r.None? ==> current == old(current) && granted == old(granted)
      ensures r.None? ==>
                forall h :: h in present && InScope(t, old(current[ch]), h) && old(Obeys(h)) ==> h.fid != Some(fid)
      ensures r.Some? ==> current == old(current)[ch := g] && g in granted && g in present && r.value == g.fcp
      ensures r.Some? ==> InScope(t, old(current[ch]), g) && g.fid == Some(fid)
    {
      hide Tree.Valid, InScope, Upwards;
      var refuses: bool := *;
      if f: File :| f in present && InScope(t, current[ch], f) && f.fid == Some(fid) {
        if !Obeys(f) && refuses {
          return None, f;
        }
        MakeCurrent(ch, f);
        return Some(f.fcp), f;
      }
      return None, current[ch];
    }

    /** SELECT by application identifier, possible from anywhere. */
    method SelectAid(ch: nat, aid: string) returns (r: Option<string>, ghost g: File)
      requires Sound() && Valid() && ch in current
      modifies this
      ensures Valid() && old(granted) <= granted
      ensures r.None? ==> current == old(current) && granted == old(granted)
      ensures r.None? ==> forall h :: h in present && h.kind == Adf && old(Obeys(h)) ==> h.aid != aid
      ensures r.Some? ==> current == old(current)[ch := g] && g in granted && g in present && r.value == g.fcp
      ensures r.Some? ==> g.kind == Adf && g.aid == aid
    {
      hide Tree.Valid, Upwards;
      var refuses: bool := *;
      if f: File :| f in present && f.kind == Adf && f.aid == aid {
        if !Obeys(f) && refuses {
          forall h | h in present && h.kind == Adf && h.aid == aid
            ensures h == f
          {
            assert SameAid(h, f);
          }
          return None, f;
        }
        MakeCurrent(ch, f);
        return Some(f.fcp), f;
      }
      return None, current[ch];
    }

    /** MANAGE CHANNEL (open), table 8.3 of ETSI TS 102 221: a non-basic channel passes its directory on. */
    method OpenChannel(from: nat, ch: nat) returns (ok: bool)
      requires Sound() && Valid() && from in current
      modifies this
      ensures Valid() && old(granted) <= granted
      ensures ok ==> ch !in old(current)
      ensures old(current[from]) in t.parent
      ensures ok ==> current == old(current)[ch := if from == 0 then t.mf else Cwd(t, old(current[from]))]
      ensures !ok ==> current == old(current)
    {
      var refuses: bool := *;
      if ch in current || refuses {
        return false;
      }
      MakeCurrent(ch, if from == 0 then t.mf else Cwd(t, current[from]));
      return true;
    }

    /** MANAGE CHANNEL (close); the basic channel cannot be closed. */
    method CloseChannel(ch: nat) returns (ok: bool)
      requires Sound() && Valid()
      modifies this`current
      ensures Valid()
      ensures ok ==> ch != 0 && ch in old(current) && current == old(current) - {ch}
      ensures !ok ==> current == old(current)
    {
      hide Sound, AncestorClosed;
      var refuses: bool := *;
      if ch == 0 || ch !in current || refuses {
        return false;
      }
      current := current - {ch};
      return true;
    }

    /** A reset closes every channel but the basic one, on which the MF becomes current. */
    method Reset()
      requires Sound() && Valid()
      modifies this`current
      ensures Valid() && current == map[0 := t.mf]
    {
      hide Sound, Tree.Valid, UniqueIds;
      current := map[0 := t.mf];
    }
  }

  lemma TreeIsLinked(t: Tree)
    requires t.Valid()
    ensures t.Linked()
  {
  }

  lemma BothAreClosed(t: Tree, a: set<File>, b: set<File>)
    requires AncestorClosed(t, a) && AncestorClosed(t, b)
    ensures AncestorClosed(t, a + b)
  {
  }

  lemma MfAlone(t: Tree, present: set<File>)
    requires t.Linked() && AncestorClosed(t, present)
    ensures AncestorClosed(t, {t.mf}) && {t.mf} <= present
  {
    hide Tree.Linked;
    OneUp(t, t.mf);
  }
}
