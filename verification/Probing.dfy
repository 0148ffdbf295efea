/**
 What `probe_file` meets: with an identifier that is not selectable it sends a SELECT all the same, and records what
 that reaches as a child of the selected directory.
 */
module Probing {
  import opened Text
  import opened Wrappers
  import opened CardFiles
  import opened FileTree
  import opened SelectPaths
  import opened Selectables
  import opened Names

  /** `g` is a DF beside the current directory of `at` and answers to `id`. */
  predicate BesideCwd(t: Tree, at: File, id: string, g: File)
    requires t.Linked() && at in t.parent
  {
    Cwd(t, at) in t.parent && g.kind == Df && g.fid == Some(id) && g in t.Kids(t.parent[Cwd(t, at)])
  }

  ghost predicate AnyBesideCwd(t: Tree, present: set<File>, at: File, id: string)
    requires t.Linked() && at in t.parent
  {
    exists g :: g in present && BesideCwd(t, at, id, g)
  }

  /** The name `probe_file` gives a DF it has found. */
  function DfName(id: string): string {
    "DF." + Upper(id)
  }

  /** Whether `add_file` takes what was found as a child: there must be a directory, free of its name. */
  predicate Recordable(t: Tree, at: File, id: string)
    requires t.Linked() && at in t.parent
  {
    at.IsDir() && id !in RESERVED_FIDS && forall c :: c in t.Kids(at) ==> c.name != Some(DfName(id))
  }

  /** From every file the MF, the current directory, its parent and its children are selectable by FID. */
  lemma ScopeIsSelectable(t: Tree, at: File, g: File)
    requires t.Valid() && at in t.parent && g.fid.Some?
    requires var d := Cwd(t, at); d in t.parent && (g == t.mf || g == d || g == t.parent[d] || g in t.Kids(d))
    ensures g.fid.value in TableOf(t, at)
  {
    if at.IsDir() {
      SelectableByFid(t, at, g);
    } else {
      EfSelectsByFid(t, at, g);
    }
  }

  lemma EfSelectsByFid(t: Tree, at: File, g: File)
    requires t.Valid() && at in t.parent && at.kind == Ef && g.fid.Some?
    requires var d := t.parent[at]; d in t.parent && (g == t.mf || g == d || g == t.parent[d] || g in t.Kids(d))
    ensures g.fid.value in TableOf(t, at)
  {
    var fid, d := g.fid.value, t.parent[at];
    assert t.UpOk(at);
    if g in t.Kids(d) && g != at {
      WithoutKeepsOthers(t.Kids(d), at);
      FidIsListed(Listed(t, at), g);
      assert fid in LowerTable(t, at);
    } else if g == t.mf {
      assert fid in SelfTable(t.mf, None);
    } else if g == at {
      assert fid in SelfTable(at, Some("."));
    } else {
      assert fid in ParentTable(t, at, Some(".."));
    }
  }

  /**
   An identifier that is not selectable reaches a file by SELECT if and only if that file is a DF beside the current
   directory. It is never in that directory, where `probe_file` records it.
   */
  lemma ProbeReaches(t: Tree, at: File, id: string, g: File)
    requires t.Valid() && at in t.parent && id !in TableOf(t, at)
    ensures g.fid == Some(id) ==> (InScope(t, at, g) <==> BesideCwd(t, at, id, g))
    ensures BesideCwd(t, at, id, g) ==>
              g in t.parent && t.parent[g] == t.parent[Cwd(t, at)] && t.parent[g] != Cwd(t, at) && Cwd(t, at) != t.mf
  {
    hide TableOf;
    var d := Cwd(t, at);
    assert t.UpOk(at) && t.UpOk(d) && t.DownOk(t.parent[d]);
    if g.fid == Some(id) {
      if g == t.mf || g == d || g == t.parent[d] || g in t.Kids(d) {
        ScopeIsSelectable(t, at, g);
      }
      if BesideCwd(t, at, id, g) {
        assert t.ChildOk(t.parent[d], g);
      }
    }
  }

  /** So some file of the card answers exactly if it has such a DF. */
  lemma ProbeAnswers(t: Tree, present: set<File>, at: File, id: string)
    requires t.Valid() && at in t.parent && id !in TableOf(t, at)
    ensures (exists g :: g in present && InScope(t, at, g) && g.fid == Some(id)) <==> AnyBesideCwd(t, present, at, id)
  {
    forall g | g in present
      ensures InScope(t, at, g) && g.fid == Some(id) <==> BesideCwd(t, at, id, g)
    {
      ProbeReaches(t, at, id, g);
    }
  }

  lemma ClipOfTwo(d: File, f: File)
    ensures Clip([d, f]) == if f.kind == Adf then [f] else [d, f]
  {
    var p := [d, f];
    assert p[1..] == [f] && [f][1..] == [];
    assert HasAdf([f]) <==> f.kind == Adf by { assert [f][0] == f; }
  }

  /** The hops from a file to itself: up to its directory and down again. */
  lemma HopsToSelf(t: Tree, f: File)
    requires t.Linked() && f in t.parent && f != t.mf
    ensures Hops(t, f, f) == [t.parent[f], f]
  {
    var d := t.parent[f];
    NotAboveItself(t, f);
    assert t.Above(d, d) && t.Above(d, f);
    assert Meet(t, f, f) == d;
    assert Up(t, f, d) == [d] + Up(t, d, d) && Up(t, d, d) == [];
    assert f != d;
    assert Down(t, d, f) == Down(t, d, d) + [f] && Down(t, d, d) == [];
  }

  /** The path from a file to itself leaves the way up out if the file is an ADF. */
  lemma PathToSelf(t: Tree, f: File)
    requires t.Linked() && f in t.parent && f != t.mf
    ensures SelectPath(t, f, f) == if f.kind == Adf then [f] else [t.parent[f], f]
  {
    hide Hops, Clip, Tree.Linked;
    HopsToSelf(t, f);
    ClipOfTwo(t.parent[f], f);
  }

  /** From a DF beside the current directory of `at` the card resolves the first hop back to `at`. */
  lemma FirstHopBack(t: Tree, at: File, id: string, g: File)
    requires t.Valid() && at in t.parent && id !in TableOf(t, at) && BesideCwd(t, at, id, g)
    ensures at != t.mf && (if at.kind == Adf then LegalHop(t, g, at) else LegalHop(t, g, t.parent[at]))
  {
    hide Tree.Linked, TableOf;
    ProbeReaches(t, at, id, g);
    var d := Cwd(t, at);
    assert t.UpOk(at) && t.UpOk(d);
    if at.kind == Ef {
      assert d.kind == Df ==> d in t.Kids(t.parent[d]);
    } else {
      ParentIsLegal(t, g);
    }
  }

  /** A card that was led to a DF beside the current directory can go the path back from there. */
  lemma WayBack(t: Tree, at: File, id: string, g: File)
    requires t.Valid() && at in t.parent && id !in TableOf(t, at) && BesideCwd(t, at, id, g)
    ensures at != t.mf && LegalRun(t, g, SelectPath(t, at, at))
  {
    hide TableOf, SelectPath, LegalHop, BesideCwd, Tree.Linked;
    FirstHopBack(t, at, id, g);
    ChildIsLegal(t, at);
    PathToSelf(t, at);
    var p := SelectPath(t, at, at);
    if at.kind == Adf {
      assert p[1..] == [];
    } else {
      assert p[1..] == [at] && [at][1..] == [];
      assert LegalRun(t, t.parent[at], [at]);
    }
  }
}
