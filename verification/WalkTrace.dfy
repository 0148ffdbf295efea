/**
 What `PySimCommands.__walk` is to do: run its action once on every named file it can reach,
 and skip the DFs the card does not have. `Trace` is the walk as a recursive function;
 `Expected` says, from a file upwards, which events it must contain.
 */
module WalkTrace {
  import opened CardFiles
  import opened FileTree
  import opened SelectPaths

  datatype Visit = Acted(file: File) | Skipped(file: File)

  function Named(files: seq<File>): (r: seq<File>)
    ensures forall f :: f in r <==> f in files && f.name.Some?
  {
    if files == [] then []
    else if files[0].name.Some? then [files[0]] + Named(files[1..])
    else Named(files[1..])
  }

  /** `get_selectables` with the flags FNAMES and ANAMES: named children, then named applications. */
  function Entries(t: Tree, d: File): seq<File> {
    Named(t.Kids(d)) + (if d.kind == Mf then Named(t.apps) else [])
  }

  ghost predicate EntriesOf(t: Tree, d: File, es: seq<File>)
    requires t.Linked()
  {
    forall e :: e in es ==> e in t.parent && e != t.mf && t.parent[e] == d
  }

  lemma EntriesBelow(t: Tree, d: File)
    requires t.Valid() && d in t.parent
    ensures EntriesOf(t, d, Entries(t, d))
    ensures forall f :: f in t.parent && f != t.mf && f.name.Some? && t.parent[f] == d ==> f in Entries(t, d)
  {
    assert t.UpOk(d) && t.DownOk(d);
    forall e | e in Entries(t, d)
      ensures e in t.parent && e != t.mf && t.parent[e] == d
    {
      if e in t.Kids(d) {
        assert t.ChildOk(d, e);
      } else {
        assert t.UpOk(e);
      }
    }
    forall f | f in t.parent && f != t.mf && f.name.Some? && t.parent[f] == d
      ensures f in Entries(t, d)
    {
      assert t.UpOk(f);
    }
  }

  lemma Deeper(t: Tree, d: File, e: File)
    requires t.Valid() && d in t.parent && e in t.parent && e != t.mf && t.parent[e] == d
    ensures t.bound - t.rank[e] < t.bound - t.rank[d] && 0 <= t.bound - t.rank[e]
  {
    assert t.UpOk(e);
  }

  /** The events of a walk that starts with `d` selected. */
  ghost function Trace(t: Tree, present: set<File>, d: File): seq<Visit>
    requires t.Valid() && d in t.parent
    decreases t.bound - t.rank[d], 1, 0
  {
    assert t.UpOk(d);
    EntriesBelow(t, d);
    if d.IsDir() then [Acted(d)] + TraceOf(t, present, d, Entries(t, d)) else []
  }

  ghost function TraceOf(t: Tree, present: set<File>, d: File, es: seq<File>): seq<Visit>
    requires t.Valid() && d in t.parent && EntriesOf(t, d, es)
    decreases t.bound - t.rank[d], 0, |es|
  {
    if es == [] then []
    else TraceOfEntry(t, present, d, es[0]) + TraceOf(t, present, d, es[1..])
  }

  ghost function TraceOfEntry(t: Tree, present: set<File>, d: File, e: File): seq<Visit>
    requires t.Valid() && d in t.parent && e in t.parent && e != t.mf && t.parent[e] == d
    decreases t.bound - t.rank[d], 0, 0
  {
    Deeper(t, d, e);
    if !e.IsDir() then [Acted(e)] else if e in present then Trace(t, present, e) else [Skipped(e)]
  }

  // ---------------------------------------------------------------------------------------
  // What must be visited, told from the file upwards

  /** The walk from `d` gets to `g`: everything on the way is named and, if a directory, on the card. */
  ghost predicate Visited(t: Tree, present: set<File>, d: File, g: File)
    requires t.Linked() && g in t.parent
    decreases t.rank[g]
  {
    g == d
    || (g != t.mf && g.name.Some? && (g.IsDir() ==> g in present) && t.parent[g].IsDir()
        && Visited(t, present, d, t.parent[g]))
  }

  /**
   The events of a walk from `d`: the action for every file it gets to, and a skip for every
   named directory the card lacks, of a directory it gets to.
   */
  ghost predicate Expected(t: Tree, present: set<File>, d: File, v: Visit)
    requires t.Linked()
  {
    && v.file in t.parent
    && if v.Acted? then Visited(t, present, d, v.file)
       else v.file != t.mf && v.file.name.Some? && v.file.IsDir() && v.file !in present
            && Visited(t, present, d, t.parent[v.file])
  }

  /** The event is one of those entry `e` of a visited directory brings. */
  ghost predicate Brings(t: Tree, present: set<File>, e: File, v: Visit)
    requires t.Linked() && e in t.parent
  {
    if !e.IsDir() then v == Acted(e) else if e in present then Expected(t, present, e, v) else v == Skipped(e)
  }

  lemma {:induction false} VisitedIsBelow(t: Tree, present: set<File>, d: File, g: File)
    requires t.Linked() && g in t.parent && Visited(t, present, d, g)
    ensures t.Above(d, g)
    decreases t.rank[g]
  {
    if g != d {
      VisitedIsBelow(t, present, d, t.parent[g]);
    }
  }

  lemma BroughtIsBelow(t: Tree, present: set<File>, e: File, v: Visit)
    requires t.Linked() && e in t.parent && Brings(t, present, e, v)
    ensures v.file in t.parent && t.Above(e, v.file)
  {
    if e.IsDir() && e in present {
      if v.Acted? {
        VisitedIsBelow(t, present, e, v.file);
      } else {
        VisitedIsBelow(t, present, e, t.parent[v.file]);
      }
    }
  }

  /** Nothing is below two entries of one directory. */
  lemma BesideEachOther(t: Tree, d: File, a: File, b: File, x: File)
    requires t.Linked() && a in t.parent && b in t.parent && a != t.mf && b != t.mf && a != b
    requires t.parent[a] == d && t.parent[b] == d && x in t.parent && t.Above(b, x)
    ensures !t.Above(a, x)
  {
    if t.Above(a, x) {
      AboveIsALine(t, a, b, x);
      if t.Above(a, b) {
        AboveIsShallower(t, a, d);
      } else {
        AboveIsShallower(t, b, d);
      }
    }
  }

  /** Two entries of one directory never bring the same event. */
  lemma BroughtByOne(t: Tree, present: set<File>, d: File, a: File, b: File, v: Visit)
    requires t.Linked() && a in t.parent && b in t.parent && a != t.mf && b != t.mf
    requires t.parent[a] == d && t.parent[b] == d
    requires Brings(t, present, a, v) && Brings(t, present, b, v)
    ensures a == b
  {
    BroughtIsBelow(t, present, a, v);
    BroughtIsBelow(t, present, b, v);
    if a != b {
      BesideEachOther(t, d, a, b, v.file);
    }
  }

  /** Whatever is expected of a walk from `d`, its own action aside, one of its entries brings. */
  lemma {:induction false} ExpectedIsBrought(t: Tree, present: set<File>, d: File, g: File) returns (e: File)
    requires t.Linked() && d in t.parent && g in t.parent && g != d && Visited(t, present, d, g)
    ensures e in t.parent && e != t.mf && e.name.Some? && t.parent[e] == d
    ensures if e.IsDir() then e in present && Visited(t, present, e, g) else e == g
    decreases t.rank[g]
  {
    if t.parent[g] == d {
      e := g;
    } else {
      e := ExpectedIsBrought(t, present, d, t.parent[g]);
    }
  }

  lemma {:induction false} BroughtIsExpected(t: Tree, present: set<File>, d: File, e: File, g: File)
    requires t.Linked() && d in t.parent && d.IsDir() && g in t.parent
    requires e in t.parent && e != t.mf && e.name.Some? && t.parent[e] == d && e.IsDir() && e in present
    requires Visited(t, present, e, g)
    ensures Visited(t, present, d, g) && g != d
    decreases t.rank[g]
  {
    VisitedIsBelow(t, present, e, g);
    AboveIsShallower(t, e, g);
    assert Visited(t, present, d, d);
    if g != e {
      BroughtIsExpected(t, present, d, e, t.parent[g]);
    }
  }

  // ---------------------------------------------------------------------------------------
  // Exactly once

  ghost predicate AnyBrings(t: Tree, present: set<File>, es: seq<File>, v: Visit)
    requires t.Linked()
  {
    exists e :: e in es && e in t.parent && Brings(t, present, e, v)
  }

  ghost predicate Distinct(es: seq<File>) {
    forall i, j :: 0 <= i < j < |es| ==> es[i] != es[j]
  }

  lemma {:induction false} NamedAreDistinct(files: seq<File>)
    requires Distinct(files)
    ensures Distinct(Named(files))
  {
    if files != [] {
      NamedAreDistinct(files[1..]);
      assert files[0] !in files[1..];
    }
  }

  /** No application is also a child of the MF. */
  ghost predicate AppsApart(t: Tree) {
    forall a :: a in t.apps ==> a !in t.Kids(t.mf)
  }

  lemma EntriesAreDistinct(t: Tree, d: File)
    requires t.Valid() && d in t.parent && AppsApart(t)
    ensures Distinct(Entries(t, d))
  {
    assert t.DownOk(d) && t.UpOk(d);
    NamedAreDistinct(t.Kids(d));
    NamedAreDistinct(t.apps);
  }

  function One(b: bool): nat {
    if b then 1 else 0
  }

  /** The entries bring an event between them as often as each of them does. */
  lemma FirstOrRestBrings(t: Tree, present: set<File>, d: File, es: seq<File>, v: Visit)
    requires t.Linked() && EntriesOf(t, d, es) && Distinct(es) && es != []
    ensures One(AnyBrings(t, present, es, v))
         == One(Brings(t, present, es[0], v)) + One(AnyBrings(t, present, es[1..], v))
  {
    hide Tree.Linked, Brings;
    if AnyBrings(t, present, es[1..], v) {
      var b :| b in es[1..] && b in t.parent && Brings(t, present, b, v);
      assert b in es;
      if Brings(t, present, es[0], v) {
        BroughtByOne(t, present, d, es[0], b, v);
      }
    }
  }

  /** The events of the entries `es`: each as often as some entry brings it, so at most once. */
  lemma {:induction false} EntriesCount(t: Tree, present: set<File>, d: File, es: seq<File>, v: Visit)
    requires t.Valid() && AppsApart(t) && d in t.parent && EntriesOf(t, d, es) && Distinct(es)
    ensures multiset(TraceOf(t, present, d, es))[v] == One(AnyBrings(t, present, es, v))
    decreases t.bound - t.rank[d], 0, |es|
  {
    hide Brings, Tree.Linked, Expected, TraceOfEntry;
    if es != [] {
      EntryCount(t, present, d, es[0], v);
      EntriesCount(t, present, d, es[1..], v);
      FirstOrRestBrings(t, present, d, es, v);
    }
  }

  lemma {:induction false} EntryCount(t: Tree, present: set<File>, d: File, e: File, v: Visit)
    requires t.Valid() && AppsApart(t) && d in t.parent
    requires e in t.parent && e != t.mf && t.parent[e] == d
    ensures multiset(TraceOfEntry(t, present, d, e))[v] == One(Brings(t, present, e, v))
    decreases t.bound - t.rank[d], 0, 0
  {
    Deeper(t, d, e);
    if e.IsDir() && e in present {
      VisitsCount(t, present, e, v);
    }
  }

  /**
   Every event of a walk from directory `d` happens exactly once if it is expected and never
   otherwise: the action once for each named file below `d`, except at or below directories the
   card lacks, and one skip for each topmost such directory.
   */
  lemma {:induction false} VisitsCount(t: Tree, present: set<File>, d: File, v: Visit)
    requires t.Valid() && AppsApart(t) && d in t.parent && d.IsDir()
    ensures multiset(Trace(t, present, d))[v] == One(Expected(t, present, d, v))
    decreases t.bound - t.rank[d], 1, 0
  {
    hide Tree.Linked, Tree.Valid, TraceOf, Expected, AnyBrings, Entries, Distinct, AppsApart;
    RankIsBounded(t, d);
    TraceIs(t, present, d);
    EntriesAreDistinct(t, d);
    EntriesCount(t, present, d, Entries(t, d), v);
    ExpectedFromEntries(t, present, d, v);
  }

  lemma RankIsBounded(t: Tree, d: File)
    requires t.Valid() && d in t.parent
    ensures t.Linked() && d in t.rank && t.rank[d] <= t.bound
  {
    assert t.UpOk(d);
  }

  /** The walk of a directory is its own visit, then those of its entries. */
  lemma TraceIs(t: Tree, present: set<File>, d: File)
    requires t.Valid() && d in t.parent && d.IsDir()
    ensures EntriesOf(t, d, Entries(t, d))
    ensures Trace(t, present, d) == [Acted(d)] + TraceOf(t, present, d, Entries(t, d))
  {
    EntriesBelow(t, d);
  }

  lemma ExpectedFromEntries(t: Tree, present: set<File>, d: File, v: Visit)
    requires t.Valid() && d in t.parent && d.IsDir()
    ensures Expected(t, present, d, v) <==> v == Acted(d) || AnyBrings(t, present, Entries(t, d), v)
    ensures v == Acted(d) ==> !AnyBrings(t, present, Entries(t, d), v)
  {
    hide Tree.Linked, Tree.Valid, Entries, Brings, Tree.Above, Expected;
    RankIsBounded(t, d);
    if Expected(t, present, d, v) && v != Acted(d) {
      EntryForExpected(t, present, d, v);
    }
    if AnyBrings(t, present, Entries(t, d), v) {
      var e :| e in Entries(t, d) && e in t.parent && Brings(t, present, e, v);
      OneBringsExpected(t, present, d, e, v);
    }
    ExpectsItself(t, present, d);
  }

  lemma ExpectsItself(t: Tree, present: set<File>, d: File)
    requires t.Valid() && d in t.parent
    ensures Expected(t, present, d, Acted(d))
  {
    assert Visited(t, present, d, d);
  }

  /** What an entry of a visited directory brings is expected, and is not the directory's own visit. */
  lemma OneBringsExpected(t: Tree, present: set<File>, d: File, e: File, v: Visit)
    requires t.Valid() && d in t.parent && d.IsDir() && e in Entries(t, d) && e in t.parent && Brings(t, present, e, v)
    ensures Expected(t, present, d, v) && v != Acted(d)
  {
    hide Tree.Linked;
    EntriesBelow(t, d);
    BroughtIsBelow(t, present, e, v);
    AboveIsShallower(t, e, v.file);
    assert Visited(t, present, d, d);
    if e.IsDir() && e in present {
      OneUp(t, v.file);
      BroughtIsExpected(t, present, d, e, if v.Acted? then v.file else t.parent[v.file]);
    }
  }

  lemma EntryForExpected(t: Tree, present: set<File>, d: File, v: Visit)
    requires t.Valid() && d in t.parent && d.IsDir() && Expected(t, present, d, v) && v != Acted(d)
    ensures AnyBrings(t, present, Entries(t, d), v)
  {
    hide Tree.Linked;
    EntriesBelow(t, d);
    assert t.UpOk(v.file);
    var p := if v.Acted? then v.file else t.parent[v.file];
    if p == d {
      assert v.file in Entries(t, d) && Brings(t, present, v.file, v);
    } else {
      var e := ExpectedIsBrought(t, present, d, p);
      assert e in Entries(t, d) && Brings(t, present, e, v);
    }
  }

  // ---------------------------------------------------------------------------------------
  // Walks that differ in what they were let into

  /** Both sets have the same of the files at or below `e`. */
  ghost predicate SameBelow(t: Tree, a: set<File>, b: set<File>, e: File)
    requires t.Linked()
  {
    forall x {:trigger x in a} {:trigger x in b} :: x in t.parent && t.Above(e, x) ==> (x in a <==> x in b)
  }

  lemma {:induction false} BelowEntry(t: Tree, d: File, e: File, x: File)
    requires t.Linked() && d in t.parent && e in t.parent && e != t.mf && t.parent[e] == d
    requires x in t.parent && t.Above(e, x)
    ensures t.Above(d, x)
    decreases t.rank[x]
  {
    hide Tree.Linked;
    OneUp(t, x);
    assert t.Above(d, d);
    if x != e {
      BelowEntry(t, d, e, t.parent[x]);
    }
  }

  lemma SameBelowEntry(t: Tree, a: set<File>, b: set<File>, d: File, e: File)
    requires t.Linked() && d in t.parent && e in t.parent && e != t.mf && t.parent[e] == d && SameBelow(t, a, b, d)
    ensures SameBelow(t, a, b, e)
  {
    hide Tree.Linked, Tree.Above;
    forall x | x in t.parent && t.Above(e, x)
      ensures x in a <==> x in b
    {
      BelowEntry(t, d, e, x);
    }
  }

  /** What happens at or below a directory does not depend on anything else. */
  lemma {:induction false} TraceIsLocal(t: Tree, a: set<File>, b: set<File>, d: File)
    requires t.Valid() && d in t.parent && SameBelow(t, a, b, d)
    ensures Trace(t, a, d) == Trace(t, b, d)
    decreases t.bound - t.rank[d], 1, 0
  {
    hide Tree.Linked, TraceOf, SameBelow, Entries;
    RankIsBounded(t, d);
    if d.IsDir() {
      TraceIs(t, a, d);
      TraceIs(t, b, d);
      EntriesBelow(t, d);
      forall e | e in Entries(t, d)
        ensures SameBelow(t, a, b, e)
      {
        SameBelowEntry(t, a, b, d, e);
      }
      TraceOfIsLocal(t, a, b, d, Entries(t, d));
    }
  }

  lemma {:induction false} TraceOfIsLocal(t: Tree, a: set<File>, b: set<File>, d: File, es: seq<File>)
    requires t.Valid() && d in t.parent && EntriesOf(t, d, es) && forall e :: e in es ==> SameBelow(t, a, b, e)
    ensures TraceOf(t, a, d, es) == TraceOf(t, b, d, es)
    decreases t.bound - t.rank[d], 0, |es|
  {
    hide Tree.Linked, TraceOfEntry, SameBelow;
    if es != [] {
      TraceOfEntryIsLocal(t, a, b, d, es[0]);
      TraceOfIsLocal(t, a, b, d, es[1..]);
    }
  }

  lemma {:induction false} TraceOfEntryIsLocal(t: Tree, a: set<File>, b: set<File>, d: File, e: File)
    requires t.Valid() && d in t.parent && e in t.parent && e != t.mf && t.parent[e] == d && SameBelow(t, a, b, e)
    ensures TraceOfEntry(t, a, d, e) == TraceOfEntry(t, b, d, e)
    decreases t.bound - t.rank[d], 0, 0
  {
    hide Tree.Linked, Trace;
    RankIsBounded(t, d);
    Deeper(t, d, e);
    assert t.Above(e, e);
    if e.IsDir() && e in a {
      TraceIsLocal(t, a, b, e);
    }
  }

  /** One entry more at the end. */
  lemma {:induction false} TraceOfOneMore(t: Tree, present: set<File>, d: File, es: seq<File>, e: File)
    requires t.Valid() && d in t.parent && EntriesOf(t, d, es) && e in t.parent && e != t.mf && t.parent[e] == d
    ensures EntriesOf(t, d, es + [e])
    ensures TraceOf(t, present, d, es + [e]) == TraceOf(t, present, d, es) + TraceOfEntry(t, present, d, e)
    decreases |es|
  {
    hide Tree.Linked, Tree.Valid, TraceOfEntry;
    if es == [] {
      assert [e][1..] == [];
    } else {
      assert (es + [e])[1..] == es[1..] + [e];
      TraceOfOneMore(t, present, d, es[1..], e);
    }
  }

  /** At or below `e` the files of `b`, elsewhere those of `a`. */
  ghost function Merged(t: Tree, a: set<File>, b: set<File>, e: File): set<File>
    requires t.Linked()
  {
    set x | x in a + b && (if x in t.parent && t.Above(e, x) then x in b else x in a)
  }

  /** Merging changes nothing for what comes before `e` in the directory. */
  lemma MergedBeside(t: Tree, a: set<File>, b: set<File>, d: File, e: File, o: File)
    requires t.Linked() && e in t.parent && e != t.mf && t.parent[e] == d
    requires o in t.parent && o != t.mf && t.parent[o] == d && o != e
    ensures SameBelow(t, Merged(t, a, b, e), a, o)
  {
    hide Tree.Linked, Tree.Above;
    forall x | x in t.parent && t.Above(o, x)
      ensures x in Merged(t, a, b, e) <==> x in a
    {
      BesideEachOther(t, d, e, o, x);
    }
  }

  lemma MergedAt(t: Tree, a: set<File>, b: set<File>, d: File, e: File)
    requires t.Linked() && d in t.parent && e in t.parent && e != t.mf && t.parent[e] == d
    ensures SameBelow(t, Merged(t, a, b, e), b, e)
    ensures d in Merged(t, a, b, e) <==> d in a
    ensures a == b ==> Merged(t, a, b, e) == a
    ensures forall whole :: a <= whole && b <= whole ==> Merged(t, a, b, e) <= whole
  {
    if t.Above(e, d) {
      AboveIsShallower(t, e, d);
    }
  }

  /** After one entry more, one set tells what was let in up to there. */
  lemma {:induction false} MergedTrace(t: Tree, a: set<File>, b: set<File>, d: File, es: seq<File>, e: File)
    requires t.Valid() && d in t.parent && EntriesOf(t, d, es) && e in t.parent && e != t.mf && t.parent[e] == d
    requires e !in es
    ensures EntriesOf(t, d, es + [e])
    ensures TraceOf(t, Merged(t, a, b, e), d, es + [e]) == TraceOf(t, a, d, es) + TraceOfEntry(t, b, d, e)
  {
    hide Tree.Linked, Tree.Valid, TraceOf, TraceOfEntry, SameBelow, Merged;
    RankIsBounded(t, d);
    var m := Merged(t, a, b, e);
    forall o | o in es
      ensures SameBelow(t, m, a, o)
    {
      MergedBeside(t, a, b, d, e, o);
    }
    TraceOfIsLocal(t, m, a, d, es);
    MergedAt(t, a, b, d, e);
    TraceOfEntryIsLocal(t, m, b, d, e);
    TraceOfOneMore(t, m, d, es, e);
  }
}
