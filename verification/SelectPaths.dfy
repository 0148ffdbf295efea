/**
 The hops `CardFile.build_select_path_to` computes: up from the selected file to a common
 directory, then down to the target, with everything before the last ADF clipped because an
 application can be selected from anywhere.
 */
module SelectPaths {
  import opened CardFiles
  import opened FileTree

  // ---------------------------------------------------------------------------------------
  // Climbing the tree

  lemma {:induction false} MfIsAbove(t: Tree, f: File)
    requires t.Linked() && f in t.parent
    ensures t.Above(t.mf, f)
    decreases t.rank[f]
  {
    if f != t.mf {
      MfIsAbove(t, t.parent[f]);
    }
  }

  lemma {:induction false} AboveIsShallower(t: Tree, a: File, f: File)
    requires t.Linked() && f in t.parent && t.Above(a, f)
    ensures a in t.parent && t.Depth(a) <= t.Depth(f)
    ensures a != f ==> t.Depth(a) < t.Depth(f)
    decreases t.rank[f]
  {
    if a != f {
      AboveIsShallower(t, a, t.parent[f]);
    }
  }

  lemma NotAboveItself(t: Tree, f: File)
    requires t.Linked() && f in t.parent
    ensures !t.ProperlyAbove(f, f)
  {
    if f != t.mf && t.Above(f, t.parent[f]) {
      AboveIsShallower(t, f, t.parent[f]);
    }
  }

  /** Of two directories above the same file, the deeper one is below the other. */
  lemma {:induction false} AboveIsALine(t: Tree, a: File, b: File, f: File)
    requires t.Linked() && f in t.parent && t.Above(a, f) && t.Above(b, f)
    ensures a in t.parent && b in t.parent && (t.Above(a, b) || t.Above(b, a))
    decreases t.rank[f]
  {
    AboveIsShallower(t, a, f);
    AboveIsShallower(t, b, f);
    if a != f && b != f {
      AboveIsALine(t, a, b, t.parent[f]);
    }
  }

  // ---------------------------------------------------------------------------------------
  // The path, defined without lists of ancestors

  /** The deepest file that is `cur` or above it and properly above `target`. */
  ghost function Meet(t: Tree, cur: File, target: File): (m: File)
    requires t.Linked() && cur in t.parent && target in t.parent
    decreases t.rank[cur]
  {
    if cur == t.mf || t.ProperlyAbove(cur, target) then cur else Meet(t, t.parent[cur], target)
  }

  /** The hops from `cur` up to `top`, parent by parent. */
  ghost function Up(t: Tree, cur: File, top: File): seq<File>
    requires t.Linked() && cur in t.parent && t.Above(top, cur)
    decreases t.rank[cur]
  {
    if cur == top then [] else [t.parent[cur]] + Up(t, t.parent[cur], top)
  }

  /** The hops from `top` down to `target`, child by child. */
  ghost function Down(t: Tree, top: File, target: File): seq<File>
    requires t.Linked() && target in t.parent && t.Above(top, target)
    decreases t.rank[target]
  {
    if top == target then [] else Down(t, top, t.parent[target]) + [target]
  }

  lemma {:induction false} MeetIsDeepest(t: Tree, cur: File, target: File)
    requires t.Linked() && cur in t.parent && target in t.parent && target != t.mf
    ensures var m := Meet(t, cur, target);
            && t.Above(m, cur) && t.ProperlyAbove(m, target)
            && forall d :: t.Above(d, cur) && t.ProperlyAbove(d, target) ==> d in t.parent && t.Depth(d) <= t.Depth(m)
    decreases t.rank[cur]
  {
    if cur == t.mf || t.ProperlyAbove(cur, target) {
      MfIsAbove(t, t.parent[target]);
      forall d | t.Above(d, cur)
        ensures d in t.parent && t.Depth(d) <= t.Depth(cur)
      {
        AboveIsShallower(t, d, cur);
      }
    } else {
      MeetIsDeepest(t, t.parent[cur], target);
    }
  }

  /** The hops before clipping; the target is not the MF. */
  ghost function Hops(t: Tree, cur: File, target: File): seq<File>
    requires t.Linked() && cur in t.parent && target in t.parent && target != t.mf
  {
    MeetIsDeepest(t, cur, target);
    Up(t, cur, Meet(t, cur, target)) + Down(t, Meet(t, cur, target), target)
  }

  predicate HasAdf(p: seq<File>) {
    exists f :: f in p && f.kind == Adf
  }

  /** The path from its last ADF on; all of it if there is none. */
  ghost function Clip(p: seq<File>): seq<File> {
    if p != [] && HasAdf(p[1..]) then Clip(p[1..]) else p
  }

  /** What `build_select_path_to` returns. */
  ghost function SelectPath(t: Tree, cur: File, target: File): seq<File>
    requires t.Linked() && cur in t.parent && target in t.parent
  {
    if target == t.mf then [t.mf] else Clip(Hops(t, cur, target))
  }

  // ---------------------------------------------------------------------------------------
  // What the hops are

  lemma {:induction false} UpHops(t: Tree, cur: File, top: File)
    requires t.Linked() && cur in t.parent && t.Above(top, cur)
    ensures |Up(t, cur, top)| == t.Depth(cur) - t.Depth(top)
    ensures Last(cur, Up(t, cur, top)) == top
    ensures forall h :: h in Up(t, cur, top) ==> t.Above(h, cur)
    decreases t.rank[cur]
  {
    if cur != top {
      UpHops(t, t.parent[cur], top);
    }
  }

  lemma {:induction false} DownHops(t: Tree, top: File, target: File)
    requires t.Linked() && target in t.parent && t.Above(top, target)
    ensures |Down(t, top, target)| == t.Depth(target) - t.Depth(top)
    ensures Last(top, Down(t, top, target)) == target
    ensures forall h :: h in Down(t, top, target) ==> t.Above(h, target)
    decreases t.rank[target]
  {
    if top != target {
      DownHops(t, top, t.parent[target]);
    }
  }

  /** The file a run of accepted hops ends on. */
  function Last(from: File, hops: seq<File>): File {
    if hops == [] then from else hops[|hops| - 1]
  }

  /** The directory SELECT by file identifier searches when `f` is selected. */
  function Cwd(t: Tree, f: File): File
    requires f in t.parent
  {
    if f.IsDir() then f else t.parent[f]
  }

  /**
   Section 8.4.1 of ETSI TS 102 221: with `f` selected, a file identifier selects the MF, the
   current directory, its parent, a child of it, or a DF that is a child of its parent.
   */
  predicate InScope(t: Tree, f: File, g: File) {
    && f in t.parent && g in t.parent
    && var d := Cwd(t, f);
       && d in t.parent
       && (g == t.mf || g == d || g == t.parent[d] || g in t.Kids(d)
           || (g.kind == Df && g in t.Kids(t.parent[d])))
  }

  /** A hop the card can resolve: an ADF by its AID, anything else by its file identifier. */
  predicate LegalHop(t: Tree, f: File, g: File) {
    f in t.parent && g in t.parent && (g.kind == Adf || InScope(t, f, g))
  }

  predicate LegalRun(t: Tree, from: File, hops: seq<File>)
    decreases hops
  {
    hops == [] || (LegalHop(t, from, hops[0]) && LegalRun(t, hops[0], hops[1..]))
  }

  lemma {:induction false} ExtendLegalRun(t: Tree, from: File, hops: seq<File>, g: File)
    requires LegalRun(t, from, hops) && LegalHop(t, Last(from, hops), g)
    ensures LegalRun(t, from, hops + [g])
    decreases hops
  {
    if hops == [] {
      assert hops + [g] == [g];
    } else {
      ExtendLegalRun(t, hops[0], hops[1..], g);
      assert (hops + [g])[1..] == hops[1..] + [g];
    }
  }

  lemma ParentIsLegal(t: Tree, f: File)
    requires t.Valid() && f in t.parent
    ensures LegalHop(t, f, t.parent[f])
  {
    assert t.UpOk(f) && t.DownOk(f) && t.UpOk(t.parent[f]);
  }

  lemma ChildIsLegal(t: Tree, f: File)
    requires t.Valid() && f in t.parent
    ensures LegalHop(t, t.parent[f], f)
  {
    assert t.UpOk(f) && t.DownOk(f) && t.UpOk(t.parent[f]);
  }

  lemma MfIsLegal(t: Tree, f: File)
    requires t.Valid() && f in t.parent
    ensures LegalHop(t, f, t.mf)
  {
    assert t.UpOk(f) && t.DownOk(f) && t.UpOk(t.parent[f]);
  }

  lemma {:induction false} UpIsLegal(t: Tree, cur: File, top: File)
    requires t.Valid() && cur in t.parent && t.Above(top, cur)
    ensures LegalRun(t, cur, Up(t, cur, top))
    decreases t.rank[cur]
  {
    if cur != top {
      ParentIsLegal(t, cur);
      UpIsLegal(t, t.parent[cur], top);
    }
  }

  lemma {:induction false} DownIsLegal(t: Tree, top: File, target: File)
    requires t.Valid() && target in t.parent && t.Above(top, target)
    ensures LegalRun(t, top, Down(t, top, target))
    decreases t.rank[target]
  {
    if top != target {
      ChildIsLegal(t, target);
      DownIsLegal(t, top, t.parent[target]);
      DownHops(t, top, t.parent[target]);
      ExtendLegalRun(t, top, Down(t, top, t.parent[target]), target);
    }
  }

  lemma {:induction false} JoinLegalRuns(t: Tree, from: File, a: seq<File>, b: seq<File>)
    requires LegalRun(t, from, a) && LegalRun(t, Last(from, a), b)
    ensures LegalRun(t, from, a + b)
    decreases a
  {
    if a == [] {
      assert a + b == b;
    } else {
      JoinLegalRuns(t, a[0], a[1..], b);
      assert (a + b)[1..] == a[1..] + b;
    }
  }

  /** Clipping drops only a front part: up to the last ADF if there is one, else nothing. */
  lemma {:induction false} ClipIsTail(p: seq<File>)
    requires p != []
    ensures 0 < |Clip(p)| <= |p| && Clip(p) == p[|p| - |Clip(p)|..]
    ensures !HasAdf(Clip(p)[1..])
    ensures if HasAdf(p) then Clip(p)[0].kind == Adf else Clip(p) == p
  {
    if HasAdf(p[1..]) {
      ClipIsTail(p[1..]);
    }
  }

  lemma {:induction false} ClipIsLegal(t: Tree, from: File, p: seq<File>)
    requires p != [] && LegalRun(t, from, p) && from in t.parent
    ensures LegalRun(t, from, Clip(p))
    decreases p
  {
    if HasAdf(p[1..]) {
      ClipIsLegal(t, p[0], p[1..]);
      ClipIsTail(p[1..]);
    }
  }

  lemma HopsEnd(t: Tree, cur: File, target: File)
    requires t.Linked() && cur in t.parent && target in t.parent && target != t.mf
    ensures Hops(t, cur, target) != [] && Last(cur, Hops(t, cur, target)) == target
    ensures forall h :: h in Hops(t, cur, target) ==> t.Above(h, cur) || t.Above(h, target)
  {
    MeetIsDeepest(t, cur, target);
    var m := Meet(t, cur, target);
    UpHops(t, cur, m);
    DownHops(t, m, target);
    AboveIsShallower(t, m, t.parent[target]);
  }

  lemma HopsAreLegal(t: Tree, cur: File, target: File)
    requires t.Valid() && cur in t.parent && target in t.parent && target != t.mf
    ensures LegalRun(t, cur, Hops(t, cur, target))
  {
    MeetIsDeepest(t, cur, target);
    var m := Meet(t, cur, target);
    UpHops(t, cur, m);
    UpIsLegal(t, cur, m);
    DownIsLegal(t, m, target);
    JoinLegalRuns(t, cur, Up(t, cur, m), Down(t, m, target));
  }

  /**
   Between any two files below one MF there is a path: it is never empty, ends on the target,
   and visits only files that are, or are above, the start or the target.
   */
  lemma SelectPathEnds(t: Tree, cur: File, target: File)
    requires t.Linked() && cur in t.parent && target in t.parent
    ensures SelectPath(t, cur, target) != [] && Last(cur, SelectPath(t, cur, target)) == target
    ensures forall h :: h in SelectPath(t, cur, target) ==> t.Above(h, cur) || t.Above(h, target)
  {
    if target != t.mf {
      HopsEnd(t, cur, target);
      ClipIsTail(Hops(t, cur, target));
    }
  }

  /** Every hop of the path is one the card can resolve from where the previous hop led. */
  lemma SelectPathIsLegal(t: Tree, cur: File, target: File)
    requires t.Valid() && cur in t.parent && target in t.parent
    ensures LegalRun(t, cur, SelectPath(t, cur, target))
  {
    if target == t.mf {
      MfIsLegal(t, cur);
    } else {
      HopsEnd(t, cur, target);
      HopsAreLegal(t, cur, target);
      ClipIsLegal(t, cur, Hops(t, cur, target));
    }
  }

  /** Before clipping there are exactly the hops up to the deepest common directory and down from it. */
  lemma HopCount(t: Tree, cur: File, target: File, m: File)
    requires t.Linked() && cur in t.parent && target in t.parent && target != t.mf
    requires t.Above(m, cur) && t.ProperlyAbove(m, target)
    requires forall d :: t.Above(d, cur) && t.ProperlyAbove(d, target) ==> t.Depth(d) <= t.Depth(m)
    ensures m == Meet(t, cur, target)
    ensures |Hops(t, cur, target)| == (t.Depth(cur) - t.Depth(m)) + (t.Depth(target) - t.Depth(m))
  {
    MeetIsDeepest(t, cur, target);
    var best := Meet(t, cur, target);
    AboveIsALine(t, m, best, cur);
    if m != best {
      if t.Above(m, best) {
        AboveIsShallower(t, m, best);
      } else {
        AboveIsShallower(t, best, m);
      }
    }
    UpHops(t, cur, m);
    DownHops(t, m, target);
  }
}
