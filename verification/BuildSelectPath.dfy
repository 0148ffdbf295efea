/**
 `CardFile.build_select_path_to`, as the loops the source writes, proved to compute the path of module SelectPaths.
 */
module BuildSelectPath {
  import opened Wrappers
  import opened CardFiles
  import opened FileTree
  import opened SelectPaths

  /** `get_mf`: climb to the root of the file system, whose parent is itself. */
  method GetMf(t: Tree, f: File) returns (node: File)
    requires t.Linked() && f in t.parent
    ensures node == t.mf
  {
    node := f;
    while t.parent[node] != node
      invariant node in t.parent
      decreases t.rank[node]
    {
      node := t.parent[node];
    }
  }

  function Reverse<T>(s: seq<T>): (r: seq<T>)
    ensures |r| == |s| && forall i :: 0 <= i < |s| ==> r[i] == s[|s| - 1 - i]
  {
    seq(|s|, i requires 0 <= i < |s| => s[|s| - 1 - i])
  }

  /** `clip_path`: drop everything before the last ADF. */
  method ClipPath(interPath: seq<File>) returns (r: seq<File>)
    ensures r == Clip(interPath)
  {
    var i := |interPath|;
    while i > 0
      invariant 0 <= i <= |interPath|
      invariant !HasAdf(interPath[i..])
    {
      i := i - 1;
      if interPath[i].kind == Adf {
        ClipAt(interPath, i);
        return interPath[i..];
      }
      assert interPath[i..] == [interPath[i]] + interPath[i + 1..];
    }
    assert interPath[0..] == interPath;
    r := interPath;
  }

  lemma {:induction false} ClipAt(p: seq<File>, i: nat)
    requires i < |p| && p[i].kind == Adf && !HasAdf(p[i + 1..])
    ensures Clip(p) == p[i..]
  {
    if i > 0 {
      assert p[1..][i - 1..] == p[i..] && p[1..][i..] == p[i + 1..];
      assert p[i] == p[1..][i - 1];
      ClipAt(p[1..], i - 1);
    }
  }

  // ---------------------------------------------------------------------------------------
  // Lists of ancestors

  lemma ReverseSnoc<T>(s: seq<T>, x: T)
    ensures Reverse(s + [x]) == [x] + Reverse(s)
  {
  }

  /** The reversed ancestor list starts with the file and climbs to the MF. */
  lemma {:induction false} ReversedFqPath(t: Tree, f: File)
    requires t.Linked() && f in t.parent && t.Above(t.mf, f)
    ensures Reverse(t.FqPath(f)) == [f] + Up(t, f, t.mf)
    decreases t.rank[f]
  {
    if f != t.mf {
      ReversedFqPath(t, t.parent[f]);
      ReverseSnoc(t.FqPath(t.parent[f]), f);
    }
  }

  lemma {:induction false} UpOneMore(t: Tree, cur: File, ce: File)
    requires t.Linked() && cur in t.parent && t.Above(ce, cur) && ce != t.mf
    ensures t.Above(t.parent[ce], cur) && Up(t, cur, t.parent[ce]) == Up(t, cur, ce) + [t.parent[ce]]
    decreases t.rank[cur]
  {
    hide Tree.Linked;
    OneUp(t, cur);
    AboveIsShallower(t, ce, cur);
    OneUp(t, ce);
    assert t.Above(t.parent[ce], t.parent[ce]);
    if cur != ce {
      UpOneMore(t, t.parent[cur], ce);
      AboveIsShallower(t, t.parent[ce], t.parent[cur]);
    } else {
      assert t.Above(t.parent[ce], ce);
      AboveIsShallower(t, t.parent[ce], t.parent[cur]);
    }
  }

  lemma {:induction false} FqPathBelow(t: Tree, a: File, f: File)
    requires t.Linked() && f in t.parent && t.Above(a, f)
    ensures t.FqPath(f) == t.FqPath(a) + Down(t, a, f)
    decreases t.rank[f]
  {
    hide Tree.Linked;
    OneUp(t, f);
    if a != f {
      FqPathBelow(t, a, t.parent[f]);
    }
  }

  lemma {:induction false} FqPathAt(t: Tree, f: File, i: nat)
    requires t.Linked() && f in t.parent && i < |t.FqPath(f)|
    ensures t.Above(t.FqPath(f)[i], f) && |t.FqPath(t.FqPath(f)[i])| == i + 1
    decreases t.rank[f]
  {
    if f != t.mf && i < |t.FqPath(f)| - 1 {
      FqPathAt(t, t.parent[f], i);
    }
  }

  /** A match in the target's list, other than its end, is a directory properly above the target. */
  lemma MatchIsAbove(t: Tree, target: File, i: nat)
    requires t.Linked() && target in t.parent && i < |t.FqPath(target)| - 1
    ensures var ce := t.FqPath(target)[i];
            t.ProperlyAbove(ce, target) && t.Above(ce, target) && t.FqPath(target)[i + 1..] == Down(t, ce, target)
  {
    FqPathAt(t, target, i);
    FqPathBelow(t, t.FqPath(target)[i], target);
  }

  /** Whatever is properly above the target is in its list, before the end. */
  lemma AboveIsListed(t: Tree, target: File, ce: File)
    requires t.Linked() && target in t.parent && target != t.mf
    ensures t.ProperlyAbove(ce, target) ==> ce in t.FqPath(target)[..|t.FqPath(target)| - 1]
  {
    var p := t.parent[target];
    assert t.FqPath(p) == t.FqPath(target)[..|t.FqPath(target)| - 1];
    if t.Above(ce, p) {
      FqPathBelow(t, ce, p);
      assert t.FqPath(p)[|t.FqPath(ce)| - 1] == ce;
    }
  }

  // ---------------------------------------------------------------------------------------
  // The search for the common directory

  /** After `k` rounds without a match the search has climbed from `cur` to `ce`. */
  ghost predicate ClimbedTo(t: Tree, cur: File, ce: File, target: File, fq: seq<File>, k: nat)
    requires t.Linked() && cur in t.parent && target in t.parent
  {
    && t.Above(ce, cur) && t.Above(t.mf, ce)
    && fq == [cur] + Up(t, cur, ce) + Up(t, ce, t.mf)
    && |Up(t, cur, ce)| == k
    && Meet(t, cur, target) == Meet(t, ce, target)
  }

  lemma ClimbStarts(t: Tree, cur: File, target: File)
    requires t.Linked() && cur in t.parent && target in t.parent
    ensures ClimbedTo(t, cur, cur, target, Reverse(t.FqPath(cur)), 0)
  {
    MfIsAbove(t, cur);
    ReversedFqPath(t, cur);
    assert Up(t, cur, cur) == [] && [cur] + [] == [cur];
  }

  lemma ClimbGoesOn(t: Tree, cur: File, ce: File, target: File, fq: seq<File>, k: nat)
    requires t.Linked() && cur in t.parent && target in t.parent && target != t.mf
    requires ClimbedTo(t, cur, ce, target, fq, k) && !t.ProperlyAbove(ce, target)
    ensures ce != t.mf && ClimbedTo(t, cur, t.parent[ce], target, fq, k + 1)
  {
    MfIsAbove(t, t.parent[target]);
    UpOneMore(t, cur, ce);
    MfIsAbove(t, t.parent[ce]);
    assert Up(t, ce, t.mf) == [t.parent[ce]] + Up(t, t.parent[ce], t.mf);
    assert Meet(t, ce, target) == Meet(t, t.parent[ce], target);
    MoveOne([cur], Up(t, cur, ce), [t.parent[ce]], Up(t, t.parent[ce], t.mf));
  }

  lemma MoveOne<T>(a: seq<T>, b: seq<T>, c: seq<T>, d: seq<T>)
    ensures a + b + (c + d) == a + (b + c) + d
  {
  }

  /** The element of the list the search looks at, and what it has collected up to it. */
  lemma ClimbElement(t: Tree, cur: File, ce: File, target: File, fq: seq<File>, k: nat)
    requires t.Linked() && cur in t.parent && target in t.parent
    requires ClimbedTo(t, cur, ce, target, fq, k)
    ensures k < |fq| && fq[k] == ce && fq[..k + 1] == [cur] + Up(t, cur, ce)
  {
    UpHops(t, cur, ce);
    assert fq[..k + 1] == [cur] + Up(t, cur, ce);
    assert fq[k] == fq[..k + 1][k];
  }

  /** A match in round `k` gives the hops, after the start itself is dropped. */
  lemma FoundHops(t: Tree, cur: File, ce: File, target: File, fq: seq<File>, k: nat, i: nat)
    requires t.Linked() && cur in t.parent && target in t.parent && target != t.mf
    requires ClimbedTo(t, cur, ce, target, fq, k)
    requires i < |t.FqPath(target)| - 1 && t.FqPath(target)[i] == ce && k < |fq|
    ensures (fq[..k + 1] + t.FqPath(target)[i + 1..])[1..] == Hops(t, cur, target)
  {
    ClimbElement(t, cur, ce, target, fq, k);
    MatchIsAbove(t, target, i);
    DropStart(cur, Up(t, cur, ce), Down(t, ce, target));
  }

  lemma DropStart<T>(x: T, a: seq<T>, b: seq<T>)
    ensures ([x] + a + b)[1..] == a + b
  {
  }

  /** As long as no listed ancestor of the target turned up, the search has climbed one hop a round. */
  lemma {:induction false} ClimbWithoutMatch(t: Tree, cur: File, target: File, k: nat) returns (ce: File)
    requires t.Linked() && cur in t.parent && target in t.parent && target != t.mf
    requires k < |t.FqPath(cur)|
    requires forall j :: 0 <= j < k ==> Reverse(t.FqPath(cur))[j] !in t.FqPath(target)[..|t.FqPath(target)| - 1]
    ensures ClimbedTo(t, cur, ce, target, Reverse(t.FqPath(cur)), k)
  {
    var fq := Reverse(t.FqPath(cur));
    if k == 0 {
      ClimbStarts(t, cur, target);
      ce := cur;
    } else {
      var below := ClimbWithoutMatch(t, cur, target, k - 1);
      ClimbElement(t, cur, below, target, fq, k - 1);
      AboveIsListed(t, target, below);
      ClimbGoesOn(t, cur, below, target, fq, k - 1);
      ce := t.parent[below];
    }
  }

  /** The first match of the two lists gives the hops. */
  lemma FirstMatchIsMeet(t: Tree, cur: File, target: File, k: nat, i: nat)
    requires t.Linked() && cur in t.parent && target in t.parent && target != t.mf
    requires k < |t.FqPath(cur)| && i < |t.FqPath(target)| - 1
    requires Reverse(t.FqPath(cur))[k] == t.FqPath(target)[i]
    requires forall j :: 0 <= j < k ==> Reverse(t.FqPath(cur))[j] !in t.FqPath(target)[..|t.FqPath(target)| - 1]
    ensures (Reverse(t.FqPath(cur))[..k + 1] + t.FqPath(target)[i + 1..])[1..] == Hops(t, cur, target)
  {
    var ce := ClimbWithoutMatch(t, cur, target, k);
    ClimbElement(t, cur, ce, target, Reverse(t.FqPath(cur)), k);
    FoundHops(t, cur, ce, target, Reverse(t.FqPath(cur)), k, i);
  }

  /** The inner loop: where `ce` is in the target's list, its end aside; -1 if nowhere. */
  method FindCommon(targetFqpath: seq<File>, ce: File) returns (i: int)
    requires targetFqpath != []
    ensures -1 <= i < |targetFqpath| - 1
    ensures if i == -1 then ce !in targetFqpath[..|targetFqpath| - 1] else targetFqpath[i] == ce
  {
    i := 0;
    while i < |targetFqpath| - 1
      invariant 0 <= i <= |targetFqpath| - 1
      invariant ce !in targetFqpath[..i]
    {
      if targetFqpath[i] == ce {
        return;
      }
      i := i + 1;
    }
    i := -1;
  }

  /** The lists joined at the `k`-th reversed ancestor of the start, the `i`-th of the target. */
  ghost predicate FirstMatch(curFqpath: seq<File>, targetFqpath: seq<File>, k: int, i: int) {
    && 0 <= k < |curFqpath| && 0 <= i < |targetFqpath| - 1
    && curFqpath[k] == targetFqpath[i]
    && forall j :: 0 <= j < k ==> curFqpath[j] !in targetFqpath[..|targetFqpath| - 1]
  }

  /** The outer loop over the reversed ancestors of the start. */
  method JoinLists(curFqpath: seq<File>, targetFqpath: seq<File>)
    returns (r: Option<seq<File>>, ghost k: int, ghost i: int)
    requires targetFqpath != []
    ensures r.None? ==> forall f :: f in curFqpath ==> f !in targetFqpath[..|targetFqpath| - 1]
    ensures r.Some? ==>
              && FirstMatch(curFqpath, targetFqpath, k, i)
              && r.value == Clip((curFqpath[..k + 1] + targetFqpath[i + 1..])[1..])
  {
    var interPath: seq<File> := [];
    var c := 0;
    while c < |curFqpath|
      invariant 0 <= c <= |curFqpath| && interPath == curFqpath[..c]
      invariant forall j :: 0 <= j < c ==> curFqpath[j] !in targetFqpath[..|targetFqpath| - 1]
    {
      interPath := interPath + [curFqpath[c]];
      var m := FindCommon(targetFqpath, curFqpath[c]);
      if m != -1 {
        interPath := interPath + targetFqpath[m + 1..];
        var clipped := ClipPath(interPath[1..]);
        assert curFqpath[..c] + [curFqpath[c]] == curFqpath[..c + 1];
        return Some(clipped), c, m;
      }
      c := c + 1;
    }
    return None, -1, -1;
  }

  /** `build_select_path_to`. */
  method BuildSelectPathTo(t: Tree, cur: File, target: File) returns (r: Option<seq<File>>)
    requires t.Linked() && cur in t.parent && target in t.parent
    ensures r == Some(SelectPath(t, cur, target))
  {
    var mf := GetMf(t, target);
    if target == mf {
      return Some([target]);
    }
    ghost var k, i;
    MfIsListed(t, cur, target);
    r, k, i := JoinLists(Reverse(t.FqPath(cur)), t.FqPath(target));
    FirstMatchIsMeet(t, cur, target, k, i);
  }

  /** The MF is in both lists, so a match is found. */
  lemma MfIsListed(t: Tree, cur: File, target: File)
    requires t.Linked() && cur in t.parent && target in t.parent && target != t.mf
    ensures t.mf in Reverse(t.FqPath(cur)) && t.mf in t.FqPath(target)[..|t.FqPath(target)| - 1]
  {
    var fq, n := Reverse(t.FqPath(cur)), |t.FqPath(cur)|;
    assert fq[n - 1] == t.FqPath(cur)[0] == t.mf;
    assert t.FqPath(target) == t.FqPath(t.parent[target]) + [target];
    assert t.FqPath(target)[..|t.FqPath(target)| - 1][0] == t.mf;
  }
}
