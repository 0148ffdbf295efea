/**
 What names and slash paths denote: `get_file_by_name` looks every element up without touching
 the card, `select` selects element by element.
 */
module Names {
  import opened Wrappers
  import opened Text
  import opened CardFiles
  import opened FileTree
  import opened SelectPaths
  import opened Selectables

  /** The file an identifier selects from `f`. */
  function Lookup(t: Tree, f: File, id: string): Option<File>
    requires t.Linked() && f in t.parent
  {
    if id in TableOf(t, f) then Some(TableOf(t, f)[id]) else None
  }

  /** `select` looks hex identifiers up in lower case. */
  function Norm(name: string): string {
    if IsHex(name) then Lower(name) else name
  }

  /** So a hex identifier is looked up in its one lower-case spelling, and any other name as it is. */
  lemma NormIsLowerCase(name: string)
    ensures IsHex(name) <==>
            |name| >= 2 && |name| % 2 == 0 && forall i :: 0 <= i < |name| ==>
              '0' <= name[i] <= '9' || 'a' <= name[i] <= 'f' || 'A' <= name[i] <= 'F'
    ensures IsHex(name) ==>
              && |Norm(name)| == |name|
              && forall i :: 0 <= i < |name| ==>
                   IsLowerHexDigit(Norm(name)[i]) && HexValue(Norm(name)[i]) == HexValue(name[i])
    ensures IsHex(name) ==>
              forall s: string ::
                && |s| == |name|
                && (forall i :: 0 <= i < |s| ==> IsLowerHexDigit(s[i]) && HexValue(s[i]) == HexValue(name[i])) ==>
                s == Norm(name)
    ensures !IsHex(name) ==> Norm(name) == name
  {
    if IsHex(name) {
      CasesOfHex(name);
      forall s: string | |s| == |name| && forall i :: 0 <= i < |s| ==>
                           IsLowerHexDigit(s[i]) && HexValue(s[i]) == HexValue(name[i])
        ensures s == Norm(name)
      {
        forall i | 0 <= i < |s|
          ensures s[i] == Norm(name)[i]
        {
          OneSpelling(s[i], Norm(name)[i]);
        }
      }
    }
  }

  // ---------------------------------------------------------------------------------------
  // Paths

  /** `name.split('/')`. */
  function Split(name: string): (parts: seq<string>)
    ensures parts != []
    ensures forall p :: p in parts ==> '/' !in p
  {
    if name == [] then [""]
    else
      var rest := Split(name[1..]);
      if name[0] == '/' then [""] + rest else [[name[0]] + rest[0]] + rest[1..]
  }

  /** The elements of a name or slash path; a leading slash starts at the MF. */
  function PathElements(name: string): (parts: seq<string>)
    ensures parts != []
    ensures forall p :: p in parts ==> '/' !in p
  {
    if '/' in name then
      var parts := Split(name);
      if parts[0] == "" then ["MF"] + parts[1..] else parts
    else [name]
  }

  /** Joining the elements with slashes gives the path back: splitting loses nothing. */
  function Join(parts: seq<string>): string
    requires parts != []
  {
    if |parts| == 1 then parts[0] else parts[0] + "/" + Join(parts[1..])
  }

  lemma LongerFirst(c: char, rest: seq<string>)
    requires rest != []
    ensures Join([[c] + rest[0]] + rest[1..]) == [c] + Join(rest)
  {
    var longer := [[c] + rest[0]] + rest[1..];
    if |rest| > 1 {
      assert longer[1..] == rest[1..];
      assert [c] + (rest[0] + "/" + Join(rest[1..])) == ([c] + rest[0]) + "/" + Join(rest[1..]);
    }
  }

  lemma {:induction false} SplitJoins(name: string)
    ensures Join(Split(name)) == name
  {
    if name != [] {
      var rest := Split(name[1..]);
      SplitJoins(name[1..]);
      if name[0] == '/' {
        assert ([""] + rest)[1..] == rest;
      } else {
        LongerFirst(name[0], rest);
      }
    }
  }

  /** There is one way only to split a path: at its slashes. */
  lemma {:induction false} JoinSplits(parts: seq<string>)
    requires parts != [] && forall p :: p in parts ==> '/' !in p
    ensures Split(Join(parts)) == parts
    decreases |parts|, |parts[0]|
  {
    if parts[0] != "" {
      var c, d := parts[0][0], parts[0][1..];
      var shorter := [d] + parts[1..];
      assert parts[0] in parts && parts[0] == [c] + d;
      forall p | p in shorter
        ensures '/' !in p
      {
        assert p == d || p in parts;
      }
      JoinSplits(shorter);
      LongerFirst(c, shorter);
      assert shorter[1..] == parts[1..];
      assert [[c] + d] + parts[1..] == parts;
      assert Join(parts) == [c] + Join(shorter);
      assert Join(parts)[1..] == Join(shorter);
    } else if |parts| > 1 {
      JoinSplits(parts[1..]);
      assert Join(parts) == "/" + Join(parts[1..]);
      assert [""] + parts[1..] == parts;
    }
  }

  /** A path that starts with a slash is one that starts with the name of the MF. */
  lemma {:induction false} AbsoluteElements(q: string)
    ensures PathElements("/" + q) == ["MF"] + Split(q)
    ensures Join(PathElements("/" + q)) == "MF/" + q
  {
    var p := "/" + q;
    assert p[1..] == q;
    assert Split(p) == [""] + Split(q);
    SplitJoins(q);
    assert (["MF"] + Split(q))[1..] == Split(q);
    assert "MF" + "/" + q == "MF/" + q;
  }

  lemma PlainElements(name: string)
    requires '/' !in name
    ensures PathElements(name) == [name]
  {
  }

  /** The elements of any other path or name join to it. */
  lemma {:induction false} RelativeElements(p: string)
    requires p == "" || p[0] != '/'
    ensures Join(PathElements(p)) == p
  {
    if '/' in p {
      SplitJoins(p);
      var rest := Split(p[1..]);
      assert Split(p)[0] == [p[0]] + rest[0];
    }
  }

  // ---------------------------------------------------------------------------------------
  // Two ways to follow a path

  /** `get_file_by_name` from `cur`: look the elements up one after another. */
  ghost function Follow(t: Tree, cur: File, ids: seq<string>): Option<File>
    requires t.Valid() && cur in t.parent
    decreases ids
  {
    if ids == [] then Some(cur)
    else
      var next := Lookup(t, cur, ids[0]);
      if next.None? then None
      else TableEntryInTree(t, cur, ids[0]); Follow(t, next.value, ids[1..])
  }

  lemma FollowHead(t: Tree, cur: File, ids: seq<string>)
    requires t.Valid() && cur in t.parent && ids != []
    ensures Lookup(t, cur, ids[0]).None? ==> Follow(t, cur, ids) == None
    ensures Lookup(t, cur, ids[0]).Some? ==>
              && Lookup(t, cur, ids[0]).value in t.parent
              && Follow(t, cur, ids) == Follow(t, Lookup(t, cur, ids[0]).value, ids[1..])
  {
    if Lookup(t, cur, ids[0]).Some? {
      TableEntryInTree(t, cur, ids[0]);
    }
  }

  lemma CwdInTree(t: Tree, f: File)
    requires t.Valid() && f in t.parent
    ensures t.Linked() && Cwd(t, f) in t.parent
  {
  }

  lemma FollowNothing(t: Tree, cur: File)
    requires t.Valid() && cur in t.parent
    ensures Follow(t, cur, []) == Some(cur)
  {
  }

  /** Where `select` stands after the path, and why it stopped before the end. */
  datatype Walked = Arrived(file: File) | NotThere(file: File) | NoSuchName(at: File, id: string)

  /** `select` from `cur` against a card that has exactly `present`. */
  ghost function Resolve(t: Tree, present: set<File>, cur: File, names: seq<string>): Walked
    requires t.Valid() && cur in t.parent
    decreases names
  {
    if names == [] then Arrived(cur)
    else
      var next := Lookup(t, cur, Norm(names[0]));
      if next.None? then NoSuchName(cur, Norm(names[0]))
      else if next.value !in present then NotThere(next.value)
      else TableEntryInTree(t, cur, Norm(names[0])); Resolve(t, present, next.value, names[1..])
  }

  lemma ResolveOne(t: Tree, present: set<File>, cur: File, name: string)
    requires t.Valid() && cur in t.parent
    ensures Resolve(t, present, cur, [name]) ==
            var next := Lookup(t, cur, Norm(name));
            if next.None? then NoSuchName(cur, Norm(name))
            else if next.value in present then Arrived(next.value)
            else NotThere(next.value)
  {
    if Lookup(t, cur, Norm(name)).Some? {
      TableEntryInTree(t, cur, Norm(name));
    }
  }

  /** One element first, then the rest from where it led. */
  lemma ResolveHead(t: Tree, present: set<File>, cur: File, names: seq<string>)
    requires t.Valid() && cur in t.parent && names != []
    ensures var head := Resolve(t, present, cur, [names[0]]);
            if head.Arrived? then
              head.file in t.parent && Resolve(t, present, cur, names) == Resolve(t, present, head.file, names[1..])
            else Resolve(t, present, cur, names) == head
  {
    ResolveOne(t, present, cur, names[0]);
    if Lookup(t, cur, Norm(names[0])).Some? {
      TableEntryInTree(t, cur, Norm(names[0]));
    }
  }

  /** From wherever one starts, a path that starts with a slash leads where its rest leads from the MF. */
  lemma {:induction false} AbsolutePath(t: Tree, present: set<File>, cur: File, q: string)
    requires t.Valid() && cur in t.parent && t.mf.name == Some("MF") && NotAnApp(t, "MF") && t.mf in present
    ensures t.mf in t.parent
    ensures Follow(t, cur, PathElements("/" + q)) == Follow(t, t.mf, Split(q))
    ensures Resolve(t, present, cur, PathElements("/" + q)) == Resolve(t, present, t.mf, Split(q))
  {
    hide Split, TableOf, Tree.Linked, Norm;
    AbsoluteElements(q);
    var names := ["MF"] + Split(q);
    assert names[0] == "MF" && names[1..] == Split(q);
    MfByName(t, cur);
    MfIsPlain();
    FollowHead(t, cur, names);
    ResolveOne(t, present, cur, "MF");
    ResolveHead(t, present, cur, names);
  }

  lemma MfIsPlain()
    ensures Norm("MF") == "MF"
  {
    assert !IsHexDigit("MF"[0]);
  }

  /** What one more element does to the rest of the walk. */
  lemma OneFurther(t: Tree, present: set<File>, from: File, names: seq<string>, i: nat)
    requires t.Valid() && from in t.parent && i < |names|
    ensures var head := Resolve(t, present, from, [names[i]]);
            if head.Arrived? then
              && head.file in t.parent
              && Resolve(t, present, from, names[i..]) == Resolve(t, present, head.file, names[i + 1..])
            else Resolve(t, present, from, names[i..]) == head
  {
    ResolveHead(t, present, from, names[i..]);
    assert names[i..][1..] == names[i + 1..];
  }

  /** The card has every file the path leads through. */
  ghost predicate AllThere(t: Tree, present: set<File>, cur: File, ids: seq<string>)
    requires t.Valid() && cur in t.parent
    decreases ids
  {
    ids != [] && Lookup(t, cur, ids[0]).Some? ==>
      var next := Lookup(t, cur, ids[0]).value;
      TableEntryInTree(t, cur, ids[0]);
      next in present && AllThere(t, present, next, ids[1..])
  }

  /**
   Pure resolution agrees with selection: if no element is upper-case hex, `select` arrives at
   a file exactly if looking the path up finds that file and the card has all of the way there.
   */
  lemma {:induction false} ResolutionAgrees(t: Tree, present: set<File>, cur: File, names: seq<string>)
    requires t.Valid() && cur in t.parent
    requires forall n :: n in names ==> Norm(n) == n
    ensures forall f :: Resolve(t, present, cur, names) == Arrived(f) <==>
              Follow(t, cur, names) == Some(f) && AllThere(t, present, cur, names)
    decreases names
  {
    if names != [] {
      assert Norm(names[0]) == names[0];
      var next := Lookup(t, cur, names[0]);
      if next.Some? {
        TableEntryInTree(t, cur, names[0]);
        ResolutionAgrees(t, present, next.value, names[1..]);
      }
    }
  }

  /** From a directory the MF, the directory, its parent and its children are selectable by FID. */
  lemma SelectableByFid(t: Tree, f: File, g: File)
    requires t.Linked() && f in t.parent && f.IsDir() && g.fid.Some?
    requires g == t.mf || g == f || g == t.parent[f] || g in t.Kids(f)
    ensures g.fid.value in TableOf(t, f)
  {
    var fid := g.fid.value;
    if g in t.Kids(f) {
      FidIsListed(t.Kids(f), g);
      assert fid in LowerTable(t, f);
    } else {
      assert fid in UpperTable(t, f);
    }
  }
}
