/**
 With an EF selected, `select` looks a name up from the EF, `get_file_by_name` from its directory. For which names these
 two lead to the same file.
 */
module SelectedEf {
  import opened Wrappers
  import opened CardFiles
  import opened FileTree
  import opened SelectPaths
  import opened Selectables
  import opened Names

  lemma {:induction false} WithoutInFids(files: seq<File>, f: File, id: string)
    requires !Denotes(id, f)
    ensures SameAt(FidTable(Without(files, f)), FidTable(files), id)
  {
    if files != [] {
      var front, last := files[..|files| - 1], files[|files| - 1];
      WithoutInFids(front, f, id);
      var w := Without(files, f);
      if last == f {
        assert w == Without(front, f);
      } else {
        assert w[..|w| - 1] == Without(front, f) && w[|w| - 1] == last;
      }
    }
  }

  lemma {:induction false} WithoutInNames(files: seq<File>, f: File, id: string)
    requires !Denotes(id, f)
    ensures SameAt(NameTable(Without(files, f)), NameTable(files), id)
  {
    if files != [] {
      var front, last := files[..|files| - 1], files[|files| - 1];
      WithoutInNames(front, f, id);
      var w := Without(files, f);
      if last == f {
        assert w == Without(front, f);
      } else {
        assert w[..|w| - 1] == Without(front, f) && w[|w| - 1] == last;
      }
    }
  }

  /** Two tables agree on an identifier. */
  predicate SameAt(a: Table, b: Table, id: string) {
    (id in a <==> id in b) && (id in a ==> a[id] == b[id])
  }

  /** A name that does not denote the EF leads to the same file from the EF and from its directory, applications aside. */
  lemma {:induction false} OtherIdAgrees(t: Tree, f: File, id: string)
    requires t.Valid() && f in t.parent && f.kind == Ef
    requires id != "." && id != ".." && !Denotes(id, f)
    requires t.parent[f] == t.mf ==> NotAnApp(t, id)
    ensures Cwd(t, f) in t.parent && Lookup(t, f, id) == Lookup(t, Cwd(t, f), id)
  {
    var d := t.parent[f];
    assert t.UpOk(f) && t.UpOk(d);
    assert SameAt(LowerTable(t, f), LowerTable(t, d), id) by {
      WithoutInFids(t.Kids(d), f, id);
      WithoutInNames(t.Kids(d), f, id);
      if d == t.mf {
        NotInAppTable(t, id);
      }
    }
    UpperTableOfParent(t, f, id);
    hide LowerTable, UpperTable;
  }

  /** A file and its directory have the same above them, as far as names other than theirs and the aliases go. */
  lemma UpperTableOfParent(t: Tree, f: File, id: string)
    requires t.Linked() && f in t.parent && f != t.mf
    requires id != "." && id != ".." && !Denotes(id, f)
    ensures SameAt(UpperTable(t, f), UpperTable(t, t.parent[f]), id)
  {
    hide SelfTable, AppTable, Tree.Linked;
    var d := t.parent[f];
    OnlyAliases(f, d, id);
    AboveParent(t, f, id);
    Overlay(SelfTable(f, Some(".")), SelfTable(d, Some("..")), SelfTable(d, Some(".")), ParentTable(t, d, None),
            ParentTable(t, d, Some("..")), SelfTable(t.mf, None), AppTable(t.apps), id);
  }

  lemma OnlyAliases(f: File, d: File, id: string)
    requires id != "." && id != ".." && !Denotes(id, f)
    ensures id !in SelfTable(f, Some(".")) && SameAt(SelfTable(d, Some("..")), SelfTable(d, Some(".")), id)
  {
  }

  /** What is above the directory, with and without the alias for its parent. */
  lemma AboveParent(t: Tree, f: File, id: string)
    requires t.Linked() && f in t.parent && f != t.mf && id != ".."
    ensures var d := t.parent[f];
            && d in t.parent && ParentTable(t, f, Some("..")) == SelfTable(d, Some("..")) + ParentTable(t, d, None)
            && SameAt(ParentTable(t, d, None), ParentTable(t, d, Some("..")), id)
  {
    hide Tree.Linked, SelfTable, ParentTable;
    ParentTableIs(t, f, Some(".."));
    var d := t.parent[f];
    ParentTableIs(t, d, None);
    ParentTableIs(t, d, Some(".."));
    if d != t.mf {
      AliasAside(t.parent[d], id);
      Underneath(SelfTable(t.parent[d], None), SelfTable(t.parent[d], Some("..")), ParentTable(t, t.parent[d], None), id);
    }
  }

  lemma AliasAside(f: File, id: string)
    requires id != ".."
    ensures SameAt(SelfTable(f, None), SelfTable(f, Some("..")), id)
  {
  }

  lemma Underneath(a: Table, b: Table, c: Table, id: string)
    requires SameAt(a, b, id)
    ensures SameAt(a + c, b + c, id)
  {
  }

  lemma Overlay(self: Table, dots: Table, dot: Table, above: Table, above2: Table, mf: Table, apps: Table, id: string)
    requires id !in self && SameAt(dots, dot, id) && SameAt(above, above2, id)
    ensures SameAt(self + (dots + above) + mf + apps, dot + above2 + mf + apps, id)
  {
  }

  /** No file above `f`, nor the MF, nor an application answers to `id`. */
  ghost predicate UnusedAbove(t: Tree, f: File, id: string)
    requires t.Linked() && f in t.parent
  {
    NotAnApp(t, id) && !Denotes(id, t.mf) && forall g :: g in t.parent && t.ProperlyAbove(g, f) ==> !Denotes(id, g)
  }

  /**
   The dot aliases do differ. With an EF selected `.` is the EF for `select`, its directory for `get_file_by_name`;
   `..` is its directory for `select`, the directory above for `get_file_by_name`, and nothing there in the MF.
   */
  lemma DotsOfSelectedEf(t: Tree, f: File)
    requires t.Valid() && f in t.parent && f.kind == Ef && UnusedAbove(t, f, ".") && UnusedAbove(t, f, "..")
    ensures Cwd(t, f) in t.parent && t.parent[f] != f
    ensures Lookup(t, f, ".") == Some(f) && Lookup(t, Cwd(t, f), ".") == Some(t.parent[f])
    ensures Lookup(t, f, "..") == Some(t.parent[f])
    ensures var d := t.parent[f]; Lookup(t, Cwd(t, f), "..") == if d == t.mf then None else Some(t.parent[d])
    ensures forall id :: id == "." || id == ".." ==> Lookup(t, f, id) != Lookup(t, Cwd(t, f), id)
  {
    hide TableOf, Lookup, Tree.Linked, Denotes, Tree.Above;
    var d := t.parent[f];
    assert t.UpOk(f) && t.UpOk(d);
    UnusedAboveParent(t, f, ".");
    UnusedAboveParent(t, f, "..");
    OneUp(t, f);
    OneUp(t, d);
    OnlySelfIsDot(t, f);
    OnlySelfIsDot(t, d);
    OnlyParentIsDotDot(t, f);
    if d != t.mf {
      UnusedAboveParent(t, d, "..");
    }
    OnlyParentIsDotDot(t, d);
  }

  lemma UnusedAboveParent(t: Tree, f: File, id: string)
    requires t.Linked() && f in t.parent && f != t.mf && UnusedAbove(t, f, id)
    ensures t.parent[f] in t.parent && UnusedAbove(t, t.parent[f], id) && !Denotes(id, t.parent[f])
  {
    hide Denotes;
    var d := t.parent[f];
    assert t.Above(d, d);
    forall g | g in t.parent && t.ProperlyAbove(g, d)
      ensures t.ProperlyAbove(g, f)
    {
      assert t.Above(g, d);
    }
  }

  lemma OnlySelfIsDot(t: Tree, f: File)
    requires t.Valid() && f in t.parent && UnusedAbove(t, f, ".")
    ensures Lookup(t, f, ".") == Some(f)
  {
    hide LowerTable, AppTable, ParentTable, Tree.Linked, Tree.Above, Denotes;
    assert "." in SelfTable(f, Some(".")) && "." in TableOf(t, f);
    TableEntry(t, f, ".");
    NothingListedIsDot(t, f);
    TableEntryInTree(t, f, ".");
  }

  lemma NothingListedIsDot(t: Tree, f: File)
    requires t.Valid() && f in t.parent
    ensures forall c :: c in Listed(t, f) ==> !Denotes(".", c) && !Denotes("..", c)
  {
    hide Listed, Tree.Valid, Tree.Linked;
    ListedAreChildren(t, f);
    forall c | c in Listed(t, f)
      ensures !Denotes(".", c) && !Denotes("..", c)
    {
      ChildIsNoDot(t, Cwd(t, f), c);
    }
  }

  lemma ChildIsNoDot(t: Tree, d: File, c: File)
    requires t.ChildOk(d, c)
    ensures !Denotes(".", c) && !Denotes("..", c)
  {
    assert RESERVED_NAMES[0] == ".." && RESERVED_NAMES[1] == ".";
  }

  /** Nothing else answers to `..`, so it is the parent, or nothing for the MF. */
  lemma OnlyParentIsDotDot(t: Tree, f: File)
    requires t.Valid() && f in t.parent && UnusedAbove(t, if f == t.mf then f else t.parent[f], "..")
    ensures Lookup(t, f, "..") == if f == t.mf then None else Some(t.parent[f])
  {
    hide LowerTable, Listed, AppTable, ParentTable, SelfTable, Denotes, Tree.Linked, Tree.Valid, Tree.Above;
    CwdInTree(t, f);
    NothingListedIsDot(t, f);
    NotInLowerTable(t, f, "..");
    NotInAppTable(t, "..");
    DotDotAbove(t, f);
    MfInSelfTable(t.mf, "..");
    TopTwo(SelfTable(f, Some(".")), ParentTable(t, f, Some("..")), SelfTable(t.mf, None), AppTable(t.apps), "..");
    if f == t.mf {
      DotInSelfTable(f, "..");
    }
  }

  lemma TopTwo(a: Table, b: Table, c: Table, d: Table, id: string)
    requires id !in c && id !in d
    ensures id in a + b + c + d <==> id in a || id in b
    ensures id in b ==> (a + b + c + d)[id] == b[id]
  {
  }

  lemma DotInSelfTable(f: File, id: string)
    requires id != "." && !Denotes(id, f)
    ensures id !in SelfTable(f, Some("."))
  {
  }

  lemma NotInLowerTable(t: Tree, f: File, id: string)
    requires t.Linked() && f in t.parent && NotAnApp(t, id) && forall c :: c in Listed(t, f) ==> !Denotes(id, c)
    ensures id !in LowerTable(t, f)
  {
    NotInAppTable(t, id);
    FidTableEntry(Listed(t, f), id);
    NameTableEntry(Listed(t, f), id);
  }

  lemma DotDotAbove(t: Tree, f: File)
    requires t.Linked() && f in t.parent && UnusedAbove(t, if f == t.mf then f else t.parent[f], "..")
    ensures if f == t.mf then ".." !in ParentTable(t, f, Some(".."))
            else ".." in ParentTable(t, f, Some("..")) && ParentTable(t, f, Some(".."))[".."] == t.parent[f]
  {
    hide Tree.Linked, Denotes, Tree.Above, ParentTable, SelfTable, UnusedAbove;
    ParentTableIs(t, f, Some(".."));
    if f != t.mf {
      var d := t.parent[f];
      NotInParentTable(t, d, "..");
      AliasOfSelf(d, "..");
      Undermost(SelfTable(d, Some("..")), ParentTable(t, d, None), "..");
    }
  }

  lemma NotInParentTable(t: Tree, f: File, id: string)
    requires t.Linked() && f in t.parent && UnusedAbove(t, f, id)
    ensures id !in ParentTable(t, f, None)
  {
    hide Tree.Linked, Tree.Above, Denotes;
    if id in ParentTable(t, f, None) {
      ParentTableEntry(t, f, None, id);
    }
  }

  lemma ParentTableIs(t: Tree, f: File, alias: Option<string>)
    requires t.Linked() && f in t.parent
    ensures t.parent[f] in t.parent
    ensures ParentTable(t, f, alias) ==
            if f == t.mf then map[] else SelfTable(t.parent[f], alias) + ParentTable(t, t.parent[f], None)
  {
    hide Tree.Linked, SelfTable;
    OneUp(t, f);
  }

  lemma AliasOfSelf(f: File, alias: string)
    ensures alias in SelfTable(f, Some(alias)) && SelfTable(f, Some(alias))[alias] == f
  {
  }

  /** What a later table does not have, it does not override. */
  lemma Undermost(a: Table, b: Table, id: string)
    requires id !in b
    ensures SameAt(a + b, a, id)
  {
  }

  /** Another child of the EF's directory has this name. */
  ghost predicate SiblingNamed(t: Tree, f: File, id: string)
    requires f in t.parent
  {
    exists c :: c in t.Kids(t.parent[f]) && c != f && c.name == Some(id)
  }

  /** Another child of the EF's directory has this FID. */
  ghost predicate SiblingWithFid(t: Tree, f: File, id: string)
    requires f in t.parent
  {
    exists c :: c in t.Kids(t.parent[f]) && c != f && c.fid == Some(id)
  }

  /**
   One of the EF's own identifiers leads to the same file either way if and only if a sibling carries it as its name, or
   no sibling has it as its FID and nothing above answers to it; applications aside if the EF is in the MF.
   */
  lemma OwnIdAgrees(t: Tree, f: File, id: string)
    requires t.Valid() && f in t.parent && f.kind == Ef && Denotes(id, f) && id != "." && id != ".."
    requires t.parent[f] == t.mf ==> NotAnApp(t, id)
    ensures Cwd(t, f) in t.parent
    ensures Lookup(t, f, id) == Lookup(t, Cwd(t, f), id) <==>
            SiblingNamed(t, f, id) || (!SiblingWithFid(t, f, id) && UnusedAbove(t, f, id))
  {
    hide Lookup, Denotes, Tree.Linked, Tree.Above, SiblingNamed, SiblingWithFid, UnusedAbove;
    assert t.UpOk(f);
    if SiblingNamed(t, f, id) {
      NamedSiblingIsFound(t, f, id);
    } else {
      OwnIdFromDirectory(t, f, id);
      OwnIdFromEf(t, f, id);
    }
  }

  /** A named sibling is what both find. */
  lemma NamedSiblingIsFound(t: Tree, f: File, id: string)
    requires t.Valid() && f in t.parent && f.kind == Ef && SiblingNamed(t, f, id)
    requires t.parent[f] == t.mf ==> NotAnApp(t, id)
    ensures Cwd(t, f) in t.parent && Lookup(t, f, id) == Lookup(t, Cwd(t, f), id)
  {
    hide Tree.Linked, FidTable, UpperTable;
    var d := t.parent[f];
    assert t.UpOk(f) && t.UpOk(d) && t.DownOk(d);
    var c :| c in t.Kids(d) && c != f && c.name == Some(id);
    SiblingsHaveDistinctNames(t, d);
    NameDenotes(t.Kids(d), c);
    WithoutKeepsOthers(t.Kids(d), f);
    NameIsListed(Listed(t, f), c);
    NameTableEntry(Listed(t, f), id);
    OnlyOneNamed(t.Kids(d), c, NameTable(Listed(t, f))[id]);
    if d == t.mf {
      NotInAppTable(t, id);
    }
  }

  lemma OnlyOneNamed(files: seq<File>, a: File, b: File)
    requires DistinctNames(files) && a in files && b in files && a.name.Some? && a.name == b.name
    ensures a == b
  {
    var i :| 0 <= i < |files| && files[i] == a;
    var j :| 0 <= j < |files| && files[j] == b;
    assert SameName(files[i], files[j]) && SameName(files[j], files[i]);
  }

  lemma OnlyOneWithFid(t: Tree, d: File, a: File, b: File)
    requires t.DownOk(d) && a in t.Kids(d) && b in t.Kids(d) && a.fid == b.fid
    ensures a == b
  {
    var i :| 0 <= i < |t.Kids(d)| && t.Kids(d)[i] == a;
    var j :| 0 <= j < |t.Kids(d)| && t.Kids(d)[j] == b;
    assert Clash(t.Kids(d)[i], t.Kids(d)[j]) && Clash(t.Kids(d)[j], t.Kids(d)[i]);
  }

  /** From the directory, an identifier no other child has as its name leads to the child that has it. */
  lemma OwnIdFromDirectory(t: Tree, f: File, id: string)
    requires t.Valid() && f in t.parent && f.kind == Ef && Denotes(id, f) && !SiblingNamed(t, f, id)
    requires t.parent[f] == t.mf ==> NotAnApp(t, id)
    ensures Cwd(t, f) in t.parent && Lookup(t, Cwd(t, f), id) == Some(f)
  {
    hide Tree.Linked, UpperTable, Tree.Valid;
    EfInDirectory(t, f);
    var d := t.parent[f];
    if d == t.mf {
      NotInAppTable(t, id);
    }
    FidTableEntry(t.Kids(d), id);
    NameTableEntry(t.Kids(d), id);
    if f.name == Some(id) {
      NameIsListed(t.Kids(d), f);
    } else {
      FidIsListed(t.Kids(d), f);
      OnlyOneWithFid(t, d, f, FidTable(t.Kids(d))[id]);
    }
  }

  lemma EfInDirectory(t: Tree, f: File)
    requires t.Valid() && f in t.parent && f.kind == Ef
    ensures var d := t.parent[f];
            && t.Linked() && d in t.parent && d.IsDir() && f != t.mf && f in t.Kids(d) && t.DownOk(d) && Cwd(t, f) == d
            && (d.kind == Mf <==> d == t.mf)
  {
    assert t.UpOk(f) && t.UpOk(t.parent[f]) && t.DownOk(t.parent[f]);
  }

  /** A sibling with the FID is what the EF finds instead of itself. */
  lemma FidSiblingWins(t: Tree, f: File, id: string)
    requires t.Valid() && f in t.parent && f.kind == Ef && SiblingWithFid(t, f, id)
    ensures Lookup(t, f, id) != Some(f)
  {
    hide Tree.Linked, Tree.Valid, UpperTable;
    EfInDirectory(t, f);
    WithoutKeepsOthers(t.Kids(t.parent[f]), f);
    FidTableEntry(Listed(t, f), id);
    NameTableEntry(Listed(t, f), id);
    var c :| c in t.Kids(t.parent[f]) && c != f && c.fid == Some(id);
    FidIsListed(Listed(t, f), c);
  }

  lemma SiblingsDoNotAnswer(t: Tree, f: File, id: string)
    requires t.Valid() && f in t.parent && f.kind == Ef && !SiblingNamed(t, f, id) && !SiblingWithFid(t, f, id)
    ensures t.Linked() && id !in LowerTable(t, f)
  {
    hide Tree.Linked, Tree.Valid;
    EfInDirectory(t, f);
    WithoutKeepsOthers(t.Kids(t.parent[f]), f);
    FidTableEntry(Listed(t, f), id);
    NameTableEntry(Listed(t, f), id);
  }

  /** Among what every file has, an own identifier leads to the file if nothing above has it. */
  lemma OwnIdAmongUpper(t: Tree, f: File, id: string)
    requires t.Linked() && f in t.parent && f != t.mf && Denotes(id, f) && id != ".." && f !in t.apps
    ensures id in UpperTable(t, f) && (UpperTable(t, f)[id] == f <==> UnusedAbove(t, f, id))
  {
    hide Tree.Linked, ParentTable, AppTable, SelfTable, Denotes;
    InAppTable(t, id);
    AboveInParentTable(t, f, Some(".."), id);
    OwnInSelfTable(f, Some("."), id);
    MfInSelfTable(t.mf, id);
    FourTables(SelfTable(f, Some(".")), ParentTable(t, f, Some("..")), SelfTable(t.mf, None), AppTable(t.apps), id);
  }

  lemma EfIsNoApp(t: Tree, f: File)
    requires t.AppsOk() && f.kind == Ef
    ensures f !in t.apps
  {
  }

  /** The table of the applications has exactly their identifiers. */
  lemma InAppTable(t: Tree, id: string)
    ensures id in AppTable(t.apps) <==> !NotAnApp(t, id)
    ensures id in AppTable(t.apps) ==> AppTable(t.apps)[id] in t.apps
  {
    NameTableEntry(t.apps, id);
    AidTableEntry(t.apps, id);
    if a :| a in t.apps && (a.aid == id || a.name == Some(id)) {
      if a.name == Some(id) {
        NameIsListed(t.apps, a);
      } else {
        AidIsListed(t.apps, a);
      }
    }
  }

  lemma {:induction false} AidIsListed(files: seq<File>, a: File)
    requires a in files
    ensures a.aid in AidTable(files)
  {
    if a in files[..|files| - 1] {
      AidIsListed(files[..|files| - 1], a);
    }
  }

  lemma OwnInSelfTable(f: File, alias: Option<string>, id: string)
    requires Denotes(id, f)
    ensures id in SelfTable(f, alias) && SelfTable(f, alias)[id] == f
  {
  }

  lemma MfInSelfTable(mf: File, id: string)
    ensures id in SelfTable(mf, None) <==> Denotes(id, mf)
    ensures id in SelfTable(mf, None) ==> SelfTable(mf, None)[id] == mf
  {
  }

  /** Of four tables laid over each other the last one that has the identifier counts. */
  lemma FourTables(a: Table, b: Table, c: Table, d: Table, id: string)
    requires id in a
    ensures id in a + b + c + d
    ensures (a + b + c + d)[id] ==
            if id in d then d[id] else if id in c then c[id] else if id in b then b[id] else a[id]
  {
  }

  /** From the EF itself it leads there only if nothing else there or above has it. */
  lemma OwnIdFromEf(t: Tree, f: File, id: string)
    requires t.Valid() && f in t.parent && f.kind == Ef && Denotes(id, f) && id != "." && id != ".."
    requires !SiblingNamed(t, f, id)
    ensures Lookup(t, f, id) == Some(f) <==> !SiblingWithFid(t, f, id) && UnusedAbove(t, f, id)
  {
    hide Tree.Linked, UpperTable, LowerTable, UnusedAbove, SiblingNamed, SiblingWithFid, NotAnApp, Denotes;
    EfInDirectory(t, f);
    if SiblingWithFid(t, f, id) {
      FidSiblingWins(t, f, id);
    } else {
      SiblingsDoNotAnswer(t, f, id);
      EfIsNoApp(t, f);
      OwnIdAmongUpper(t, f, id);
    }
  }

  /** The table of what is above holds exactly the identifiers of the files above, and the alias. */
  lemma {:induction false} AboveInParentTable(t: Tree, f: File, alias: Option<string>, id: string)
    requires t.Linked() && f in t.parent && alias != Some(id)
    ensures id in ParentTable(t, f, alias) <==> exists g :: g in t.parent && t.ProperlyAbove(g, f) && Denotes(id, g)
    ensures id in ParentTable(t, f, alias) ==> ParentTable(t, f, alias)[id] != f
    decreases t.rank[f]
  {
    hide Tree.Linked, Denotes;
    OneUp(t, f);
    if id in ParentTable(t, f, alias) {
      ParentTableEntry(t, f, alias, id);
      NotAboveItself(t, f);
    }
    if g :| g in t.parent && t.ProperlyAbove(g, f) && Denotes(id, g) {
      if g != t.parent[f] {
        AboveInParentTable(t, t.parent[f], None, id);
        assert t.ProperlyAbove(g, t.parent[f]);
      } else {
        OwnInSelfTable(g, alias, id);
      }
    }
  }

  // ---------------------------------------------------------------------------------------
  // All identifiers

  /** What an identifier leads to among the other children of the EF's directory; a name goes before a FID. */
  ghost predicate IsSibling(t: Tree, f: File, id: string, c: File)
    requires f in t.parent
  {
    && c in t.Kids(t.parent[f]) && c != f
    && (c.name == Some(id) || (c.fid == Some(id) && !SiblingNamed(t, f, id)))
  }

  lemma NamedIsListed(t: Tree, f: File, id: string)
    requires t.Valid() && f in t.parent && f.kind == Ef && SiblingNamed(t, f, id)
    ensures id in LowerTable(t, f) && forall c :: IsSibling(t, f, id, c) <==> LowerTable(t, f)[id] == c
  {
    hide Tree.Linked, FidTable;
    EfInDirectory(t, f);
    var d := t.parent[f];
    WithoutKeepsOthers(t.Kids(d), f);
    SiblingsHaveDistinctNames(t, d);
    var c :| c in t.Kids(d) && c != f && c.name == Some(id);
    NameIsListed(Listed(t, f), c);
    NameTableEntry(Listed(t, f), id);
    forall b | b in t.Kids(d) && b.name == Some(id)
      ensures b == c
    {
      OnlyOneNamed(t.Kids(d), c, b);
    }
  }

  lemma FidIsListedOnly(t: Tree, f: File, id: string)
    requires t.Valid() && f in t.parent && f.kind == Ef && !SiblingNamed(t, f, id) && SiblingWithFid(t, f, id)
    ensures id in LowerTable(t, f) && forall c :: IsSibling(t, f, id, c) <==> LowerTable(t, f)[id] == c
  {
    hide Tree.Linked, Tree.Valid;
    EfInDirectory(t, f);
    var d := t.parent[f];
    WithoutKeepsOthers(t.Kids(d), f);
    var c :| c in t.Kids(d) && c != f && c.fid == Some(id);
    FidIsListed(Listed(t, f), c);
    FidTableEntry(Listed(t, f), id);
    NameTableEntry(Listed(t, f), id);
    forall b | b in t.Kids(d) && b.fid == Some(id)
      ensures b == c
    {
      OnlyOneWithFid(t, d, c, b);
    }
  }

  lemma NoSibling(t: Tree, f: File, id: string)
    requires f in t.parent && !SiblingNamed(t, f, id) && !SiblingWithFid(t, f, id)
    ensures forall c :: !IsSibling(t, f, id, c)
  {
  }

  /** That is what an EF lists. */
  lemma EfLists(t: Tree, f: File, id: string)
    requires t.Valid() && f in t.parent && f.kind == Ef
    ensures forall c :: IsSibling(t, f, id, c) <==> id in LowerTable(t, f) && LowerTable(t, f)[id] == c
  {
    hide Tree.Linked, Tree.Valid, SiblingNamed, SiblingWithFid, LowerTable, IsSibling;
    if SiblingNamed(t, f, id) {
      NamedIsListed(t, f, id);
    } else if SiblingWithFid(t, f, id) {
      FidIsListedOnly(t, f, id);
    } else {
      SiblingsDoNotAnswer(t, f, id);
      NoSibling(t, f, id);
    }
  }

  /** An application is what its identifier leads to from the MF. */
  lemma AppFromMf(t: Tree, id: string)
    requires t.Linked() && t.mf.kind == Mf && id in AppTable(t.apps)
    ensures Lookup(t, t.mf, id) == Some(AppTable(t.apps)[id])
  {
    hide Tree.Linked, AppTable, FidTable, NameTable, UpperTable;
  }

  /** From an EF, too, unless a sibling comes first. */
  lemma AppFromEf(t: Tree, f: File, id: string)
    requires t.Valid() && f in t.parent && f.kind == Ef && id in AppTable(t.apps)
    ensures Lookup(t, f, id) == Some(AppTable(t.apps)[id]) <==>
            forall c :: IsSibling(t, f, id, c) ==> c == AppTable(t.apps)[id]
  {
    hide Tree.Linked, Tree.Valid, AppTable, LowerTable, ParentTable, SelfTable, IsSibling;
    EfInDirectory(t, f);
    EfLists(t, f, id);
    if id in LowerTable(t, f) {
      assert IsSibling(t, f, id, LowerTable(t, f)[id]);
    }
  }

  // ---------------------------------------------------------------------------------------
  // The dot aliases

  /** Nothing that is listed takes a dot alias for itself, so it is an application or what is above that counts. */
  lemma DotIsAbove(t: Tree, f: File, id: string)
    requires t.Valid() && f in t.parent && (id == "." || id == "..")
    ensures id in AppTable(t.apps) ==> Lookup(t, f, id) == Some(AppTable(t.apps)[id])
    ensures id !in AppTable(t.apps) ==> id !in LowerTable(t, f)
  {
    hide Tree.Linked, Tree.Valid, AppTable, Listed, ParentTable, SelfTable;
    CwdInTree(t, f);
    NothingListedIsDot(t, f);
    FidTableEntry(Listed(t, f), id);
    NameTableEntry(Listed(t, f), id);
  }

  /** The MF, if it takes the alias for itself, comes before what is between. */
  lemma MfIsDot(t: Tree, f: File, id: string)
    requires t.Valid() && f in t.parent && (id == "." || id == "..") && id !in AppTable(t.apps) && Denotes(id, t.mf)
    ensures Lookup(t, f, id) == Some(t.mf)
  {
    hide Tree.Linked, Tree.Valid, AppTable, LowerTable, ParentTable, SelfTable, Denotes;
    CwdInTree(t, f);
    DotIsAbove(t, f, id);
    MfInSelfTable(t.mf, id);
    MfIsOver(SelfTable(f, Some(".")) + ParentTable(t, f, Some("..")), SelfTable(t.mf, None), AppTable(t.apps), id);
  }

  lemma MfIsOver(below: Table, mf: Table, apps: Table, id: string)
    requires id in mf && id !in apps
    ensures SameAt(below + mf + apps, mf, id)
  {
  }

  lemma DotLaidOver(self: Table, dots: Table, dot: Table, above: Table, above2: Table, mf: Table, apps: Table, id: string)
    requires SameAt(above, above2, id) && (id in above || (id in dots && SameAt(dots, dot, id)))
    ensures SameAt(self + (dots + above) + mf + apps, dot + above2 + mf + apps, id)
  {
  }

  lemma UpperTablesAlike(t: Tree, f: File, id: string)
    requires t.Linked() && f in t.parent && f != t.mf
    requires var d := t.parent[f];
             && d in t.parent && SameAt(ParentTable(t, d, None), ParentTable(t, d, Some("..")), id)
             && (id in ParentTable(t, d, None)
                 || (id in SelfTable(d, Some("..")) && SameAt(SelfTable(d, Some("..")), SelfTable(d, Some(".")), id)))
    ensures SameAt(UpperTable(t, f), UpperTable(t, t.parent[f]), id)
  {
    hide SelfTable, AppTable, Tree.Linked, ParentTable;
    var d := t.parent[f];
    ParentTableIs(t, f, Some(".."));
    DotLaidOver(SelfTable(f, Some(".")), SelfTable(d, Some("..")), SelfTable(d, Some(".")), ParentTable(t, d, None),
                ParentTable(t, d, Some("..")), SelfTable(t.mf, None), AppTable(t.apps), id);
  }

  /** Something above the EF, but neither the MF nor an application, takes the alias for itself. */
  ghost predicate TakenAbove(t: Tree, f: File, id: string)
    requires t.Linked() && f in t.parent
  {
    exists g :: g in t.parent && t.ProperlyAbove(g, f) && Denotes(id, g)
  }

  lemma DotTaken(t: Tree, f: File)
    requires t.Linked() && f in t.parent && f != t.mf && TakenAbove(t, f, ".")
    ensures t.parent[f] in t.parent && SameAt(UpperTable(t, f), UpperTable(t, t.parent[f]), ".")
  {
    hide SelfTable, Tree.Linked, ParentTable, UpperTable, Tree.Above, Denotes;
    var d := t.parent[f];
    AboveInParentTable(t, f, Some(".."), ".");
    AboveParent(t, f, ".");
    DotOfSelf(d);
    UpperTablesAlike(t, f, ".");
  }

  lemma DotOfSelf(d: File)
    ensures "." in SelfTable(d, Some("..")) ==> SameAt(SelfTable(d, Some("..")), SelfTable(d, Some(".")), ".")
    ensures ".." in SelfTable(d, None) ==> SameAt(SelfTable(d, None), SelfTable(d, Some("..")), "..")
  {
  }

  lemma DotDotTaken(t: Tree, f: File)
    requires t.Linked() && f in t.parent && f != t.mf && t.parent[f] in t.parent && TakenAbove(t, t.parent[f], "..")
    ensures SameAt(UpperTable(t, f), UpperTable(t, t.parent[f]), "..")
  {
    hide SelfTable, Tree.Linked, ParentTable, UpperTable, Tree.Above, Denotes;
    var d := t.parent[f];
    AboveInParentTable(t, d, None, "..");
    ParentTableIs(t, d, None);
    ParentTableIs(t, d, Some(".."));
    if d != t.mf {
      DotOfSelf(t.parent[d]);
      Over(SelfTable(t.parent[d], None), SelfTable(t.parent[d], Some("..")), ParentTable(t, t.parent[d], None), "..");
    }
    UpperTablesAlike(t, f, "..");
  }

  lemma Over(a: Table, b: Table, c: Table, id: string)
    requires id in a + c && (id in a ==> SameAt(a, b, id))
    ensures SameAt(a + c, b + c, id)
  {
  }

  lemma DotFromEf(t: Tree, f: File)
    requires t.Valid() && f in t.parent && f.kind == Ef
    ensures t.parent[f] in t.parent && t.Linked()
    ensures Lookup(t, f, ".") == Lookup(t, t.parent[f], ".") <==> !UnusedAbove(t, f, ".")
  {
    hide AppTable, LowerTable, UpperTable, Tree.Linked, Tree.Above, Denotes;
    EfInDirectory(t, f);
    var d := t.parent[f];
    InAppTable(t, ".");
    DotIsAbove(t, f, ".");
    DotIsAbove(t, d, ".");
    if UnusedAbove(t, f, ".") {
      UnusedAboveParent(t, f, ".");
      OnlySelfIsDot(t, f);
      OnlySelfIsDot(t, d);
    } else if "." !in AppTable(t.apps) {
      if Denotes(".", t.mf) {
        MfIsDot(t, f, ".");
        MfIsDot(t, d, ".");
      } else {
        DotTaken(t, f);
      }
    }
  }

  lemma DotDotFromEf(t: Tree, f: File)
    requires t.Valid() && f in t.parent && f.kind == Ef
    ensures t.parent[f] in t.parent && t.Linked()
    ensures Lookup(t, f, "..") == Lookup(t, t.parent[f], "..") <==> !UnusedAbove(t, t.parent[f], "..")
  {
    hide AppTable, LowerTable, UpperTable, Tree.Linked, Tree.Above, Denotes;
    EfInDirectory(t, f);
    var d := t.parent[f];
    InAppTable(t, "..");
    DotIsAbove(t, f, "..");
    DotIsAbove(t, d, "..");
    if UnusedAbove(t, d, "..") {
      OnlyParentIsDotDot(t, f);
      if d != t.mf {
        UnusedAboveParent(t, d, "..");
        OneUp(t, d);
      }
      OnlyParentIsDotDot(t, d);
    } else if ".." !in AppTable(t.apps) {
      if Denotes("..", t.mf) {
        MfIsDot(t, f, "..");
        MfIsDot(t, d, "..");
      } else {
        DotDotTaken(t, f);
      }
    }
  }

  // ---------------------------------------------------------------------------------------

  /** For which identifiers both lead to the same file. */
  ghost predicate AlikeFromEf(t: Tree, f: File, id: string)
    requires t.Linked() && f in t.parent
  {
    if id == "." then !UnusedAbove(t, f, id)
    else if id == ".." then t.parent[f] in t.parent && !UnusedAbove(t, t.parent[f], id)
    else if t.parent[f] == t.mf && id in AppTable(t.apps) then
      forall c :: IsSibling(t, f, id, c) ==> c == AppTable(t.apps)[id]
    else
      !Denotes(id, f) || SiblingNamed(t, f, id) || (!SiblingWithFid(t, f, id) && UnusedAbove(t, f, id))
  }

  /**
   Whatever the identifier, it leads to the same file from the EF and from its directory exactly if: for an application's
   identifier and an EF of the MF, no other child of the MF comes before the application; for any other that does not
   denote the EF, always; for one of the EF's own, a sibling carries it as its name, or no sibling has it as its FID and
   nothing above answers to it; for a dot alias, something above takes it for itself.
   */
  lemma {:induction false} SelectedEfAgrees(t: Tree, f: File, id: string)
    requires t.Valid() && f in t.parent && f.kind == Ef
    ensures Cwd(t, f) in t.parent
    ensures Lookup(t, f, id) == Lookup(t, Cwd(t, f), id) <==> AlikeFromEf(t, f, id)
  {
    hide Lookup, AppTable, Denotes, Tree.Linked, Tree.Above, SiblingNamed, SiblingWithFid, UnusedAbove, IsSibling,
      NotAnApp;
    EfInDirectory(t, f);
    InAppTable(t, id);
    if id == "." {
      DotFromEf(t, f);
    } else if id == ".." {
      DotDotFromEf(t, f);
    } else if t.parent[f] == t.mf && id in AppTable(t.apps) {
      AppFromMf(t, id);
      AppFromEf(t, f, id);
    } else if Denotes(id, f) {
      OwnIdAgrees(t, f, id);
    } else {
      OtherIdAgrees(t, f, id);
    }
  }

  /** So an application of its own name is found from every EF in the MF, if no child of the MF carries that name. */
  lemma {:induction false} AppFromSelectedEf(t: Tree, f: File, a: File)
    requires t.Valid() && f in t.parent && f.kind == Ef && t.parent[f] == t.mf
    requires a in t.apps && a.name.Some? && DistinctNames(t.apps)
    requires forall c :: c in t.Kids(t.mf) ==> !Denotes(a.name.value, c)
    ensures Lookup(t, f, a.name.value) == Some(a) && Lookup(t, t.mf, a.name.value) == Some(a)
  {
    hide Lookup, Tree.Linked, Tree.Valid, AidTable, NameTable;
    EfInDirectory(t, f);
    NameDenotes(t.apps, a);
    AppFromMf(t, a.name.value);
    AppFromEf(t, f, a.name.value);
  }

  /** One of the EF's own identifiers, whatever else carries it. */
  lemma {:induction false} OwnIdOfSelectedEf(t: Tree, f: File, id: string)
    requires t.Valid() && f in t.parent && f.kind == Ef && Denotes(id, f)
    ensures Cwd(t, f) in t.parent
    ensures Lookup(t, f, id) == Lookup(t, Cwd(t, f), id) <==>
            if t.parent[f] == t.mf && id in AppTable(t.apps) then
              forall c :: IsSibling(t, f, id, c) ==> c == AppTable(t.apps)[id]
            else
              SiblingNamed(t, f, id) || (!SiblingWithFid(t, f, id) && UnusedAbove(t, f, id))
  {
    hide Lookup, AppTable, Denotes, Tree.Linked, Tree.Above, SiblingNamed, SiblingWithFid, UnusedAbove, IsSibling;
    EfInDirectory(t, f);
    ChildIsNoDot(t, t.parent[f], f);
    SelectedEfAgrees(t, f, id);
  }

  /**
   A path whose first element leads to the same file leads to the same file either way; for a single element this is
   also needed.
   */
  lemma {:induction false} PathFromSelectedEf(t: Tree, f: File, names: seq<string>)
    requires t.Valid() && f in t.parent && f.kind == Ef && names != []
    ensures Cwd(t, f) in t.parent
    ensures AlikeFromEf(t, f, names[0]) ==> Follow(t, f, names) == Follow(t, Cwd(t, f), names)
    ensures |names| == 1 && Follow(t, f, names) == Follow(t, Cwd(t, f), names) ==> AlikeFromEf(t, f, names[0])
  {
    hide Lookup, Follow, AlikeFromEf, Tree.Linked;
    CwdInTree(t, f);
    SelectedEfAgrees(t, f, names[0]);
    FollowHead(t, f, names);
    FollowHead(t, Cwd(t, f), names);
    if |names| == 1 {
      assert names[1..] == [];
      if Lookup(t, f, names[0]).Some? {
        FollowNothing(t, Lookup(t, f, names[0]).value);
      }
      if Lookup(t, Cwd(t, f), names[0]).Some? {
        FollowNothing(t, Lookup(t, Cwd(t, f), names[0]).value);
      }
    }
  }
}
