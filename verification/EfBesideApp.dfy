/**
 Inputs on which a selected EF and its directory, the MF, take one identifier for different files.
 */
module EfBesideApp {
  import opened Wrappers
  import opened CardFiles
  import opened FileTree
  import opened SelectPaths
  import opened Selectables
  import opened Names
  import opened SelectedEf

  /** An MF, two EFs that `add_file` attaches to it, and an application that `add_application_df` registers. */
  predicate Beside(mf: File, f: File, g: File, a: File) {
    && mf.kind == Mf && mf.fid.Some? && f.kind == Ef && g.kind == Ef && a.kind == Adf
    && Eligible(f) && Eligible(g) && !Clash(f, g)
  }

  function Four(mf: File, f: File, g: File, a: File): Tree {
    Tree(mf, map[mf := mf, f := mf, g := mf, a := mf], map[mf := [f, g]], [a], map[mf := 0, f := 1, g := 1, a := 1], 1)
  }

  /** What the tree looks like. */
  ghost predicate HasFour(t: Tree, mf: File, f: File, g: File, a: File) {
    && t.mf == mf && t.apps == [a] && t.bound == 1
    && (forall x :: x in t.parent <==> x == mf || x == f || x == g || x == a)
    && (forall x :: x in t.rank <==> x == mf || x == f || x == g || x == a)
    && t.parent[mf] == mf && t.parent[f] == mf && t.parent[g] == mf && t.parent[a] == mf
    && t.rank[mf] == 0 && t.rank[f] == 1 && t.rank[g] == 1 && t.rank[a] == 1
    && t.Kids(mf) == [f, g] && t.Kids(f) == [] && t.Kids(g) == [] && t.Kids(a) == []
  }

  lemma FourHasFour(mf: File, f: File, g: File, a: File)
    requires Beside(mf, f, g, a)
    ensures HasFour(Four(mf, f, g, a), mf, f, g, a)
  {
    hide Eligible, HasReservedName;
    assert f != g;
  }

  lemma FourAreLinked(t: Tree, mf: File, f: File, g: File, a: File)
    requires Beside(mf, f, g, a) && HasFour(t, mf, f, g, a)
    ensures t.Linked()
  {
    hide Eligible, HasReservedName, Clash;
  }

  lemma FourAreUp(t: Tree, mf: File, f: File, g: File, a: File, x: File)
    requires Beside(mf, f, g, a) && HasFour(t, mf, f, g, a) && x in t.parent
    ensures t.UpOk(x)
  {
    hide HasReservedName, Clash;
    assert f in t.Kids(mf) && g in t.Kids(mf) by {
      assert t.Kids(mf)[0] == f && t.Kids(mf)[1] == g;
    }
    assert t.apps[0] == a;
  }

  lemma FourAreDown(t: Tree, mf: File, f: File, g: File, a: File, x: File)
    requires Beside(mf, f, g, a) && HasFour(t, mf, f, g, a) && x in t.parent
    ensures t.DownOk(x)
  {
    hide HasReservedName, Clash;
  }

  lemma FourAreApart(t: Tree, mf: File, f: File, g: File, a: File)
    requires Beside(mf, f, g, a) && HasFour(t, mf, f, g, a)
    ensures t.AppsOk()
  {
    hide Eligible, Clash;
  }

  lemma FourAreATree(t: Tree, mf: File, f: File, g: File, a: File)
    requires Beside(mf, f, g, a) && HasFour(t, mf, f, g, a)
    ensures t.Valid()
  {
    hide HasFour, Beside, Tree.Linked, Tree.UpOk, Tree.DownOk, Tree.AppsOk;
    FourAreLinked(t, mf, f, g, a);
    FourAreApart(t, mf, f, g, a);
    forall x | x in t.parent
      ensures t.UpOk(x) && t.DownOk(x)
    {
      FourAreUp(t, mf, f, g, a, x);
      FourAreDown(t, mf, f, g, a, x);
    }
  }

  lemma FourHave(t: Tree, mf: File, f: File, g: File, a: File)
    requires Beside(mf, f, g, a) && HasFour(t, mf, f, g, a)
    ensures t.mf == mf && t.mf.kind == Mf && t.apps == [a] && f in t.parent && t.parent[f] == mf && f.kind == Ef
    ensures g in t.Kids(mf) && g != f && g != a
  {
    assert t.Kids(mf)[1] == g;
  }

  /** A child of the MF with the name of an application: from the other EF it is the child, from the MF the application. */
  lemma NamedLikeApp(t: Tree, mf: File, f: File, g: File, a: File)
    requires Beside(mf, f, g, a) && HasFour(t, mf, f, g, a) && t.Valid() && g.name.Some? && g.name == a.name
    requires f.name != g.name && f.fid != g.name
    ensures Lookup(t, f, g.name.value) == Some(g) && Lookup(t, mf, g.name.value) == Some(a)
  {
    hide Lookup, HasFour, Tree.Linked, Tree.Valid;
    var id := g.name.value;
    FourHave(t, mf, f, g, a);
    CwdInTree(t, f);
    InAppTable(t, id);
    assert t.apps[0] == a;
    AppFromMf(t, id);
    EfLists(t, f, id);
    assert IsSibling(t, f, id, g);
    ListedIsFound(t, f, id);
  }

  lemma ListedIsFound(t: Tree, f: File, id: string)
    requires t.Linked() && f in t.parent && id in LowerTable(t, f)
    ensures Lookup(t, f, id) == Some(LowerTable(t, f)[id])
  {
    hide LowerTable, UpperTable, Tree.Linked;
  }

  /** An EF with a name that is the FID of its sibling: from it the name is the sibling, from the MF the EF. */
  lemma NamedLikeFid(t: Tree, mf: File, f: File, g: File, a: File)
    requires Beside(mf, f, g, a) && HasFour(t, mf, f, g, a) && t.Valid() && f.name == g.fid
    requires a.name != f.name && Some(a.aid) != f.name
    ensures Lookup(t, f, f.name.value) == Some(g) && Lookup(t, mf, f.name.value) == Some(f)
  {
    hide Lookup, HasFour, Tree.Linked, Tree.Valid;
    var id := f.name.value;
    FourHave(t, mf, f, g, a);
    CwdInTree(t, f);
    assert NotAnApp(t, id);
    NotNamed(t, mf, f, g, a);
    EfLists(t, f, id);
    assert IsSibling(t, f, id, g);
    ListedIsFound(t, f, id);
    OwnIdFromDirectory(t, f, id);
  }

  lemma NotNamed(t: Tree, mf: File, f: File, g: File, a: File)
    requires Beside(mf, f, g, a) && HasFour(t, mf, f, g, a) && f.name == g.fid
    ensures !SiblingNamed(t, f, f.name.value)
  {
  }

  const MASTER := File(0, Mf, Some("3f00"), None, Some("MF"), "", "62028300", false)
  const ICCID := File(1, Ef, Some("2fe2"), None, Some("2f05"), "", "62028301", true)
  const PL := File(2, Ef, Some("2f05"), None, Some("ADF.USIM"), "", "62028302", true)
  const USIM := File(3, Adf, None, None, Some("ADF.USIM"), "a0000000871002", "62028303", false)

  lemma AllFour()
    ensures Beside(MASTER, ICCID, PL, USIM)
  {
  }

  /** One tree with both. */
  lemma EfsMisled()
    ensures var t := Four(MASTER, ICCID, PL, USIM);
            && t.Valid() && ICCID in t.parent && Denotes("2f05", ICCID)
            && Lookup(t, ICCID, "2f05") == Some(PL) && Lookup(t, Cwd(t, ICCID), "2f05") == Some(ICCID)
            && Lookup(t, ICCID, "ADF.USIM") == Some(PL) && Lookup(t, Cwd(t, ICCID), "ADF.USIM") == Some(USIM)
  {
    hide Four, Beside, HasFour, Lookup, Tree.Valid, Tree.Linked;
    var t := Four(MASTER, ICCID, PL, USIM);
    AllFour();
    FourHasFour(MASTER, ICCID, PL, USIM);
    FourAreATree(t, MASTER, ICCID, PL, USIM);
    FourHave(t, MASTER, ICCID, PL, USIM);
    CwdInTree(t, ICCID);
    NamedLikeApp(t, MASTER, ICCID, PL, USIM);
    NamedLikeFid(t, MASTER, ICCID, PL, USIM);
  }
}
