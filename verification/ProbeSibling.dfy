/**
 Inputs on which selecting leaves the program and the card on different files: with one of two DFs below the MF
 selected, the file identifier of the other.
 */
module ProbeSibling {
  import opened Wrappers
  import opened Text
  import opened CardFiles
  import opened FileTree
  import opened SelectPaths
  import opened Selectables
  import opened Names
  import opened Probing
  import opened CardSelect
  import opened RuntimeChannel

  /** An MF and two DFs that `add_file` attaches to it. */
  predicate Siblings(mf: File, a: File, b: File) {
    && mf.kind == Mf && mf.fid.Some? && a.kind == Df && b.kind == Df
    && Eligible(a) && Eligible(b) && !Clash(a, b) && a.fid != mf.fid && b.fid != mf.fid
  }

  function TwoDfs(mf: File, a: File, b: File): Tree {
    Tree(mf, map[mf := mf, a := mf, b := mf], map[mf := [a, b]], [], map[mf := 0, a := 1, b := 1], 1)
  }

  /** What the tree of an MF and two DFs looks like. */
  ghost predicate HasTwo(t: Tree, mf: File, a: File, b: File) {
    && t.mf == mf && t.apps == [] && t.bound == 1
    && (forall f :: f in t.parent <==> f == mf || f == a || f == b)
    && (forall f :: f in t.rank <==> f == mf || f == a || f == b)
    && t.parent[mf] == mf && t.parent[a] == mf && t.parent[b] == mf
    && t.rank[mf] == 0 && t.rank[a] == 1 && t.rank[b] == 1
    && t.Kids(mf) == [a, b] && t.Kids(a) == [] && t.Kids(b) == []
  }

  lemma TwoDfsHasTwo(mf: File, a: File, b: File)
    requires Siblings(mf, a, b)
    ensures HasTwo(TwoDfs(mf, a, b), mf, a, b)
  {
    hide Eligible, HasReservedName;
    assert mf != a && mf != b && a != b;
  }

  lemma TwoAreLinked(t: Tree, mf: File, a: File, b: File)
    requires Siblings(mf, a, b) && HasTwo(t, mf, a, b)
    ensures t.Linked()
  {
    hide Eligible, HasReservedName, Clash;
  }

  lemma TwoAreUp(t: Tree, mf: File, a: File, b: File, f: File)
    requires Siblings(mf, a, b) && HasTwo(t, mf, a, b) && f in t.parent
    ensures t.UpOk(f)
  {
    hide HasReservedName, Clash;
    assert a in t.Kids(mf) && b in t.Kids(mf) by {
      assert t.Kids(mf)[0] == a && t.Kids(mf)[1] == b;
    }
  }

  lemma TwoAreDown(t: Tree, mf: File, a: File, b: File, d: File)
    requires Siblings(mf, a, b) && HasTwo(t, mf, a, b) && d in t.parent
    ensures t.DownOk(d)
  {
    hide HasReservedName, Clash;
  }

  lemma TwoAreATree(t: Tree, mf: File, a: File, b: File)
    requires Siblings(mf, a, b) && HasTwo(t, mf, a, b)
    ensures t.Valid()
  {
    hide HasTwo, Siblings, Tree.Linked, Tree.UpOk, Tree.DownOk;
    TwoAreLinked(t, mf, a, b);
    assert t.AppsOk() by { NoApps(t, mf, a, b); }
    forall f | f in t.parent
      ensures t.UpOk(f) && t.DownOk(f)
    {
      TwoAreUp(t, mf, a, b, f);
      TwoAreDown(t, mf, a, b, f);
    }
  }

  lemma InTwo(t: Tree, mf: File, a: File, b: File)
    requires Siblings(mf, a, b) && HasTwo(t, mf, a, b)
    ensures t.mf == mf && mf in t.parent && a in t.parent && a.IsDir() && a.fid.Some? && b.fid.Some?
  {
  }

  lemma NoApps(t: Tree, mf: File, a: File, b: File)
    requires HasTwo(t, mf, a, b)
    ensures t.apps == []
  {
  }

  lemma InScopeInTree(t: Tree, f: File, g: File)
    requires InScope(t, f, g)
    ensures g in t.parent
  {
  }

  lemma TwoDiffer(t: Tree, mf: File, a: File, b: File, g: File, h: File)
    requires Siblings(mf, a, b) && HasTwo(t, mf, a, b) && g in t.parent && h in t.parent
    ensures !SameAid(g, h) && (g.fid == h.fid ==> g == h)
  {
    hide Eligible;
  }

  lemma TwoAreUnique(t: Tree, mf: File, a: File, b: File)
    requires Siblings(mf, a, b) && HasTwo(t, mf, a, b)
    ensures UniqueIds(t) && AncestorClosed(t, {mf, a, b})
  {
    hide Siblings, InScope;
    forall f, g, h | InScope(t, f, g) && InScope(t, f, h)
      ensures g.fid.None? || g.fid != h.fid || g == h
    {
      InScopeInTree(t, f, g);
      InScopeInTree(t, f, h);
      TwoDiffer(t, mf, a, b, g, h);
    }
    forall g, h | g in t.parent && h in t.parent
      ensures !SameAid(g, h)
    {
      TwoDiffer(t, mf, a, b, g, h);
    }
  }

  // ---------------------------------------------------------------------------------------

  /** No other file carries the identifier of `b`, which is written in lower case. */
  predicate Unlisted(mf: File, a: File, b: File) {
    b.fid.Some? && Norm(b.fid.value) == b.fid.value && mf.name != b.fid && a.name != b.fid
  }

  lemma SiblingIsUnlisted(t: Tree, mf: File, a: File, b: File)
    requires Siblings(mf, a, b) && Unlisted(mf, a, b) && HasTwo(t, mf, a, b) && t.Valid()
    ensures IsFid(b.fid.value) && b.fid.value !in TableOf(t, a)
  {
    hide TableOf, Tree.Valid, Tree.Linked;
    var id := b.fid.value;
    TwoAreLinked(t, mf, a, b);
    if id in TableOf(t, a) {
      TableEntry(t, a, id);
    }
  }

  /** From `a`, the identifier of `b` is not selectable, a SELECT reaches it, and it can be recorded below `a`. */
  lemma SiblingIsProbed(t: Tree, mf: File, a: File, b: File)
    requires Siblings(mf, a, b) && Unlisted(mf, a, b) && HasTwo(t, mf, a, b) && t.Valid()
    ensures IsFid(b.fid.value) && b.fid.value !in TableOf(t, a) && BesideCwd(t, a, b.fid.value, b)
    ensures ProbeOutcome(t, {mf, a, b}, a, b.fid.value) == Recorded(a)
  {
    hide TableOf, Tree.Valid, Tree.Linked, Clash, IsFid, DfName;
    SiblingIsUnlisted(t, mf, a, b);
    TwoAreLinked(t, mf, a, b);
    assert t.Kids(mf)[1] == b;
    assert BesideCwd(t, a, b.fid.value, b) && b in {mf, a, b};
  }

  /** What `select` answers then. */
  lemma SelectIsRecorded(lchan: RuntimeLchan, mf: File, a: File, b: File, r: Outcome)
    requires Siblings(mf, a, b) && Unlisted(mf, a, b) && HasTwo(lchan.card.t, mf, a, b) && lchan.card.t.Valid()
    requires lchan.card.present == {mf, a, b} && lchan.Reliable() && lchan.Answers(r, a, PathElements(b.fid.value))
    ensures r == Recorded(a)
  {
    hide HasTwo, Siblings, Tree.Valid, Tree.Linked, TableOf, IsFid, BesideCwd, ProbeOutcome, Split,
      RuntimeLchan.FcpExact;
    var id := b.fid.value;
    SiblingIsProbed(lchan.card.t, mf, a, b);
    NoSlash(id);
    ResolveOne(lchan.card.t, {mf, a, b}, a, id);
  }

  lemma NoSlash(id: string)
    requires IsFid(id)
    ensures '/' !in id
  {
  }

  /** What was recorded is not what the card is on. */
  lemma CardIsOnSibling(lchan: RuntimeLchan, mf: File, a: File, b: File)
    requires Siblings(mf, a, b) && HasTwo(lchan.card.t, mf, a, b) && lchan.card.t.Valid()
    requires lchan.MistakenIf(Recorded(a))
    ensures lchan.lchanNr in lchan.card.current && lchan.card.current[lchan.lchanNr] == b
    ensures lchan.selectedFile !in {mf, a, b} && lchan.selectedFile.fid == b.fid
    ensures lchan.selectedFile.name == Some("DF." + Upper(b.fid.value))
  {
    hide Eligible, Clash, Tree.Valid, Tree.Linked, TableOf, Recordable;
    var t := lchan.card.t;
    var id :| lchan.Mistaken(a, id);
    InTwo(t, mf, a, b);
    SelectableByFid(t, a, a);
  }

  /** `select` with that identifier counts as a success, the card on `b` and the program on a file it made up. */
  method SelectSibling(mf: File, a: File, b: File) returns (card: Card, lchan: RuntimeLchan, r: Outcome)
    requires Siblings(mf, a, b) && Unlisted(mf, a, b)
    ensures lchan.card == card && lchan.lchanNr == 0
    ensures card.t == TwoDfs(mf, a, b) && card.present == {mf, a, b} && card.steady
    ensures r == Recorded(a)
    ensures 0 in card.current && card.current[0] == b
    ensures lchan.selectedFile !in {mf, a, b} && lchan.selectedFile.fid == b.fid
    ensures lchan.selectedFile.name == Some("DF." + Upper(b.fid.value))
  {
    hide HasTwo, TwoDfs, Siblings, Unlisted, UniqueIds, Tree.Valid, Tree.Linked, AncestorClosed, RuntimeLchan.Answers,
      RuntimeLchan.MistakenIf, RunHops, SelectPath;
    var t := TwoDfs(mf, a, b);
    TwoDfsHasTwo(mf, a, b);
    TwoAreATree(t, mf, a, b);
    TwoAreUnique(t, mf, a, b);
    InTwo(t, mf, a, b);
    card := new Card(t, {mf, a, b}, 0, true, true);
    lchan := new RuntimeLchan(0, card);
    r := lchan.SelectFile(a);
    assert r == Done;
    r := lchan.Select(b.fid.value);
    SelectIsRecorded(lchan, mf, a, b, r);
    CardIsOnSibling(lchan, mf, a, b);
  }

  const MASTER := File(0, Mf, Some("3f00"), None, Some("MF"), "", "62028300", false)
  const TELECOM := File(1, Df, Some("7f10"), None, Some("DF.TELECOM"), "", "62028310", false)
  const GSM := File(2, Df, Some("7f20"), None, Some("DF.GSM"), "", "62028320", false)

  lemma TelecomAndGsm()
    ensures Siblings(MASTER, TELECOM, GSM) && Unlisted(MASTER, TELECOM, GSM)
  {
  }

  /** `select 7f20` with DF.TELECOM selected. */
  method SelectGsmFromTelecom() returns (card: Card, lchan: RuntimeLchan)
    ensures lchan.card == card && lchan.lchanNr == 0 && 0 in card.current
    ensures card.current[0] == GSM != lchan.selectedFile && lchan.selectedFile.name == Some("DF.7F20")
  {
    TelecomAndGsm();
    assert "7f20" == GSM.fid.value && Upper(GSM.fid.value) == "7F20" && "DF." + "7F20" == "DF.7F20";
    var r;
    card, lchan, r := SelectSibling(MASTER, TELECOM, GSM);
  }
}
