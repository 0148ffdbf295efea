/**
 The name tables of `get_selectables`: which identifier denotes which file when a given file
 is selected. Later entries of the table override earlier ones, as `dict.update` does.
 */
module Selectables {
  import opened Wrappers
  import opened CardFiles
  import opened FileTree
  import opened SelectPaths

  type Table = map<string, File>

  function Entry(id: Option<string>, f: File): Table {
    if id.Some? then map[id.value := f] else map[]
  }

  /** `_get_self_selectables`. */
  function SelfTable(f: File, alias: Option<string>): Table {
    Entry(alias, f) + Entry(f.fid, f) + Entry(f.name, f)
  }

  function FidTable(files: seq<File>): Table {
    if files == [] then map[]
    else FidTable(files[..|files| - 1]) + Entry(files[|files| - 1].fid, files[|files| - 1])
  }

  function NameTable(files: seq<File>): Table {
    if files == [] then map[]
    else NameTable(files[..|files| - 1]) + Entry(files[|files| - 1].name, files[|files| - 1])
  }

  function AidTable(files: seq<File>): Table {
    if files == [] then map[]
    else AidTable(files[..|files| - 1]) + map[files[|files| - 1].aid := files[|files| - 1]]
  }

  /** `get_app_selectables`. */
  function AppTable(apps: seq<File>): Table {
    AidTable(apps) + NameTable(apps)
  }

  /** `_get_parent_selectables`. */
  function ParentTable(t: Tree, f: File, alias: Option<string>): Table
    requires t.Linked() && f in t.parent
    decreases t.rank[f]
  {
    if f == t.mf then map[]
    else SelfTable(t.parent[f], alias) + ParentTable(t, t.parent[f], None)
  }

  /** `get_selectables` without flags. */
  function TableOf(t: Tree, f: File): Table
    requires t.Linked() && f in t.parent
  {
    UpperTable(t, f) + LowerTable(t, f)
  }

  /** The part every file has. */
  function UpperTable(t: Tree, f: File): Table
    requires t.Linked() && f in t.parent
  {
    SelfTable(f, Some(".")) + ParentTable(t, f, Some("..")) + SelfTable(t.mf, None) + AppTable(t.apps)
  }

  function Without(files: seq<File>, f: File): seq<File> {
    if files == [] then []
    else
      var last := files[|files| - 1];
      Without(files[..|files| - 1], f) + (if last == f then [] else [last])
  }

  /** A directory lists its children, an EF the other children of its directory. */
  function Listed(t: Tree, f: File): seq<File>
    requires f in t.parent
  {
    if f.IsDir() then t.Kids(f) else Without(t.Kids(t.parent[f]), f)
  }

  /** The part that depends on the kind of file: what it lists, and for the MF once more the applications. */
  function LowerTable(t: Tree, f: File): Table
    requires f in t.parent
  {
    FidTable(Listed(t, f)) + NameTable(Listed(t, f)) + (if f.kind == Mf then AppTable(t.apps) else map[])
  }

  // ---------------------------------------------------------------------------------------
  // What the tables hold

  lemma {:induction false} FidTableEntry(files: seq<File>, id: string)
    ensures id in FidTable(files) ==> FidTable(files)[id] in files && FidTable(files)[id].fid == Some(id)
  {
    if files != [] {
      FidTableEntry(files[..|files| - 1], id);
    }
  }

  lemma {:induction false} NameTableEntry(files: seq<File>, id: string)
    ensures id in NameTable(files) ==> NameTable(files)[id] in files && NameTable(files)[id].name == Some(id)
  {
    if files != [] {
      NameTableEntry(files[..|files| - 1], id);
    }
  }

  lemma {:induction false} AidTableEntry(files: seq<File>, id: string)
    ensures id in AidTable(files) ==> AidTable(files)[id] in files && AidTable(files)[id].aid == id
  {
    if files != [] {
      AidTableEntry(files[..|files| - 1], id);
    }
  }

  lemma {:induction false} FidIsListed(files: seq<File>, f: File)
    requires f in files && f.fid.Some?
    ensures f.fid.value in FidTable(files)
  {
    if f in files[..|files| - 1] {
      FidIsListed(files[..|files| - 1], f);
    }
  }

  lemma {:induction false} NameIsListed(files: seq<File>, f: File)
    requires f in files && f.name.Some?
    ensures f.name.value in NameTable(files)
  {
    if f in files[..|files| - 1] {
      NameIsListed(files[..|files| - 1], f);
    }
  }

  lemma {:induction false} WithoutKeepsOthers(files: seq<File>, f: File)
    ensures forall g :: g in Without(files, f) <==> g in files && g != f
  {
    if files != [] {
      WithoutKeepsOthers(files[..|files| - 1], f);
    }
  }

  predicate Denotes(id: string, f: File) {
    f.fid == Some(id) || f.name == Some(id)
  }

  /** What the parent table holds are directories above `f`, under their own identifiers. */
  lemma {:induction false} ParentTableEntry(t: Tree, f: File, alias: Option<string>, id: string)
    requires t.Linked() && f in t.parent && id in ParentTable(t, f, alias)
    ensures var g := ParentTable(t, f, alias)[id];
            t.ProperlyAbove(g, f) && g in t.parent && (alias == Some(id) || Denotes(id, g))
    decreases t.rank[f]
  {
    hide Tree.Linked;
    OneUp(t, f);
    var p := t.parent[f];
    if id in ParentTable(t, p, None) {
      ParentTableEntry(t, p, None, id);
    }
  }

  /** Where an entry comes from: the file itself, above it, the MF, an application, or what it lists. */
  ghost predicate Origin(t: Tree, f: File, id: string, g: File)
    requires t.Linked() && f in t.parent
  {
    || (g == f && (id == "." || Denotes(id, f)))
    || (t.ProperlyAbove(g, f) && (id == ".." || Denotes(id, g)))
    || (g == t.mf && Denotes(id, g))
    || (g in t.apps && (g.aid == id || g.name == Some(id)))
    || (g in Listed(t, f) && Denotes(id, g))
  }

  lemma UpperTableEntry(t: Tree, f: File, id: string)
    requires t.Linked() && f in t.parent && id in UpperTable(t, f)
    ensures Origin(t, f, id, UpperTable(t, f)[id])
  {
    if id in AppTable(t.apps) {
      NameTableEntry(t.apps, id);
      AidTableEntry(t.apps, id);
    } else if id !in SelfTable(t.mf, None) && id in ParentTable(t, f, Some("..")) {
      ParentTableEntry(t, f, Some(".."), id);
    }
  }

  lemma LowerTableEntry(t: Tree, f: File, id: string)
    requires t.Linked() && f in t.parent && id in LowerTable(t, f)
    ensures Origin(t, f, id, LowerTable(t, f)[id])
  {
    FidTableEntry(Listed(t, f), id);
    NameTableEntry(Listed(t, f), id);
    NameTableEntry(t.apps, id);
    AidTableEntry(t.apps, id);
  }

  lemma TableEntry(t: Tree, f: File, id: string)
    requires t.Linked() && f in t.parent && id in TableOf(t, f)
    ensures Origin(t, f, id, TableOf(t, f)[id])
  {
    if id in LowerTable(t, f) {
      LowerTableEntry(t, f, id);
    } else {
      UpperTableEntry(t, f, id);
    }
  }

  /** Everything selectable is a file of the tree. */
  lemma TableEntryInTree(t: Tree, f: File, id: string)
    requires t.Valid() && f in t.parent && id in TableOf(t, f)
    ensures TableOf(t, f)[id] in t.parent
  {
    TableEntry(t, f, id);
    ListedAreChildren(t, f);
  }

  /** Whatever a file lists is a child of the directory it is, or is in. */
  lemma ListedAreChildren(t: Tree, f: File)
    requires t.Valid() && f in t.parent
    ensures forall g :: g in Listed(t, f) ==> t.ChildOk(Cwd(t, f), g)
  {
    assert t.DownOk(f) && t.UpOk(f) && t.DownOk(t.parent[f]);
    WithoutKeepsOthers(t.Kids(t.parent[f]), f);
  }

  // ---------------------------------------------------------------------------------------
  // Finding a file under its name

  /** No two named files of the list share a name. */
  predicate DistinctNames(files: seq<File>) {
    forall i, j :: 0 <= i < j < |files| ==> !SameName(files[i], files[j])
  }

  lemma NameDenotes(files: seq<File>, f: File)
    requires DistinctNames(files) && f in files && f.name.Some?
    ensures f.name.value in NameTable(files) && NameTable(files)[f.name.value] == f
  {
    NameIsListed(files, f);
    NameTableEntry(files, f.name.value);
    var g := NameTable(files)[f.name.value];
    var i :| 0 <= i < |files| && files[i] == f;
    var j :| 0 <= j < |files| && files[j] == g;
    assert SameName(files[i], files[j]) && SameName(files[j], files[i]);
  }

  lemma SiblingsHaveDistinctNames(t: Tree, d: File)
    requires t.Valid() && d in t.parent
    ensures DistinctNames(t.Kids(d))
  {
    assert t.DownOk(d);
  }

  /** A name no application uses, neither as its name nor as its AID. */
  ghost predicate NotAnApp(t: Tree, id: string) {
    forall a :: a in t.apps ==> a.aid != id && a.name != Some(id)
  }

  lemma NotInAppTable(t: Tree, id: string)
    requires NotAnApp(t, id)
    ensures id !in AppTable(t.apps)
  {
    NameTableEntry(t.apps, id);
    AidTableEntry(t.apps, id);
  }

  /** A named child is selectable by its name; from the MF only if no application shadows it. */
  lemma ChildByName(t: Tree, d: File, c: File)
    requires t.Linked() && d in t.parent && c in t.Kids(d) && c.name.Some?
    requires d.IsDir() && DistinctNames(t.Kids(d))
    requires d.kind == Mf ==> NotAnApp(t, c.name.value)
    ensures c.name.value in TableOf(t, d) && TableOf(t, d)[c.name.value] == c
  {
    NameDenotes(t.Kids(d), c);
    if d.kind == Mf {
      NotInAppTable(t, c.name.value);
    }
  }

  /** An application is selectable by its name from the MF. */
  lemma AppByName(t: Tree, a: File)
    requires t.Linked() && t.mf.kind == Mf
    requires a in t.apps && a.name.Some? && DistinctNames(t.apps)
    ensures a.name.value in TableOf(t, t.mf) && TableOf(t, t.mf)[a.name.value] == a
  {
    NameDenotes(t.apps, a);
    assert a.name.value in LowerTable(t, t.mf);
  }

  /** The name of `d` denotes none of the other files selectable from `d`. */
  ghost predicate OwnName(t: Tree, d: File)
    requires t.Linked() && d in t.parent
  {
    && d.name.Some? && d.name.value != ".."
    && (forall g :: g in t.parent && (t.ProperlyAbove(g, d) || g == t.mf || g in t.Kids(d)) ==>
            g == d || !Denotes(d.name.value, g))
    && (forall a :: a in t.apps ==> a == d || (a.aid != d.name.value && a.name != d.name))
  }

  /** A directory is selectable by its own name unless something overrides it. */
  lemma SelfByName(t: Tree, d: File)
    requires t.Linked() && d in t.parent && d.IsDir() && OwnName(t, d)
    requires forall c :: c in t.Kids(d) ==> c in t.parent
    ensures d.name.value in TableOf(t, d) && TableOf(t, d)[d.name.value] == d
  {
    assert d.name.value in SelfTable(d, Some("."));
    TableEntry(t, d, d.name.value);
  }

  lemma NothingListedIsCalledMf(t: Tree, f: File)
    requires t.Valid() && f in t.parent && NotAnApp(t, "MF")
    ensures "MF" !in LowerTable(t, f)
  {
    hide Tree.Linked;
    NotInAppTable(t, "MF");
    assert RESERVED_NAMES[3] == "MF";
    assert forall c :: c in Listed(t, f) ==> !Denotes("MF", c) by {
      ListedAreChildren(t, f);
      assert forall c :: c in Listed(t, f) ==> t.ChildOk(Cwd(t, f), c);
    }
    hide Listed, FidTable, NameTable, AppTable;
    FidTableEntry(Listed(t, f), "MF");
    NameTableEntry(Listed(t, f), "MF");
  }

  /**
   `MF` selects the MF from everywhere, because `add_file` reserves the name, unless an
   application carries it.
   */
  lemma MfByName(t: Tree, f: File)
    requires t.Valid() && f in t.parent && t.mf.name == Some("MF") && NotAnApp(t, "MF")
    ensures "MF" in TableOf(t, f) && TableOf(t, f)["MF"] == t.mf
  {
    hide Tree.Linked, LowerTable, AppTable, ParentTable;
    NothingListedIsCalledMf(t, f);
    NotInAppTable(t, "MF");
    assert "MF" in SelfTable(t.mf, None) && SelfTable(t.mf, None)["MF"] == t.mf;
  }
}
