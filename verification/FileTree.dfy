/**
 The file tree below one MF as a value: what the `parent`, `children` and `applications`
 fields of the file objects hold at one moment. Paths, SELECT scopes and name tables are
 defined on it, so that code that only reads the tree can be specified without the heap.
 */
module FileTree {
  import opened CardFiles

  datatype Tree = Tree(mf: File,
                       parent: map<File, File>,
                       children: map<File, seq<File>>,
                       apps: seq<File>,
                       rank: map<File, nat>,
                       bound: nat)
  {
    /** The children of a directory. */
    function Kids(f: File): seq<File> {
      if f in children then children[f] else []
    }

    /** Following `parent` from any file leads to the MF, whose parent is itself. */
    ghost predicate Linked() {
      && mf in parent && parent[mf] == mf
      && (forall f {:trigger parent[f]} :: f in parent ==>
            f in rank && parent[f] in parent && parent[f] in rank && (f != mf ==> rank[parent[f]] < rank[f]))
    }

    /** `f` hangs below a directory of the tree that lists it. */
    ghost predicate UpOk(f: File) {
      && f in parent && f in rank && rank[f] <= bound
      && (f.kind == Mf <==> f == mf)
      && (f.kind != Adf ==> f.fid.Some?)
      && parent[f] in parent && parent[f].IsDir()
      && (f != mf ==> f in Kids(parent[f]) || (parent[f] == mf && f in apps))
    }

    /** Everything `d` lists hangs below it, and nothing it lists clashes. */
    ghost predicate DownOk(d: File) {
      && (d.kind == Ef ==> Kids(d) == [])
      && (forall c :: c in Kids(d) ==> ChildOk(d, c))
      && (forall i, j :: 0 <= i < j < |Kids(d)| ==> !Clash(Kids(d)[i], Kids(d)[j]))
    }

    ghost predicate ChildOk(d: File, c: File) {
      c in parent && parent[c] == d && c != mf && c.fid.Some? && IsFid(c.fid.value) && !HasReservedName(c)
    }

    ghost predicate AppsOk() {
      && (forall a :: a in apps ==> a in parent && parent[a] == mf && a.kind == Adf)
      && (forall i, j :: 0 <= i < j < |apps| ==> apps[i].aid != apps[j].aid)
    }

    /** Every file is attached, directly or through its directories, to the one MF. */
    ghost predicate Valid() {
      && Linked()
      && (forall f {:trigger UpOk(f)} :: f in parent ==> UpOk(f))
      && (forall f {:trigger DownOk(f)} :: f in parent ==> DownOk(f))
      && AppsOk()
    }

    /** `fully_qualified_path_fobj`: the files from the MF down to `f`. */
    function FqPath(f: File): (p: seq<File>)
      requires Linked() && f in parent
      ensures p != [] && p[0] == mf && p[|p| - 1] == f
      decreases rank[f]
    {
      if f == mf then [mf] else FqPath(parent[f]) + [f]
    }

    /** `a` is `f` or a directory above it. */
    ghost predicate Above(a: File, f: File): (r: bool)
      requires Linked() && f in parent
      ensures r ==> a in parent
      decreases rank[f]
    {
      a == f || (f != mf && Above(a, parent[f]))
    }

    ghost predicate ProperlyAbove(a: File, f: File)
      requires Linked() && f in parent
    {
      f != mf && Above(a, parent[f])
    }

    /** The number of steps from the MF down to `f`. */
    ghost function Depth(f: File): nat
      requires Linked() && f in parent
      decreases rank[f]
    {
      if f == mf then 0 else 1 + Depth(parent[f])
    }
  }

  /** One step up; what a proof by climbing needs of a linked tree. */
  lemma OneUp(t: Tree, f: File)
    requires t.Linked() && f in t.parent
    ensures t.mf in t.parent && t.parent[t.mf] == t.mf && f in t.rank && t.parent[f] in t.parent && t.parent[f] in t.rank
    ensures f != t.mf ==> t.rank[t.parent[f]] < t.rank[f]
  {
  }

  // ---------------------------------------------------------------------------------------
  // From file objects to a tree value

  ghost predicate Has(S: set<CardFile>, x: File) {
    exists f :: f in S && f.file == x
  }

  /** The object of `S` that is the file `x`. */
  ghost function ObjectOf(S: set<CardFile>, x: File): (f: CardFile)
    requires Has(S, x)
    ensures f in S && f.file == x
  {
    var f :| f in S && f.file == x;
    f
  }

  /** Everything of `S` hangs below one MF, and different objects are different files. */
  ghost predicate Rooted(S: set<CardFile>, mf: CardFile, rank: map<CardFile, nat>, bound: nat)
    reads S
  {
    && Forest(S, rank, bound) && mf in S
    && (forall f {:trigger f.parent} :: f in S ==> f.parent != null && f.parent in S)
    && (forall f :: f in S ==> (f.file.kind == Mf <==> f == mf))
    && (forall f :: f in S ==> Has(S, f.file) && ObjectOf(S, f.file) == f)
  }

  /** That is so exactly if every object has its parent among them, one is an MF, and no two are the same file. */
  lemma RootedWhen(S: set<CardFile>, mf: CardFile, rank: map<CardFile, nat>, bound: nat)
    ensures Rooted(S, mf, rank, bound) <==>
            && Forest(S, rank, bound) && mf in S
            && (forall f {:trigger f.parent} :: f in S ==> f.parent != null && f.parent in S)
            && (forall f :: f in S ==> (f.file.kind == Mf <==> f == mf))
            && (forall f, g :: f in S && g in S && f.file == g.file ==> f == g)
  {
    hide Forest;
    forall f | f in S
      ensures Has(S, f.file)
    {
    }
  }

  ghost function Files(objects: seq<CardFile>): (r: seq<File>)
    ensures |r| == |objects| && forall i :: 0 <= i < |r| ==> r[i] == objects[i].file
  {
    seq(|objects|, i requires 0 <= i < |objects| => objects[i].file)
  }

  ghost function FileSet(S: set<CardFile>): (r: set<File>)
    ensures forall x :: x in r <==> Has(S, x)
    ensures forall f :: f in S ==> f.file in r
  {
    set f | f in S :: f.file
  }

  ghost function ParentMap(S: set<CardFile>): (m: map<File, File>)
    reads S
    requires forall f {:trigger f.parent} :: f in S ==> f.parent != null
    ensures m.Keys == FileSet(S)
    ensures forall f {:trigger f.parent} :: f in S && ObjectOf(S, f.file) == f ==> m[f.file] == f.parent.file
  {
    map x | x in FileSet(S) :: ObjectOf(S, x).parent.file
  }

  ghost function ChildrenMap(S: set<CardFile>): (m: map<File, seq<File>>)
    reads S
    ensures m.Keys == FileSet(S)
    ensures forall f :: f in S && ObjectOf(S, f.file) == f ==> m[f.file] == Files(f.children)
  {
    map x | x in FileSet(S) :: Files(ObjectOf(S, x).children)
  }

  ghost function RankMap(S: set<CardFile>, rank: map<CardFile, nat>): (m: map<File, nat>)
    requires S <= rank.Keys
    ensures m.Keys == FileSet(S)
    ensures forall f :: f in S && ObjectOf(S, f.file) == f ==> m[f.file] == rank[f]
  {
    map x | x in FileSet(S) :: rank[ObjectOf(S, x)]
  }

  /** The value of the fields of such a forest. */
  ghost function Snapshot(S: set<CardFile>, mf: CardFile, rank: map<CardFile, nat>, bound: nat): (t: Tree)
    reads S
    requires Rooted(S, mf, rank, bound)
  {
    Tree(mf.file, ParentMap(S), ChildrenMap(S), Files(mf.applications), RankMap(S, rank), bound)
  }

  /** The parent of each object is one of them, and its rank is lower. */
  lemma ObjectLinks(S: set<CardFile>, mf: CardFile, rank: map<CardFile, nat>, bound: nat, f: CardFile)
    requires Rooted(S, mf, rank, bound) && f in S
    ensures f.parent != null && f.parent in S && f in rank && f.parent in rank
    ensures if f == mf then f.parent == mf else rank[f.parent] < rank[f]
  {
    hide ChildrenOk;
    assert NodeOk(f, S, rank, bound);
  }

  /** What the tree value says of one object. */
  lemma SnapshotOf(S: set<CardFile>, mf: CardFile, rank: map<CardFile, nat>, bound: nat, f: CardFile)
    requires Rooted(S, mf, rank, bound) && f in S
    ensures f.parent != null && f in rank
    ensures var t := Snapshot(S, mf, rank, bound);
            f.file in t.parent && t.parent[f.file] == f.parent.file && f.file in t.rank && t.rank[f.file] == rank[f]
    ensures f.file == mf.file ==> f == mf
  {
    hide NodeOk, ChildrenOk;
  }

  lemma SnapshotHas(S: set<CardFile>, mf: CardFile, rank: map<CardFile, nat>, bound: nat, x: File)
    requires Rooted(S, mf, rank, bound) && x in Snapshot(S, mf, rank, bound).parent
    ensures Has(S, x)
  {
    hide Forest, Has;
  }

  lemma SnapshotLinksAt(S: set<CardFile>, mf: CardFile, rank: map<CardFile, nat>, bound: nat, x: File)
    requires Rooted(S, mf, rank, bound) && x in Snapshot(S, mf, rank, bound).parent
    ensures var t := Snapshot(S, mf, rank, bound);
            && x in t.rank && t.parent[x] in t.parent && t.parent[x] in t.rank
            && (x == t.mf ==> t.parent[x] == x) && (x != t.mf ==> t.rank[t.parent[x]] < t.rank[x])
  {
    hide Rooted, Snapshot, Has;
    SnapshotHas(S, mf, rank, bound, x);
    SnapshotHasMf(S, mf, rank, bound);
    var f := ObjectOf(S, x);
    ObjectLinks(S, mf, rank, bound, f);
    SnapshotOf(S, mf, rank, bound, f);
    SnapshotOf(S, mf, rank, bound, f.parent);
  }

  lemma SnapshotHasMf(S: set<CardFile>, mf: CardFile, rank: map<CardFile, nat>, bound: nat)
    requires Rooted(S, mf, rank, bound)
    ensures var t := Snapshot(S, mf, rank, bound); t.mf == mf.file && t.mf in t.parent
  {
    hide Forest;
  }

  lemma SnapshotLinks(S: set<CardFile>, mf: CardFile, rank: map<CardFile, nat>, bound: nat)
    requires Rooted(S, mf, rank, bound)
    ensures Snapshot(S, mf, rank, bound).Linked()
  {
    hide Forest, Rooted, Snapshot;
    var t := Snapshot(S, mf, rank, bound);
    SnapshotHasMf(S, mf, rank, bound);
    SnapshotLinksAt(S, mf, rank, bound, t.mf);
    forall x | x in t.parent
      ensures x in t.rank && t.parent[x] in t.parent && t.parent[x] in t.rank
      ensures x != t.mf ==> t.rank[t.parent[x]] < t.rank[x]
    {
      SnapshotLinksAt(S, mf, rank, bound, x);
    }
  }

  lemma ListedInFiles(objects: seq<CardFile>, f: CardFile)
    requires f in objects
    ensures f.file in Files(objects)
  {
    var i :| 0 <= i < |objects| && objects[i] == f;
    assert Files(objects)[i] == f.file;
  }

  /** A file is in order in the tree if its object is in the forest. */
  lemma NodeOfFiles(t: Tree, S: set<CardFile>, rank: map<CardFile, nat>, bound: nat, f: CardFile)
    requires f in S && NodeOk(f, S, rank, bound) && f.parent != null && t.bound == bound
    requires f.file in t.parent && t.parent[f.file] == f.parent.file
    requires f.file in t.rank && t.rank[f.file] == rank[f]
    requires f.parent.file in t.parent
    requires f.parent.file in t.children && t.children[f.parent.file] == Files(f.parent.children)
    requires (f.file.kind == Mf <==> f.file == t.mf) && (f.file == t.mf ==> f.parent == f)
    requires f.parent.file.kind == Mf ==> t.mf == f.parent.file && t.apps == Files(f.parent.applications)
    ensures t.UpOk(f.file)
  {
    if f.parent != f {
      if f in f.parent.children {
        ListedInFiles(f.parent.children, f);
      } else {
        ListedInFiles(f.parent.applications, f);
      }
    }
  }

  lemma SnapshotNode(S: set<CardFile>, mf: CardFile, rank: map<CardFile, nat>, bound: nat, f: CardFile)
    requires Rooted(S, mf, rank, bound) && f in S
    ensures Snapshot(S, mf, rank, bound).UpOk(f.file)
  {
    assert NodeOk(f, S, rank, bound);
    NodeOfFiles(Snapshot(S, mf, rank, bound), S, rank, bound, f);
  }

  /** A table of children, as files, is in order if its objects are. */
  lemma TableOfFiles(t: Tree, S: set<CardFile>, d: CardFile)
    requires d in S && ChildrenOk(d, S) && t.mf.kind == Mf
    requires d.file in t.children && t.children[d.file] == Files(d.children)
    requires forall c :: c in d.children ==> c.file in t.parent && t.parent[c.file] == d.file
    ensures t.DownOk(d.file)
  {
    forall x | x in Files(d.children)
      ensures t.ChildOk(d.file, x)
    {
      var i :| 0 <= i < |d.children| && Files(d.children)[i] == x;
      assert d.children[i] in d.children;
    }
  }

  lemma SnapshotTable(S: set<CardFile>, mf: CardFile, rank: map<CardFile, nat>, bound: nat, d: CardFile)
    requires Rooted(S, mf, rank, bound) && d in S
    ensures Snapshot(S, mf, rank, bound).DownOk(d.file)
  {
    assert ChildrenOk(d, S);
    TableOfFiles(Snapshot(S, mf, rank, bound), S, d);
  }

  lemma AppsOfFiles(t: Tree, S: set<CardFile>, mf: CardFile)
    requires mf in S && ChildrenOk(mf, S) && t.mf == mf.file && t.apps == Files(mf.applications)
    requires forall c :: c in mf.applications ==> c.file in t.parent && t.parent[c.file] == mf.file
    ensures t.AppsOk()
  {
    forall x | x in Files(mf.applications)
      ensures x in t.parent && t.parent[x] == t.mf && x.kind == Adf
    {
      var i :| 0 <= i < |mf.applications| && Files(mf.applications)[i] == x;
      assert mf.applications[i] in mf.applications;
    }
  }

  lemma SnapshotApps(S: set<CardFile>, mf: CardFile, rank: map<CardFile, nat>, bound: nat)
    requires Rooted(S, mf, rank, bound)
    ensures Snapshot(S, mf, rank, bound).AppsOk()
  {
    assert ChildrenOk(mf, S);
    AppsOfFiles(Snapshot(S, mf, rank, bound), S, mf);
  }

  /** Files attached by `add_file` and `add_application_df` form the trees this project reasons about. */
  lemma SnapshotIsTree(S: set<CardFile>, mf: CardFile, rank: map<CardFile, nat>, bound: nat)
    requires Rooted(S, mf, rank, bound)
    ensures Snapshot(S, mf, rank, bound).Valid()
  {
    var t := Snapshot(S, mf, rank, bound);
    SnapshotLinks(S, mf, rank, bound);
    SnapshotApps(S, mf, rank, bound);
    forall x | x in t.parent
      ensures t.UpOk(x) && t.DownOk(x)
    {
      SnapshotNode(S, mf, rank, bound, ObjectOf(S, x));
      SnapshotTable(S, mf, rank, bound, ObjectOf(S, x));
    }
  }

  /** The identity of a file object that is not among `files`. */
  method NewId(files: set<File>) returns (n: nat)
    ensures forall f :: f in files ==> f.id < n
  {
    n := 0;
    var rest := files;
    while rest != {}
      invariant rest <= files && forall f :: f in files - rest ==> f.id < n
      decreases |rest|
    {
      var f: File :| f in rest;
      if f.id >= n {
        n := f.id + 1;
      }
      rest := rest - {f};
    }
  }
}
