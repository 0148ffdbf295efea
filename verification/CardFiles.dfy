/**
 File objects of a smart card as pysim/pySim/filesystem.py builds them: EF, DF, ADF and MF
 objects with a mutable `parent` and a mutable table of children, attached to each other by
 `add_file` and `add_application_df`.
 */
module CardFiles {
  import opened Wrappers
  import opened Text

  datatype Kind = Ef | Df | Adf | Mf

  /** The exceptions `add_file` and `add_application_df` raise. */
  datatype AttachError =
    | NotAFid
    | ReservedName
    | ReservedFid
    | FidExists
    | SfidExists
    | NameExists
    | NotAnAdf
    | AidExists

  /**
   What a file object is apart from where it is attached. `id` stands for the identity of the
   object: two file objects are the same exactly if they agree here.
   */
  datatype File = File(id: nat,
                       kind: Kind,
                       fid: Option<string>,    // lower-case hex; only an ADF may lack one
                       sfid: Option<int>,
                       name: Option<string>,
                       aid: string,            // application identifier; used by ADFs only
                       fcp: string,            // what the card answers to a SELECT of this file
                       exportable: bool)       // whether reading its contents for an export succeeds
  {
    predicate IsDir() {
      kind != Ef
    }
  }

  class CardFile {
    const file: File
    var parent: CardFile?
    var children: seq<CardFile>      // dictionary values in insertion order
    var applications: seq<CardFile>  // the MF's ADFs in insertion order

    /** The identifiers are kept in lower case; the MF is its own parent. */
    constructor (f: File)
      requires f.kind != Adf ==> f.fid.Some?
      ensures file == f.(fid := if f.fid.Some? then Some(Lower(f.fid.value)) else None, aid := Lower(f.aid))
      ensures parent == if f.kind == Mf then this else null
      ensures children == [] && applications == []
      ensures Forest({this}, map[this := 0], 0)
    {
      file := f.(fid := if f.fid.Some? then Some(Lower(f.fid.value)) else None, aid := Lower(f.aid));
      children := [];
      applications := [];
      if f.kind == Mf {
        parent := this;
      } else {
        parent := null;
      }
    }

    /**
     `add_file`: attach `child`, with everything below it, to this directory. If `S` and `U` are the file objects
     around this directory and around a child that is not attached yet, they are one forest then. A child that another
     directory lists is listed by both then, and no forest contains that other directory any more.
     */
    method AddFile(child: CardFile, ignoreExisting: bool,
                   ghost S: set<CardFile>, ghost sRank: map<CardFile, nat>, ghost sBound: nat,
                   ghost U: set<CardFile>, ghost uRank: map<CardFile, nat>, ghost uBound: nat)
      returns (r: Result<bool, AttachError>)
      requires file.IsDir()
      modifies this`children, child`parent
      ensures r in {Err(NotAFid), Err(ReservedName), Err(ReservedFid)} <==> !Eligible(child.file)
      ensures r == Err(NotAFid) <==> child.file.fid.None? || !IsFid(child.file.fid.value)
      ensures r == Err(ReservedName) <==>
              child.file.fid.Some? && IsFid(child.file.fid.value) && HasReservedName(child.file)
      ensures r == Ok(true) <==> Eligible(child.file) && forall c :: c in old(children) ==> !Clash(c.file, child.file)
      ensures r == Err(SfidExists) <==>
              && Eligible(child.file)
              && (forall c :: c in old(children) ==> c.file.fid != child.file.fid)
              && exists c :: c in old(children) && c.file.sfid.Some? && c.file.sfid == child.file.sfid
      ensures r == Err(FidExists) <==>
              && !ignoreExisting && Eligible(child.file)
              && exists c :: c in old(children) && c.file.fid == child.file.fid
      ensures r == Err(NameExists) ==>
              exists c :: c in old(children) && c.file.name.Some? && c.file.name == child.file.name
      ensures r == Ok(false) ==>
              exists c :: c in old(children) && (c.file.fid == child.file.fid || SameName(c.file, child.file))
      ensures if ignoreExisting then r != Err(FidExists) && r != Err(NameExists) else r != Ok(false)
      ensures r == Ok(true) ==> children == old(children) + [child] && child.parent == this
      ensures r != Ok(true) ==> children == old(children) && child.parent == old(child.parent)
      ensures old(Apart(this, child, S, sRank, sBound, U, uRank, uBound)) ==>
                Forest(S + U, JoinRank(S, sRank, sBound, U, uRank), sBound + uBound + 1)
      ensures var p := old(child.parent);
              r == Ok(true) && p != null && p != this && child in p.children && p in S ==> !Forest(S, sRank, sBound)
    {
      ghost var rank: map<CardFile, nat> := map[];
      if Apart(this, child, S, sRank, sBound, U, uRank, uBound) {
        rank := JoinRank(S, sRank, sBound, U, uRank);
        JoinForests(S, sRank, sBound, U, uRank, uBound);
        assert NodeOk(this, S, sRank, sBound);
      }
      if !(child.file.fid.Some? && IsFid(child.file.fid.value)) {
        r := Err(NotAFid);
      } else if HasReservedName(child.file) {
        r := Err(ReservedName);
      } else if child.file.fid.value in RESERVED_FIDS {
        r := Err(ReservedFid);
      } else if exists c :: c in children && c.file.fid == child.file.fid {
        r := if ignoreExisting then Ok(false) else Err(FidExists);
      } else if exists c :: c in children && SameSfid(c.file, child.file) {
        r := Err(SfidExists);
      } else if exists c :: c in children && SameName(c.file, child.file) {
        r := if ignoreExisting then Ok(false) else Err(NameExists);
      } else {
        r := Ok(true);
        Attach(child, S + U, rank, sBound + uBound + 1);
        ListedTwice(S, sRank, sBound);
      }
    }

    /** `add_application_df`: register an ADF, with everything below it, at the MF. */
    method AddApplicationDf(app: CardFile,
                            ghost S: set<CardFile>, ghost sRank: map<CardFile, nat>, ghost sBound: nat,
                            ghost U: set<CardFile>, ghost uRank: map<CardFile, nat>, ghost uBound: nat)
      returns (r: Result<bool, AttachError>)
      requires file.kind == Mf
      modifies this`applications, app`parent
      ensures r in {Ok(true), Err(NotAnAdf), Err(AidExists)} && (r == Err(NotAnAdf) <==> app.file.kind != Adf)
      ensures r == Ok(true) <==> app.file.kind == Adf && forall a :: a in old(applications) ==> a.file.aid != app.file.aid
      ensures r == Ok(true) ==> applications == old(applications) + [app] && app.parent == this
      ensures r != Ok(true) ==> applications == old(applications) && app.parent == old(app.parent)
      ensures old(Apart(this, app, S, sRank, sBound, U, uRank, uBound)) ==>
                Forest(S + U, JoinRank(S, sRank, sBound, U, uRank), sBound + uBound + 1)
    {
      ghost var rank: map<CardFile, nat> := map[];
      if Apart(this, app, S, sRank, sBound, U, uRank, uBound) {
        rank := JoinRank(S, sRank, sBound, U, uRank);
        JoinForests(S, sRank, sBound, U, uRank, uBound);
        assert NodeOk(this, S, sRank, sBound);
      }
      if app.file.kind != Adf {
        r := Err(NotAnAdf);
      } else if exists a :: a in applications && a.file.aid == app.file.aid {
        r := Err(AidExists);
      } else {
        r := Ok(true);
        Register(app, S + U, rank, sBound + uBound + 1);
      }
    }

    /** The two assignments of `add_file`: an unclashing root below a directory keeps a forest. */
    method Attach(child: CardFile, ghost W: set<CardFile>, ghost rank: map<CardFile, nat>, ghost bound: nat)
      requires file.IsDir() && Eligible(child.file) && forall c :: c in children ==> !Clash(c.file, child.file)
      modifies this`children, child`parent
      ensures children == old(children) + [child] && child.parent == this
      ensures old(CanHang(this, child, W, rank, bound)) ==> Forest(W, rank, bound)
    {
      children := children + [child];
      child.parent := this;
      if old(CanHang(this, child, W, rank, bound)) {
        assert old(NodeOk(child, W, rank, bound));
        forall f | f in W
          ensures NodeOk(f, W, rank, bound) && ChildrenOk(f, W)
        {
          assert old(NodeOk(f, W, rank, bound)) && old(ChildrenOk(f, W));
          assert child in children;
        }
      }
    }

    /** The two assignments of `add_application_df`. */
    method Register(app: CardFile, ghost W: set<CardFile>, ghost rank: map<CardFile, nat>, ghost bound: nat)
      requires file.kind == Mf && app.file.kind == Adf && forall a :: a in applications ==> a.file.aid != app.file.aid
      modifies this`applications, app`parent
      ensures applications == old(applications) + [app] && app.parent == this
      ensures old(CanHang(this, app, W, rank, bound)) ==> Forest(W, rank, bound)
    {
      applications := applications + [app];
      app.parent := this;
      if old(CanHang(this, app, W, rank, bound)) {
        forall f | f in W
          ensures NodeOk(f, W, rank, bound) && ChildrenOk(f, W)
        {
          assert old(NodeOk(f, W, rank, bound)) && old(ChildrenOk(f, W));
          assert app in applications;
        }
      }
    }
  }

  // ---------------------------------------------------------------------------------------
  // What attaching files keeps

  /** Two children no directory holds together. */
  predicate Clash(c: File, d: File) {
    c.fid == d.fid || SameSfid(c, d) || SameName(c, d)
  }

  /** One file as its directory's table and its own `parent` field record it. */
  ghost predicate NodeOk(f: CardFile, S: set<CardFile>, rank: map<CardFile, nat>, bound: nat)
    reads S
    requires f in S
  {
    && f in rank && rank[f] <= bound
    && (f.file.kind == Mf <==> f.parent == f)
    && (f.file.kind != Adf ==> f.file.fid.Some?)
    && (f.parent != null && f.parent != f ==>
          && f.parent in S
          && f.parent.file.IsDir()
          && f.parent in rank && rank[f.parent] < rank[f]
          && (f in f.parent.children || (f.file.kind == Adf && f.parent.file.kind == Mf && f in f.parent.applications)))
  }

  /** The table of children of one directory. */
  ghost predicate ChildrenOk(d: CardFile, S: set<CardFile>)
    reads S
    requires d in S
  {
    && (d.file.kind == Ef ==> d.children == [])
    && (d.file.kind != Mf ==> d.applications == [])
    && (forall c :: c in d.children ==>
          && c in S && c.parent == d && c.file.kind != Mf
          && c.file.fid.Some? && IsFid(c.file.fid.value) && c.file.fid.value !in RESERVED_FIDS
          && !HasReservedName(c.file))
    && (forall i, j :: 0 <= i < j < |d.children| ==> !Clash(d.children[i].file, d.children[j].file))
    && (forall a :: a in d.applications ==> a in S && a.parent == d && a.file.kind == Adf)
    && (forall i, j :: 0 <= i < j < |d.applications| ==> d.applications[i].file.aid != d.applications[j].file.aid)
  }

  /**
   The objects of `S` form trees: parents and children name each other, no two children of a
   directory clash, and going to the parent lowers the rank, so there is no cycle.
   */
  ghost predicate Forest(S: set<CardFile>, rank: map<CardFile, nat>, bound: nat)
    reads S
  {
    && (forall f :: f in S ==> f in rank)
    && (forall f {:trigger NodeOk(f, S, rank, bound)} :: f in S ==> NodeOk(f, S, rank, bound))
    && (forall f {:trigger ChildrenOk(f, S)} :: f in S ==> ChildrenOk(f, S))
  }

  /** A directory `d` of one forest, and a file of another that is not attached yet. */
  ghost predicate Apart(d: CardFile, child: CardFile,
                        S: set<CardFile>, sRank: map<CardFile, nat>, sBound: nat,
                        U: set<CardFile>, uRank: map<CardFile, nat>, uBound: nat)
    reads S, U
  {
    d in S && Forest(S, sRank, sBound) && child in U && Forest(U, uRank, uBound) && child.parent == null && S !! U
  }

  /** Both are in one forest, `child` is not attached yet, and the ranks already are as if it hung below `d`. */
  ghost predicate CanHang(d: CardFile, child: CardFile, W: set<CardFile>, rank: map<CardFile, nat>, bound: nat)
    reads W
  {
    && d in W && child in W && d != child && Forest(W, rank, bound)
    && d in rank && child in rank && rank[d] < rank[child] && child.parent == null
  }

  /** A directory whose child has another parent is in no forest. */
  lemma ListedTwice(S: set<CardFile>, rank: map<CardFile, nat>, bound: nat)
    ensures forall p, c :: p in S && c in p.children && c.parent != p ==> !Forest(S, rank, bound)
  {
    forall p, c | p in S && c in p.children && c.parent != p
      ensures !Forest(S, rank, bound)
    {
      assert !ChildrenOk(p, S);
    }
  }

  /** Ranks of a joined forest: the trees of `U` move below those of `S`. */
  ghost function JoinRank(S: set<CardFile>, sRank: map<CardFile, nat>, sBound: nat,
                          U: set<CardFile>, uRank: map<CardFile, nat>): map<CardFile, nat>
    requires S <= sRank.Keys && U <= uRank.Keys
  {
    map f | f in S + U :: if f in S then sRank[f] else sBound + 1 + uRank[f]
  }

  // ---------------------------------------------------------------------------------------
  // Identifiers

  /** A file identifier: four hex digits. */
  predicate IsFid(s: string) {
    |s| == 4 && IsHex(s)
  }

  const RESERVED_NAMES := ["..", ".", "/", "MF"]
  const RESERVED_FIDS := ["3f00"]

  predicate HasReservedName(f: File) {
    f.name.Some? && f.name.value in RESERVED_NAMES
  }

  /** A child `add_file` may take, as far as the child itself goes. */
  predicate Eligible(f: File) {
    f.fid.Some? && IsFid(f.fid.value) && !HasReservedName(f) && f.fid.value !in RESERVED_FIDS
  }

  lemma EligibleMeans(f: File)
    ensures Eligible(f) <==>
            && f.fid.Some? && |f.fid.value| == 4 && f.fid.value != "3f00"
            && (forall i :: 0 <= i < 4 ==>
                  var c := f.fid.value[i];
                  '0' <= c <= '9' || 'a' <= c <= 'f' || 'A' <= c <= 'F')
            && f.name != Some("MF") && f.name != Some(".") && f.name != Some("..") && f.name != Some("/")
  {
  }

  predicate SameName(f: File, g: File) {
    f.name.Some? && f.name == g.name
  }

  predicate SameSfid(f: File, g: File) {
    f.sfid.Some? && f.sfid == g.sfid
  }

  /** Two separate forests are one forest, before anything is attached. */
  lemma JoinForests(S: set<CardFile>, sRank: map<CardFile, nat>, sBound: nat,
                    U: set<CardFile>, uRank: map<CardFile, nat>, uBound: nat)
    requires Forest(S, sRank, sBound) && Forest(U, uRank, uBound) && S !! U
    ensures Forest(S + U, JoinRank(S, sRank, sBound, U, uRank), sBound + uBound + 1)
  {
    var W, rank, bound := S + U, JoinRank(S, sRank, sBound, U, uRank), sBound + uBound + 1;
    forall f | f in W
      ensures NodeOk(f, W, rank, bound) && ChildrenOk(f, W)
    {
      if f in S {
        assert NodeOk(f, S, sRank, sBound) && ChildrenOk(f, S);
      } else {
        assert NodeOk(f, U, uRank, uBound) && ChildrenOk(f, U);
      }
    }
  }
}
