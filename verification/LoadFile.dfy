/**
 Java Card load files: `ijc_to_cap` splits one into its components, `CapFile` reads the
 components from an archive and joins them again (pysim/pySim/javacard.py).
 */
module LoadFile {
  import opened Wrappers
  import opened Bytes
  import opened Text

  datatype SplitError = TruncatedHeader | UnknownTag

  const TAGS := ["Header", "Directory", "Applet", "Import", "ConstantPool", "Class", "Method", "StaticField",
                 "RefLocation", "Export", "Descriptor", "Debug"]

  const REQUIRED := {"Header", "Directory", "Import", "ConstantPool", "Class", "Method", "StaticField",
                     "RefLocation", "Descriptor"}

  /** The order of the components in a load file. */
  const LOAD_ORDER := ["Header", "Directory", "Import", "Applet", "Class", "Method", "StaticField", "Export",
                       "ConstantPool", "RefLocation", "Descriptor"]

  /** A member of the archive or of the component table: a name and its contents. */
  datatype Entry = Entry(name: string, data: bytes)

  // ---------------------------------------------------------------------------------------
  // Splitting

  /** `TAGS[tag-1]`; for tag 0 Python's index -1 is the last. */
  function TagName(tag: byte): string
    requires tag <= 12
  {
    if tag == 0 then TAGS[11] else TAGS[tag - 1]
  }

  /** The components of a load file, in order. */
  function Split(b: bytes): Result<seq<Entry>, SplitError>
    decreases |b|
  {
    if b == [] then Ok([])
    else if |b| < 3 then Err(TruncatedHeader)
    else if b[0] > 12 then Err(UnknownTag)
    else
      var n := 3 + FromBigEndian(b[1..3]);
      var rest := Split(Drop(b, n));
      if rest.Err? then rest else Ok([Entry(TagName(b[0]), Take(b, n))] + rest.value)
  }

  function Concat(entries: seq<Entry>): bytes {
    if entries == [] then [] else entries[0].data + Concat(entries[1..])
  }

  /** The name of a component's archive member. */
  function MemberName(p: string, name: string): string {
    p + "/javacard/" + name + ".cap"
  }

  function Members(p: string, entries: seq<Entry>): (r: seq<Entry>)
    ensures |r| == |entries|
    ensures forall i :: 0 <= i < |r| ==> r[i] == Entry(MemberName(p, entries[i].name), entries[i].data)
  {
    seq(|entries|, i requires 0 <= i < |entries| => Entry(MemberName(p, entries[i].name), entries[i].data))
  }

  /**
   What the loop takes off before the input ends or an exception is raised. A component that announces more bytes than
   are left is taken as far as it goes.
   */
  function Written(b: bytes): seq<Entry>
    decreases |b|
  {
    if |b| < 3 || b[0] > 12 then []
    else
      var n := 3 + FromBigEndian(b[1..3]);
      [Entry(TagName(b[0]), Take(b, n))] + Written(Drop(b, n))
  }

  lemma {:induction false} SplitIsWritten(b: bytes)
    ensures Split(b).Ok? ==> Split(b).value == Written(b)
    decreases |b|
  {
    if |b| >= 3 && b[0] <= 12 {
      SplitIsWritten(Drop(b, 3 + FromBigEndian(b[1..3])));
    }
  }

  /** What is written is the input up to its end, or up to where the exception is raised. */
  lemma {:induction false} WrittenIsPrefix(b: bytes)
    ensures var n := |Concat(Written(b))|;
            && n <= |b| && Concat(Written(b)) == b[..n]
            && (|b| - n < 3 || b[n] > 12)
            && (Split(b) == Err(TruncatedHeader) <==> 0 < |b| - n < 3)
            && (Split(b) == Err(UnknownTag) <==> |b| - n >= 3)
    decreases |b|
  {
    if |b| >= 3 && b[0] <= 12 {
      var n := 3 + FromBigEndian(b[1..3]);
      var rest := Drop(b, n);
      WrittenIsPrefix(rest);
      assert Written(b)[1..] == Written(rest);
      assert Take(b, n) + rest == b;
    }
  }

  /**
   `ijc_to_cap`: write one archive member per component; each round consumes at least a header. What was written
   before an exception stays in the archive.
   */
  method IjcToCap(inFile: bytes, p: string) returns (outZip: seq<Entry>, error: Option<SplitError>)
    ensures outZip == Members(p, Written(inFile))
    ensures Split(inFile).Ok? ==> error == None && outZip == Members(p, Split(inFile).value)
    ensures Split(inFile).Err? ==> error == Some(Split(inFile).error)
  {
    hide Members, Split, Written;
    var b := inFile;
    outZip := [];
    ghost var done: seq<Entry> := [];
    SplitIsWritten(inFile);
    NoMembers(p);
    assert [] + Written(b) == Written(b);
    while |b| > 0
      invariant outZip == Members(p, done) && Written(inFile) == done + Written(b)
      invariant SameEnd(Split(inFile), Split(b))
      decreases |b|
    {
      SplitStep(b);
      if |b| < 3 {
        assert done + [] == done;
        return outZip, Some(TruncatedHeader);
      }
      if b[0] > 12 {
        assert done + [] == done;
        return outZip, Some(UnknownTag);
      }
      var size := FromBigEndian(b[1..3]);
      ghost var e := Entry(TagName(b[0]), Take(b, 3 + size));
      assert done + ([e] + Written(Drop(b, 3 + size))) == (done + [e]) + Written(Drop(b, 3 + size));
      OneMoreMember(p, done, e);
      outZip := outZip + [Entry(MemberName(p, TagName(b[0])), Take(b, 3 + size))];
      done := done + [e];
      b := Drop(b, 3 + size);
    }
    SplitStep(b);
    assert done + [] == done;
    error := None;
  }

  /** Two splits succeed together or fail with the same error. */
  predicate SameEnd(r: Result<seq<Entry>, SplitError>, s: Result<seq<Entry>, SplitError>) {
    if r.Err? then s == r else s.Ok?
  }

  /** One round of the split. */
  lemma SplitStep(b: bytes)
    ensures b == [] ==> Split(b) == Ok([]) && Written(b) == []
    ensures 0 < |b| < 3 ==> Split(b) == Err(TruncatedHeader) && Written(b) == []
    ensures |b| >= 3 && b[0] > 12 ==> Split(b) == Err(UnknownTag) && Written(b) == []
    ensures |b| >= 3 && b[0] <= 12 ==>
              var n := 3 + FromBigEndian(b[1..3]);
              && SameEnd(Split(b), Split(Drop(b, n)))
              && Written(b) == [Entry(TagName(b[0]), Take(b, n))] + Written(Drop(b, n))
  {
  }

  lemma NoMembers(p: string)
    ensures Members(p, []) == []
  {
  }

  lemma OneMoreMember(p: string, done: seq<Entry>, e: Entry)
    ensures Members(p, done + [e]) == Members(p, done) + [Entry(MemberName(p, e.name), e.data)]
  {
  }

  /** Splitting loses nothing: the components concatenate to the input, whatever it is. */
  lemma {:induction false} SplitIsLossless(b: bytes)
    requires Split(b).Ok?
    ensures Concat(Split(b).value) == b
    decreases |b|
  {
    if b != [] {
      var n := 3 + FromBigEndian(b[1..3]);
      SplitIsLossless(Drop(b, n));
      assert Split(b).value[1..] == Split(Drop(b, n)).value;
    }
  }

  /** A component as the virtual machine specification has it: its own tag, its size, its contents. */
  predicate IsComponent(e: Entry) {
    && |e.data| >= 3 && 1 <= e.data[0] <= 12
    && e.name == TagName(e.data[0])
    && |e.data| == 3 + FromBigEndian(e.data[1..3])
  }

  /** Only the last component that is written may fall short of what its header announces. */
  lemma {:induction false} OnlyLastIsShort(b: bytes)
    ensures forall i :: 0 <= i < |Written(b)| ==>
              var e := Written(b)[i];
              && |e.data| >= 3 && e.data[0] <= 12 && e.name == TagName(e.data[0])
              && var n := 3 + 256 * e.data[1] as int + e.data[2] as int;
                 && (if i < |Written(b)| - 1 then |e.data| == n else |e.data| <= n)
                 && (IsComponent(e) <==> e.data[0] >= 1 && |e.data| == n)
    decreases |b|
  {
    hide FromBigEndian, TagName;
    if |b| >= 3 && b[0] <= 12 {
      var n := 3 + FromBigEndian(b[1..3]);
      TwoOctets(b[1], b[2]);
      assert b[1..3] == [b[1], b[2]];
      assert Take(b, n)[1..3] == b[1..3];
      OnlyLastIsShort(Drop(b, n));
    }
  }

  lemma {:induction false} SplitOfConcat(entries: seq<Entry>)
    requires forall i :: 0 <= i < |entries| ==> IsComponent(entries[i])
    ensures Split(Concat(entries)) == Ok(entries)
  {
    if entries != [] {
      var b, e := Concat(entries), entries[0];
      SplitOfConcat(entries[1..]);
      assert b[1..3] == e.data[1..3] && b[0] == e.data[0];
      assert Take(b, |e.data|) == e.data && Drop(b, |e.data|) == Concat(entries[1..]);
      assert [e] + entries[1..] == entries;
    }
  }

  // ---------------------------------------------------------------------------------------
  // Reading an archive

  /** `filename.split('/')[-1]`. */
  function LastPart(filename: string): (r: string)
    ensures '/' !in r
  {
    if filename == [] then []
    else
      var n := |filename| - 1;
      if filename[n] == '/' then [] else LastPart(filename[..n]) + [filename[n]]
  }

  predicate IsCapMember(filename: string) {
    |filename| >= 4 && Lower(filename[|filename| - 4..]) == ".cap"
  }

  /** The key of a member: its last part without the suffix `.cap`. */
  function Key(filename: string): string {
    var last := LastPart(filename);
    if |last| >= 4 && last[|last| - 4..] == ".cap" then last[..|last| - 4] else last
  }

  predicate HasMember(archive: seq<Entry>, filename: string) {
    exists i :: 0 <= i < |archive| && archive[i].name == filename
  }

  /** `cap.read(filename)`: of members with the same name the last one counts. */
  function ReadMember(archive: seq<Entry>, filename: string): bytes
    requires HasMember(archive, filename)
  {
    var last := archive[|archive| - 1];
    if last.name == filename then last.data
    else
      assert HasMember(archive[..|archive| - 1], filename) by {
        var i :| 0 <= i < |archive| && archive[i].name == filename;
        assert archive[..|archive| - 1][i].name == filename;
      }
      ReadMember(archive[..|archive| - 1], filename)
  }

  /** The table `__init__` fills, after the first `n` members. */
  function TableUpTo(archive: seq<Entry>, n: nat): map<string, bytes>
    requires n <= |archive|
  {
    if n == 0 then map[]
    else if !IsCapMember(archive[n - 1].name) then TableUpTo(archive, n - 1)
    else TableUpTo(archive, n - 1)[Key(archive[n - 1].name) := ReadMember(archive, archive[n - 1].name)]
  }

  /** Cuts the member's directories and suffix off again. */
  lemma {:induction false} KeyOfMemberName(p: string, name: string)
    requires '/' !in name
    ensures IsCapMember(MemberName(p, name)) && Key(MemberName(p, name)) == name
  {
    var suffix := name + ".cap";
    assert MemberName(p, name) == (p + "/javacard") + "/" + suffix;
    LastPartAfterSlash(p + "/javacard", suffix);
    assert suffix[|suffix| - 4..] == ".cap" && suffix[..|suffix| - 4] == name;
    var member := MemberName(p, name);
    assert member[|member| - 4..] == ".cap";
    assert Lower(".cap") == ".cap";
  }

  /** Members are recognised whatever the case of their suffix, but only a lower-case one is cut off. */
  lemma UpperCaseMember()
    ensures IsCapMember("a/Class.CAP") && Key("a/Class.CAP") == "Class.CAP"
    ensures !IsCapMember("a/Class.capx")
  {
    var upper := "a/Class.CAP";
    LastPartAfterSlash("a", "Class.CAP");
    assert upper == "a" + "/" + "Class.CAP";
    assert upper[|upper| - 4..] == ".CAP" && Lower(".CAP") == ".cap";
    var other := "a/Class.capx";
    assert other[|other| - 4..] == "capx" && Lower("capx")[0] == 'c';
  }

  lemma {:induction false} LastPartAfterSlash(prefix: string, s: string)
    requires '/' !in s
    ensures LastPart(prefix + "/" + s) == s
  {
    var whole := prefix + "/" + s;
    if s != [] {
      var n := |s| - 1;
      LastPartAfterSlash(prefix, s[..n]);
      assert whole[..|whole| - 1] == prefix + "/" + s[..n];
    }
  }

  lemma {:induction false} ReadsItsOwn(archive: seq<Entry>, i: nat)
    requires i < |archive|
    requires forall j :: i < j < |archive| ==> archive[j].name != archive[i].name
    ensures HasMember(archive, archive[i].name) && ReadMember(archive, archive[i].name) == archive[i].data
    decreases |archive|
  {
    if i < |archive| - 1 {
      var front := archive[..|archive| - 1];
      assert forall j :: i < j < |front| ==> front[j].name == archive[j].name;
      ReadsItsOwn(front, i);
    }
  }

  /** Names by which a table can tell the entries apart. */
  predicate DistinctNames(entries: seq<Entry>) {
    && (forall i :: 0 <= i < |entries| ==> '/' !in entries[i].name)
    && forall i, j :: 0 <= i < j < |entries| ==> entries[i].name != entries[j].name
  }

  /** The first `n` entries by their names. */
  function ByName(entries: seq<Entry>, n: nat): map<string, bytes>
    requires n <= |entries|
  {
    if n == 0 then map[] else ByName(entries, n - 1)[entries[n - 1].name := entries[n - 1].data]
  }

  /** What the last of the first `n` members adds to the table. */
  lemma {:induction false} MemberIsReadBack(p: string, entries: seq<Entry>, i: nat)
    requires i < |entries| && DistinctNames(entries)
    ensures var archive := Members(p, entries);
            && IsCapMember(archive[i].name) && Key(archive[i].name) == entries[i].name
            && HasMember(archive, archive[i].name) && ReadMember(archive, archive[i].name) == entries[i].data
  {
    hide IsCapMember, Key, ReadMember, HasMember, MemberName;
    var archive := Members(p, entries);
    KeyOfMemberName(p, entries[i].name);
    forall j | i < j < |archive| ensures archive[j].name != archive[i].name {
      KeyOfMemberName(p, entries[j].name);
    }
    ReadsItsOwn(archive, i);
  }

  /** An archive written by `ijc_to_cap` is read back component by component, under the component's own name. */
  lemma {:induction false} ArchiveRoundTrip(p: string, entries: seq<Entry>, n: nat)
    requires n <= |entries| && DistinctNames(entries)
    ensures TableUpTo(Members(p, entries), n) == ByName(entries, n)
  {
    hide IsCapMember, Key, ReadMember, HasMember, DistinctNames, Members;
    if n > 0 {
      ArchiveRoundTrip(p, entries, n - 1);
      MemberIsReadBack(p, entries, n - 1);
    }
  }

  /** The components of a table that go into a load file: those among the first `n` in load order. */
  function InLoadOrder(component: map<string, bytes>, n: nat): seq<Entry>
    requires n <= |LOAD_ORDER|
  {
    if n == 0 then []
    else
      var name := LOAD_ORDER[n - 1];
      InLoadOrder(component, n - 1) + (if name in component then [Entry(name, component[name])] else [])
  }

  lemma {:induction false} ConcatAppends(a: seq<Entry>, b: seq<Entry>)
    ensures Concat(a + b) == Concat(a) + Concat(b)
  {
    if a == [] {
      assert a + b == b;
    } else {
      assert (a + b)[1..] == a[1..] + b;
      ConcatAppends(a[1..], b);
    }
  }

  /** The load file of the first `n` components in load order. */
  function Joined(component: map<string, bytes>, n: nat): bytes
    requires n <= |LOAD_ORDER|
  {
    Concat(InLoadOrder(component, n))
  }

  /** One component more. */
  lemma {:induction false} JoinOne(component: map<string, bytes>, n: nat, name: string)
    requires n < |LOAD_ORDER| && name == LOAD_ORDER[n]
    ensures Joined(component, 0) == []
    ensures Joined(component, n + 1) == Joined(component, n) + (if name in component then component[name] else [])
  {
    var before := InLoadOrder(component, n);
    if name in component {
      var e := Entry(name, component[name]);
      ConcatAppends(before, [e]);
      assert Concat([e]) == e.data + Concat([]);
    } else {
      assert InLoadOrder(component, n + 1) == before;
    }
  }

  class CapFile {
    var component: map<string, bytes>

    constructor ()
      ensures component == map[]
    {
      component := map[];
    }

    /** `__init__` after the file is opened; the result is false if a required component is missing. */
    method Load(archive: seq<Entry>) returns (ok: bool)
      modifies this
      ensures component == TableUpTo(archive, |archive|)
      ensures ok <==> REQUIRED <= component.Keys
    {
      component := map[];
      var i := 0;
      while i < |archive|
        invariant 0 <= i <= |archive|
        invariant component == TableUpTo(archive, i)
      {
        if IsCapMember(archive[i].name) {
          component := component[Key(archive[i].name) := ReadMember(archive, archive[i].name)];
        }
        i := i + 1;
      }
      ok := REQUIRED <= component.Keys;
    }

    /** `get_loadfile`: the components that are there, in load order. */
    method GetLoadfile() returns (loadfile: bytes)
      requires REQUIRED <= component.Keys
      ensures loadfile == Joined(component, |LOAD_ORDER|)
    {
      hide Joined;
      loadfile := component["Header"];
      JoinOne(component, 0, "Header");
      assert loadfile == Joined(component, 1);
      loadfile := loadfile + component["Directory"];
      JoinOne(component, 1, "Directory");
      assert loadfile == Joined(component, 2);
      loadfile := loadfile + component["Import"];
      JoinOne(component, 2, "Import");
      assert loadfile == Joined(component, 3);
      if "Applet" in component {
        loadfile := loadfile + component["Applet"];
      }
      JoinOne(component, 3, "Applet");
      assert loadfile == Joined(component, 4);
      loadfile := loadfile + component["Class"];
      JoinOne(component, 4, "Class");
      assert loadfile == Joined(component, 5);
      loadfile := loadfile + component["Method"];
      JoinOne(component, 5, "Method");
      assert loadfile == Joined(component, 6);
      loadfile := loadfile + component["StaticField"];
      JoinOne(component, 6, "StaticField");
      assert loadfile == Joined(component, 7);
      if "Export" in component {
        loadfile := loadfile + component["Export"];
      }
      JoinOne(component, 7, "Export");
      assert loadfile == Joined(component, 8);
      loadfile := loadfile + component["ConstantPool"];
      JoinOne(component, 8, "ConstantPool");
      assert loadfile == Joined(component, 9);
      loadfile := loadfile + component["RefLocation"];
      JoinOne(component, 9, "RefLocation");
      assert loadfile == Joined(component, 10);
      if "Descriptor" in component {
        loadfile := loadfile + component["Descriptor"];
      }
      JoinOne(component, 10, "Descriptor");
      assert loadfile == Joined(component, 11);
    }
  }

  // ---------------------------------------------------------------------------------------
  // Joining what was split, splitting what was joined

  /** Every component that goes into a load file is one, under its own name. */
  predicate WellFormed(component: map<string, bytes>) {
    forall k :: 0 <= k < |LOAD_ORDER| && LOAD_ORDER[k] in component ==>
        IsComponent(Entry(LOAD_ORDER[k], component[LOAD_ORDER[k]]))
  }

  lemma LoadOrderIsDistinct(i: nat, j: nat)
    requires i < j < |LOAD_ORDER|
    ensures LOAD_ORDER[i] != LOAD_ORDER[j]
    ensures '/' !in LOAD_ORDER[i] && '/' !in LOAD_ORDER[j]
  {
    assert |LOAD_ORDER[i]| != |LOAD_ORDER[j]| || LOAD_ORDER[i][0] != LOAD_ORDER[j][0];
  }

  /** The tags of the components of a load file, in the order of section 6.3 of the virtual machine specification. */
  lemma LoadOrderByTag()
    ensures LOAD_ORDER == [TagName(1), TagName(2), TagName(4), TagName(3), TagName(6), TagName(7), TagName(8), TagName(10),
                           TagName(5), TagName(9), TagName(11)]
    ensures REQUIRED == {TagName(1), TagName(2), TagName(4), TagName(5), TagName(6), TagName(7), TagName(8), TagName(9),
                         TagName(11)}
  {
  }

  const ORDER_OF_TAGS: seq<byte> := [1, 2, 4, 3, 6, 7, 8, 10, 5, 9, 11]

  /** So the components of a load file come in this order of their tags. */
  lemma {:induction false} TagsInLoadOrder(component: map<string, bytes>, n: nat, i: nat) returns (k: nat)
    requires WellFormed(component) && n <= |LOAD_ORDER| && i < |InLoadOrder(component, n)|
    ensures i <= k < n && k < |ORDER_OF_TAGS|
    ensures InLoadOrder(component, n)[i].data != [] && InLoadOrder(component, n)[i].data[0] == ORDER_OF_TAGS[k]
    ensures InLoadOrder(component, n)[i].name == LOAD_ORDER[k]
    decreases n
  {
    if i < |InLoadOrder(component, n - 1)| {
      k := TagsInLoadOrder(component, n - 1, i);
    } else {
      k := n - 1;
      assert IsComponent(Entry(LOAD_ORDER[k], component[LOAD_ORDER[k]]));
      TagOfPlace(component[LOAD_ORDER[k]][0], k);
      NotMoreThan(component, n - 1);
    }
  }

  lemma {:induction false} NotMoreThan(component: map<string, bytes>, n: nat)
    requires n <= |LOAD_ORDER|
    ensures |InLoadOrder(component, n)| <= n
  {
    if n > 0 {
      NotMoreThan(component, n - 1);
    }
  }

  lemma TagOfPlace(tag: byte, k: nat)
    requires k < |LOAD_ORDER| && 1 <= tag <= 12 && TagName(tag) == LOAD_ORDER[k]
    ensures tag == ORDER_OF_TAGS[k]
  {
    var other := ORDER_OF_TAGS[k];
    if tag != other {
      NamesDiffer(tag, other);
    }
  }

  lemma NamesDiffer(a: byte, b: byte)
    requires 1 <= a <= 12 && 1 <= b <= 12 && a != b
    ensures TagName(a) != TagName(b)
  {
    var x, y := TagName(a), TagName(b);
    assert |x| != |y| || x[0] != y[0] || x[1] != y[1];
  }

  /** The component of the load order an entry stands for. */
  predicate IsListed(e: Entry, component: map<string, bytes>, n: nat)
    requires n <= |LOAD_ORDER|
  {
    exists k :: 0 <= k < n && e.name == LOAD_ORDER[k] && e.name in component && e.data == component[e.name]
  }

  lemma OthersAreNamedDifferently(e: Entry, component: map<string, bytes>, n: nat)
    requires n < |LOAD_ORDER| && IsListed(e, component, n)
    ensures IsListed(e, component, n + 1) && e.name != LOAD_ORDER[n]
  {
    var k :| 0 <= k < n && e.name == LOAD_ORDER[k];
    LoadOrderIsDistinct(k, n);
  }

  lemma NextIsListed(component: map<string, bytes>, n: nat)
    requires n < |LOAD_ORDER|
    ensures LOAD_ORDER[n] in component ==> IsListed(Entry(LOAD_ORDER[n], component[LOAD_ORDER[n]]), component, n + 1)
    ensures '/' !in LOAD_ORDER[n]
  {
    LoadOrderIsDistinct(if n == 0 then 0 else n - 1, if n == 0 then 1 else n);
  }

  lemma {:induction false} EntriesInLoadOrder(component: map<string, bytes>, n: nat)
    requires n <= |LOAD_ORDER|
    ensures forall e :: e in InLoadOrder(component, n) ==> IsListed(e, component, n)
    ensures DistinctNames(InLoadOrder(component, n))
  {
    hide IsListed;
    if n > 0 {
      EntriesInLoadOrder(component, n - 1);
      forall e | e in InLoadOrder(component, n - 1)
        ensures IsListed(e, component, n) && e.name != LOAD_ORDER[n - 1]
      {
        OthersAreNamedDifferently(e, component, n - 1);
      }
      NextIsListed(component, n - 1);
    }
  }

  /** Splitting a load file gives each of its components, byte for byte, under its own name. */
  lemma {:induction false} LoadfileSplits(component: map<string, bytes>)
    requires WellFormed(component)
    ensures var entries := InLoadOrder(component, |LOAD_ORDER|);
            Split(Joined(component, |LOAD_ORDER|)) == Ok(entries)
  {
    var entries := InLoadOrder(component, |LOAD_ORDER|);
    EntriesInLoadOrder(component, |LOAD_ORDER|);
    forall i | 0 <= i < |entries| ensures IsComponent(entries[i]) {
      assert entries[i] in entries;
      var k :| 0 <= k < |LOAD_ORDER| && entries[i].name == LOAD_ORDER[k] && entries[i].name in component
                && entries[i].data == component[entries[i].name];
      assert entries[i] == Entry(LOAD_ORDER[k], component[LOAD_ORDER[k]]);
    }
    SplitOfConcat(entries);
  }

  /** The entries of a load file hold the table's values for the names in load order, and nothing else. */
  lemma {:induction false} EntriesByName(component: map<string, bytes>, n: nat, m: nat)
    requires n <= |LOAD_ORDER| && m <= |InLoadOrder(component, n)|
    ensures forall name :: name in ByName(InLoadOrder(component, n), m) ==>
                name in component && ByName(InLoadOrder(component, n), m)[name] == component[name]
    ensures forall i :: 0 <= i < m ==> InLoadOrder(component, n)[i].name in ByName(InLoadOrder(component, n), m)
  {
    if m > 0 {
      EntriesByName(component, n, m - 1);
      EntriesInLoadOrder(component, n);
      assert InLoadOrder(component, n)[m - 1] in InLoadOrder(component, n);
    }
  }

  lemma {:induction false} NamesInLoadOrder(component: map<string, bytes>, n: nat, k: nat) returns (i: nat)
    requires k < n <= |LOAD_ORDER| && LOAD_ORDER[k] in component
    ensures i < |InLoadOrder(component, n)| && InLoadOrder(component, n)[i].name == LOAD_ORDER[k]
    decreases n
  {
    if k == n - 1 {
      i := |InLoadOrder(component, n - 1)|;
    } else {
      i := NamesInLoadOrder(component, n - 1, k);
    }
  }

  lemma {:induction false} SameEntries(a: map<string, bytes>, b: map<string, bytes>, n: nat)
    requires n <= |LOAD_ORDER|
    requires forall k :: 0 <= k < n ==> (LOAD_ORDER[k] in a <==> LOAD_ORDER[k] in b)
    requires forall k :: 0 <= k < n && LOAD_ORDER[k] in a ==> a[LOAD_ORDER[k]] == b[LOAD_ORDER[k]]
    ensures InLoadOrder(a, n) == InLoadOrder(b, n)
  {
    if n > 0 {
      SameEntries(a, b, n - 1);
    }
  }

  /** Splitting a load file into an archive, reading that and joining again gives the same load file. */
  lemma {:induction false} LoadfileRoundTrip(p: string, component: map<string, bytes>)
    requires WellFormed(component)
    ensures var loadfile := Joined(component, |LOAD_ORDER|);
            && Split(loadfile).Ok?
            && var archive := Members(p, Split(loadfile).value);
            && var again := TableUpTo(archive, |archive|);
            && (forall k :: 0 <= k < |LOAD_ORDER| ==> (LOAD_ORDER[k] in again <==> LOAD_ORDER[k] in component))
            && (forall name :: name in again ==> name in component && again[name] == component[name])
            && Joined(again, |LOAD_ORDER|) == loadfile
  {
    var entries := InLoadOrder(component, |LOAD_ORDER|);
    LoadfileSplits(component);
    EntriesInLoadOrder(component, |LOAD_ORDER|);
    ArchiveRoundTrip(p, entries, |entries|);
    EntriesByName(component, |LOAD_ORDER|, |entries|);
    var again := ByName(entries, |entries|);
    forall k | 0 <= k < |LOAD_ORDER| && LOAD_ORDER[k] in component ensures LOAD_ORDER[k] in again {
      var i := NamesInLoadOrder(component, |LOAD_ORDER|, k);
    }
    SameEntries(again, component, |LOAD_ORDER|);
  }
}
