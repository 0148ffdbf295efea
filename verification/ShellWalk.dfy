/**
 The recursive walk of the shell over the file system, with the export of a file as its
 action: `PySimCommands.__walk`, `__walk_action` and the selection and counting parts of
 `__export_file`.
 */
module ShellWalk {
  import opened Wrappers
  import opened CardFiles
  import opened FileTree
  import opened Selectables
  import opened Names
  import opened CardSelect
  import opened SelectPaths
  import opened RuntimeChannel
  import opened WalkTrace

  // ---------------------------------------------------------------------------------------
  // Names a walk can rely on

  /** A name `select` takes as it is: no path, not turned into lower case. */
  predicate Plain(id: string) {
    Norm(id) == id && '/' !in id
  }

  /** Names are plain and denote, where the walk uses them, the file that carries them. */
  ghost predicate GoodNames(t: Tree) {
    && t.Linked()
    && AppsApart(t) && DistinctNames(t.apps)
    && (forall f {:trigger NameIsGood(t, f)} :: f in t.parent && f.name.Some? ==> NameIsGood(t, f))
  }

  ghost predicate NameIsGood(t: Tree, f: File)
    requires t.Linked() && f in t.parent && f.name.Some?
  {
    && Plain(f.name.value)
    && (f.IsDir() ==> OwnName(t, f))
    && (f != t.mf && t.parent[f] == t.mf && f !in t.apps ==> NotAnApp(t, f.name.value))
  }

  lemma EntryByName(t: Tree, d: File, e: File)
    requires t.Valid() && GoodNames(t) && d in t.parent && e in Entries(t, d)
    ensures e in t.parent && e != t.mf && t.parent[e] == d && d.IsDir() && e.name.Some? && Plain(e.name.value)
    ensures Lookup(t, d, e.name.value) == Some(e)
  {
    EntriesBelow(t, d);
    assert NameIsGood(t, e) && t.UpOk(d) && t.UpOk(e) && t.DownOk(d);
    if e in t.Kids(d) {
      SiblingsHaveDistinctNames(t, d);
      ChildByName(t, d, e);
    } else {
      AppByName(t, e);
    }
  }

  lemma DirByName(t: Tree, d: File)
    requires t.Valid() && GoodNames(t) && d in t.parent && d.IsDir() && d.name.Some?
    ensures Plain(d.name.value) && Lookup(t, d, d.name.value) == Some(d)
  {
    assert NameIsGood(t, d) && t.DownOk(d);
    assert forall c :: c in t.Kids(d) ==> t.ChildOk(d, c);
    SelfByName(t, d);
  }

  // ---------------------------------------------------------------------------------------
  // Counting

  function Acts(trace: seq<Visit>): seq<File> {
    if trace == [] then []
    else
      var last := trace[|trace| - 1];
      Acts(trace[..|trace| - 1]) + (if last.Acted? then [last.file] else [])
  }

  function Skips(trace: seq<Visit>): seq<File> {
    if trace == [] then []
    else
      var last := trace[|trace| - 1];
      Skips(trace[..|trace| - 1]) + (if last.Skipped? then [last.file] else [])
  }

  /** The files of which the export failed, by what happened. */
  function Failing(files: seq<File>, failed: seq<bool>): seq<File>
    requires |files| == |failed|
  {
    if files == [] then []
    else
      var last := |files| - 1;
      Failing(files[..last], failed[..last]) + (if failed[last] then [files[last]] else [])
  }

  /** The files whose export fails on a reliable card: it lacks them or their contents cannot be read. */
  function Bads(present: set<File>, files: seq<File>): seq<File> {
    if files == [] then []
    else
      var last := files[|files| - 1];
      Bads(present, files[..|files| - 1]) + (if last in present && last.exportable then [] else [last])
  }

  /** No export succeeded that could not; on a reliable card, none failed that could succeed. */
  predicate Justified(present: set<File>, exact: bool, files: seq<File>, failed: seq<bool>) {
    && |files| == |failed|
    && forall i :: 0 <= i < |files| ==>
         && (!failed[i] ==> files[i] in present && files[i].exportable)
         && (exact && failed[i] ==> !(files[i] in present && files[i].exportable))
  }

  lemma {:induction false} FailingAreBad(present: set<File>, files: seq<File>, failed: seq<bool>)
    requires Justified(present, true, files, failed)
    ensures Failing(files, failed) == Bads(present, files)
    decreases |files|
  {
    if files != [] {
      var last := |files| - 1;
      assert Justified(present, true, files[..last], failed[..last]);
      FailingAreBad(present, files[..last], failed[..last]);
    }
  }

  lemma OneMore(trace: seq<Visit>, v: Visit)
    ensures Acts(trace + [v]) == if v.Acted? then Acts(trace) + [v.file] else Acts(trace)
    ensures Skips(trace + [v]) == if v.Skipped? then Skips(trace) + [v.file] else Skips(trace)
  {
    assert (trace + [v])[..|trace|] == trace;
  }

  /** How often a file is among those acted on, among those skipped and among the bad ones. */
  lemma {:induction false} ActsCount(trace: seq<Visit>, f: File)
    ensures multiset(Acts(trace))[f] == multiset(trace)[Acted(f)]
    ensures multiset(Skips(trace))[f] == multiset(trace)[Skipped(f)]
    decreases |trace|
  {
    if trace != [] {
      var last := |trace| - 1;
      assert trace == trace[..last] + [trace[last]];
      ActsCount(trace[..last], f);
    }
  }

  lemma {:induction false} ActsAndSkips(trace: seq<Visit>)
    ensures |Acts(trace)| + |Skips(trace)| == |trace|
    decreases |trace|
  {
    if trace != [] {
      ActsAndSkips(trace[..|trace| - 1]);
    }
  }

  lemma {:induction false} BadsCount(present: set<File>, files: seq<File>, f: File)
    ensures multiset(Bads(present, files))[f] == if f in present && f.exportable then 0 else multiset(files)[f]
    decreases |files|
  {
    if files != [] {
      var last := |files| - 1;
      assert files == files[..last] + [files[last]];
      BadsCount(present, files[..last], f);
    }
  }

  lemma OneMoreFailing(files: seq<File>, failed: seq<bool>, f: File, fails: bool)
    requires |files| == |failed|
    ensures Failing(files + [f], failed + [fails])
         == if fails then Failing(files, failed) + [f] else Failing(files, failed)
  {
    assert (files + [f])[..|files|] == files && (failed + [fails])[..|files|] == failed;
  }

  /** The dictionary `context` of an export, with a record of what happened. */
  class ExportContext {
    var count: nat
    var err: nat
    var bad: seq<File>
    var dfSkip: nat
    var dfSkipReason: seq<File>
    ghost var trace: seq<Visit>
    ghost var failed: seq<bool>      // of each action of the trace

    constructor ()
      ensures trace == [] && forall present, exact :: Tallies(present, exact)
    {
      count, err, bad, dfSkip, dfSkipReason, trace, failed := 0, 0, [], 0, [], [], [];
    }

    /** The counters and lists say what happened; on a reliable card (`exact`) that is settled beforehand. */
    ghost predicate Tallies(present: set<File>, exact: bool)
      reads this
    {
      && count == |Acts(trace)| == |failed|
      && bad == Failing(Acts(trace), failed) && err == |bad|
      && Justified(present, exact, Acts(trace), failed)
      && dfSkipReason == Skips(trace) && dfSkip == |dfSkipReason|
    }

    lemma BadsAreExact(present: set<File>)
      requires Tallies(present, true)
      ensures bad == Bads(present, Acts(trace))
      ensures forall f :: multiset(bad)[f] == if f in present && f.exportable then 0 else multiset(trace)[Acted(f)]
    {
      hide Acts, Bads;
      FailingAreBad(present, Acts(trace), failed);
      forall f
        ensures multiset(bad)[f] == if f in present && f.exportable then 0 else multiset(trace)[Acted(f)]
      {
        BadsCount(present, Acts(trace), f);
        ActsCount(trace, f);
      }
    }

    /** As many exports and skips as the trace has, of the same files. */
    lemma TallyCounts(present: set<File>, exact: bool)
      requires Tallies(present, exact)
      ensures count == |failed| && err == |bad| && dfSkip == |dfSkipReason|
      ensures count + dfSkip == |trace|
      ensures forall f :: multiset(dfSkipReason)[f] == multiset(trace)[Skipped(f)]
    {
      hide Acts, Skips, Failing, Justified;
      ActsAndSkips(trace);
      forall f
        ensures multiset(dfSkipReason)[f] == multiset(trace)[Skipped(f)]
      {
        ActsCount(trace, f);
      }
    }

    method CountExport(file: File, fails: bool, ghost present: set<File>, ghost exact: bool)
      requires Tallies(present, exact) && (!fails ==> file in present && file.exportable)
      requires exact && fails ==> !(file in present && file.exportable)
      modifies this
      ensures Tallies(present, exact) && trace == old(trace) + [Acted(file)] && failed == old(failed) + [fails]
    {
      hide Failing, Acts, Skips;
      OneMore(trace, Acted(file));
      OneMoreFailing(Acts(trace), failed, file, fails);
      count := count + 1;
      if fails {
        err := err + 1;
        bad := bad + [file];
      }
      trace := trace + [Acted(file)];
      failed := failed + [fails];
    }

    method CountSkip(file: File, ghost present: set<File>, ghost exact: bool)
      requires Tallies(present, exact)
      modifies this
      ensures Tallies(present, exact) && trace == old(trace) + [Skipped(file)] && failed == old(failed)
    {
      OneMore(trace, Skipped(file));
      dfSkip := dfSkip + 1;
      dfSkipReason := dfSkipReason + [file];
      trace := trace + [Skipped(file)];
    }
  }

  // ---------------------------------------------------------------------------------------
  // The walk

  /** The card takes back no SELECT it has accepted, and the names are ones a walk can rely on. */
  ghost predicate Usable(lchan: RuntimeLchan) {
    lchan.card.Sound() && lchan.Loyal() && GoodNames(lchan.card.t)
  }

  /** The walk can go on from here. */
  ghost predicate Live(lchan: RuntimeLchan)
    reads lchan, lchan.card
  {
    Usable(lchan) && lchan.Ready()
  }

  lemma LiveHas(lchan: RuntimeLchan)
    requires Live(lchan)
    ensures lchan.Ready() && lchan.Loyal() && lchan.card.Sound() && lchan.card.t.Valid() && lchan.card.t.Linked()
    ensures GoodNames(lchan.card.t) && AncestorClosed(lchan.card.t, lchan.card.granted)
    ensures lchan.selectedFile in lchan.card.t.parent && lchan.selectedFile in lchan.card.granted
    ensures lchan.selectedFile in lchan.card.present && lchan.card.granted <= lchan.card.present
  {
    lchan.ReadyHas();
  }

  lemma StillLive(lchan: RuntimeLchan, before: map<nat, File>)
    requires Usable(lchan) && lchan.Held(before)
    ensures Live(lchan)
  {
    lchan.HeldIsReady(before);
  }

  /** Looking a plain name up is a single step. */
  lemma PlainFollow(t: Tree, cur: File, id: string)
    requires t.Valid() && cur in t.parent && cur.IsDir() && Plain(id)
    ensures t.Linked() && Cwd(t, cur) == cur && Follow(t, cur, PathElements(id)) == Lookup(t, cur, id)
    ensures Lookup(t, cur, id).Some? ==> Lookup(t, cur, id).value in t.parent
  {
    hide Lookup, Norm;
    FollowHead(t, cur, [id]);
    if Lookup(t, cur, id).Some? {
      FollowNothing(t, Lookup(t, cur, id).value);
    }
    assert PathElements(id) == [id] && [id][1..] == [];
  }

  /** The counters tally, as exactly as the card is reliable. */
  ghost predicate Counted(lchan: RuntimeLchan, context: ExportContext)
    reads context
  {
    context.Tallies(lchan.card.present, lchan.Reliable())
  }

  /** The visit to the file with this name happened. */
  ghost predicate Exported(lchan: RuntimeLchan, from: File, filename: string, context: ExportContext, before: seq<Visit>)
    reads context
  {
    && lchan.card.t.Valid() && from in lchan.card.t.parent && Lookup(lchan.card.t, from, filename).Some?
    && Counted(lchan, context)
    && context.trace == before + [Acted(Lookup(lchan.card.t, from, filename).value)]
  }

  /** Whether the selected directory has a file of this name. */
  ghost predicate Findable(lchan: RuntimeLchan, from: File, filename: string) {
    lchan.card.t.Valid() && from in lchan.card.t.parent && Lookup(lchan.card.t, from, filename).Some?
  }

  /** `__export_file`; the result says whether it returns. */
  method ExportFile(lchan: RuntimeLchan, filename: string, context: ExportContext) returns (ok: bool)
    requires Live(lchan) && lchan.selectedFile.IsDir() && Plain(filename) && Counted(lchan, context)
    modifies lchan, lchan.card, context
    ensures Live(lchan) && old(lchan.card.granted) <= lchan.card.granted
    ensures ok <==> Findable(lchan, old(lchan.selectedFile), filename)
    ensures ok ==> Exported(lchan, old(lchan.selectedFile), filename, context, old(context.trace))
  {
    hide Live, Usable, Tree.Valid, Tree.Linked, Plain, GoodNames, ExportContext.Tallies, Lookup, Follow,
      RuntimeLchan.Ready, RuntimeLchan.Held, Card.Sound, AncestorClosed, RunHops, SelectPath;
    LiveHas(lchan);
    PlainFollow(lchan.card.t, lchan.selectedFile, filename);
    var file := lchan.GetFileByName(filename);
    if file.None? {
      context.count := context.count + 1;
      return false;
    }
    ghost var before := lchan.card.current;
    IsUsable(lchan);
    var r := lchan.SelectFile(file.value);
    StillLive(lchan, before);
    LiveHas(lchan);
    context.CountExport(file.value, r != Done || !file.value.exportable, lchan.card.present, lchan.Reliable());
    ok := true;
  }

  lemma IsUsable(lchan: RuntimeLchan)
    requires Live(lchan)
    ensures Usable(lchan)
  {
  }

  /** `__walk_action` with the export as its action: afterwards the same file is selected as before. */
  method WalkAction(lchan: RuntimeLchan, filename: string, context: ExportContext) returns (ok: bool)
    requires Live(lchan) && lchan.selectedFile.IsDir() && Plain(filename) && Counted(lchan, context)
    modifies lchan, lchan.card, context
    ensures Live(lchan) && old(lchan.card.granted) <= lchan.card.granted
    ensures ok <==> Findable(lchan, old(lchan.selectedFile), filename)
    ensures ok ==> lchan.selectedFile == old(lchan.selectedFile)
    ensures ok ==> Exported(lchan, old(lchan.selectedFile), filename, context, old(context.trace))
  {
    hide Live, Usable, Plain, Findable, Exported, GoodNames, Counted, RuntimeLchan.Ready, RuntimeLchan.Held,
      Card.Sound, Tree.Valid, Tree.Linked, AncestorClosed, RunHops, SelectPath;
    LiveHas(lchan);
    var before := lchan.selectedFile;
    ok := ExportFile(lchan, filename, context);
    if ok && before != lchan.selectedFile {
      GoTo(lchan, before);
    }
  }

  /** `select_file` of a file the card has accepted before. */
  method GoTo(lchan: RuntimeLchan, file: File)
    requires Live(lchan) && file in lchan.card.granted
    modifies lchan, lchan.card
    ensures Live(lchan) && lchan.selectedFile == file && old(lchan.card.granted) <= lchan.card.granted
  {
    hide Live, Usable, GoodNames, RuntimeLchan.Ready, RuntimeLchan.Held, Card.Sound, Tree.Valid, Tree.Linked, RunHops,
      SelectPath;
    LiveHas(lchan);
    IsUsable(lchan);
    lchan.card.SoundHas(file);
    ghost var before := lchan.card.current;
    var r := lchan.SelectFile(file);
    StillLive(lchan, before);
  }

  /** `reached` may be what the card let the walk into: on a reliable card, all it has. */
  ghost predicate Possible(lchan: RuntimeLchan, reached: set<File>) {
    reached <= lchan.card.present && (lchan.Reliable() ==> reached == lchan.card.present)
  }

  /** What the walk below the directory `d` has done, by what was done `before` and what it was let into. */
  ghost predicate WalkedDir(lchan: RuntimeLchan, d: File, reached: set<File>, context: ExportContext, before: seq<Visit>)
    reads context
  {
    && lchan.card.t.Valid() && d in lchan.card.t.parent && Counted(lchan, context)
    && Possible(lchan, reached) && d in reached
    && context.trace == before + Trace(lchan.card.t, reached, d)
  }

  /** Likewise for entries of `d`. */
  ghost predicate WalkedOf(lchan: RuntimeLchan, d: File, files: seq<File>, reached: set<File>, context: ExportContext,
                           before: seq<Visit>)
    reads context
  {
    && lchan.card.t.Valid() && d in lchan.card.t.parent && EntriesOf(lchan.card.t, d, files)
    && Counted(lchan, context) && Possible(lchan, reached) && d in reached
    && context.trace == before + TraceOf(lchan.card.t, reached, d, files)
  }

  /** Likewise for one entry of `d`. */
  ghost predicate WalkedEntry(lchan: RuntimeLchan, d: File, file: File, reached: set<File>, context: ExportContext,
                              before: seq<Visit>)
    reads context
  {
    && lchan.card.t.Valid() && IsEntry(lchan.card.t, d, file) && Counted(lchan, context) && Possible(lchan, reached)
    && context.trace == before + TraceOfEntry(lchan.card.t, reached, d, file)
  }

  predicate IsEntry(t: Tree, d: File, file: File) {
    d in t.parent && file in t.parent && file != t.mf && t.parent[file] == d
  }

  /** How far below `d` the tree goes at most. */
  ghost function Height(lchan: RuntimeLchan, d: File): int {
    if lchan.card.t.Linked() && d in lchan.card.t.parent then lchan.card.t.bound - lchan.card.t.rank[d] else 0
  }

  /**
   `__walk` with the export as action for files and directories. It returns with the directory selected it was started
   in, and what it did is the trace of that directory for the files the card let it into: on a reliable card, all it has.
   */
  method Walk(lchan: RuntimeLchan, context: ExportContext) returns (ghost reached: set<File>)
    requires Live(lchan) && Counted(lchan, context)
    requires lchan.selectedFile.IsDir() && lchan.selectedFile.name.Some?
    modifies lchan, lchan.card, context
    ensures Live(lchan) && lchan.selectedFile == old(lchan.selectedFile) && old(lchan.card.granted) <= lchan.card.granted
    ensures WalkedDir(lchan, old(lchan.selectedFile), reached, context, old(context.trace))
    ensures lchan.card.t.Valid() && old(lchan.selectedFile) in lchan.card.t.parent
    ensures context.trace == old(context.trace) + Trace(lchan.card.t, reached, old(lchan.selectedFile))
    ensures reached <= lchan.card.present
    ensures lchan.Reliable() ==> reached == lchan.card.present
    decreases Height(lchan, lchan.selectedFile), 1, 0
  {
    hide Live, GoodNames, Counted, Plain, Card.Sound, Tree.Valid, Tree.Linked, Height, Lookup, Trace, TraceOf,
      AncestorClosed, Possible;
    var d := lchan.selectedFile;
    LiveHas(lchan);
    DirByName(lchan.card.t, d);
    EntriesBelow(lchan.card.t, d);
    DistinctEntries(lchan.card.t, d);
    var ok := WalkAction(lchan, d.name.value, context);
    reached := WalkEntries(lchan, Entries(lchan.card.t, d), context);
    TraceIs(lchan.card.t, reached, d);
    Associate(old(context.trace), [Acted(d)], TraceOf(lchan.card.t, reached, d, Entries(lchan.card.t, d)));
    PossibleIs(lchan, reached);
  }

  lemma PossibleIs(lchan: RuntimeLchan, reached: set<File>)
    requires Possible(lchan, reached)
    ensures reached <= lchan.card.present
    ensures lchan.Reliable() ==> reached == lchan.card.present
  {
  }

  lemma DistinctEntries(t: Tree, d: File)
    requires t.Valid() && GoodNames(t) && d in t.parent
    ensures Distinct(Entries(t, d))
  {
    EntriesAreDistinct(t, d);
  }

  lemma Associate<T>(a: seq<T>, b: seq<T>, c: seq<T>)
    ensures (a + b) + c == a + (b + c)
  {
  }

  lemma NothingDone(lchan: RuntimeLchan, d: File, context: ExportContext)
    requires lchan.card.t.Valid() && d in lchan.card.t.parent && d in lchan.card.present && Counted(lchan, context)
    ensures WalkedOf(lchan, d, [], lchan.card.present, context, context.trace)
  {
    assert context.trace + [] == context.trace;
  }

  /** One entry more, where `between` had been done before it. */
  lemma OneEntryMore(lchan: RuntimeLchan, d: File, files: seq<File>, e: File, reached: set<File>, inner: set<File>,
                     context: ExportContext, between: seq<Visit>, before: seq<Visit>)
    returns (merged: set<File>)
    requires lchan.card.t.Valid() && d in lchan.card.t.parent && EntriesOf(lchan.card.t, d, files) && e !in files
    requires Possible(lchan, reached) && d in reached
    requires between == before + TraceOf(lchan.card.t, reached, d, files)
    requires WalkedEntry(lchan, d, e, inner, context, between)
    ensures WalkedOf(lchan, d, files + [e], merged, context, before)
  {
    hide Tree.Valid, Tree.Linked, Counted, TraceOf, TraceOfEntry, Merged;
    CwdInTree(lchan.card.t, d);
    merged := Merged(lchan.card.t, reached, inner, e);
    MergedAt(lchan.card.t, reached, inner, d, e);
    MergedTrace(lchan.card.t, reached, inner, d, files, e);
    Associate(before, TraceOf(lchan.card.t, reached, d, files), TraceOfEntry(lchan.card.t, inner, d, e));
  }

  /** The loop of `__walk` over the entries of the selected directory. */
  method WalkEntries(lchan: RuntimeLchan, files: seq<File>, context: ExportContext) returns (ghost reached: set<File>)
    requires Live(lchan) && Counted(lchan, context)
    requires EntriesFrom(lchan.card.t, lchan.selectedFile, files) && Distinct(files)
    modifies lchan, lchan.card, context
    ensures Live(lchan) && lchan.selectedFile == old(lchan.selectedFile) && old(lchan.card.granted) <= lchan.card.granted
    ensures WalkedOf(lchan, old(lchan.selectedFile), files, reached, context, old(context.trace))
    decreases Height(lchan, lchan.selectedFile), 0, 1
  {
    hide Live, GoodNames, Counted, Card.Sound, Tree.Valid, Tree.Linked, Height, TraceOf, TraceOfEntry, WalkedEntry,
      WalkedOf, AncestorClosed, Entries, Possible, Distinct, EntriesFrom, IsEntry;
    ghost var d, before := lchan.selectedFile, context.trace;
    LiveHas(lchan);
    NothingDone(lchan, d, context);
    reached := lchan.card.present;
    var i := 0;
    assert files[..0] == [];
    while i < |files|
      invariant i <= |files| && old(lchan.card.granted) <= lchan.card.granted
      invariant Live(lchan) && lchan.selectedFile == d && WalkedOf(lchan, d, files[..i], reached, context, before)
    {
      ghost var between := context.trace;
      WalkedOfHas(lchan, d, files[..i], reached, context, before);
      NextEntry(lchan.card.t, d, files, i);
      ghost var inner := WalkEntry(lchan, files[i], context);
      reached := OneEntryMore(lchan, d, files[..i], files[i], reached, inner, context, between, before);
      i := i + 1;
    }
    assert files[..i] == files;
  }

  lemma NextEntry(t: Tree, d: File, files: seq<File>, i: nat)
    requires i < |files| && EntriesFrom(t, d, files) && Distinct(files) && d in t.parent
    ensures files[i] in Entries(t, d) && IsEntry(t, d, files[i])
    ensures files[i] !in files[..i] && files[..i + 1] == files[..i] + [files[i]]
  {
    hide Tree.Linked, Entries;
    assert files[i] in files;
  }

  lemma WalkedOfHas(lchan: RuntimeLchan, d: File, files: seq<File>, reached: set<File>, context: ExportContext,
                    before: seq<Visit>)
    requires WalkedOf(lchan, d, files, reached, context, before)
    ensures lchan.card.t.Valid() && d in lchan.card.t.parent && EntriesOf(lchan.card.t, d, files)
    ensures Counted(lchan, context) && Possible(lchan, reached) && d in reached
    ensures context.trace == before + TraceOf(lchan.card.t, reached, d, files)
  {
  }

  /** All of the files are entries of the directory. */
  ghost predicate EntriesFrom(t: Tree, d: File, files: seq<File>) {
    t.Linked() && EntriesOf(t, d, files) && forall f :: f in files ==> f in Entries(t, d)
  }

  /** Selecting the directory entry by its name; a reliable card lets the walk in exactly if it has the entry. */
  method Enter(lchan: RuntimeLchan, file: File) returns (skipDf: bool)
    requires Live(lchan) && file in Entries(lchan.card.t, lchan.selectedFile)
    modifies lchan, lchan.card
    ensures Live(lchan) && old(lchan.card.granted) <= lchan.card.granted
    ensures !skipDf ==> file in lchan.card.present
    ensures lchan.Reliable() && skipDf ==> file !in lchan.card.present
    ensures lchan.selectedFile == if skipDf then old(lchan.selectedFile) else file
  {
    hide Live, Usable, GoodNames, Plain, Entries, Lookup, Norm, RuntimeLchan.Ready, RuntimeLchan.Settled,
      RuntimeLchan.MistakenIf, RuntimeLchan.FcpExact, Card.Sound, Tree.Valid, Tree.Linked, AncestorClosed,
      ProbeOutcome, RuntimeLchan.Answers, RuntimeLchan.Unlisted, OutcomeOf;
    LiveHas(lchan);
    IsUsable(lchan);
    ghost var from, before := lchan.selectedFile, lchan.card.current;
    EntryResolves(lchan.card.t, lchan.card.present, from, file);
    EntryResolves(lchan.card.t, lchan.Seen(), from, file);
    EntryIsListed(lchan, from, file);
    var r := lchan.Select(file.name.value);
    AnsweredAs(lchan, r, from, file);
    lchan.SettledHas(r, before);
    ReadyIsLive(lchan);
    LiveHas(lchan);
    skipDf := r != Done;
  }

  lemma ReadyIsLive(lchan: RuntimeLchan)
    requires Usable(lchan) && lchan.Ready()
    ensures Live(lchan)
  {
  }

  /** The name of an entry denotes the entry. */
  lemma EntryResolves(t: Tree, present: set<File>, d: File, file: File)
    requires t.Valid() && GoodNames(t) && d in t.parent && file in Entries(t, d)
    ensures file.name.Some? && '/' !in file.name.value && PathElements(file.name.value) == [file.name.value]
    ensures Resolve(t, present, d, [file.name.value]) == if file in present then Arrived(file) else NotThere(file)
  {
    hide GoodNames, Entries, Tree.Valid, Tree.Linked;
    EntryByName(t, d, file);
    ResolveOne(t, present, d, file.name.value);
  }

  lemma EntryIsListed(lchan: RuntimeLchan, d: File, file: File)
    requires lchan.card.t.Valid() && GoodNames(lchan.card.t) && d in lchan.card.t.parent
    requires file in Entries(lchan.card.t, d)
    ensures file.name.Some? && !lchan.Unlisted(d, file.name.value)
  {
    hide GoodNames, Entries, Tree.Valid, Tree.Linked;
    EntryByName(lchan.card.t, d, file);
  }

  /** What the answer to selecting an entry by its name must have been. */
  lemma AnsweredAs(lchan: RuntimeLchan, r: Outcome, d: File, file: File)
    requires file.name.Some? && lchan.Answers(r, d, [file.name.value])
    requires lchan.card.t.Valid() && d in lchan.card.t.parent
    requires Resolve(lchan.card.t, lchan.card.present, d, [file.name.value])
             == if file in lchan.card.present then Arrived(file) else NotThere(file)
    requires Resolve(lchan.card.t, lchan.Seen(), d, [file.name.value])
             == if file in lchan.Seen() then Arrived(file) else NotThere(file)
    ensures r == Done ==> lchan.selectedFile == file
    ensures lchan.Reliable() ==> r == if file in lchan.card.present then Done else Refused
  {
    hide Tree.Valid, Tree.Linked, RuntimeLchan.FcpExact;
  }

  /** Back up to the parent of the directory the inner walk left selected. */
  method Leave(lchan: RuntimeLchan)
    requires Live(lchan)
    modifies lchan, lchan.card
    ensures Live(lchan) && old(lchan.selectedFile) in lchan.card.t.parent
    ensures lchan.selectedFile == lchan.card.t.parent[old(lchan.selectedFile)]
    ensures old(lchan.card.granted) <= lchan.card.granted
  {
    hide Live, Usable, GoodNames, RuntimeLchan.Ready, Card.Sound, Tree.Valid, Tree.Linked;
    LiveHas(lchan);
    GoTo(lchan, lchan.card.t.parent[lchan.selectedFile]);
  }

  /** One round of the loop of `__walk`, for a directory. */
  method WalkDir(lchan: RuntimeLchan, file: File, context: ExportContext) returns (ghost reached: set<File>)
    requires Live(lchan) && Counted(lchan, context)
    requires file in Entries(lchan.card.t, lchan.selectedFile) && file.IsDir() && file.name.Some?
    requires IsEntry(lchan.card.t, lchan.selectedFile, file)
    modifies lchan, lchan.card, context
    ensures Live(lchan) && lchan.selectedFile == old(lchan.selectedFile) && old(lchan.card.granted) <= lchan.card.granted
    ensures WalkedEntry(lchan, old(lchan.selectedFile), file, reached, context, old(context.trace))
    decreases Height(lchan, file), 2, 0
  {
    hide Live, GoodNames, ExportContext.Tallies, Card.Sound, Tree.Valid, Tree.Linked, Height, Trace, TraceOfEntry,
      Entries, AncestorClosed;
    LiveHas(lchan);
    ghost var d := lchan.selectedFile;
    var skipDf := Enter(lchan, file);
    if skipDf {
      context.CountSkip(file, lchan.card.present, lchan.Reliable());
      reached := lchan.card.present - {file};
    } else {
      reached := Walk(lchan, context);
      Leave(lchan);
    }
    EntryTraceIs(lchan.card.t, reached, d, file);
  }

  lemma EntryTraceIs(t: Tree, present: set<File>, d: File, file: File)
    requires t.Valid() && IsEntry(t, d, file)
    ensures TraceOfEntry(t, present, d, file) ==
            if !file.IsDir() then [Acted(file)]
            else if file in present then Trace(t, present, file)
            else [Skipped(file)]
  {
  }

  lemma Lower(lchan: RuntimeLchan, d: File, file: File)
    requires lchan.card.t.Valid() && IsEntry(lchan.card.t, d, file)
    ensures 0 <= Height(lchan, file) < Height(lchan, d)
  {
    Deeper(lchan.card.t, d, file);
  }

  /** One round of the loop of `__walk`. */
  method WalkEntry(lchan: RuntimeLchan, file: File, context: ExportContext) returns (ghost reached: set<File>)
    requires Live(lchan) && Counted(lchan, context)
    requires file in Entries(lchan.card.t, lchan.selectedFile) && IsEntry(lchan.card.t, lchan.selectedFile, file)
    modifies lchan, lchan.card, context
    ensures Live(lchan) && lchan.selectedFile == old(lchan.selectedFile) && old(lchan.card.granted) <= lchan.card.granted
    ensures WalkedEntry(lchan, old(lchan.selectedFile), file, reached, context, old(context.trace))
    decreases Height(lchan, lchan.selectedFile), 0, 0
  {
    hide Live, GoodNames, Plain, ExportContext.Tallies, Card.Sound, Tree.Valid, Tree.Linked, Height, Lookup, Trace,
      TraceOfEntry, Entries, AncestorClosed;
    LiveHas(lchan);
    EntryByName(lchan.card.t, lchan.selectedFile, file);
    EntryTraceIs(lchan.card.t, lchan.card.present, lchan.selectedFile, file);
    Lower(lchan, lchan.selectedFile, file);
    if file.IsDir() {
      reached := WalkDir(lchan, file, context);
    } else {
      var ok := WalkAction(lchan, file.name.value, context);
      reached := lchan.card.present;
    }
  }
}
