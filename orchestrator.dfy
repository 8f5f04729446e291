/**
 * `work`: fetch and parse the TXT record, plan the queue items, let the
 * workers handle them, and write `dns.txt` once both queues are drained.
 *
 * The worker threads are modelled by handling every diff item and then
 * every full-bundle item, one after the other, against the same world. An
 * item whose handler raises kills its worker without `task_done`, so the
 * matching `join` never returns: the run then hangs and `dns.txt` is not
 * written. There are as many workers as items of each kind (three diff
 * items at most, three workers; four bundle items, four workers), so every
 * item is handled even when some workers die.
 */
module Orchestrator {
  import opened Wrappers
  import opened Text
  import opened Environment
  import opened Manifest
  import opened Sigtool
  import opened FullUpdate
  import opened DiffUpdate
  import opened Marker

  // ---------------------------------------------------------------------
  // Planning
  // ---------------------------------------------------------------------

  /** The queue items: diff items for `dqueue`, streams for `mqueue` (each with the same options and versions). */
  datatype Plan = Plan(diffs: seq<DiffItem>, full: seq<Stream>)

  /** The diff item (if any) planned for one stream; reading its local version may raise. */
  function PlanItem(fs: FileSystem, sigtool: Option<string> -> SigtoolRun, opts: Options, vers: Versions,
                    s: Stream): Result<seq<DiffItem>, Error>
  {
    if !s.HasDiffs() then Success([])
    else
      match LocalVersion(fs, sigtool, opts.mirrordir, s.Name())
      case Failure(e) => Failure(e)
      case Success(None) => Success([])
      case Success(Some(v)) => Success([DiffItem(s.Name(), v, vers.Get(s))])
  }

  /** The diff items planned for `streams`, in order; the first exception stops the planning. */
  function DiffPlan(fs: FileSystem, sigtool: Option<string> -> SigtoolRun, opts: Options, vers: Versions,
                    streams: seq<Stream>): Result<seq<DiffItem>, Error>
    decreases |streams|
  {
    if streams == [] then Success([])
    else
      match DiffPlan(fs, sigtool, opts, vers, streams[..|streams| - 1])
      case Failure(e) => Failure(e)
      case Success(items) =>
        match PlanItem(fs, sigtool, opts, vers, streams[|streams| - 1])
        case Failure(e) => Failure(e)
        case Success(more) => Success(items + more)
  }

  /** Once a prefix of the streams has failed, the whole planning fails the same way. */
  lemma {:induction false} DiffPlanPrefix(fs: FileSystem, sigtool: Option<string> -> SigtoolRun, opts: Options,
                                          vers: Versions, streams: seq<Stream>, i: nat)
    requires i <= |streams| && DiffPlan(fs, sigtool, opts, vers, streams[..i]).Failure?
    ensures DiffPlan(fs, sigtool, opts, vers, streams) == DiffPlan(fs, sigtool, opts, vers, streams[..i])
    decreases |streams| - i
  {
    if i < |streams| {
      assert streams[..i + 1][..i] == streams[..i];
      DiffPlanPrefix(fs, sigtool, opts, vers, streams, i + 1);
    } else {
      assert streams[..i] == streams;
    }
  }

  /**
   * The planning loop of `work`: for each stream in the order main, daily,
   * bytecode, safebrowsing, queue a diff item when the stream has diffs and
   * a local bundle, then queue the full-bundle item.
   */
  method PlanWork(fs: FileSystem, sigtool: Option<string> -> SigtoolRun, opts: Options, vers: Versions)
    returns (r: Result<Plan, Error>)
    ensures r.Success? <==> DiffPlan(fs, sigtool, opts, vers, StreamOrder).Success?
    ensures r.Success? ==> r.value == Plan(DiffPlan(fs, sigtool, opts, vers, StreamOrder).value, StreamOrder)
    ensures r.Failure? ==> r.error == DiffPlan(fs, sigtool, opts, vers, StreamOrder).error
  {
    var diffs: seq<DiffItem> := [];
    var full: seq<Stream> := [];
    for i := 0 to |StreamOrder|
      invariant DiffPlan(fs, sigtool, opts, vers, StreamOrder[..i]) == Success(diffs)
      invariant full == StreamOrder[..i]
    {
      var signatureType := StreamOrder[i];
      assert StreamOrder[..i + 1][..i] == StreamOrder[..i];
      assert StreamOrder[..i + 1][i] == signatureType;
      if signatureType.HasDiffs() {
        var localver := GetLocalVersion(fs, sigtool, opts.mirrordir, signatureType.Name());
        if localver.Failure? {
          DiffPlanPrefix(fs, sigtool, opts, vers, StreamOrder, i + 1);
          return Failure(localver.error);
        }
        var remotever := vers.Get(signatureType);
        if localver.value.Some? {
          diffs := diffs + [DiffItem(signatureType.Name(), localver.value.value, remotever)];
        } else {
          assert diffs + [] == diffs;
        }
      } else {
        assert diffs + [] == diffs;
      }
      full := full + [signatureType];
    }
    assert StreamOrder[..|StreamOrder|] == StreamOrder;
    r := Success(Plan(diffs, full));
  }

  /** `d` is the diff item planned for stream `s`. */
  predicate PlannedFor(fs: FileSystem, sigtool: Option<string> -> SigtoolRun, opts: Options, vers: Versions,
                       d: DiffItem, s: Stream)
  {
    && s.HasDiffs()
    && LocalVersion(fs, sigtool, opts.mirrordir, s.Name()) == Success(Some(d.localver))
    && d == DiffItem(s.Name(), d.localver, vers.Get(s))
  }

  /**
   * A diff item is planned exactly for each stream that has diffs and whose
   * local bundle declares a version; it carries that version and the
   * stream's remote version.
   */
  lemma {:induction false} PlanMembers(fs: FileSystem, sigtool: Option<string> -> SigtoolRun, opts: Options,
                                       vers: Versions, streams: seq<Stream>)
    requires DiffPlan(fs, sigtool, opts, vers, streams).Success?
    ensures forall d :: d in DiffPlan(fs, sigtool, opts, vers, streams).value <==>
      exists s :: s in streams && PlannedFor(fs, sigtool, opts, vers, d, s)
    decreases |streams|
  {
    if streams != [] {
      var init := streams[..|streams| - 1];
      var s := streams[|streams| - 1];
      PlanMembers(fs, sigtool, opts, vers, init);
      PlanItemMembers(fs, sigtool, opts, vers, s);
      assert streams == init + [s];
      assert forall t :: t in streams <==> t in init || t == s;
      assert DiffPlan(fs, sigtool, opts, vers, streams).value
          == DiffPlan(fs, sigtool, opts, vers, init).value + PlanItem(fs, sigtool, opts, vers, s).value;
    }
  }

  lemma PlanItemMembers(fs: FileSystem, sigtool: Option<string> -> SigtoolRun, opts: Options, vers: Versions,
                        s: Stream)
    ensures PlanItem(fs, sigtool, opts, vers, s).Success? ==>
      forall d :: d in PlanItem(fs, sigtool, opts, vers, s).value <==> PlannedFor(fs, sigtool, opts, vers, d, s)
  {
  }

  /** Planning fails exactly when reading the local version of some stream with diffs raises. */
  lemma {:induction false} PlanFails(fs: FileSystem, sigtool: Option<string> -> SigtoolRun, opts: Options,
                                     vers: Versions, streams: seq<Stream>)
    ensures DiffPlan(fs, sigtool, opts, vers, streams).Failure? <==>
      exists s :: s in streams && s.HasDiffs() && LocalVersion(fs, sigtool, opts.mirrordir, s.Name()).Failure?
    decreases |streams|
  {
    if streams != [] {
      var init := streams[..|streams| - 1];
      var s := streams[|streams| - 1];
      PlanFails(fs, sigtool, opts, vers, init);
      assert streams == init + [s];
      assert forall t :: t in streams <==> t in init || t == s;
    }
  }

  /** The main bundle never gets a diff item. */
  lemma NoMainDiff(fs: FileSystem, sigtool: Option<string> -> SigtoolRun, opts: Options, vers: Versions)
    requires DiffPlan(fs, sigtool, opts, vers, StreamOrder).Success?
    ensures forall d :: d in DiffPlan(fs, sigtool, opts, vers, StreamOrder).value ==>
      d.sigType in ["daily", "bytecode", "safebrowsing"] && d.sigType != "main"
  {
    PlanMembers(fs, sigtool, opts, vers, StreamOrder);
  }

  // ---------------------------------------------------------------------
  // Handling the queues
  // ---------------------------------------------------------------------

  /** The world after a batch of queue items, and the exceptions their handlers raised, in order. */
  datatype Batch = Batch(world: World, errors: seq<Error>)

  /** The exception an item's handler raised, if any. */
  function ErrorsOf(st: Status): seq<Error> {
    if st.Raised? then [st.error] else []
  }

  /** `download_diffs` handling `items` one after the other. */
  function DiffBatch(w: World, env: Env, opts: Options, items: seq<DiffItem>): Batch
    decreases |items|
  {
    if items == [] then Batch(w, [])
    else
      var b := DiffBatch(w, env, opts, items[..|items| - 1]);
      var step := DownloadDiffsSpec(b.world, env, opts, items[|items| - 1]);
      Batch(step.world, b.errors + ErrorsOf(step.status))
  }

  /** `update_sig` handling the streams one after the other. */
  function FullBatch(w: World, env: Env, opts: Options, streams: seq<Stream>, vers: Versions): Batch
    decreases |streams|
  {
    if streams == [] then Batch(w, [])
    else
      var b := FullBatch(w, env, opts, streams[..|streams| - 1], vers);
      var step := UpdateSigSpec(b.world, env, opts, streams[|streams| - 1], vers);
      Batch(step.world, b.errors + ErrorsOf(step.status))
  }

  /** `dqueue.join()`: the diff workers take the queued items one after the other. */
  method JoinDiffQueue(w: World, env: Env, opts: Options, diffs: seq<DiffItem>) returns (b: Batch)
    ensures b == DiffBatch(w, env, opts, diffs)
  {
    var world := w;
    var errors: seq<Error> := [];
    for i := 0 to |diffs|
      invariant DiffBatch(w, env, opts, diffs[..i]) == Batch(world, errors)
    {
      assert diffs[..i + 1][..i] == diffs[..i];
      var step := DownloadDiffs(world, env, opts, diffs[i]);
      world := step.world;
      errors := errors + ErrorsOf(step.status);
    }
    assert diffs[..|diffs|] == diffs;
    b := Batch(world, errors);
  }

  /** `mqueue.join()`: the signature workers take the queued streams one after the other. */
  method JoinSigQueue(w: World, env: Env, opts: Options, streams: seq<Stream>, vers: Versions) returns (b: Batch)
    ensures b == FullBatch(w, env, opts, streams, vers)
  {
    var world := w;
    var errors: seq<Error> := [];
    for i := 0 to |streams|
      invariant FullBatch(w, env, opts, streams[..i], vers) == Batch(world, errors)
    {
      assert streams[..i + 1][..i] == streams[..i];
      var step := UpdateSig(world, env, opts, streams[i], vers);
      world := step.world;
      errors := errors + ErrorsOf(step.status);
    }
    assert streams[..|streams|] == streams;
    b := Batch(world, errors);
  }

  // ---------------------------------------------------------------------
  // The whole run
  // ---------------------------------------------------------------------

  /** How a run ends: `sys.exit(code)`, an uncaught exception in the main thread, or a `join` that never returns. */
  datatype RunOutcome = Exited(code: int) | Crashed(error: Error) | Hangs

  datatype Run = Run(world: World, outcome: RunOutcome)

  /** What `work(options)` does to the world, and how it ends. */
  function WorkSpec(w: World, env: Env, opts: Options): Run {
    match FirstAnswer(env.dns, 1)
    case Exit(code) => Run(w, Exited(code))
    case Record(record) =>
      match ParseRecord(record)
      case Failure(e) => Run(w, Crashed(e))
      case Success(vers) =>
        match DiffPlan(w.fs, env.sigtool, opts, vers, StreamOrder)
        case Failure(e) => Run(w, Crashed(e))
        case Success(diffs) =>
          var d := DiffBatch(w, env, opts, diffs);
          var f := FullBatch(d.world, env, opts, StreamOrder, vers);
          if d.errors + f.errors != [] then Run(f.world, Hangs)
          else Run(f.world.(fs := DnsFileWritten(f.world.fs, env, opts, record)), Exited(0))
  }

  /** `work(options)`. */
  method Work(w: World, env: Env, opts: Options) returns (run: Run)
    ensures run == WorkSpec(w, env, opts)
  {
    var answer, queries, sleeps := GetRecord(env.dns);
    if answer.Exit? {
      return Run(w, Exited(answer.code));
    }
    var record := answer.text;
    var parsed := ParseRecord(record);
    if parsed.Failure? {
      return Run(w, Crashed(parsed.error));
    }
    var versions := parsed.value;
    var plan := PlanWork(w.fs, env.sigtool, opts, versions);
    if plan.Failure? {
      return Run(w, Crashed(plan.error));
    }
    var d := JoinDiffQueue(w, env, opts, plan.value.diffs);
    var f := JoinSigQueue(d.world, env, opts, plan.value.full, versions);
    if d.errors + f.errors != [] {
      return Run(f.world, Hangs);
    }
    var fs', wrote := CreateDnsFile(f.world.fs, env, opts, record);
    run := Run(f.world.(fs := fs'), Exited(0));
  }

  /** Four empty TXT answers end the run with exit code 3 before anything is touched. */
  lemma UnresolvableRecordExits(w: World, env: Env, opts: Options)
    requires forall k :: 1 <= k <= RecordPasses ==> env.dns(k) == ""
    ensures WorkSpec(w, env, opts) == Run(w, Exited(3))
  {
    FirstAnswerExits(env.dns, 1);
  }

  /** A record that does not split into eight fields crashes the run before anything is touched. */
  lemma MalformedRecordCrashes(w: World, env: Env, opts: Options, record: string)
    requires FirstAnswer(env.dns, 1) == Record(record)
    requires multiset(record)[':'] != 7
    ensures WorkSpec(w, env, opts) == Run(w, Crashed(BadRecord(multiset(record)[':'] + 1)))
  {
  }

  /**
   * A run that exits with 0 got a record, every queue item was handled
   * without an exception, and `dns.txt` now hashes to the record's digest.
   */
  lemma CleanRunPublishesRecord(w: World, env: Env, opts: Options)
    requires WorkSpec(w, env, opts).outcome == Exited(0)
    ensures FirstAnswer(env.dns, 1).Record?
    ensures var run := WorkSpec(w, env, opts);
      FileMd5(run.world.fs, env.md5, MarkerPath(opts)) == env.md5(FirstAnswer(env.dns, 1).text)
  {
    FirstAnswerExits(env.dns, 1);
    var record := FirstAnswer(env.dns, 1).text;
    var vers := ParseRecord(record).value;
    var diffs := DiffPlan(w.fs, env.sigtool, opts, vers, StreamOrder).value;
    var d := DiffBatch(w, env, opts, diffs);
    var f := FullBatch(d.world, env, opts, StreamOrder, vers);
    MarkerDigestMatches(f.world.fs, env, opts, record);
  }

  // ---------------------------------------------------------------------
  // Re-running against an unchanged upstream
  // ---------------------------------------------------------------------

  /**
   * A stream is up to date: its local bundle declares a version at least
   * the remote one and, for a stream with diffs, every step from the local
   * version to the remote one is already in the mirror.
   */
  predicate StreamCurrent(fs: FileSystem, env: Env, opts: Options, vers: Versions, s: Stream) {
    match LocalVersion(fs, env.sigtool, opts.mirrordir, s.Name())
    case Success(Some(v)) =>
      && ParseInt(v).Some? && ParseInt(vers.Get(s)).Some?
      && ParseInt(v).value >= ParseInt(vers.Get(s)).value
      && (s.HasDiffs() ==>
            forall n :: ParseInt(v).value <= n <= ParseInt(vers.Get(s)).value ==> DiffDest(opts, s.Name(), n) in fs)
    case _ => false
  }

  /** No step of a range is missing when all of them are present. */
  lemma NoMissingSteps(fs: FileSystem, opts: Options, sigType: string, n: int, last: int)
    requires forall m :: n <= m <= last ==> DiffDest(opts, sigType, m) in fs
    ensures MissingSteps(fs, opts, sigType, n, last) == []
  {
    var missing := MissingSteps(fs, opts, sigType, n, last);
    if missing != [] {
      MissingStepsMembers(fs, opts, sigType, n, last, missing[0]);
      assert false;
    }
  }

  /** Every step of a diff item's range is already in the mirror. */
  predicate DiffItemComplete(fs: FileSystem, opts: Options, item: DiffItem) {
    && ParseInt(item.localver).Some? && ParseInt(item.remotever).Some?
    && forall n :: ParseInt(item.localver).value <= n <= ParseInt(item.remotever).value ==>
         DiffDest(opts, item.sigType, n) in fs
  }

  /** A diff item whose steps are all in the mirror is handled without effect. */
  lemma CompleteChainIsNoop(w: World, env: Env, opts: Options, item: DiffItem)
    requires DiffItemComplete(w.fs, opts, item)
    ensures DownloadDiffsSpec(w, env, opts, item) == Step(w, Done)
  {
    var local := ParseInt(item.localver).value;
    var remote := ParseInt(item.remotever).value;
    NoMissingSteps(w.fs, opts, item.sigType, local, remote);
    ChainNeverRaises(w, env, opts, item.sigType, local, remote);
    ChainRequests(w, env, opts, item.sigType, local, remote);
    ChainFiles(w, env, opts, item.sigType, local, remote);
    var step := DiffStepsSpec(w, env, opts, item.sigType, local, remote);
    assert step.world.fs == step.world.fs - {};
    assert w.fs == w.fs - {};
  }

  /** The diff item planned for an up-to-date stream is complete. */
  lemma PlannedItemComplete(fs: FileSystem, env: Env, opts: Options, vers: Versions, d: DiffItem, s: Stream)
    requires StreamCurrent(fs, env, opts, vers, s) && PlannedFor(fs, env.sigtool, opts, vers, d, s)
    ensures DiffItemComplete(fs, opts, d)
  {
  }

  lemma {:induction false} DiffBatchNoop(w: World, env: Env, opts: Options, items: seq<DiffItem>)
    requires forall d :: d in items ==> DiffItemComplete(w.fs, opts, d)
    ensures DiffBatch(w, env, opts, items) == Batch(w, [])
    decreases |items|
  {
    if items != [] {
      var init := items[..|items| - 1];
      var d := items[|items| - 1];
      assert forall e :: e in init ==> e in items;
      DiffBatchNoop(w, env, opts, init);
      CompleteChainIsNoop(w, env, opts, d);
    }
  }

  lemma {:induction false} FullBatchNoop(w: World, env: Env, opts: Options, vers: Versions, streams: seq<Stream>)
    requires forall s :: s in streams ==> StreamCurrent(w.fs, env, opts, vers, s)
    ensures FullBatch(w, env, opts, streams, vers) == Batch(w, [])
    decreases |streams|
  {
    if streams != [] {
      var init := streams[..|streams| - 1];
      var s := streams[|streams| - 1];
      assert forall t :: t in init ==> t in streams;
      FullBatchNoop(w, env, opts, vers, init);
      CurrentStreamIsNoop(w, env, opts, vers, s);
    }
  }

  lemma CurrentStreamIsNoop(w: World, env: Env, opts: Options, vers: Versions, s: Stream)
    requires StreamCurrent(w.fs, env, opts, vers, s)
    ensures UpdateSigSpec(w, env, opts, s, vers) == Step(w, Done)
  {
    var v := LocalVersion(w.fs, env.sigtool, opts.mirrordir, s.Name()).value.value;
    CurrentIsNoop(w, env, opts, s, vers, v);
  }

  /**
   * Re-running the mirror when every stream is up to date and `dns.txt`
   * already holds a record with the same digest makes no request, changes
   * no file, and exits with 0.
   */
  lemma UpToDateRunIsNoop(w: World, env: Env, opts: Options, record: string, vers: Versions)
    requires FirstAnswer(env.dns, 1) == Record(record)
    requires ParseRecord(record) == Success(vers)
    requires forall s :: s in StreamOrder ==> StreamCurrent(w.fs, env, opts, vers, s)
    requires FileMd5(w.fs, env.md5, MarkerPath(opts)) == env.md5(record)
    ensures WorkSpec(w, env, opts) == Run(w, Exited(0))
  {
    PlanFails(w.fs, env.sigtool, opts, vers, StreamOrder);
    var diffs := DiffPlan(w.fs, env.sigtool, opts, vers, StreamOrder).value;
    PlanMembers(w.fs, env.sigtool, opts, vers, StreamOrder);
    forall d | d in diffs
      ensures DiffItemComplete(w.fs, opts, d)
    {
      var s :| s in StreamOrder && PlannedFor(w.fs, env.sigtool, opts, vers, d, s);
      PlannedItemComplete(w.fs, env, opts, vers, d, s);
    }
    DiffBatchNoop(w, env, opts, diffs);
    FullBatchNoop(w, env, opts, vers, StreamOrder);
  }
}
