/**
 * The diff-chain worker (`download_diffs` and `update_diff`): for one
 * stream, walk the version numbers from the local version to the remote
 * one, and for every step whose `.cdiff` is missing from the mirror make
 * five download attempts, publishing after each one that succeeds.
 */
module DiffUpdate {
  import opened Wrappers
  import opened Text
  import opened Environment
  import opened Transfer

  /** `update_diff` loops over `range(1, 6)` and never leaves the loop early. */
  const DiffAttempts: nat := 5

  /** `'%s-%d' % (signature_type, num)` */
  function DiffName(sigType: string, n: int): string {
    sigType + "-" + IntToDecimal(n)
  }

  /** The mirror file whose presence makes `download_diffs` skip step `n`. */
  function DiffDest(opts: Options, sigType: string, n: int): Path {
    Path(opts.mirrordir, DiffName(sigType, n) + ".cdiff")
  }

  /** The URL every attempt for step `n` requests. */
  function DiffUrl(opts: Options, sigType: string, n: int): string {
    RequestUrl(opts.hostname, DiffName(sigType, n), None)
  }

  /** The world after `update_diff(opts, sig)` with `attempts` iterations left. */
  function UpdateDiffSpec(w: World, env: Env, opts: Options, sig: string, attempts: nat): Step
    decreases attempts
  {
    if attempts == 0 then Step(w, Done)
    else
      var f := Fetched(w, env, opts, sig, None);
      if f.downloaded then
        match CopiedSig(f.world.fs, env, opts, sig, true)
        case Failure(e) => Step(f.world, Raised(e))
        case Success(fs) => UpdateDiffSpec(f.world.(fs := fs), env, opts, sig, attempts - 1)
      else UpdateDiffSpec(f.world, env, opts, sig, attempts - 1)
  }

  /**
   * `update_diff`: five download attempts of `<sig>.cdiff`, each successful
   * one followed by a deploy; neither a success nor a 404 ends the loop.
   */
  method UpdateDiff(w: World, env: Env, opts: Options, sig: string) returns (step: Step)
    ensures step == UpdateDiffSpec(w, env, opts, sig, DiffAttempts)
  {
    var world := w;
    for i := 1 to 6
      invariant UpdateDiffSpec(world, env, opts, sig, 6 - i) == UpdateDiffSpec(w, env, opts, sig, DiffAttempts)
    {
      var f := DownloadSig(world, env, opts, sig, None);
      world := f.world;
      if f.downloaded {
        var deployed := CopySig(world.fs, env, opts, sig, true);
        if deployed.Failure? {
          return Step(world, Raised(deployed.error));
        }
        world := world.(fs := deployed.value);
      }
      // otherwise "Download failed", with "not found" first when the code is 404
    }
    step := Step(world, Done);
  }

  /** `k` copies of `x`. */
  function Repeat<T>(x: T, k: nat): seq<T>
    decreases k
  {
    if k == 0 then [] else [x] + Repeat(x, k - 1)
  }

  /** The body of the last response with status 200 among requests `start` .. `start + k - 1` of `url`. */
  function LastSuccess(net: (string, nat) -> Response, url: string, start: nat, k: nat): Option<string>
    decreases k
  {
    if k == 0 then None
    else
      match LastSuccess(net, url, start + 1, k - 1)
      case Some(body) => Some(body)
      case None => if net(url, start).status == 200 then Some(net(url, start).body) else None
  }

  /**
   * `k` attempts make exactly `k` requests, never raise, and change no file
   * but the working and mirror copies of `<sig>.cdiff`.
   */
  lemma AttemptsFrame(w: World, env: Env, opts: Options, sig: string, k: nat)
    ensures var step := UpdateDiffSpec(w, env, opts, sig, k);
      var (source, dest) := DeployPaths(opts, sig, true);
      && step.status == Done
      && step.world.requests == w.requests + Repeat(RequestUrl(opts.hostname, sig, None), k)
      && step.world.fs - {source, dest} == w.fs - {source, dest}
  {
    AttemptsNeverRaise(w, env, opts, sig, k);
    AttemptsRequests(w, env, opts, sig, k);
    AttemptsFiles(w, env, opts, sig, k);
  }

  /** No attempt raises: a successful download of a diff is always deployed. */
  lemma {:induction false} AttemptsNeverRaise(w: World, env: Env, opts: Options, sig: string, k: nat)
    ensures UpdateDiffSpec(w, env, opts, sig, k).status == Done
    decreases k
  {
    if k > 0 {
      var f := Fetched(w, env, opts, sig, None);
      if f.downloaded {
        FetchThenDeploy(w, env, opts, sig, None, true);
        AttemptsNeverRaise(f.world.(fs := CopiedSig(f.world.fs, env, opts, sig, true).value), env, opts, sig, k - 1);
      } else {
        AttemptsNeverRaise(f.world, env, opts, sig, k - 1);
      }
    }
  }

  /** Each attempt is exactly one request of the step's URL. */
  lemma {:induction false} AttemptsRequests(w: World, env: Env, opts: Options, sig: string, k: nat)
    ensures UpdateDiffSpec(w, env, opts, sig, k).world.requests
            == w.requests + Repeat(RequestUrl(opts.hostname, sig, None), k)
    decreases k
  {
    if k > 0 {
      var url := RequestUrl(opts.hostname, sig, None);
      var f := Fetched(w, env, opts, sig, None);
      assert w.requests + Repeat(url, k) == f.world.requests + Repeat(url, k - 1);
      if f.downloaded {
        FetchThenDeploy(w, env, opts, sig, None, true);
        AttemptsRequests(f.world.(fs := CopiedSig(f.world.fs, env, opts, sig, true).value), env, opts, sig, k - 1);
      } else {
        AttemptsRequests(f.world, env, opts, sig, k - 1);
      }
    }
  }

  /** Only the working and mirror copies of `<sig>.cdiff` change. */
  lemma {:induction false} AttemptsFiles(w: World, env: Env, opts: Options, sig: string, k: nat)
    ensures var (source, dest) := DeployPaths(opts, sig, true);
      UpdateDiffSpec(w, env, opts, sig, k).world.fs - {source, dest} == w.fs - {source, dest}
    decreases k
  {
    if k > 0 {
      var f := Fetched(w, env, opts, sig, None);
      if f.downloaded {
        FetchThenDeploy(w, env, opts, sig, None, true);
        AttemptsFiles(f.world.(fs := CopiedSig(f.world.fs, env, opts, sig, true).value), env, opts, sig, k - 1);
      } else {
        AttemptsFiles(f.world, env, opts, sig, k - 1);
      }
    }
  }

  /**
   * If no attempt answered 200 the files are as before; otherwise the
   * mirror copy holds the body of the last successful attempt, with mode
   * 0o644, and the working copy has been moved away.
   */
  lemma {:induction false} AttemptsResult(w: World, env: Env, opts: Options, sig: string, k: nat)
    ensures var step := UpdateDiffSpec(w, env, opts, sig, k);
      var (source, dest) := DeployPaths(opts, sig, true);
      match LastSuccess(env.net, RequestUrl(opts.hostname, sig, None), |w.requests|, k)
      case None => step.world.fs == w.fs
      case Some(body) =>
        && dest in step.world.fs && step.world.fs[dest].content == body
        && step.world.fs[dest].mode == DeployMode
        && (opts.workdir != opts.mirrordir ==> source !in step.world.fs)
    decreases k
  {
    if k > 0 {
      var f := Fetched(w, env, opts, sig, None);
      if f.downloaded {
        FetchThenDeploy(w, env, opts, sig, None, true);
        var w1 := f.world.(fs := CopiedSig(f.world.fs, env, opts, sig, true).value);
        AttemptsResult(w1, env, opts, sig, k - 1);
      } else {
        AttemptsResult(f.world, env, opts, sig, k - 1);
      }
    }
  }

  /**
   * `k` attempts always make exactly `k` requests and never raise. Only the
   * working copy and the mirror copy of `<sig>.cdiff` can change. If no
   * attempt answered 200 the files are as before; otherwise the mirror copy
   * holds the body of the last successful attempt, with mode 0o644, and the
   * working copy has been moved away.
   */
  lemma UpdateDiffEffect(w: World, env: Env, opts: Options, sig: string, k: nat)
    ensures var step := UpdateDiffSpec(w, env, opts, sig, k);
      var (source, dest) := DeployPaths(opts, sig, true);
      var url := RequestUrl(opts.hostname, sig, None);
      && step.status == Done
      && step.world.requests == w.requests + Repeat(url, k)
      && step.world.fs - {source, dest} == w.fs - {source, dest}
      && match LastSuccess(env.net, url, |w.requests|, k)
         case None => step.world.fs == w.fs
         case Some(body) =>
           && dest in step.world.fs && step.world.fs[dest].content == body
           && step.world.fs[dest].mode == DeployMode
           && (opts.workdir != opts.mirrordir ==> source !in step.world.fs)
  {
    AttemptsFrame(w, env, opts, sig, k);
    AttemptsResult(w, env, opts, sig, k);
  }

  /** `update_diff` makes exactly five requests for the step, whatever each returns. */
  lemma FiveAttempts(w: World, env: Env, opts: Options, sig: string)
    ensures UpdateDiffSpec(w, env, opts, sig, DiffAttempts).world.requests
         == w.requests + Repeat(RequestUrl(opts.hostname, sig, None), 5)
    ensures UpdateDiffSpec(w, env, opts, sig, DiffAttempts).status == Done
  {
    AttemptsFrame(w, env, opts, sig, DiffAttempts);
  }

  /** The world after the loop of `download_diffs` over the steps `n` .. `last`. */
  function DiffStepsSpec(w: World, env: Env, opts: Options, sigType: string, n: int, last: int): Step
    decreases last + 1 - n
  {
    if n > last then Step(w, Done)
    else if DiffDest(opts, sigType, n) in w.fs then DiffStepsSpec(w, env, opts, sigType, n + 1, last)
    else
      var step := UpdateDiffSpec(w, env, opts, DiffName(sigType, n), DiffAttempts);
      if step.status.Raised? then step
      else DiffStepsSpec(step.world, env, opts, sigType, n + 1, last)
  }

  /** A queued diff item: the stream and its local and remote version text. */
  datatype DiffItem = DiffItem(sigType: string, localver: string, remotever: string)

  /**
   * The world after `download_diffs` handles one item: both versions go
   * through `int()` (either may raise) and the steps run from the local
   * version itself up to the remote one.
   */
  function DownloadDiffsSpec(w: World, env: Env, opts: Options, item: DiffItem): Step {
    match ParseInt(item.localver)
    case None => Step(w, Raised(BadInteger(item.localver)))
    case Some(local) =>
      match ParseInt(item.remotever)
      case None => Step(w, Raised(BadInteger(item.remotever)))
      case Some(remote) => DiffStepsSpec(w, env, opts, item.sigType, local, remote)
  }

  /**
   * One iteration of the `download_diffs` worker loop:
   * `for num in range(int(localver), int(remotever) + 1)`, skipping steps
   * already in the mirror.
   */
  method DownloadDiffs(w: World, env: Env, opts: Options, item: DiffItem) returns (step: Step)
    ensures step == DownloadDiffsSpec(w, env, opts, item)
  {
    var local := ParseInt(item.localver);
    if local.None? {
      return Step(w, Raised(BadInteger(item.localver)));
    }
    var remote := ParseInt(item.remotever);
    if remote.None? {
      return Step(w, Raised(BadInteger(item.remotever)));
    }
    var world := w;
    var num := local.value;
    while num < remote.value + 1
      invariant num <= remote.value + 1 || num == local.value
      invariant DiffStepsSpec(world, env, opts, item.sigType, num, remote.value)
             == DownloadDiffsSpec(w, env, opts, item)
      decreases remote.value + 1 - num
    {
      var sigDiff := DiffName(item.sigType, num);
      var filename := Path(opts.mirrordir, sigDiff + ".cdiff");
      if filename !in world.fs {
        var s := UpdateDiff(world, env, opts, sigDiff);
        if s.status.Raised? {
          return s;
        }
        world := s.world;
      }
      num := num + 1;
    }
    step := Step(world, Done);
  }

  // ---------------------------------------------------------------------
  // What the whole chain does
  // ---------------------------------------------------------------------

  /** The steps in `n` .. `last` whose `.cdiff` is absent from the mirror, in increasing order. */
  function MissingSteps(fs: FileSystem, opts: Options, sigType: string, n: int, last: int): seq<int>
    decreases last + 1 - n
  {
    if n > last then []
    else (if DiffDest(opts, sigType, n) in fs then [] else [n]) + MissingSteps(fs, opts, sigType, n + 1, last)
  }

  /** Five requests for each listed step, in order. */
  function StepRequests(opts: Options, sigType: string, steps: seq<int>): seq<string>
    decreases |steps|
  {
    if steps == [] then []
    else Repeat(DiffUrl(opts, sigType, steps[0]), DiffAttempts) + StepRequests(opts, sigType, steps[1..])
  }

  /** The working and mirror copies of each listed step. */
  function StepPaths(opts: Options, sigType: string, steps: seq<int>): set<Path>
    decreases |steps|
  {
    if steps == [] then {}
    else
      var name := DiffName(sigType, steps[0]) + ".cdiff";
      {Path(opts.workdir, name), Path(opts.mirrordir, name)} + StepPaths(opts, sigType, steps[1..])
  }

  /** Distinct steps have distinct file names. */
  lemma DiffNameInjective(sigType: string, m: int, n: int)
    requires DiffName(sigType, m) + ".cdiff" == DiffName(sigType, n) + ".cdiff"
    ensures m == n
  {
    var a := DiffName(sigType, m) + ".cdiff";
    var b := DiffName(sigType, n) + ".cdiff";
    assert |IntToDecimal(m)| == |IntToDecimal(n)|;
    var k := |sigType| + 1;
    assert IntToDecimal(m) == a[k..|a| - 6];
    assert IntToDecimal(n) == b[k..|b| - 6];
    DecimalInjective(m, n);
  }

  /** Exactly the absent steps of the range are listed. */
  lemma {:induction false} MissingStepsMembers(fs: FileSystem, opts: Options, sigType: string, n: int, last: int, m: int)
    ensures m in MissingSteps(fs, opts, sigType, n, last) <==> n <= m <= last && DiffDest(opts, sigType, m) !in fs
    decreases last + 1 - n
  {
    if n <= last {
      MissingStepsMembers(fs, opts, sigType, n + 1, last, m);
    }
  }

  lemma {:induction false} StepPathsMembers(opts: Options, sigType: string, steps: seq<int>, p: Path)
    requires p in StepPaths(opts, sigType, steps)
    ensures exists i :: 0 <= i < |steps| && p.name == DiffName(sigType, steps[i]) + ".cdiff"
    decreases |steps|
  {
    var name := DiffName(sigType, steps[0]) + ".cdiff";
    if p.name != name {
      StepPathsMembers(opts, sigType, steps[1..], p);
      var i :| 0 <= i < |steps[1..]| && p.name == DiffName(sigType, steps[1..][i]) + ".cdiff";
      assert steps[1..][i] == steps[i + 1];
    }
  }

  /** Changing only the two copies of step `n` does not change which later steps are missing. */
  lemma {:induction false} MissingStepsFrame(fs: FileSystem, fs': FileSystem, opts: Options, sigType: string,
                                             n: int, from: int, last: int)
    requires n < from
    requires var (source, dest) := DeployPaths(opts, DiffName(sigType, n), true);
      fs' - {source, dest} == fs - {source, dest}
    ensures MissingSteps(fs', opts, sigType, from, last) == MissingSteps(fs, opts, sigType, from, last)
    decreases last + 1 - from
  {
    if from <= last {
      var (source, dest) := DeployPaths(opts, DiffName(sigType, n), true);
      var p := DiffDest(opts, sigType, from);
      if p == source || p == dest {
        DiffNameInjective(sigType, from, n);
      }
      assert p in fs' <==> p in fs' - {source, dest};
      assert p in fs <==> p in fs - {source, dest};
      MissingStepsFrame(fs, fs', opts, sigType, n, from + 1, last);
    }
  }

  /** The chain over `n` .. `last` never raises: `update_diff` reports failures without raising. */
  lemma {:induction false} ChainNeverRaises(w: World, env: Env, opts: Options, sigType: string, n: int, last: int)
    ensures DiffStepsSpec(w, env, opts, sigType, n, last).status == Done
    decreases last + 1 - n
  {
    if n <= last {
      if DiffDest(opts, sigType, n) in w.fs {
        ChainSkip(w, env, opts, sigType, n, last);
        ChainNeverRaises(w, env, opts, sigType, n + 1, last);
      } else {
        var w1 := UpdateDiffSpec(w, env, opts, DiffName(sigType, n), DiffAttempts).world;
        ChainStep(w, env, opts, sigType, n, last);
        ChainNeverRaises(w1, env, opts, sigType, n + 1, last);
      }
    }
  }

  /**
   * The chain requests, in increasing order, exactly the steps that were
   * missing from the mirror at the start, five times each.
   */
  lemma {:induction false} ChainRequests(w: World, env: Env, opts: Options, sigType: string, n: int, last: int)
    ensures DiffStepsSpec(w, env, opts, sigType, n, last).world.requests
         == w.requests + StepRequests(opts, sigType, MissingSteps(w.fs, opts, sigType, n, last))
    decreases last + 1 - n
  {
    if n <= last {
      if DiffDest(opts, sigType, n) in w.fs {
        ChainSkip(w, env, opts, sigType, n, last);
        ChainRequests(w, env, opts, sigType, n + 1, last);
      } else {
        var w1 := UpdateDiffSpec(w, env, opts, DiffName(sigType, n), DiffAttempts).world;
        ChainStep(w, env, opts, sigType, n, last);
        ChainRequests(w1, env, opts, sigType, n + 1, last);
      }
    } else {
      assert MissingSteps(w.fs, opts, sigType, n, last) == [];
    }
  }

  /** The chain changes no file other than the working and mirror copies of the missing steps. */
  lemma {:induction false} ChainFiles(w: World, env: Env, opts: Options, sigType: string, n: int, last: int)
    ensures var missing := MissingSteps(w.fs, opts, sigType, n, last);
      DiffStepsSpec(w, env, opts, sigType, n, last).world.fs - StepPaths(opts, sigType, missing)
        == w.fs - StepPaths(opts, sigType, missing)
    decreases last + 1 - n
  {
    if n <= last {
      if DiffDest(opts, sigType, n) in w.fs {
        ChainSkip(w, env, opts, sigType, n, last);
        ChainFiles(w, env, opts, sigType, n + 1, last);
      } else {
        var w1 := UpdateDiffSpec(w, env, opts, DiffName(sigType, n), DiffAttempts).world;
        ChainStep(w, env, opts, sigType, n, last);
        ChainFiles(w1, env, opts, sigType, n + 1, last);
        var final := DiffStepsSpec(w1, env, opts, sigType, n + 1, last).world;
        var (source, dest) := DeployPaths(opts, DiffName(sigType, n), true);
        var rest := MissingSteps(w.fs, opts, sigType, n + 1, last);
        FrameCompose(final.fs, w1.fs, w.fs, {source, dest}, StepPaths(opts, sigType, rest));
      }
    } else {
      assert MissingSteps(w.fs, opts, sigType, n, last) == [];
    }
  }

  /** A step already in the mirror is skipped without any effect. */
  lemma ChainSkip(w: World, env: Env, opts: Options, sigType: string, n: int, last: int)
    requires n <= last && DiffDest(opts, sigType, n) in w.fs
    ensures DiffStepsSpec(w, env, opts, sigType, n, last) == DiffStepsSpec(w, env, opts, sigType, n + 1, last)
    ensures MissingSteps(w.fs, opts, sigType, n, last) == MissingSteps(w.fs, opts, sigType, n + 1, last)
  {
    var rest := MissingSteps(w.fs, opts, sigType, n + 1, last);
    assert [] + rest == rest;
  }

  /** A missing step runs `update_diff` once and hands its world to the rest of the chain. */
  lemma ChainStep(w: World, env: Env, opts: Options, sigType: string, n: int, last: int)
    requires n <= last && DiffDest(opts, sigType, n) !in w.fs
    ensures var w1 := UpdateDiffSpec(w, env, opts, DiffName(sigType, n), DiffAttempts).world;
      var (source, dest) := DeployPaths(opts, DiffName(sigType, n), true);
      var rest := MissingSteps(w.fs, opts, sigType, n + 1, last);
      var missing := MissingSteps(w.fs, opts, sigType, n, last);
      && DiffStepsSpec(w, env, opts, sigType, n, last) == DiffStepsSpec(w1, env, opts, sigType, n + 1, last)
      && MissingSteps(w1.fs, opts, sigType, n + 1, last) == rest
      && StepPaths(opts, sigType, missing) == {source, dest} + StepPaths(opts, sigType, rest)
      && StepRequests(opts, sigType, missing) == Repeat(DiffUrl(opts, sigType, n), DiffAttempts) + StepRequests(opts, sigType, rest)
      && w1.requests == w.requests + Repeat(DiffUrl(opts, sigType, n), DiffAttempts)
      && w1.fs - {source, dest} == w.fs - {source, dest}
  {
    var sd := DiffName(sigType, n);
    var s1 := UpdateDiffSpec(w, env, opts, sd, DiffAttempts);
    AttemptsFrame(w, env, opts, sd, DiffAttempts);
    var w1 := s1.world;
    MissingStepsFrame(w.fs, w1.fs, opts, sigType, n, n + 1, last);
    var rest := MissingSteps(w.fs, opts, sigType, n + 1, last);
    var missing := MissingSteps(w.fs, opts, sigType, n, last);
    assert missing == [n] + rest;
    assert missing[1..] == rest;
  }

  lemma FrameCompose<K, V>(a: map<K, V>, b: map<K, V>, c: map<K, V>, here: set<K>, later: set<K>)
    requires a - later == b - later
    requires b - here == c - here
    ensures a - (here + later) == c - (here + later)
  {
    assert a - (here + later) == (a - later) - here;
    assert b - (here + later) == (b - later) - here;
    assert b - (here + later) == (b - here) - later;
    assert c - (here + later) == (c - here) - later;
  }

  /** Steps already present in the mirror are left exactly as they were. */
  lemma PresentStepsUntouched(w: World, env: Env, opts: Options, sigType: string, n: int, last: int, k: int)
    requires n <= k <= last && DiffDest(opts, sigType, k) in w.fs
    ensures var fs' := DiffStepsSpec(w, env, opts, sigType, n, last).world.fs;
      DiffDest(opts, sigType, k) in fs' && fs'[DiffDest(opts, sigType, k)] == w.fs[DiffDest(opts, sigType, k)]
  {
    ChainFiles(w, env, opts, sigType, n, last);
    var missing := MissingSteps(w.fs, opts, sigType, n, last);
    var p := DiffDest(opts, sigType, k);
    if p in StepPaths(opts, sigType, missing) {
      StepPathsMembers(opts, sigType, missing, p);
      var i :| 0 <= i < |missing| && p.name == DiffName(sigType, missing[i]) + ".cdiff";
      DiffNameInjective(sigType, k, missing[i]);
      MissingStepsMembers(w.fs, opts, sigType, n, last, k);
      assert false;
    }
    var fs' := DiffStepsSpec(w, env, opts, sigType, n, last).world.fs;
    assert p in w.fs - StepPaths(opts, sigType, missing);
  }

  /**
   * The range starts at the local version itself: when the step named
   * after the local version is not in the mirror, it is the first one
   * requested, even though the local bundle already contains it.
   */
  lemma RangeStartsAtLocal(w: World, env: Env, opts: Options, item: DiffItem, local: int, remote: int)
    requires ParseInt(item.localver) == Some(local) && ParseInt(item.remotever) == Some(remote)
    requires local <= remote && DiffDest(opts, item.sigType, local) !in w.fs
    ensures var r := DownloadDiffsSpec(w, env, opts, item).world.requests;
      |r| >= |w.requests| + DiffAttempts
      && r[|w.requests|..|w.requests| + DiffAttempts] == Repeat(DiffUrl(opts, item.sigType, local), DiffAttempts)
  {
    ChainRequests(w, env, opts, item.sigType, local, remote);
    var missing := MissingSteps(w.fs, opts, item.sigType, local, remote);
    var rest := MissingSteps(w.fs, opts, item.sigType, local + 1, remote);
    assert missing == [local] + rest;
    assert missing[1..] == rest;
    var head := Repeat(DiffUrl(opts, item.sigType, local), DiffAttempts);
    RepeatLength(DiffUrl(opts, item.sigType, local), DiffAttempts);
    MiddleSlice(w.requests, head, StepRequests(opts, item.sigType, rest));
  }

  lemma MiddleSlice<T>(a: seq<T>, b: seq<T>, c: seq<T>)
    ensures |a + (b + c)| >= |a| + |b| && (a + (b + c))[|a|..|a| + |b|] == b
  {
  }

  // ---------------------------------------------------------------------
  // What the chain publishes
  // ---------------------------------------------------------------------

  /** `p` holds the same file in `a` and `b`, or is absent from both. */
  predicate SameFile(a: FileSystem, b: FileSystem, p: Path) {
    (p in a <==> p in b) && (p in a ==> a[p] == b[p])
  }

  /**
   * What attempts whose last 200 answer is `outcome` leave in `fs`, compared
   * with the files `fs0` before them: that body in `dest` with mode 0o644,
   * or, when no attempt answered 200, `source` and `dest` as before.
   */
  predicate Published(fs0: FileSystem, fs: FileSystem, source: Path, dest: Path, outcome: Option<string>) {
    && (outcome.Some? ==> dest in fs && fs[dest].content == outcome.value && fs[dest].mode == DeployMode)
    && (outcome.None? ==> SameFile(fs, fs0, source) && SameFile(fs, fs0, dest))
  }

  /**
   * The outcome of each step's five attempts, for a chain whose step `m`,
   * attempted from request `start` on, ends in `outcome(m, start)`.
   */
  function StepOutcomes(env: Env, opts: Options, sigType: string): (int, nat) -> Option<string> {
    (m: int, start: nat) => LastSuccess(env.net, DiffUrl(opts, sigType, m), start, DiffAttempts)
  }

  /** The outcomes of the steps of a chain run one step after the other from request `start`. */
  function Outcomes(outcome: (int, nat) -> Option<string>, steps: seq<int>, start: nat): (r: seq<Option<string>>)
    ensures |r| == |steps|
    decreases |steps|
  {
    if steps == [] then [] else [outcome(steps[0], start)] + Outcomes(outcome, steps[1..], start + DiffAttempts)
  }

  /** The `j`-th step is attempted from request `start + 5 * j` on. */
  lemma {:induction false} OutcomesAt(outcome: (int, nat) -> Option<string>, steps: seq<int>, start: nat, j: nat)
    requires j < |steps|
    ensures Outcomes(outcome, steps, start)[j] == outcome(steps[j], start + 5 * j)
    decreases j
  {
    if j > 0 {
      OutcomesAt(outcome, steps[1..], start + DiffAttempts, j - 1);
      assert steps[1..][j - 1] == steps[j];
    }
  }

  /** The `j`-th of the missing `steps`, whose attempts ended in `outcomes[j]`, ends published in `fs`. */
  predicate ChainPublished(fs0: FileSystem, fs: FileSystem, opts: Options, sigType: string, steps: seq<int>,
                           outcomes: seq<Option<string>>, j: nat) {
    j < |steps| && j < |outcomes| ==>
      var (source, dest) := DeployPaths(opts, DiffName(sigType, steps[j]), true);
      Published(fs0, fs, source, dest, outcomes[j])
  }

  /** The `j`-th step missing when the chain over `n` .. `last` starts in `w` ends published. */
  predicate ChainEndsPublished(w: World, env: Env, opts: Options, sigType: string, n: int, last: int, j: nat) {
    match w
    case World(fs, requests) =>
      var missing := MissingSteps(fs, opts, sigType, n, last);
      ChainPublished(fs, DiffStepsSpec(w, env, opts, sigType, n, last).world.fs, opts, sigType, missing,
                     Outcomes(StepOutcomes(env, opts, sigType), missing, |requests|), j)
  }

  /** `ChainPublished` depends on its arguments' values only. */
  lemma ChainPublishedEqual(fs0: FileSystem, fs: FileSystem, fs': FileSystem, opts: Options, sigType: string,
                            steps: seq<int>, steps': seq<int>, outcomes: seq<Option<string>>,
                            outcomes': seq<Option<string>>, j: nat)
    requires fs == fs' && steps == steps' && outcomes == outcomes'
    ensures ChainPublished(fs0, fs, opts, sigType, steps, outcomes, j)
            ==> ChainPublished(fs0, fs', opts, sigType, steps', outcomes', j)
  {
  }

  lemma SameFileOutside(a: FileSystem, b: FileSystem, outside: set<Path>, p: Path)
    requires a - outside == b - outside && p !in outside
    ensures SameFile(a, b, p)
  {
    assert p in a <==> p in a - outside;
    assert p in b <==> p in b - outside;
    if p in a {
      assert a[p] == (a - outside)[p];
    }
  }

  /** Only `source` and `dest`, before and after, decide what counts as published. */
  lemma PublishedFrame(fs0: FileSystem, fs0': FileSystem, fs: FileSystem, fs': FileSystem, source: Path,
                       dest: Path, outcome: Option<string>)
    requires SameFile(fs0, fs0', source) && SameFile(fs0, fs0', dest)
    requires SameFile(fs, fs', source) && SameFile(fs, fs', dest)
    ensures Published(fs0, fs, source, dest, outcome) == Published(fs0', fs', source, dest, outcome)
  {
  }

  /** Neither copy of a step outside `steps` is among the copies of `steps`. */
  lemma NotInStepPaths(opts: Options, sigType: string, steps: seq<int>, m: int)
    requires m !in steps
    ensures var (source, dest) := DeployPaths(opts, DiffName(sigType, m), true);
      source !in StepPaths(opts, sigType, steps) && dest !in StepPaths(opts, sigType, steps)
  {
    var (source, dest) := DeployPaths(opts, DiffName(sigType, m), true);
    forall p | p in {source, dest} && p in StepPaths(opts, sigType, steps)
      ensures false
    {
      StepPathsMembers(opts, sigType, steps, p);
      var i :| 0 <= i < |steps| && p.name == DiffName(sigType, steps[i]) + ".cdiff";
      DiffNameInjective(sigType, m, steps[i]);
    }
  }

  /** The copies of two different steps are different files. */
  lemma OtherStepPaths(opts: Options, sigType: string, m: int, n: int)
    requires m != n
    ensures var (sn, dn) := DeployPaths(opts, DiffName(sigType, n), true);
      var (sm, dm) := DeployPaths(opts, DiffName(sigType, m), true);
      sm !in {sn, dn} && dm !in {sn, dn}
  {
    if DiffName(sigType, m) + ".cdiff" == DiffName(sigType, n) + ".cdiff" {
      DiffNameInjective(sigType, m, n);
    }
  }

  /** Files that differ only in the two copies of step `n` agree on both copies of any other step `m`. */
  lemma OtherStepKept(fs0: FileSystem, fs1: FileSystem, opts: Options, sigType: string, n: int, m: int)
    requires m != n
    requires var (source, dest) := DeployPaths(opts, DiffName(sigType, n), true);
      fs1 - {source, dest} == fs0 - {source, dest}
    ensures var (source, dest) := DeployPaths(opts, DiffName(sigType, m), true);
      SameFile(fs1, fs0, source) && SameFile(fs1, fs0, dest)
  {
    OtherStepPaths(opts, sigType, m, n);
    var (sn, dn) := DeployPaths(opts, DiffName(sigType, n), true);
    var (source, dest) := DeployPaths(opts, DiffName(sigType, m), true);
    SameFileOutside(fs1, fs0, {sn, dn}, source);
    SameFileOutside(fs1, fs0, {sn, dn}, dest);
  }

  /** The five attempts for a missing step `n` publish what they fetched; the rest of the chain leaves it alone. */
  lemma ChainPublishesFirst(w: World, env: Env, opts: Options, sigType: string, n: int, last: int)
    requires n <= last && DiffDest(opts, sigType, n) !in w.fs
    ensures ChainEndsPublished(w, env, opts, sigType, n, last, 0)
  {
    var w1 := UpdateDiffSpec(w, env, opts, DiffName(sigType, n), DiffAttempts).world;
    ChainStep(w, env, opts, sigType, n, last);
    var missing := MissingSteps(w.fs, opts, sigType, n, last);
    var rest := MissingSteps(w.fs, opts, sigType, n + 1, last);
    assert missing[0] == n;
    ChainFiles(w1, env, opts, sigType, n + 1, last);
    var fs' := DiffStepsSpec(w1, env, opts, sigType, n + 1, last).world.fs;
    MissingStepsMembers(w.fs, opts, sigType, n + 1, last, n);
    NotInStepPaths(opts, sigType, rest, n);
    var (source, dest) := DeployPaths(opts, DiffName(sigType, n), true);
    SameFileOutside(fs', w1.fs, StepPaths(opts, sigType, rest), source);
    SameFileOutside(fs', w1.fs, StepPaths(opts, sigType, rest), dest);
    AttemptsResult(w, env, opts, DiffName(sigType, n), DiffAttempts);
    var outcome := LastSuccess(env.net, DiffUrl(opts, sigType, n), |w.requests|, DiffAttempts);
    assert Published(w.fs, w1.fs, source, dest, outcome);
    PublishedFrame(w.fs, w.fs, w1.fs, fs', source, dest, outcome);
    assert Outcomes(StepOutcomes(env, opts, sigType), missing, |w.requests|)[0] == outcome;
  }

  /**
   * When the five attempts for a missing step `n` turn `fs0` into `fs1` and
   * touch only the two copies of step `n`, and the `j`-th missing step is
   * another step, the `(j - 1)`-th of the `rest`, with the same outcome, it
   * is published in any `fs` when it is published there as part of the rest.
   */
  lemma ChainStepShifts(fs0: FileSystem, fs1: FileSystem, fs: FileSystem, opts: Options, sigType: string, n: int,
                        missing: seq<int>, outcomes: seq<Option<string>>, rest: seq<int>,
                        restOutcomes: seq<Option<string>>, j: nat)
    requires 0 < j
    requires j < |missing| && j < |outcomes| ==>
      && j - 1 < |rest| && j - 1 < |restOutcomes|
      && missing[j] == rest[j - 1] && outcomes[j] == restOutcomes[j - 1] && missing[j] != n
    requires var (source, dest) := DeployPaths(opts, DiffName(sigType, n), true);
      fs1 - {source, dest} == fs0 - {source, dest}
    ensures ChainPublished(fs1, fs, opts, sigType, rest, restOutcomes, j - 1)
            ==> ChainPublished(fs0, fs, opts, sigType, missing, outcomes, j)
  {
    if j < |missing| && j < |outcomes| {
      var m := missing[j];
      var (source, dest) := DeployPaths(opts, DiffName(sigType, m), true);
      OtherStepKept(fs0, fs1, opts, sigType, n, m);
      PublishedFrame(fs1, fs0, fs, fs, source, dest, outcomes[j]);
    }
  }

  /** An empty range has no missing step, so there is nothing to publish. */
  lemma EmptyChainPublishes(w: World, env: Env, opts: Options, sigType: string, n: int, last: int, j: nat)
    requires n > last
    ensures ChainEndsPublished(w, env, opts, sigType, n, last, j)
  {
    assert MissingSteps(w.fs, opts, sigType, n, last) == [];
  }

  /** A step already in the mirror is skipped: what the rest of the chain publishes, the whole chain publishes. */
  lemma SkipPublishes(w: World, env: Env, opts: Options, sigType: string, n: int, last: int, j: nat)
    requires n <= last && DiffDest(opts, sigType, n) in w.fs
    requires ChainEndsPublished(w, env, opts, sigType, n + 1, last, j)
    ensures ChainEndsPublished(w, env, opts, sigType, n, last, j)
  {
    ChainSkip(w, env, opts, sigType, n, last);
    var rest := MissingSteps(w.fs, opts, sigType, n + 1, last);
    var missing := MissingSteps(w.fs, opts, sigType, n, last);
    ChainPublishedEqual(w.fs, DiffStepsSpec(w, env, opts, sigType, n + 1, last).world.fs,
                        DiffStepsSpec(w, env, opts, sigType, n, last).world.fs, opts, sigType, rest, missing,
                        Outcomes(StepOutcomes(env, opts, sigType), rest, |w.requests|),
                        Outcomes(StepOutcomes(env, opts, sigType), missing, |w.requests|), j);
  }

  /**
   * After the five attempts for a missing step `n`, which leave `w1`, the
   * `j`-th missing step of the whole chain is the `(j - 1)`-th of the rest,
   * and is published when the rest publishes it.
   */
  lemma StepPublishes(w: World, w1: World, env: Env, opts: Options, sigType: string, n: int, last: int, j: nat)
    requires n <= last && DiffDest(opts, sigType, n) !in w.fs && 0 < j
    requires w1 == UpdateDiffSpec(w, env, opts, DiffName(sigType, n), DiffAttempts).world
    requires ChainEndsPublished(w1, env, opts, sigType, n + 1, last, j - 1)
    ensures ChainEndsPublished(w, env, opts, sigType, n, last, j)
  {
    ChainStep(w, env, opts, sigType, n, last);
    RepeatLength(DiffUrl(opts, sigType, n), DiffAttempts);
    var missing := MissingSteps(w.fs, opts, sigType, n, last);
    var outcomes := Outcomes(StepOutcomes(env, opts, sigType), missing, |w.requests|);
    var rest := MissingSteps(w1.fs, opts, sigType, n + 1, last);
    var restOutcomes := Outcomes(StepOutcomes(env, opts, sigType), rest, |w1.requests|);
    assert missing == [n] + rest;
    assert missing[1..] == rest;
    assert outcomes[1..] == restOutcomes;
    MissingStepsMembers(w1.fs, opts, sigType, n + 1, last, n);
    if j < |missing| {
      assert missing[j] == rest[j - 1];
      assert outcomes[j] == restOutcomes[j - 1];
    }
    var fs1 := DiffStepsSpec(w1, env, opts, sigType, n + 1, last).world.fs;
    ChainStepShifts(w.fs, w1.fs, fs1, opts, sigType, n, missing, outcomes, rest, restOutcomes, j);
    ChainPublishedEqual(w.fs, fs1, DiffStepsSpec(w, env, opts, sigType, n, last).world.fs, opts, sigType, missing,
                        missing, outcomes, outcomes, j);
  }

  /** Every step missing at the start of the chain ends published. */
  lemma {:induction false} ChainPublishes(w: World, env: Env, opts: Options, sigType: string, n: int, last: int,
                                          j: nat)
    ensures ChainEndsPublished(w, env, opts, sigType, n, last, j)
    decreases last + 1 - n
  {
    if n > last {
      EmptyChainPublishes(w, env, opts, sigType, n, last, j);
    } else if DiffDest(opts, sigType, n) in w.fs {
      ChainPublishes(w, env, opts, sigType, n + 1, last, j);
      SkipPublishes(w, env, opts, sigType, n, last, j);
    } else if j == 0 {
      ChainPublishesFirst(w, env, opts, sigType, n, last);
    } else {
      var w1 := UpdateDiffSpec(w, env, opts, DiffName(sigType, n), DiffAttempts).world;
      ChainPublishes(w1, env, opts, sigType, n + 1, last, j - 1);
      StepPublishes(w, w1, env, opts, sigType, n, last, j);
    }
  }

  /**
   * What the chain leaves for its `j`-th missing step `m`: if the step's
   * recorded outcome is a body (by `StepOutcomeIs`, the last 200 answer
   * among requests `|w.requests| + 5 * j` to `|w.requests| + 5 * j + 4`),
   * the mirror copy holds it with mode 0o644; if it is `None`, both copies
   * of step `m` are as they were before the chain.
   */
  lemma StepOutcomePublished(w: World, env: Env, opts: Options, sigType: string, n: int, last: int, j: nat)
    requires j < |MissingSteps(w.fs, opts, sigType, n, last)|
    ensures var m := MissingSteps(w.fs, opts, sigType, n, last)[j];
      var (source, dest) := DeployPaths(opts, DiffName(sigType, m), true);
      var outcome := Outcomes(StepOutcomes(env, opts, sigType), MissingSteps(w.fs, opts, sigType, n, last), |w.requests|)[j];
      Published(w.fs, DiffStepsSpec(w, env, opts, sigType, n, last).world.fs, source, dest, outcome)
  {
    ChainPublishes(w, env, opts, sigType, n, last, j);
  }

  /**
   * The outcome recorded for the `j`-th step of a chain started at request
   * `start` is the last 200 body among that step's five attempts, requests
   * `start + 5 * j` to `start + 5 * j + 4`, or `None` when none answered 200.
   */
  lemma StepOutcomeIs(env: Env, opts: Options, sigType: string, steps: seq<int>, start: nat, j: nat)
    requires j < |steps|
    ensures Outcomes(StepOutcomes(env, opts, sigType), steps, start)[j]
            == LastSuccess(env.net, DiffUrl(opts, sigType, steps[j]), start + 5 * j, DiffAttempts)
  {
    OutcomesAt(StepOutcomes(env, opts, sigType), steps, start, j);
    StepOutcomeApplied(env, opts, sigType, steps[j], start + 5 * j);
  }

  lemma StepOutcomeApplied(env: Env, opts: Options, sigType: string, m: int, start: nat)
    ensures StepOutcomes(env, opts, sigType)(m, start) == LastSuccess(env.net, DiffUrl(opts, sigType, m), start, DiffAttempts)
  {
  }

  lemma RepeatLength<T>(x: T, k: nat)
    ensures |Repeat(x, k)| == k
  {
  }
}
