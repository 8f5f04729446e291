/**
 * The full-bundle worker (`update_sig`): for one stream, compare the local
 * bundle's version with the remote one, and when it is stale download the
 * bundle and publish it straight away. The downloaded bundle is never
 * checked: `check_download` exists but nothing calls it.
 */
module FullUpdate {
  import opened Wrappers
  import opened Text
  import opened Environment
  import opened Manifest
  import opened Sigtool
  import opened Transfer

  /**
   * `localver is None or (localver and int(localver) < int(remotever))`,
   * including the `ValueError` of either conversion (left operand first).
   */
  function NeedsUpdate(local: Option<string>, remote: string): (r: Result<bool, Error>)
    ensures r == Success(true) <==>
      local.None? || (ParseInt(local.value).Some? && ParseInt(remote).Some?
                      && ParseInt(local.value).value < ParseInt(remote).value)
    ensures r.Failure? <==> Truthy(local) && (ParseInt(local.value).None? || ParseInt(remote).None?)
    ensures r.Failure? ==>
      r.error == if ParseInt(local.value).None? then BadInteger(local.value) else BadInteger(remote)
  {
    if local.None? then Success(true)
    else if local.value == "" then Success(false)
    else
      match ParseInt(local.value)
      case None => Failure(BadInteger(local.value))
      case Some(l) =>
        match ParseInt(remote)
        case None => Failure(BadInteger(remote))
        case Some(r) => Success(l < r)
  }

  /** The world after one `update_sig` item for stream `s`, and whether the worker raised. */
  function UpdateSigSpec(w: World, env: Env, opts: Options, s: Stream, vers: Versions): Step {
    var sign := s.Name();
    match LocalVersion(w.fs, env.sigtool, opts.mirrordir, sign)
    case Failure(e) => Step(w, Raised(e))
    case Success(localver) =>
      var remotever := vers.Get(s);
      match NeedsUpdate(localver, remotever)
      case Failure(e) => Step(w, Raised(e))
      case Success(stale) =>
        if !stale then Step(w, Done)
        else
          var f := Fetched(w, env, opts, sign, Some(remotever));
          if !f.downloaded then Step(f.world, Done)
          else
            match CopiedSig(f.world.fs, env, opts, sign, false)
            case Failure(e) => Step(f.world, Raised(e))
            case Success(fs) => Step(f.world.(fs := fs), Done)
  }

  /** One iteration of the `update_sig` worker loop, for the queue item `(options, sign, vers)`. */
  method UpdateSig(w: World, env: Env, opts: Options, s: Stream, vers: Versions) returns (step: Step)
    ensures step == UpdateSigSpec(w, env, opts, s, vers)
  {
    var sign := s.Name();
    var localver := GetLocalVersion(w.fs, env.sigtool, opts.mirrordir, sign);
    if localver.Failure? {
      return Step(w, Raised(localver.error));
    }
    var remotever := vers.Get(s);
    var stale := NeedsUpdate(localver.value, remotever);
    if stale.Failure? {
      return Step(w, Raised(stale.error));
    }
    if !stale.value {
      // "No update required"
      return Step(w, Done);
    }
    var f := DownloadSig(w, env, opts, sign, Some(remotever));
    if f.downloaded {
      var deployed := CopySig(f.world.fs, env, opts, sign, false);
      if deployed.Failure? {
        return Step(f.world, Raised(deployed.error));
      }
      return Step(f.world.(fs := deployed.value), Done);
    }
    // "Download failed", with "not found" first when the code is 404
    step := Step(f.world, Done);
  }

  /** The URL of a stream's full bundle at a given remote version. */
  function BundleUrl(opts: Options, s: Stream, vers: Versions): string {
    RequestUrl(opts.hostname, s.Name(), Some(vers.Get(s)))
  }

  /**
   * A bundle is requested, exactly once, if and only if the local version
   * could be read and is absent or numerically below the remote one;
   * otherwise the world is left as it was.
   */
  lemma FetchIffStale(w: World, env: Env, opts: Options, s: Stream, vers: Versions)
    ensures var step := UpdateSigSpec(w, env, opts, s, vers);
      var stale := LocalVersion(w.fs, env.sigtool, opts.mirrordir, s.Name()).Success?
                   && NeedsUpdate(LocalVersion(w.fs, env.sigtool, opts.mirrordir, s.Name()).value,
                                  vers.Get(s)) == Success(true);
      && (stale ==> step.world.requests == w.requests + [BundleUrl(opts, s, vers)])
      && (!stale ==> step.world == w)
  {
  }

  /** A local bundle whose version is not below the remote one is left alone: no request, no change. */
  lemma CurrentIsNoop(w: World, env: Env, opts: Options, s: Stream, vers: Versions, local: string)
    requires LocalVersion(w.fs, env.sigtool, opts.mirrordir, s.Name()) == Success(Some(local))
    requires ParseInt(local).Some? && ParseInt(vers.Get(s)).Some?
    requires ParseInt(local).value >= ParseInt(vers.Get(s)).value
    ensures UpdateSigSpec(w, env, opts, s, vers) == Step(w, Done)
  {
    assert local != "";
  }

  /**
   * A stale stream whose download answers 200 ends with the body published
   * in the mirror as `<sign>.cvd`, mode 0o644, the working copy gone (when
   * the directories differ) and nothing else changed. No premise is made
   * about what `sigtool` says of the new body: it is published unchecked.
   */
  lemma FreshBundlePublished(w: World, env: Env, opts: Options, s: Stream, vers: Versions)
    requires var local := LocalVersion(w.fs, env.sigtool, opts.mirrordir, s.Name());
      local.Success? && NeedsUpdate(local.value, vers.Get(s)) == Success(true)
    requires vers.Get(s) != ""
    requires env.net(BundleUrl(opts, s, vers), |w.requests|).status == 200
    ensures var step := UpdateSigSpec(w, env, opts, s, vers);
      var (source, dest) := DeployPaths(opts, s.Name(), false);
      && step.status == Done
      && dest in step.world.fs
      && step.world.fs[dest].content == env.net(BundleUrl(opts, s, vers), |w.requests|).body
      && step.world.fs[dest].mode == DeployMode
      && (opts.workdir != opts.mirrordir ==> source !in step.world.fs)
      && step.world.fs - {source, dest} == w.fs - {source, dest}
  {
    FetchThenDeploy(w, env, opts, s.Name(), Some(vers.Get(s)), false);
  }

  /**
   * A download answered with anything but 200 (404 included) changes no
   * file, is not retried, and does not fail the worker.
   */
  lemma FailedDownloadChangesNothing(w: World, env: Env, opts: Options, s: Stream, vers: Versions)
    requires var local := LocalVersion(w.fs, env.sigtool, opts.mirrordir, s.Name());
      local.Success? && NeedsUpdate(local.value, vers.Get(s)) == Success(true)
    requires env.net(BundleUrl(opts, s, vers), |w.requests|).status != 200
    ensures UpdateSigSpec(w, env, opts, s, vers)
         == Step(World(w.fs, w.requests + [BundleUrl(opts, s, vers)]), Done)
  {
  }

  /**
   * `sigtool` is consulted only about the bundle already in the mirror:
   * two tools that agree on it give the same outcome, whatever they would
   * say about the downloaded bundle.
   */
  lemma DownloadIsNotVerified(w: World, env: Env, env': Env, opts: Options, s: Stream, vers: Versions)
    requires env' == env.(sigtool := env'.sigtool)
    requires var p := BundlePath(opts.mirrordir, s.Name());
      p in w.fs ==> env.sigtool(Some(w.fs[p].content)) == env'.sigtool(Some(w.fs[p].content))
    ensures UpdateSigSpec(w, env, opts, s, vers) == UpdateSigSpec(w, env', opts, s, vers)
  {
    assert LocalVersion(w.fs, env.sigtool, opts.mirrordir, s.Name())
        == LocalVersion(w.fs, env'.sigtool, opts.mirrordir, s.Name());
  }

  /**
   * Re-running the worker after it published a bundle that declares (at
   * least) the remote version makes no request and changes nothing.
   */
  lemma RerunAfterPublishIsNoop(w: World, env: Env, opts: Options, s: Stream, vers: Versions, v: string)
    requires var local := LocalVersion(w.fs, env.sigtool, opts.mirrordir, s.Name());
      local.Success? && NeedsUpdate(local.value, vers.Get(s)) == Success(true)
    requires vers.Get(s) != ""
    requires env.net(BundleUrl(opts, s, vers), |w.requests|).status == 200
    requires ScanVersion(env.sigtool(Some(env.net(BundleUrl(opts, s, vers), |w.requests|).body)).lines)
          == Success(Some(v))
    requires ParseInt(v).Some? && ParseInt(vers.Get(s)).Some? && ParseInt(v).value >= ParseInt(vers.Get(s)).value
    ensures var step := UpdateSigSpec(w, env, opts, s, vers);
      UpdateSigSpec(step.world, env, opts, s, vers) == Step(step.world, Done)
  {
    FreshBundlePublished(w, env, opts, s, vers);
    var step := UpdateSigSpec(w, env, opts, s, vers);
    assert BundlePath(opts.mirrordir, s.Name()) == DeployPaths(opts, s.Name(), false).1;
    CurrentIsNoop(step.world, env, opts, s, vers, v);
  }

  /**
   * An empty remote version is falsy, so `download_sig` fetches
   * `<sign>.cdiff` instead of the bundle; when it arrives, `copy_sig` finds
   * no `<sign>.cvd` to move and the worker raises.
   */
  lemma EmptyRemoteVersionRaises(w: World, env: Env, opts: Options, s: Stream, vers: Versions)
    requires BundlePath(opts.mirrordir, s.Name()) !in w.fs
    requires vers.Get(s) == ""
    requires Path(opts.workdir, s.Name() + ".cvd") !in w.fs
    requires env.net(RequestUrl(opts.hostname, s.Name(), None), |w.requests|).status == 200
    ensures var step := UpdateSigSpec(w, env, opts, s, vers);
      && step.world.requests == w.requests + ["http://" + opts.hostname + "/" + s.Name() + ".cdiff"]
      && step.status == Raised(NoSuchFile(Path(opts.workdir, s.Name() + ".cvd")))
  {
    var f := Fetched(w, env, opts, s.Name(), Some(""));
    assert RequestUrl(opts.hostname, s.Name(), Some("")) == "http://" + opts.hostname + "/" + s.Name() + ".cdiff";
    assert WorkFile(opts, s.Name(), Some("")) == Path(opts.workdir, s.Name() + ".cdiff");
    assert s.Name() + ".cdiff" != s.Name() + ".cvd" by {
      assert (s.Name() + ".cdiff")[|s.Name()| + 1] == 'c';
    }
  }
}
