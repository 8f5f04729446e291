/**
 * Moving one artifact: the HTTP download into the working directory
 * (`download_sig`) and the publication into the mirror directory
 * (`copy_sig`, `deploy_signature`).
 */
module Transfer {
  import opened Wrappers
  import opened Environment

  /**
   * The file name `download_sig` asks for and writes: `<sig>.cvd` when a
   * (truthy) version is given, `<sig>.cdiff` otherwise.
   */
  function RemoteName(sig: string, version: Option<string>): string {
    if Truthy(version) then sig + ".cvd" else sig + ".cdiff"
  }

  /** The URL `download_sig` requests: `http://<hostname>/<name>`. */
  function RequestUrl(hostname: string, sig: string, version: Option<string>): string {
    "http://" + hostname + "/" + RemoteName(sig, version)
  }

  /** Where `download_sig` stores the body. */
  function WorkFile(opts: Options, sig: string, version: Option<string>): Path {
    Path(opts.workdir, RemoteName(sig, version))
  }

  /** The world after a download, whether the file arrived, and the status code. */
  datatype Fetch = Fetch(world: World, downloaded: bool, code: int)

  /** `download_sig` as a function of the world: one request, and on 200 the body is written. */
  function Fetched(w: World, env: Env, opts: Options, sig: string, version: Option<string>): Fetch {
    var url := RequestUrl(opts.hostname, sig, version);
    var resp := env.net(url, |w.requests|);
    var file := WorkFile(opts, sig, version);
    var fs := if resp.status == 200 then WriteFile(w.fs, file, resp.body, env.createMode) else w.fs;
    Fetch(World(fs, w.requests + [url]), resp.status == 200 && file in fs, resp.status)
  }

  /**
   * `download_sig`: GET the artifact once; on status 200 write the body to
   * the working directory and report success when the file exists. Any
   * other status leaves the files alone. There is no retry here.
   */
  method DownloadSig(w: World, env: Env, opts: Options, sig: string, version: Option<string>)
    returns (f: Fetch)
    ensures f == Fetched(w, env, opts, sig, version)
    ensures var url := RequestUrl(opts.hostname, sig, version);
      && f.world.requests == w.requests + [url]
      && f.code == env.net(url, |w.requests|).status
      && (f.downloaded <==> f.code == 200)
    ensures var file := WorkFile(opts, sig, version);
      && (f.downloaded ==> file in f.world.fs
                           && f.world.fs[file].content == env.net(RequestUrl(opts.hostname, sig, version), |w.requests|).body
                           && f.world.fs - {file} == w.fs - {file})
      && (!f.downloaded ==> f.world.fs == w.fs)
  {
    var url := RequestUrl(opts.hostname, sig, version);
    var filename := WorkFile(opts, sig, version);
    var req := env.net(url, |w.requests|);
    var fs := w.fs;
    var downloaded := false;
    if req.status == 200 {
      fs := WriteFile(fs, filename, req.body, env.createMode);
      downloaded := filename in fs;
    }
    f := Fetch(World(fs, w.requests + [url]), downloaded, req.status);
  }

  /** The owner a deployed file ends with: changed only if both names are set and all lookups and `chown` succeed. */
  function NewOwner(previous: Option<Ownership>, user: Option<string>, group: Option<string>, acc: Accounts)
    : Option<Ownership>
  {
    if Truthy(user) && Truthy(group) && user.value in acc.users && group.value in acc.groups
       && acc.chownPermitted
    then Some(Ownership(acc.users[user.value], acc.groups[group.value]))
    else previous
  }

  /**
   * The files after `deploy_signature(source, dest, user, group)`; fails
   * when there is no source to move.
   */
  function Deployed(fs: FileSystem, source: Path, dest: Path, user: Option<string>, group: Option<string>,
                    acc: Accounts): Result<FileSystem, Error>
  {
    if source !in fs then Failure(NoSuchFile(source))
    else
      var f := fs[source];
      Success((fs - {source})[dest := File(f.content, DeployMode, NewOwner(f.owner, user, group, acc))])
  }

  /**
   * `deploy_signature`: move the file, set its mode to 0o644, and best-effort
   * change its owner (a missing user or group, or a refused `chown`, is
   * ignored).
   */
  method DeploySignature(fs: FileSystem, source: Path, dest: Path, user: Option<string>, group: Option<string>,
                         acc: Accounts) returns (r: Result<FileSystem, Error>)
    ensures r == Deployed(fs, source, dest, user, group, acc)
    ensures r.Failure? <==> source !in fs
    ensures r.Success? ==>
      && dest in r.value
      && r.value[dest].content == fs[source].content
      && r.value[dest].mode == DeployMode
      && (source != dest ==> source !in r.value)
      && r.value - {source, dest} == fs - {source, dest}
    ensures r.Success? && r.value[dest].owner != fs[source].owner ==> Truthy(user) && Truthy(group)
  {
    if source !in fs {
      return Failure(NoSuchFile(source));
    }
    // shutil.move, taken as a rename within one file system: the file keeps its mode and owner
    var moved := (fs - {source})[dest := fs[source]];
    // os.chmod(dest, 0o644)
    var files := moved[dest := moved[dest].(mode := DeployMode)];
    if Truthy(user) && Truthy(group) {
      // pwd.getpwnam / grp.getgrnam raise KeyError, os.chown raises OSError: both swallowed
      if user.value in acc.users && group.value in acc.groups && acc.chownPermitted {
        files := files[dest := files[dest].(owner := Some(Ownership(acc.users[user.value], acc.groups[group.value])))];
      }
    }
    assert (fs - {source}) - {dest} == fs - {source, dest};
    assert files == (fs - {source})[dest := File(fs[source].content, DeployMode,
                                                 NewOwner(fs[source].owner, user, group, acc))];
    r := Success(files);
  }

  /** The two paths `copy_sig` passes to `deploy_signature`: same name, work directory to mirror. */
  function DeployPaths(opts: Options, sig: string, isdiff: bool): (Path, Path) {
    var name := if isdiff then sig + ".cdiff" else sig + ".cvd";
    (Path(opts.workdir, name), Path(opts.mirrordir, name))
  }

  /** The files after `copy_sig(sig, opts, isdiff)`. */
  function CopiedSig(fs: FileSystem, env: Env, opts: Options, sig: string, isdiff: bool): Result<FileSystem, Error> {
    var (source, dest) := DeployPaths(opts, sig, isdiff);
    Deployed(fs, source, dest, opts.user, opts.group, env.accounts)
  }

  /** `copy_sig`: publish `<sig>.cdiff` or `<sig>.cvd` from the working directory into the mirror. */
  method CopySig(fs: FileSystem, env: Env, opts: Options, sig: string, isdiff: bool)
    returns (r: Result<FileSystem, Error>)
    ensures r == CopiedSig(fs, env, opts, sig, isdiff)
  {
    var sourcefile, destfile;
    if isdiff {
      sourcefile := Path(opts.workdir, sig + ".cdiff");
      destfile := Path(opts.mirrordir, sig + ".cdiff");
    } else {
      sourcefile := Path(opts.workdir, sig + ".cvd");
      destfile := Path(opts.mirrordir, sig + ".cvd");
    }
    r := DeploySignature(fs, sourcefile, destfile, opts.user, opts.group, env.accounts);
  }

  /**
   * What a download followed by a deploy of the same artifact publishes:
   * the mirror file holds the downloaded body with mode 0o644, the working
   * copy is gone unless both directories coincide, and nothing else changes.
   */
  lemma FetchThenDeploy(w: World, env: Env, opts: Options, sig: string, version: Option<string>, isdiff: bool)
    requires isdiff <==> !Truthy(version)
    requires Fetched(w, env, opts, sig, version).downloaded
    ensures var f := Fetched(w, env, opts, sig, version);
      var (source, dest) := DeployPaths(opts, sig, isdiff);
      var body := env.net(RequestUrl(opts.hostname, sig, version), |w.requests|).body;
      var r := CopiedSig(f.world.fs, env, opts, sig, isdiff);
      && r.Success?
      && dest in r.value && r.value[dest].content == body && r.value[dest].mode == DeployMode
      && (opts.workdir != opts.mirrordir ==> source !in r.value)
      && r.value - {source, dest} == w.fs - {source, dest}
  {
    var f := Fetched(w, env, opts, sig, version);
    var (source, dest) := DeployPaths(opts, sig, isdiff);
    assert source == WorkFile(opts, sig, version);
    var r := CopiedSig(f.world.fs, env, opts, sig, isdiff);
    assert r.value - {source, dest} == (f.world.fs - {source}) - {dest};
    assert f.world.fs - {source} == w.fs - {source};
  }
}
