/**
 * The world the mirror acts on. The operating system's files are a map from
 * path to file; the network, the DNS resolver, `sigtool`, MD5 and the
 * account database are oracles handed in as values; every HTTP request the
 * run makes is appended to a log so that properties can count them.
 */
module Environment {
  import opened Wrappers

  /** `os.path.join(dir, name)`, kept as the pair it is built from. */
  datatype Path = Path(dir: string, name: string)

  /** Numeric owner applied by `os.chown`. */
  datatype Ownership = Ownership(uid: int, gid: int)

  /**
   * A regular file: its bytes, its permission bits and, once the mirror has
   * changed it, its owner (`None` is whatever owner the file had before).
   */
  datatype File = File(content: string, mode: int, owner: Option<Ownership>)

  type FileSystem = map<Path, File>

  /** `0o644`: owner read/write, group and others read. */
  const DeployMode: int := 6 * 64 + 4 * 8 + 4

  /** An HTTP response: its status code and its body. */
  datatype Response = Response(status: int, body: string)

  /** `pwd`/`grp` lookups and whether the process may `chown`. */
  datatype Accounts = Accounts(users: map<string, int>, groups: map<string, int>, chownPermitted: bool)

  /**
   * What `sigtool -i <file>` prints and its exit code. Each element of
   * `lines` is what one `readline()` returns, trailing newline included, so
   * a blank output line is `"\n"` and `""` only ever means end of output.
   */
  datatype SigtoolRun = SigtoolRun(lines: seq<string>, exitCode: int)

  /**
   * The oracles:
   *  - net(url, k): the response to the k-th HTTP request of the run, a GET of url;
   *  - dns(k): the text of the k-th TXT query of the run ('' when it fails);
   *  - sigtool(c): the run of `sigtool -i` on a file with content c, or on a missing file;
   *  - md5(s): the hex digest of s;
   *  - createMode: the permission bits a newly created file receives.
   */
  datatype Env = Env(
    net: (string, nat) -> Response,
    dns: nat -> string,
    sigtool: Option<string> -> SigtoolRun,
    md5: string -> string,
    accounts: Accounts,
    createMode: int)

  /** The options the core reads; option parsing itself is not modelled. */
  datatype Options = Options(
    hostname: string,
    txtrecord: string,
    workdir: string,
    mirrordir: string,
    user: Option<string>,
    group: Option<string>)

  /** The files, and the URLs requested so far, in order. */
  datatype World = World(fs: FileSystem, requests: seq<string>)

  /** The exceptions the core can raise. */
  datatype Error =
    | BadInteger(text: string)          // int() raised ValueError
    | MissingVersionToken(line: string) // line.split()[1] raised IndexError
    | NoSuchFile(path: Path)            // shutil.move raised FileNotFoundError
    | BadRecord(fieldCount: nat)        // unpacking the record raised ValueError
    | VerificationFailed(sig: string)   // check_download raised ValueError

  /** How a worker's handling of one queue item ended. */
  datatype Status = Done | Raised(error: Error)

  /** The world after one piece of work, and how the work ended. */
  datatype Step = Step(world: World, status: Status)

  /** Python truthiness of an optional string: present and non-empty. */
  predicate Truthy(s: Option<string>) {
    s.Some? && s.value != ""
  }

  /**
   * `open(p, 'w').write(content)`: the file holds exactly `content`; an
   * existing file keeps its mode and owner, a new one gets `createMode`.
   */
  function WriteFile(fs: FileSystem, p: Path, content: string, createMode: int): (r: FileSystem)
    ensures p in r && r[p].content == content
    ensures r - {p} == fs - {p}
  {
    fs[p := if p in fs then fs[p].(content := content) else File(content, createMode, None)]
  }
}
