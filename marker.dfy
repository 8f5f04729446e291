/**
 * The `dns.txt` marker in the mirror directory (`create_dns_file`): it
 * holds the TXT record the mirror was last brought up to date with, and is
 * rewritten only when its MD5 differs from the record's.
 */
module Marker {
  import opened Wrappers
  import opened Environment

  /** `os.path.join(opts.mirrordir, 'dns.txt')`. */
  function MarkerPath(opts: Options): Path {
    Path(opts.mirrordir, "dns.txt")
  }

  /** `get_file_md5`: the digest of the file's content, or `''` when it does not exist. */
  function FileMd5(fs: FileSystem, md5: string -> string, p: Path): (r: string)
    ensures p !in fs ==> r == ""
  {
    if p in fs then md5(fs[p].content) else ""
  }

  /** Whether `create_dns_file` writes: the local and remote digests differ. */
  predicate MarkerStale(fs: FileSystem, env: Env, opts: Options, record: string) {
    FileMd5(fs, env.md5, MarkerPath(opts)) != env.md5(record)
  }

  /** The files after `create_dns_file(opts, record)`. */
  function DnsFileWritten(fs: FileSystem, env: Env, opts: Options, record: string): FileSystem {
    if MarkerStale(fs, env, opts, record) then WriteFile(fs, MarkerPath(opts), record, env.createMode) else fs
  }

  /**
   * `create_dns_file`: compare the marker's digest (`''` when absent) with
   * the record's and write the record only when they differ. `wrote` tells
   * which of the two log lines is printed.
   */
  method CreateDnsFile(fs: FileSystem, env: Env, opts: Options, record: string)
    returns (fs': FileSystem, wrote: bool)
    ensures fs' == DnsFileWritten(fs, env, opts, record)
    ensures wrote <==> FileMd5(fs, env.md5, MarkerPath(opts)) != env.md5(record)
    ensures wrote ==> MarkerPath(opts) in fs' && fs'[MarkerPath(opts)].content == record
                      && fs' - {MarkerPath(opts)} == fs - {MarkerPath(opts)}
    ensures !wrote ==> fs' == fs
  {
    var filename := MarkerPath(opts);
    var localmd5 := if filename in fs then env.md5(fs[filename].content) else "";
    var remotemd5 := env.md5(record);
    fs' := fs;
    wrote := false;
    if localmd5 != remotemd5 {
      fs' := WriteFile(fs, filename, record, env.createMode);
      wrote := true;
    }
  }

  /** Afterwards the marker's digest is the record's, whether or not it was written. */
  lemma MarkerDigestMatches(fs: FileSystem, env: Env, opts: Options, record: string)
    ensures FileMd5(DnsFileWritten(fs, env, opts, record), env.md5, MarkerPath(opts)) == env.md5(record)
  {
    if !MarkerStale(fs, env, opts, record) {
      assert DnsFileWritten(fs, env, opts, record) == fs;
    }
  }

  /** A second call with the same record writes nothing. */
  lemma SecondCallWritesNothing(fs: FileSystem, env: Env, opts: Options, record: string)
    ensures var fs1 := DnsFileWritten(fs, env, opts, record);
      !MarkerStale(fs1, env, opts, record) && DnsFileWritten(fs1, env, opts, record) == fs1
  {
    MarkerDigestMatches(fs, env, opts, record);
  }

  /**
   * An absent marker is created holding the record, unless the record's
   * digest is itself `''` (which a real MD5 never is).
   */
  lemma AbsentMarkerCreated(fs: FileSystem, env: Env, opts: Options, record: string)
    requires MarkerPath(opts) !in fs
    requires env.md5(record) != ""
    ensures var fs1 := DnsFileWritten(fs, env, opts, record);
      MarkerPath(opts) in fs1 && fs1[MarkerPath(opts)] == File(record, env.createMode, None)
  {
  }
}
