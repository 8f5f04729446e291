/**
 * What the mirror learns from `sigtool -i`: the version a local `.cvd`
 * bundle declares (`get_local_version`), whether the tool accepts a bundle
 * (`verify_sigfile`) and the download check built on both (`check_download`).
 */
module Sigtool {
  import opened Wrappers
  import opened Text
  import opened Environment

  const VersionPrefix: string := "Version:"

  /** `line.split()[1]`, which raises `IndexError` when there is no second token. */
  function SecondToken(line: string): (r: Result<string, Error>)
    ensures r.Success? <==> |Tokens(line)| >= 2
  {
    var words := Tokens(line);
    if |words| >= 2 then Success(words[1]) else Failure(MissingVersionToken(line))
  }

  /**
   * The version a `sigtool -i` listing declares. A line read as `''` is end
   * of file (`readline` never returns `''` before it); the first line that
   * starts with `Version:` ends the scan with its second token.
   */
  function ScanVersion(lines: seq<string>): Result<Option<string>, Error>
    decreases |lines|
  {
    if lines == [] || lines[0] == "" then Success(None)
    else if StartsWith(lines[0], VersionPrefix) then
      match SecondToken(lines[0])
      case Success(v) => Success(Some(v))
      case Failure(e) => Failure(e)
    else ScanVersion(lines[1..])
  }

  /**
   * The loop of `get_local_version`: read a line at a time until one starts
   * with `Version:` or the output ends.
   */
  method ReadVersion(lines: seq<string>) returns (r: Result<Option<string>, Error>)
    ensures r == ScanVersion(lines)
  {
    var i := 0;
    while true
      invariant 0 <= i <= |lines|
      invariant ScanVersion(lines) == ScanVersion(lines[i..])
      decreases |lines| - i
    {
      var line := if i < |lines| then lines[i] else "";
      if line != "" && StartsWith(line, VersionPrefix) {
        var words := Tokens(line);
        if |words| < 2 {
          return Failure(MissingVersionToken(line));
        }
        return Success(Some(words[1]));
      }
      if line == "" {
        return Success(None);
      }
      assert lines[i..][1..] == lines[i + 1..];
      i := i + 1;
    }
  }

  /** The file `get_local_version` inspects: `<sig>.cvd` in `dir`. */
  function BundlePath(dir: string, sig: string): Path {
    Path(dir, sig + ".cvd")
  }

  /**
   * `get_local_version(dir, sig)`: `None` when the bundle is absent, else the
   * version its `sigtool -i` listing declares.
   */
  function LocalVersion(fs: FileSystem, sigtool: Option<string> -> SigtoolRun, dir: string, sig: string)
    : Result<Option<string>, Error>
  {
    var p := BundlePath(dir, sig);
    if p in fs then ScanVersion(sigtool(Some(fs[p].content)).lines) else Success(None)
  }

  method GetLocalVersion(fs: FileSystem, sigtool: Option<string> -> SigtoolRun, dir: string, sig: string)
    returns (r: Result<Option<string>, Error>)
    ensures r == LocalVersion(fs, sigtool, dir, sig)
    ensures BundlePath(dir, sig) !in fs ==> r == Success(None)
  {
    r := Success(None);
    var filename := BundlePath(dir, sig);
    if filename in fs {
      var run := sigtool(Some(fs[filename].content));
      r := ReadVersion(run.lines);
    }
  }

  /**
   * The scan returns the second token of the first line that starts with
   * `Version:`, provided every line before it is a real (non-empty) line.
   */
  lemma {:induction false} ScanFindsFirst(lines: seq<string>, i: nat)
    requires i < |lines| && StartsWith(lines[i], VersionPrefix)
    requires forall j :: 0 <= j < i ==> lines[j] != "" && !StartsWith(lines[j], VersionPrefix)
    ensures ScanVersion(lines) == match SecondToken(lines[i])
                                  case Success(v) => Success(Some(v))
                                  case Failure(e) => Failure(e)
    decreases i
  {
    if i > 0 {
      ScanFindsFirst(lines[1..], i - 1);
    } else {
      assert lines[0] != "";
    }
  }

  /** Nothing after end of file is read. */
  lemma {:induction false} ScanStopsAtEof(lines: seq<string>, rest: seq<string>)
    ensures ScanVersion(lines + [""] + rest) == ScanVersion(lines)
    decreases |lines|
  {
    if lines == [] {
      assert (lines + [""] + rest)[0] == "";
    } else {
      assert (lines + [""] + rest)[0] == lines[0];
      assert (lines + [""] + rest)[1..] == lines[1..] + [""] + rest;
      ScanStopsAtEof(lines[1..], rest);
    }
  }

  /** The scan finds no version exactly when no line before end of file starts with `Version:`. */
  lemma {:induction false} ScanFindsNone(lines: seq<string>)
    requires forall j :: 0 <= j < |lines| ==> lines[j] != ""
    ensures ScanVersion(lines) == Success(None)
        <==> forall j :: 0 <= j < |lines| ==> !StartsWith(lines[j], VersionPrefix)
    decreases |lines|
  {
    if lines != [] {
      ScanFindsNone(lines[1..]);
      assert forall j :: 1 <= j < |lines| ==> lines[j] == lines[1..][j - 1];
    }
  }

  /**
   * A version the scan reports is a non-empty, whitespace-free word that
   * follows the first token of some `Version:` line.
   */
  lemma {:induction false} ScannedVersionIsWord(lines: seq<string>)
    requires ScanVersion(lines).Success? && ScanVersion(lines).value.Some?
    ensures var v := ScanVersion(lines).value.value;
      |v| > 0 && (forall k :: 0 <= k < |v| ==> !IsSpace(v[k]))
      && exists i :: 0 <= i < |lines| && StartsWith(lines[i], VersionPrefix)
                     && |Tokens(lines[i])| >= 2 && Tokens(lines[i])[1] == v
    decreases |lines|
  {
    if StartsWith(lines[0], VersionPrefix) {
      TokensAreWords(lines[0]);
    } else {
      ScannedVersionIsWord(lines[1..]);
      var v := ScanVersion(lines).value.value;
      var i :| 0 <= i < |lines[1..]| && StartsWith(lines[1..][i], VersionPrefix)
               && |Tokens(lines[1..][i])| >= 2 && Tokens(lines[1..][i])[1] == v;
      assert lines[i + 1] == lines[1..][i];
    }
  }

  /** `verify_sigfile(dir, sig)`: `sigtool -i` on `<dir>/<sig>.cvd` exits with 0. */
  predicate VerifySigfile(fs: FileSystem, sigtool: Option<string> -> SigtoolRun, dir: string, sig: string) {
    var p := BundlePath(dir, sig);
    sigtool(if p in fs then Some(fs[p].content) else None).exitCode == 0
  }

  /**
   * `verify_sigfile` looks at nothing but `<dir>/<sig>.cvd`: two file
   * systems that agree on that file (both lack it, or both hold the same
   * content) get the same verdict, which is whether `sigtool` exits with 0.
   */
  lemma VerifySigfileReadsBundle(fs: FileSystem, fs': FileSystem, sigtool: Option<string> -> SigtoolRun,
                                 dir: string, sig: string)
    requires var p := BundlePath(dir, sig);
      (p in fs <==> p in fs') && (p in fs ==> fs[p].content == fs'[p].content)
    ensures VerifySigfile(fs, sigtool, dir, sig) == VerifySigfile(fs', sigtool, dir, sig)
    ensures var p := BundlePath(dir, sig);
      VerifySigfile(fs, sigtool, dir, sig)
      <==> sigtool(if p in fs then Some(fs[p].content) else None).exitCode == 0
  {
  }

  /**
   * `check_download`: when a version is expected, the bundle in the working
   * directory must pass `sigtool` and declare exactly that version, else
   * `ValueError` is raised. With no expected version nothing is checked.
   * Nothing in the mirror calls it.
   */
  function CheckDownload(fs: FileSystem, sigtool: Option<string> -> SigtoolRun, version: Option<string>,
                         workdir: string, signame: string): (r: Outcome<Error>)
    ensures !Truthy(version) ==> r == Pass
    ensures r.Pass? && Truthy(version) ==>
      && BundlePath(workdir, signame) in fs
      && VerifySigfile(fs, sigtool, workdir, signame)
      && LocalVersion(fs, sigtool, workdir, signame) == Success(Some(version.value))
    ensures (Truthy(version) && VerifySigfile(fs, sigtool, workdir, signame)
             && LocalVersion(fs, sigtool, workdir, signame) == Success(Some(version.value)))
            ==> r == Pass
    ensures (Truthy(version) && LocalVersion(fs, sigtool, workdir, signame).Success?
             && !(VerifySigfile(fs, sigtool, workdir, signame)
                  && LocalVersion(fs, sigtool, workdir, signame).value == Some(version.value)))
            ==> r == Fail(VerificationFailed(signame))
    ensures (Truthy(version) && LocalVersion(fs, sigtool, workdir, signame).Failure?)
            ==> r == Fail(LocalVersion(fs, sigtool, workdir, signame).error)
  {
    if !Truthy(version) then Pass
    else
      match LocalVersion(fs, sigtool, workdir, signame)
      case Failure(e) => Fail(e)
      case Success(local) =>
        if !VerifySigfile(fs, sigtool, workdir, signame) || local != Some(version.value) then
          Fail(VerificationFailed(signame))
        else Pass
  }
}
