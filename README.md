# clamavmirror in Dafny

A model of the decision core of `clamavmirror`, a tool that keeps a local
mirror of the ClamAV signature databases up to date. One run of the tool:

1. Asks DNS for the TXT record that names the current version of every
   signature stream (`get_record`). It tries up to four times and exits with
   code 3 when every answer is empty.
2. Splits the record on `:` into the versions of the four streams `main`,
   `daily`, `bytecode` and `safebrowsing`.
3. Plans the work. Each stream gets a full-bundle item (`<stream>.cvd`).
   Every stream except `main` whose local bundle declares a version also
   gets a diff item (`<stream>-<n>.cdiff` steps).
4. Lets the workers handle the items:
   - `update_sig` downloads and publishes a stale bundle.
   - `download_diffs`/`update_diff` fetch every missing diff step five times.
5. Writes `dns.txt` when its MD5 differs from the record's.

The files and what they hold:

| file | module | what it models |
|---|---|---|
| `wrappers.dfy` | `Wrappers` | `Option`, `Result`, `Outcome` |
| `text.dfy` | `Text` | `str.split(':')`, `str.split()`, `int()` on sign-and-digits text, `'%d'` |
| `environment.dfy` | `Environment` | Files as a map from path to file; the oracles (HTTP, DNS, `sigtool`, MD5, account database); the request log; Python exceptions as `Error` values |
| `manifest.dfy` | `Manifest` | The streams, the record split, `get_record` |
| `sigtool.dfy` | `Sigtool` | `get_local_version`, `verify_sigfile`, `check_download` |
| `transfer.dfy` | `Transfer` | `download_sig`, `deploy_signature`, `copy_sig` |
| `full_update.dfy` | `FullUpdate` | One item of the `update_sig` worker |
| `diff_update.dfy` | `DiffUpdate` | `update_diff`, and one item of the `download_diffs` worker |
| `marker.dfy` | `Marker` | `get_file_md5`, `create_dns_file` |
| `orchestrator.dfy` | `Orchestrator` | `work`: planning, both queues, the outcome of a run |

How the model handles state, the environment and failure:
- **State.** It is threaded by value: every operation takes the world (files
  and requests made so far) and returns the new one.
- **The environment.** It is a value of type `Env`:
  - `net(url, k)` is the response to the `k`-th request of the run;
  - `dns(k)` is the `k`-th TXT answer (`''` when the query fails);
  - `sigtool(c)` is what `sigtool -i` prints for a file with content `c`;
  - `md5` is an uninterpreted digest.
- **Exceptions.**
  - An exception raised inside a worker ends that item with `Raised(e)`. The
    worker thread dies without `task_done`, so the matching `join` never
    returns: the run `Hangs` and `dns.txt` is not written.
  - An exception in the main thread makes the run `Crashed(e)`.

Where the code and its own documentation disagree, the model follows the
code:
- **`update_diff` never leaves its loop early.** It always makes five
  attempts, and it deploys after every one that answers 200. The module
  docstring promises that a 404 is not retried, but the code retries it
  (`DiffUpdate.FiveAttempts`, `DiffUpdate.UpdateDiffEffect`).
- **Downloaded bundles are not verified.** `update_sig` publishes a
  downloaded bundle without checking it: `check_download` exists, but
  nothing calls it (`FullUpdate.DownloadIsNotVerified`).

One behaviour differs from what a reader might expect, and the model keeps
it. `download_diffs` walks `range(int(localver), int(remotever) + 1)`. The
range starts at the local version itself, not at the one after it. So the
diff named after the local version is fetched too, when it is absent
(`DiffUpdate.RangeStartsAtLocal`).

## Model

| member | source | states |
|---|---|---|
| Text.SplitJoin | clamavmirror/__init__.py:337 | Joining the fields of `split(':')` with `:` gives back the record |
| Text.SplitFields | clamavmirror/__init__.py:337 | `split(':')` yields colon-free fields, one more than the number of colons |
| Text.JoinSplit | clamavmirror/__init__.py:337 | Splitting the join of colon-free fields gives back those fields |
| Text.TokensAreWords | clamavmirror/__init__.py:174 | `str.split()` yields non-empty, whitespace-free tokens that together hold exactly the line's non-space characters |
| Text.TokensOfJoin | clamavmirror/__init__.py:174 | `str.split()` of non-empty, whitespace-free words joined by spaces gives back exactly those words: it breaks at whitespace and nowhere else |
| Text.ParseInt | clamavmirror/__init__.py:274 | `int()` succeeds exactly on an optional sign followed by decimal digits |
| Text.ParseDecimal | clamavmirror/__init__.py:326 | `int()` of the `'%d'` rendering of a number is that number |
| Text.DecimalInjective | clamavmirror/__init__.py:326 | Distinct numbers render differently under `'%d'` |
| Manifest.ParseRecord | clamavmirror/__init__.py:337 | The unpacking succeeds if and only if the record has exactly seven colons; otherwise it fails, naming the field count |
| Manifest.RecordRoundTrip | clamavmirror/__init__.py:337-340 | A record of eight colon-free fields yields fields 1, 2, 6 and 7 as main, daily, safebrowsing and bytecode |
| Manifest.ParsedRecordFields | clamavmirror/__init__.py:337-340 | No parsed version contains a colon, and the record is the colon-join of its fields |
| Manifest.FirstAnswerExits | clamavmirror/__init__.py:234-251 | `get_record` exits with 3 exactly when all four answers are empty; otherwise it returns some non-empty answer |
| Manifest.GetRecord | clamavmirror/__init__.py:234-251 | Makes 1 to 4 queries and stops at the first non-empty answer, with one sleep per empty answer; after four empty answers it exits with 3 |
| Sigtool.SecondToken | clamavmirror/__init__.py:174 | `line.split()[1]` succeeds exactly when the line has at least two tokens |
| Sigtool.ReadVersion | clamavmirror/__init__.py:171-177 | The read loop returns what the line scan specifies: the first `Version:` line's second token, stopping at end of output |
| Sigtool.GetLocalVersion | clamavmirror/__init__.py:164-179 | Returns the scanned version of `<sig>.cvd`, or `None` when that file is absent |
| Sigtool.ScanFindsFirst | clamavmirror/__init__.py:171-175 | The result comes from the first line starting with `Version:`; later lines are never read |
| Sigtool.ScanStopsAtEof | clamavmirror/__init__.py:176-177 | Nothing after the end of output (an empty read) affects the result |
| Sigtool.ScanFindsNone | clamavmirror/__init__.py:166-179 | The result is `None` if and only if no line starts with `Version:` |
| Sigtool.ScannedVersionIsWord | clamavmirror/__init__.py:173-174 | A reported version is a non-empty, whitespace-free second token of some `Version:` line |
| Sigtool.VerifySigfileReadsBundle | clamavmirror/__init__.py:182-187 | The verdict depends on `<dir>/<sig>.cvd` alone, and it is whether `sigtool -i` exits with 0 |
| Sigtool.CheckDownload | clamavmirror/__init__.py:191-201 | With no expected version it passes. Otherwise it passes if and only if `sigtool` accepts the bundle and the bundle declares exactly the expected version. When the version reads but the bundle does not pass, it raises `ValueError` (`VerificationFailed`). A failure to read the version is raised as is |
| Environment.WriteFile | clamavmirror/__init__.py:149-152 | The written file holds exactly the content, and no other file changes |
| Transfer.DownloadSig | clamavmirror/__init__.py:204-231 | Makes exactly one request, for `<sig>.cvd` when the version is truthy and `<sig>.cdiff` otherwise. It succeeds iff the status is 200, and then the work file holds the body. Any other status changes no file |
| Transfer.DeploySignature | clamavmirror/__init__.py:136-146 | Fails iff the source is missing. On success the destination holds the source's content with mode 0o644, the source is gone (if distinct) and no other file changes. The owner changes only when both user and group are set |
| Transfer.CopySig | clamavmirror/__init__.py:254-264 | Deploys `<sig>.cdiff` or `<sig>.cvd` from the working directory to the same name in the mirror |
| Transfer.FetchThenDeploy | clamavmirror/__init__.py:278-281 | After a successful download, publishing puts the downloaded body in the mirror with mode 0o644, removes the working copy and changes nothing else |
| FullUpdate.NeedsUpdate | clamavmirror/__init__.py:274 | An update is required if and only if the local version is absent, or both versions parse and local < remote. `int()` raises exactly when the local version is non-empty and one of the two does not parse. The error names the local text when that fails, else the remote text |
| FullUpdate.UpdateSig | clamavmirror/__init__.py:267-290 | One worker item equals `UpdateSigSpec`. It reads the mirror's version, and an exception there or in the comparison ends the item. When the version is absent or below the remote one, it downloads the bundle and publishes it if the answer is 200, without checking the download |
| FullUpdate.FetchIffStale | clamavmirror/__init__.py:274-289 | A bundle is requested, exactly once, if and only if the local version is absent or numerically below the remote one; otherwise the world is unchanged |
| FullUpdate.CurrentIsNoop | clamavmirror/__init__.py:274-289 | A local version at least the remote one leads to no request and no change |
| FullUpdate.FreshBundlePublished | clamavmirror/__init__.py:278-281 | A stale stream whose download answers 200 ends with the body in the mirror as `<sign>.cvd` with mode 0o644, the working copy gone, and nothing else changed |
| FullUpdate.FailedDownloadChangesNothing | clamavmirror/__init__.py:282-286 | A non-200 answer (404 included) is requested once, changes no file and does not fail the worker |
| FullUpdate.DownloadIsNotVerified | clamavmirror/__init__.py:278-281 | The outcome depends on `sigtool` only through the bundle already in the mirror, never the downloaded one |
| FullUpdate.RerunAfterPublishIsNoop | clamavmirror/__init__.py:267-290 | Suppose the bundle just published declares at least the remote version. Then handling the same item again is a no-op |
| FullUpdate.EmptyRemoteVersionRaises | clamavmirror/__init__.py:215-220 | An empty remote version is falsy: the worker fetches `<sign>.cdiff`, then fails to move the missing `<sign>.cvd` |
| DiffUpdate.UpdateDiff | clamavmirror/__init__.py:293-305 | The five-iteration loop equals `UpdateDiffSpec` with five attempts: each attempt requests the step and publishes it when the answer is 200 |
| DiffUpdate.AttemptsFrame | clamavmirror/__init__.py:295-305 | `k` attempts make exactly `k` requests, never raise, and change no file but the two copies of `<sig>.cdiff` |
| DiffUpdate.AttemptsNeverRaise | clamavmirror/__init__.py:295-305 | No attempt raises: a downloaded diff is always there to deploy |
| DiffUpdate.AttemptsRequests | clamavmirror/__init__.py:295-297 | `k` attempts request the step's `.cdiff` URL exactly `k` times and nothing else |
| DiffUpdate.AttemptsFiles | clamavmirror/__init__.py:295-305 | The attempts change no file but the working and mirror copies of `<sig>.cdiff` |
| DiffUpdate.AttemptsResult | clamavmirror/__init__.py:297-300 | With no 200 answer no file changes; otherwise the mirror copy holds the body of the last successful attempt, with mode 0o644, and the working copy is gone |
| DiffUpdate.UpdateDiffEffect | clamavmirror/__init__.py:295-305 | `k` attempts make exactly `k` requests and never raise. Only the two copies of `<sig>.cdiff` can change. With no 200 answer nothing changes; otherwise the mirror copy holds the last successful body with mode 0o644 |
| DiffUpdate.FiveAttempts | clamavmirror/__init__.py:295-305 | `update_diff` always requests the step exactly five times, whatever each attempt returns |
| DiffUpdate.DownloadDiffs | clamavmirror/__init__.py:321-330 | The loop over the range equals `DownloadDiffsSpec`: parse both versions (an `int()` failure raises, the local one first), then run `update_diff` on each step of the range missing from the mirror, in increasing order |
| DiffUpdate.DiffNameInjective | clamavmirror/__init__.py:326-327 | Distinct step numbers name distinct `.cdiff` files |
| DiffUpdate.MissingStepsMembers | clamavmirror/__init__.py:325-328 | A step is attempted if and only if it lies in the range and its `.cdiff` is absent from the mirror |
| DiffUpdate.MissingStepsFrame | clamavmirror/__init__.py:327-329 | Handling one step does not change which later steps are missing |
| DiffUpdate.ChainNeverRaises | clamavmirror/__init__.py:325-329 | A chain whose versions parse never raises |
| DiffUpdate.ChainRequests | clamavmirror/__init__.py:325-329 | The chain requests exactly the initially missing steps, in increasing order, five times each |
| DiffUpdate.ChainFiles | clamavmirror/__init__.py:325-329 | The chain changes no file other than the working and mirror copies of the missing steps |
| DiffUpdate.PresentStepsUntouched | clamavmirror/__init__.py:327-329 | A step already in the mirror is left exactly as it was |
| DiffUpdate.ChainPublishes | clamavmirror/__init__.py:325-329 | Every step missing at the start publishes its own outcome: its body in the mirror copy, or both copies as they were |
| DiffUpdate.StepOutcomePublished | clamavmirror/__init__.py:325-329 | Consider the `j`-th missing step. If its outcome is a body, the mirror copy of that step holds it with mode 0o644 once the chain ends. If its outcome is `None`, both copies of the step are as before the chain |
| DiffUpdate.StepOutcomeIs | clamavmirror/__init__.py:295-300 | The outcome of the `j`-th missing step is the body of the last 200 answer among requests `5j` to `5j + 4` after the chain starts. It is `None` when none of them answered 200 |
| DiffUpdate.RangeStartsAtLocal | clamavmirror/__init__.py:325 | If the step named after the local version is absent, it is the first one requested |
| Marker.FileMd5 | clamavmirror/__init__.py:98-113 | An absent file hashes to `''` |
| Marker.CreateDnsFile | clamavmirror/__init__.py:308-318 | Writes iff the marker's digest (`''` when absent) differs from the record's. A write puts the record in `dns.txt` and changes nothing else; otherwise nothing changes |
| Marker.MarkerDigestMatches | clamavmirror/__init__.py:312-318 | Afterwards the marker's digest equals the record's |
| Marker.SecondCallWritesNothing | clamavmirror/__init__.py:312-318 | A second call with the same record does not write |
| Marker.AbsentMarkerCreated | clamavmirror/__init__.py:312-315 | An absent marker is created holding the record (when the digest is not `''`) |
| Orchestrator.DiffPlanPrefix | clamavmirror/__init__.py:356-370 | An exception while planning one stream ends the planning with that exception |
| Orchestrator.PlanWork | clamavmirror/__init__.py:356-370 | Queues exactly four full-bundle items in the order main, daily, bytecode, safebrowsing, plus the specified diff items; the first exception aborts planning |
| Orchestrator.PlanMembers | clamavmirror/__init__.py:356-369 | A diff item is planned if and only if its stream has diffs and a local bundle declaring a version. The item carries that version and the remote one |
| Orchestrator.PlanItemMembers | clamavmirror/__init__.py:357-369 | The item planned for one stream is exactly its diff item, if it has one |
| Orchestrator.PlanFails | clamavmirror/__init__.py:359 | Planning fails if and only if reading the local version of a stream with diffs raises |
| Orchestrator.NoMainDiff | clamavmirror/__init__.py:357-369 | `main` never gets a diff item |
| Orchestrator.JoinDiffQueue | clamavmirror/__init__.py:372 | The diff items are handled one after the other, each on the world the previous one left. The exceptions they raise are collected in order |
| Orchestrator.JoinSigQueue | clamavmirror/__init__.py:373 | The full-bundle items are handled one after the other, each on the world the previous one left. The exceptions they raise are collected in order |
| Orchestrator.Work | clamavmirror/__init__.py:333-376 | One run equals `WorkSpec`. It gets the record (exit 3 without one), parses it and plans; an exception in either crashes the run. Then it handles the diff queue and the full-bundle queue, writes `dns.txt` and exits 0. A worker exception makes the run hang instead |
| Orchestrator.UnresolvableRecordExits | clamavmirror/__init__.py:248-250 | Four empty TXT answers end the run with exit code 3 and no change |
| Orchestrator.MalformedRecordCrashes | clamavmirror/__init__.py:337 | A record without exactly eight fields crashes the run before any request or file change |
| Orchestrator.CleanRunPublishesRecord | clamavmirror/__init__.py:371-376 | A run that exits with 0 had a record, and `dns.txt` then hashes to that record's digest |
| Orchestrator.NoMissingSteps | clamavmirror/__init__.py:327-328 | A range whose steps are all in the mirror has none to attempt |
| Orchestrator.CompleteChainIsNoop | clamavmirror/__init__.py:321-330 | A diff item whose steps are all present is handled with no request and no change |
| Orchestrator.PlannedItemComplete | clamavmirror/__init__.py:359-369 | The diff item planned for an up-to-date stream has all its steps present |
| Orchestrator.DiffBatchNoop | clamavmirror/__init__.py:321-330 | Complete diff items, handled in turn, change nothing and raise nothing |
| Orchestrator.FullBatchNoop | clamavmirror/__init__.py:267-290 | Up-to-date streams, handled in turn, change nothing and raise nothing |
| Orchestrator.CurrentStreamIsNoop | clamavmirror/__init__.py:274-289 | An up-to-date stream's full-bundle item is a no-op |
| Orchestrator.UpToDateRunIsNoop | clamavmirror/__init__.py:333-376 | With every stream and diff step current and `dns.txt` matching, a run makes no request, changes no file and exits with 0 |

## Left out

- `get_txt_record`, the DNS library and the `NXDOMAIN`/`IndexError` handling are replaced by the `dns` oracle, which returns `''` for a failed query.
- Manifest.GetRecord: only `NXDOMAIN` and an empty answer become `''` (clamavmirror/__init__.py:160). The other exceptions `query` can raise at line 158 (no answer, timeout, no nameservers) are not caught: they end the run without a retry. The `dns` oracle has no such outcome, so the model retries every failed query.
- The HTTP transport (urllib3 pool, TLS, timeouts, user agent) is replaced by the `net` oracle.
- Transfer.DeploySignature: `shutil.move` is modelled as a rename, so the destination always becomes the moved file with the source's owner, in one atomic step. Across file systems (the default working and mirror directories may be on different ones) `shutil.move` copies into the existing destination and then unlinks the source. The destination then keeps its old owner whenever no `chown` happens, and it is written in place rather than atomically. Neither is modelled.
- Sigtool.CheckDownload: the unused `obj` parameter is dropped. The model assumes `obj.url` exists: the failure path reads it before raising `ValueError`, and an `obj` without `url` would raise `AttributeError` instead.
- Transfer.DownloadSig: a transport exception is not modelled. The `except` at clamavmirror/__init__.py:223-224 only logs, and the next line reads an unbound `req`, so the worker raises `NameError`.
- `'%d' % code` with a `None` code (clamavmirror/__init__.py:285, 304) could only follow that same transport exception, so it is not modelled either.
- `sigtool` is an oracle from file content to its output lines and exit code. The pipe, `readline` decoding and `wait` are not modelled.
- MD5 is an uninterpreted function. The block-wise reading in `get_file_md5` and the UTF-8 encoding in `get_md5` are not modelled.
- Threads, queues, daemon workers, `task_done` and `join`:
  - Items are handled one after the other, diff items first, then full-bundle items.
  - Interleavings are not modelled. The request ordinal seen by `net` is an artifact of that order.
  - Planning reads each stream's `.cvd` before that stream's full-bundle item is queued, and diff items touch only `.cdiff` files, so planning against the initial files matches the threaded program.
- Orchestrator.Work: when planning raises in the main thread, the run is `Crashed` with the world unchanged. Workers may already have handled the items queued before the exception; that is not modelled.
- The advisory `fcntl` lock and exit code 254, option parsing (`main`), `time.sleep` (only counted by `GetRecord`) and logging are left out.
- `int()` is modelled on an optional sign followed by ASCII digits. Surrounding whitespace, underscores and non-ASCII digits, which Python also accepts, are treated as errors.
- `os.path.join` is the pair (directory, name). Normalisation, absolute names and `shutil.move` into an existing directory are not modelled.
- `os.chmod` is assumed to succeed.
- `setup.py` (packaging) is not part of this model.
