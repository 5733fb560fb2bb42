# Remote-Manager: the key recorder and the file browser, in Dafny

Remote-Manager is a small Flask dashboard that controls a Windows machine
remotely. Two revisions of its server are modelled here: the current one,
`main/main.py`, and the older one, `app.py`. Most routes are thin wrappers
over OS calls. The parts with logic of their own are these:

- **The key-capture recorder.** It keeps a buffer of formatted lines, a
  `running` flag and the listener object of the last start. Start is
  idempotent and stop is unconditional. The key callback appends one line.
  The read route returns the newest 1000 lines and never trims the buffer.
  Both revisions share one state machine (`KeyRecorder`). Each revision has
  a class whose fields are the module globals and whose methods are the
  functions that change them (`MainRevision.KeyLogger`,
  `AppRevision.KeyLogger`). They differ in three ways:
  - the separator: a tab in `main/main.py`, `": "` in `app.py`;
  - the guard for a missing keyboard library: only `main/main.py` has it;
  - the response: `app.py` wraps the lines as `{'logs': ...}`.
- **The file browser.** A path is a sequence of segments below `/`. pathlib's
  lexical behaviour is written out in `Paths`:
  - parsing drops empty and `.` segments;
  - `base / s` is replaced by `s` when `s` is absolute;
  - `resolve()` pops a segment on `..`, and `..` at `/` stays at `/`;
  - `is_relative_to` compares segments, not strings.

  The host filesystem is a map from normalised paths to files and
  directories (`Posix`). The OS calls the routes make are modelled over that
  map, with the kernel's errors: the path walk of `exists()`/`is_file()`,
  `os.mkdir`, pathlib's `mkdir(parents=True, exist_ok=True)`, and
  `open(..., "wb")`. The map is a field of the `Posix.FileSystem` class, and
  an upload updates it in place.
  - `main/main.py`: `safe_path` only strips leading separators, anchors at
    `/` and normalises. It confines nothing below `/`, so every regular file
    can be listed and downloaded.
  - `app.py`: listing and upload check that the resolved path lies in `ROOT`.
    Download does not check this.
- **Small pure helpers:** the command dispatch of both revisions, the
  `Average = <digits>ms` parse of ping output (`PingOutput`), and
  `local_ips`. `Revisions` states where the two revisions agree and where
  they part.

Where the design description and the code disagree, the model follows the
code:

- Start never reports failure. `main/main.py` silently does nothing
  without the keyboard library.
- Stop leaves the old listener object stored. So "listener present iff
  running" does not hold: only "running implies listener present" does
  (`KeyRecorder.ConsistentRun`).
- `app.py` answers 403 for a missing path under `/files`, not 404.
- Listing a file sends the file in `main/main.py`, and fails with a 500 in
  `app.py` (`iterdir` raises). Neither revision reports "not a directory".

Inputs the code reads from outside are parameters of the model:

- the formatted clock and `str(key)` of a key press;
- the listener object a start constructs (an opaque `Handle`);
- whether `pynput` imported;
- what running `ping` gave (`PingRun`);
- `psutil.net_if_addrs()`;
- `ROOT`;
- the time and directory size the OS stamps on new entries (`Stamp`);
- the uploaded bytes.

## Model

| member | source | states |
|---|---|---|
| `KeyRecorder.StartStep` | main/main.py:182-188 | start leaves the buffer alone; afterwards the recorder runs iff it ran or the keyboard library is loaded; the listener changes to the new one only when the library is loaded and the recorder was idle |
| `KeyRecorder.StopStep` | main/main.py:190-194 | stop always leaves the recorder not running, with the buffer and the stored listener unchanged |
| `KeyRecorder.PressStep` | main/main.py:178-180 | the callback appends exactly one line at the end and changes nothing else |
| `KeyRecorder.Tail` | main/main.py:351 | `buf[-1000:]`: exactly min(n, 1000) lines, and they are the last ones of the buffer, in order |
| `KeyRecorder.KeylogCommand` | main/main.py:340-346 | only "start" and "stop" are commands; every other text is rejected |
| `KeyRecorder.RunningIffLastStart` | app.py:102-114 | with the library loaded, after any run of starts, stops and key presses the recorder runs exactly when the last start/stop call was a start |
| `KeyRecorder.NotLoadedInert` | main/main.py:184-185 | without the keyboard library an idle recorder never changes |
| `KeyRecorder.ConsistentRun` | main/main.py:186-188 | in every reachable state a running recorder holds a listener |
| `KeyRecorder.BufferGrows` | main/main.py:178-180 | over any run the old buffer stays a prefix of the new one: lines are never removed or changed |
| `KeyRecorder.QuietAfterStop` | main/main.py:190-194 | after a stop, key presses and further stops change nothing until the next start |
| `KeyRecorder.StartIdempotent` | main/main.py:184-185 | a second start while running changes nothing, not even the listener |
| `KeyRecorder.StopIdempotent` | main/main.py:192-194 | stopping twice is the same as stopping once |
| `KeyRecorder.TailNewest` | main/main.py:351 | after a key press the read ends with the new line; below the limit the read is the whole buffer |
| `MainRevision.KeyLogger.constructor` | main/main.py:173-175 | the recorder starts with no lines, not running, and with no listener |
| `MainRevision.KeyLogger.OnPress` | main/main.py:178-180 | `_keybuf` gains exactly the line ts + "\t" + key at its end; the flag and listener are unchanged |
| `MainRevision.KeyLogger.Start` | main/main.py:182-188 | no-op when the library is missing or the recorder runs; otherwise the recorder runs with the new listener and an unchanged buffer |
| `MainRevision.KeyLogger.Stop` | main/main.py:190-194 | `_key_running` is false afterwards, whatever the state before; the buffer and listener stay |
| `MainRevision.KeyLogger.Keylogs` | main/main.py:349-351 | a bare list of at most 1000 lines, the newest in append order, with the whole buffer when it is short; the buffer is only read |
| `MainRevision.KeyLogger.Keylog` | main/main.py:339-347 | "start" and "stop" act and answer 204; anything else is a 400 that leaves the state alone |
| `MainRevision.SafePath` | main/main.py:246-248 | the result is always an absolute, normalised path |
| `MainRevision.SafePathSkipsSeparator` | main/main.py:247 | a leading '/' or '\\' never changes the result |
| `MainRevision.SafePathRoot` | main/main.py:246-248 | the empty path, "/" and ".." all give "/" |
| `MainRevision.ClimbAtRoot` | main/main.py:247 | any number of ".." at "/" stays at "/" |
| `MainRevision.SafePathRender` | tests/test_endpoints.py:147-154 | `safe_path(str(p)) == p` for every normalised absolute path whose first segment does not start with a backslash, as the listing test expects |
| `MainRevision.Listing` | main/main.py:381-397 | 404 when the path does not exist; the file itself when it is a file; for a directory, its `str()` and exactly one row (name, is_dir, size, mtime) per direct child, with distinct names |
| `MainRevision.Download` | main/main.py:399-405 | a regular file is sent as an attachment, and anything else is a 404 |
| `MainRevision.DownloadReachesEverything` | main/main.py:401-405 | every regular file of the machine can be downloaded: always by "." followed by its absolute path, and by the bare absolute path when its first name does not begin with a backslash |
| `MainRevision.SafePathDotRender` | main/main.py:246-248 | `safe_path("." + str(p)) == p` for every normalised path, whatever its first name begins with |
| `MainRevision.Power` | main/main.py:283-295 | exactly lock, restart, shutdown, sleep and hibernate launch their table's program with 204; every other command is a 400 that launches nothing |
| `MainRevision.PingTime` | main/main.py:104-110 | no answer when ping could not run or exited nonzero; otherwise the average parsed from its output |
| `MainRevision.LocalIps` | main/main.py:134-140 | an interface is a key exactly when it has an IPv4 address outside "127."; its value is the last such address |
| `MainRevision.LastLocalIsLast` | main/main.py:136-139 | the kept address qualifies, and no qualifying address comes after it; none is kept only when none qualifies |
| `AppRevision.KeyLogger.constructor` | app.py:93-96 | the recorder starts with no lines, not running, and with no listener |
| `AppRevision.KeyLogger.OnKeyPress` | app.py:98-100 | `keylog_buffer` gains exactly the line ts + ": " + key at its end; the flag and listener are unchanged |
| `AppRevision.KeyLogger.StartKeylogger` | app.py:102-108 | no-op while running (there is no library guard); otherwise the recorder runs with the new listener |
| `AppRevision.KeyLogger.StopKeylogger` | app.py:110-114 | `keylog_running` is false afterwards, whatever the state before |
| `AppRevision.KeyLogger.GetKeylogs` | app.py:229-232 | `{'logs': s}` with s the newest ≤1000 lines in append order; the buffer is only read |
| `AppRevision.KeyLogger.KeyloggerCtrl` | app.py:219-227 | "start" and "stop" act and answer 204; anything else is a 400 that leaves the state alone |
| `AppRevision.Action` | app.py:141-155 | an effect happens iff the command is lock, restart, reboot, shutdown, sleep or hibernate; those answer 204 and all others 400; lock calls LockWorkStation; restart and reboot reboot |
| `AppRevision.PingTime` | app.py:59-65 | no answer when ping could not run; otherwise the average parsed from its output, whatever its exit code |
| `AppRevision.ListAccess` | app.py:259-261 | 403 exactly when `ROOT / path` does not exist or its resolution is not under ROOT; what can be listed is that resolution, a directory under ROOT |
| `AppRevision.ListFiles` | app.py:257-263 | 403 as `ListAccess` decides; 500 for a file; otherwise exactly one row per direct child of the resolved directory |
| `AppRevision.ListRootAccepted` | app.py:259-261 | the empty path lists ROOT itself |
| `AppRevision.ListParentDenied` | app.py:259-261 | ".." is refused |
| `AppRevision.ListSiblingDenied` | app.py:259-261 | "../x" is refused unless x is ROOT's own name |
| `AppRevision.ListSiblingReenters` | app.py:259-261 | "../n", with n ROOT's own name, climbs back in and lists ROOT |
| `AppRevision.ListAbsolute` | app.py:259-261 | an absolute path replaces ROOT and is refused unless it resolves inside ROOT |
| `AppRevision.Download` | app.py:265-270 | the file is sent iff `ROOT / path` is an existing regular file, wherever it lies; otherwise 404 |
| `AppRevision.DownloadReachesEverything` | app.py:267-270 | every regular file of the machine can be downloaded by its absolute path: there is no containment check |
| `AppRevision.DownloadConfined` | app.py:265-270 | corrected download: only a regular file under ROOT is sent; otherwise 403 or 404 |
| `AppRevision.DownloadConfinedRefusesOutside` | app.py:267-270 | the corrected download refuses every entry outside ROOT with 403 |
| `AppRevision.DownloadConfinedAgrees` | app.py:267-270 | for a path that resolves under ROOT the corrected download serves what the original does |
| `AppRevision.Upload` | app.py:272-280 | the upload route changes the filesystem exactly as `UploadAsWritten` says, and keeps it a tree; on a 500 the directories made before the failure stay |
| `AppRevision.UploadAsWritten` | app.py:272-280 | the answer is 204, 400, 403 or 500; 400 exactly when the form has no path, or the path passes the check and no file came; a 400 or 403 changes nothing |
| `AppRevision.UploadAsWrittenEffect` | app.py:274-280 | 403 exactly when the resolved destination is not under ROOT; the result is a tree; a refused or failed upload only ever adds directories |
| `AppRevision.UploadAsWrittenWrites` | app.py:274-280 | a successful upload writes the bytes at the resolved destination under ROOT; every other old entry is unchanged; anything new besides is a directory |
| `AppRevision.UploadEscapesRoot` | app.py:275-279 | on a POSIX host, "../x/../n/f" (ROOT = R/n) passes the check, yet the upload creates the directory R/x outside ROOT |
| `AppRevision.UploadEscapesOnFailure` | app.py:275-279 | on a POSIX host, with ROOT/g a regular file, "../x/../n/g/h" passes the check and the upload fails with 500, yet the directory R/x it made outside ROOT stays |
| `AppRevision.BlockedMkdir` | app.py:278 | on a POSIX host, `mkdir(parents=True)` along ROOT/../x/../n/g creates R/x, then raises EEXIST on the file ROOT/g and leaves R/x in place |
| `AppRevision.UploadConfined` | app.py:274-280 | corrected upload: the answer is 204, 400, 403 or 500; 403 exactly when the resolved destination is not under ROOT; a 400 or 403 changes nothing |
| `AppRevision.UploadAgreesWhenNormal` | app.py:274-280 | when the joined path has no "..", the as-written and the corrected upload coincide |
| `AppRevision.UploadConfinedInside` | app.py:274-280 | the corrected upload keeps a tree, removes nothing, and adds or changes entries only under ROOT |
| `AppRevision.UploadConfinedSucceeds` | app.py:278-279 | when no file blocks the destination's directories, the corrected upload succeeds: it makes the missing parents, then writes the file there |
| `AppRevision.UploadThenDownload` | app.py:274-280 | what the corrected upload wrote, the corrected download returns byte for byte |
| `Paths.ResolveFrom` | main/main.py:247 | resolution yields a normalised path and leaves an already normalised one as it is |
| `Paths.Resolve` | app.py:260 | `resolve()` of any path is normalised, and of a normalised path is that path |
| `Paths.LStrip` | main/main.py:247 | `lstrip` removes exactly the leading characters from the set, and the result starts with none of them |
| `Paths.ParseRender` | main/main.py:397 | `str()` of a normalised path parses back to that path |
| `Paths.ResolveFromAppend` | main/main.py:247 | resolving a concatenation resolves the first part, then the second |
| `Paths.SegmentPrefixNotStringPrefix` | app.py:260 | for every path b/y and every non-empty s without a slash, `str(b/ys)` is `str(b/y)` followed by s, and still b/ys is not relative to b/y (as with "/home/user2" and "/home/user") |
| `Paths.Parse` | app.py:259 | the segments of a parsed string hold no slash, and none is empty or "." |
| `Paths.JoinPath` | app.py:259 | `base / s` appends a relative s segment by segment below base, and an absolute s replaces base |
| `Paths.IsRelativeTo` | app.py:260 | true only when the base's segments begin the path's, one by one; for a path no longer than the base, only for the base itself |
| `Posix.Walk` | app.py:260 | where the kernel's walk of a path succeeds, it ends where lexical resolution does |
| `Posix.Stat` | app.py:260 | `exists()` finds the entry at the path's resolution |
| `Posix.IsFile` | app.py:268 | `is_file()` holds only when the path's resolution is a regular file |
| `Posix.IsDir` | app.py:262 | `is_dir()` holds only when the path's resolution is a directory, and never together with `is_file()` |
| `Posix.CreationSlot` | app.py:278-279 | a new entry goes into the resolution of the path's parent, an existing directory, under the path's last segment |
| `Posix.StatNormal` | main/main.py:385-387 | on a tree, `exists()`/`is_file()` of a normalised path look it up in the map |
| `Posix.OsMkdir` | app.py:278 | `os.mkdir` adds exactly one new directory at the resolution, or fails and changes nothing |
| `Posix.MkdirParents` | app.py:278 | `mkdir(parents=True, exist_ok=True)`, whether it succeeds or raises, keeps every entry and adds only directories, each at the resolution of a prefix of the path; what it made before raising stays |
| `Posix.MkdirExistOk` | app.py:278 | the retry without parents adds at most the one directory at the path's resolution, and changes nothing when it raises |
| `Posix.OpenForWrite` | app.py:279 | `save` puts exactly the uploaded bytes at the resolution and never overwrites a directory |
| `Posix.TreeMkdirParents` | app.py:278 | making parents keeps the filesystem a tree |
| `Posix.TreeOpenForWrite` | app.py:279 | writing a file keeps the filesystem a tree |
| `Posix.MkdirNormal` | app.py:278 | for a normalised path with no file along it, making parents succeeds; afterwards every prefix is a directory, and only prefixes were added |
| `Posix.WriteAfterMkdir` | app.py:278-279 | making the parents and then saving puts the file exactly at the path |
| `Posix.FileSystem.DirItems` | main/main.py:389-396 | `iterdir` gives exactly one row per direct child, with distinct names |
| `Posix.FileSystem.MakeDirs` | app.py:278 | the filesystem becomes what `MkdirParents` leaves, also on an error, where the directories made before it stay; it only grows and stays a tree |
| `Posix.FileSystem.Save` | app.py:279 | the filesystem changes as `OpenForWrite` says, or not at all on error, and stays a tree |
| `PingOutput.MatchAt` | app.py:62 | a match needs the anchor text at its start, and its group is one or more ASCII digits |
| `PingOutput.FirstMatch` | app.py:62 | `re.search` finds the leftmost match, and none exists when it fails |
| `PingOutput.AverageMs` | app.py:62-63 | None iff the pattern occurs nowhere; otherwise the value of the digits of the leftmost match |
| `PingOutput.DecimalRoundTrip` | app.py:63 | `int()` of a number's decimal digits gives the number back |
| `PingOutput.AverageWritten` | app.py:62-63 | output in which no anchor text starts before the written "Average = <n>ms" parses to n |
| `PingOutput.WindowsLead` | app.py:61 | the text Windows `ping -n 1` prints before the average ("Approximate round trip times …, Minimum = …ms, Maximum = …ms, ") has its only 'A' at the start |
| `PingOutput.WindowsSummaryParses` | app.py:61-63 | the whole Windows summary, "Approximate round trip times … Average = <n>ms", parses to n |
| `PingOutput.NoAnchorNoAverage` | app.py:63 | output without "Average = " has no average |
| `Revisions.PowerCommandsAgree` | main/main.py:283-295 | the revisions accept the same power commands except "reboot"; all but lock launch the same programs |
| `Revisions.PingRevisionsAgree` | main/main.py:104-110 | where the current revision reads an average the older reads the same; on exit code 0 they agree |
| `Revisions.PingRevisionsDiffer` | main/main.py:106 | a failed ping that still printed a summary, with no anchor text before its average, is no answer in the current revision and an average in the older one |
| `Revisions.LineFormatsDiffer` | main/main.py:180 | the same key press gives different lines in the two revisions; both start with the time and end with the key |

## Left out

- HTTP and route wiring: Flask routing, `jsonify` and `send_file` are modelled only as the `Reply` value a handler returns. The inline page markup and its JavaScript are out too.
- OS and library calls are not modelled: psutil telemetry, battery, disks, the process list, kill and launch, the public-IP request, `specs()`, `is_locked()` and `gpu_temp()`. The programs a power command launches are `Effect` values and are never run. The ping subprocess is the `PingRun` parameter.
- Screenshot, webcam, microphone, brightness and volume are device I/O with float scaling.
- The cloudflared tunnel and the `__main__` startup are process management.
- Threading: the lock and the listener's background thread are out. Each callback, start, stop and read is one atomic step. The unlocked read in `main/main.py` is a concurrency issue and is not modelled.
- Symbolic links inside `resolve()`, Windows drive letters and backslash separators are out. Resolution is lexical POSIX normalisation.
- The Windows handling of ".." in `mkdir` is out: Windows removes ".." from the path text before it creates a directory, so there no directory is made along "../x/..". The filesystem calls follow the POSIX kernel walk, and the app.py:278 finding holds only on a POSIX host.
- `Path.home()` is out: `ROOT` is a parameter.
- `main/main.py`'s upload is out. It writes to a temporary directory under a `uuid4` name and `secure_filename`, which are opaque here.
- `datetime.now()` formatting and `str(key)` arrive as ready text.
- OS errors other than ENOENT, ENOTDIR, EEXIST and EISDIR are out: permissions, disk full, name length.
- `st_mtime` is an integer here, not a float. A directory's `st_size` is an opaque value.
- `Posix.FileSystem.DirItems`: its contract gives the set of rows and not their order, because `iterdir` order comes from the filesystem.
- `PingOutput.AverageMs`: only ASCII digits are modelled, and Python's 4300-digit limit on `int()` is out.
- What a listener does after its `stop()` is out. The model records only that stop leaves the object stored. Key presses reach the callback only while the recorder runs.

## Findings

| source | as written | input that shows it | evidently intended | confidence | as-written member | corrected member |
|---|---|---|---|---|---|---|
| app.py:278 | on a POSIX host, the upload makes the parent directories of the unresolved joined path, after checking only its resolution | on a POSIX host, ROOT = /home/u, form path "../x/../u/f", and no /home/x: the check passes, and /home/x is created outside ROOT; with /home/u/g a regular file, "../x/../u/g/h" answers 500 and still leaves /home/x behind | directories are made only along the resolved destination under ROOT | high (not executed) | `AppRevision.UploadEscapesRoot` | `AppRevision.UploadConfinedInside` |
| app.py:267-268 | download checks existence and is-file, but not containment in ROOT | path "/etc/passwd" replaces ROOT and is sent | the same containment check as `/files` | medium (not executed) | `AppRevision.DownloadReachesEverything` | `AppRevision.DownloadConfinedRefusesOutside` |
