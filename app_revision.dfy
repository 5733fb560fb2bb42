/**
 * The older revision, app.py: the recorder with ": " lines and no guard
 * for the keyboard library, the command if-chains, the ping parse, and the
 * file browser confined to the home directory ROOT, whose download route
 * checks no containment and whose upload route creates directories along
 * the unresolved path. Beside each of those two routes is the corrected
 * version with what it guarantees.
 */
module AppRevision {
  import opened Wrappers
  import opened Paths
  import opened Posix
  import opened Web
  import KeyRecorder
  import PingOutput

  // ----------------------------------------------------------------------
  // Key-capture recorder

  /** The separator between timestamp and key text in this revision. */
  const Sep := ": "

  class KeyLogger {
    var buffer: seq<string>
    var running: bool
    var listener: Option<KeyRecorder.Handle>

    function State(): KeyRecorder.State
      reads this
    {
      KeyRecorder.State(buffer, running, listener)
    }

    constructor ()
      ensures State() == KeyRecorder.Idle
    {
      buffer := [];
      running := false;
      listener := None;
    }

    /** `_on_key_press(key)`, with the formatted clock `ts` and `str(key)` as `key`. */
    method OnKeyPress(ts: string, key: string)
      modifies this
      ensures buffer == old(buffer) + [KeyRecorder.Line(ts, Sep, key)]
      ensures running == old(running) && listener == old(listener)
      ensures State() == KeyRecorder.PressStep(old(State()), KeyRecorder.Line(ts, Sep, key))
    {
      buffer := buffer + [KeyRecorder.Line(ts, Sep, key)];
    }

    /**
     * `start_keylogger()`; `h` is the listener it would construct. The
     * keyboard library is imported unconditionally, so only a running
     * recorder makes this a no-op.
     */
    method StartKeylogger(h: KeyRecorder.Handle)
      modifies this
      ensures State() == KeyRecorder.StartStep(old(State()), true, h)
      ensures old(running) ==> State() == old(State())
      ensures !old(running) ==> running && listener == Some(h) && buffer == old(buffer)
    {
      if running {
        return;
      }
      listener := Some(h);
      running := true;
    }

    /** `stop_keylogger()`: stops the stored listener, if any, and clears the flag. */
    method StopKeylogger()
      modifies this
      ensures State() == KeyRecorder.StopStep(old(State()))
      ensures !running && buffer == old(buffer) && listener == old(listener)
    {
      running := false;
    }

    /** `get_keylogs()`: the newest lines under the key 'logs'; the buffer stays as it is. */
    function GetKeylogs(): (r: Reply)
      reads this
      ensures r.LogsField? && |r.lines| <= KeyRecorder.Limit
      ensures |r.lines| <= |buffer| && r.lines == buffer[|buffer| - |r.lines|..]
      ensures |buffer| <= KeyRecorder.Limit ==> r.lines == buffer
      ensures |buffer| > KeyRecorder.Limit ==> |r.lines| == KeyRecorder.Limit
    {
      LogsField(KeyRecorder.Tail(buffer))
    }

    /** The `/keylogger/<cmd>` route. */
    method KeyloggerCtrl(cmd: string, h: KeyRecorder.Handle) returns (reply: Reply)
      modifies this
      ensures cmd == "start" ==> reply == NoContent && State() == KeyRecorder.StartStep(old(State()), true, h)
      ensures cmd == "stop" ==> reply == NoContent && State() == KeyRecorder.StopStep(old(State()))
      ensures cmd != "start" && cmd != "stop" ==> reply == Abort(400) && State() == old(State())
    {
      var c := KeyRecorder.KeylogCommand(cmd);
      if c == Some(KeyRecorder.Start) {
        StartKeylogger(h);
        reply := NoContent;
      } else if c == Some(KeyRecorder.Stop) {
        StopKeylogger();
        reply := NoContent;
      } else {
        reply := Abort(400);
      }
    }
  }

  // ----------------------------------------------------------------------
  // Commands and helpers

  const Commands: set<string> := {"lock", "restart", "reboot", "shutdown", "sleep", "hibernate"}

  /** The `/action/<cmd>` route. */
  function Action(cmd: string): (r: Handled)
    ensures r.effect.Some? <==> cmd in Commands
    ensures r.reply == if cmd in Commands then NoContent else Abort(400)
    ensures cmd == "lock" ==> r.effect == Some(LockWorkStation)
    ensures cmd == "restart" || cmd == "reboot" ==> r.effect == Some(Spawn(["shutdown", "/r", "/t", "0"]))
  {
    if cmd == "lock" then Handled(NoContent, Some(LockWorkStation))
    else if cmd == "restart" || cmd == "reboot" then Handled(NoContent, Some(Spawn(["shutdown", "/r", "/t", "0"])))
    else if cmd == "shutdown" then Handled(NoContent, Some(Spawn(["shutdown", "/s", "/t", "0"])))
    else if cmd == "sleep" then Handled(NoContent, Some(Spawn(["rundll32.exe", "powrprof.dll,SetSuspendState", "0,1,0"])))
    else if cmd == "hibernate" then Handled(NoContent, Some(Spawn(["shutdown", "/h"])))
    else Handled(Abort(400), None)
  }

  /** `ping_time()`: `subprocess.run` ignores the exit code; every exception reads as no answer. */
  function PingTime(run: PingOutput.PingRun): (r: Option<nat>)
    ensures run.NotRun? ==> r == None
    ensures run.Exited? ==> r == PingOutput.AverageMs(run.stdout)
  {
    match run
    case NotRun => None
    case Exited(_, out) => PingOutput.AverageMs(out)
  }

  // ----------------------------------------------------------------------
  // File browser under ROOT

  /** What the checks of `/files` decide. */
  datatype Access = Denied | NotADirectory | Listable(dir: Path)

  /**
   * `ROOT / rel` must exist and resolve to ROOT or below it, else 403;
   * listing anything but a directory raises, a 500.
   */
  function ListAccess(fs: Entries, root: Path, rel: string): (r: Access)
    ensures var u := JoinPath(root, rel);
      && (r == Denied <==> Stat(fs, u).None? || !IsRelativeTo(Resolve(u), root))
      && (r.Listable? ==> r.dir == Resolve(u) && r.dir in fs && fs[r.dir].Dir? && IsRelativeTo(r.dir, root))
      && (r == NotADirectory ==> Resolve(u) in fs && fs[Resolve(u)].File?)
  {
    var u := JoinPath(root, rel);
    var node := Stat(fs, u);
    if node.None? || !IsRelativeTo(Resolve(u), root) then Denied
    else if node.value.File? then NotADirectory
    else Listable(Resolve(u))
  }

  /** The `/files` route. */
  method ListFiles(fsys: FileSystem, root: Path, rel: string) returns (reply: Reply)
    requires fsys.Valid()
    ensures match ListAccess(fsys.entries, root, rel)
      case Denied => reply == Abort(403)
      case NotADirectory => reply == Abort(500)
      case Listable(d) =>
        && reply.ItemList?
        && (set e | e in reply.items) == Listed(fsys.entries, d)
        && forall i, j :: 0 <= i < j < |reply.items| ==> reply.items[i].name != reply.items[j].name
  {
    var access := ListAccess(fsys.entries, root, rel);
    if access.Denied? {
      return Abort(403);
    }
    if access.NotADirectory? {
      return Abort(500);
    }
    var items := fsys.DirItems(access.dir);
    reply := ItemList(items);
  }

  /** The `/download` route as written: any existing regular file, wherever it is. */
  function Download(fs: Entries, root: Path, rel: string): (r: Reply)
    ensures var u := JoinPath(root, rel);
      && (r.SendFile? <==> IsFile(fs, u))
      && (r.SendFile? ==> r == SendFile(Name(u), fs[Resolve(u)].data, true))
      && (!r.SendFile? ==> r == Abort(404))
  {
    var u := JoinPath(root, rel);
    if Stat(fs, u).None? || !IsFile(fs, u) then Abort(404)
    else SendFile(Name(u), Stat(fs, u).value.data, true)
  }

  /**
   * The `/download` route with the check `/files` makes: 403 unless the
   * path exists and resolves to ROOT or below it.
   */
  function DownloadConfined(fs: Entries, root: Path, rel: string): (r: Reply)
    ensures var u := JoinPath(root, rel);
      r.SendFile? ==> (IsRelativeTo(Resolve(u), root) && Resolve(u) in fs
        && fs[Resolve(u)].File? && r == SendFile(Name(u), fs[Resolve(u)].data, true))
    ensures r.SendFile? || r == Abort(403) || r == Abort(404)
  {
    var u := JoinPath(root, rel);
    if Stat(fs, u).None? || !IsRelativeTo(Resolve(u), root) then Abort(403)
    else if !IsFile(fs, u) then Abort(404)
    else SendFile(Name(u), Stat(fs, u).value.data, true)
  }

  /** A reply and the filesystem it leaves behind. */
  datatype Uploaded = Uploaded(reply: Reply, fs: Entries)

  /**
   * The `/upload` route as written. A missing form field or file is a 400;
   * the destination must resolve to ROOT or below it, else 403; then
   * `path.parent.mkdir(parents=True, exist_ok=True)` runs on the UNRESOLVED
   * path and `file.save(path)` writes it; an OS error is a 500, and leaves
   * whatever directories were already made.
   */
  function UploadAsWritten(fs: Entries, root: Path, form: Option<string>, file: Option<seq<byte>>, st: Stamp): (r: Uploaded)
    ensures r.reply in {NoContent, Abort(400), Abort(403), Abort(500)}
    ensures r.reply == Abort(400) <==>
      form.None? || (IsRelativeTo(Resolve(JoinPath(root, form.value)), root) && file.None?)
    ensures r.reply == Abort(400) || r.reply == Abort(403) ==> r.fs == fs
  {
    if form.None? then Uploaded(Abort(400), fs)
    else
      var u := JoinPath(root, form.value);
      if !IsRelativeTo(Resolve(u), root) then Uploaded(Abort(403), fs)
      else if file.None? then Uploaded(Abort(400), fs)
      else
        var m := MkdirParents(fs, Parent(u), st);
        if m.Raised? then Uploaded(Abort(500), m.fs)
        else
          var w := OpenForWrite(m.fs, u, file.value, st);
          if w.Raised? then Uploaded(Abort(500), m.fs)
          else Uploaded(NoContent, w.fs)
  }

  /** The `/upload` route as written, on the machine's filesystem. */
  method Upload(fsys: FileSystem, root: Path, form: Option<string>, file: Option<seq<byte>>, st: Stamp)
    returns (reply: Reply)
    requires fsys.Valid() && Normal(root)
    modifies fsys
    ensures fsys.Valid()
    ensures Uploaded(reply, fsys.entries) == UploadAsWritten(old(fsys.entries), root, form, file, st)
  {
    if form.None? {
      return Abort(400);
    }
    var u := JoinPath(root, form.value);
    if !IsRelativeTo(Resolve(u), root) {
      return Abort(403);
    }
    if file.None? {
      return Abort(400);
    }
    var err := fsys.MakeDirs(Parent(u), st);
    if err.Some? {
      return Abort(500);
    }
    err := fsys.Save(u, file.value, st);
    if err.Some? {
      return Abort(500);
    }
    reply := NoContent;
  }

  /**
   * The `/upload` route as intended: directories are made along the
   * RESOLVED destination, and the file is written there.
   */
  function UploadConfined(fs: Entries, root: Path, form: Option<string>, file: Option<seq<byte>>, st: Stamp): (r: Uploaded)
    ensures r.reply in {NoContent, Abort(400), Abort(403), Abort(500)}
    ensures r.reply == Abort(403) <==> form.Some? && !IsRelativeTo(Resolve(JoinPath(root, form.value)), root)
    ensures r.reply == Abort(400) || r.reply == Abort(403) ==> r.fs == fs
  {
    if form.None? then Uploaded(Abort(400), fs)
    else
      var q := Resolve(JoinPath(root, form.value));
      if !IsRelativeTo(q, root) then Uploaded(Abort(403), fs)
      else if file.None? then Uploaded(Abort(400), fs)
      else
        var m := MkdirParents(fs, Parent(q), st);
        if m.Raised? then Uploaded(Abort(500), m.fs)
        else
          var w := OpenForWrite(m.fs, q, file.value, st);
          if w.Raised? then Uploaded(Abort(500), m.fs)
          else Uploaded(NoContent, w.fs)
  }

  // ----------------------------------------------------------------------
  // Lemmas: listing

  /** The empty request path lists ROOT itself. */
  lemma ListRootAccepted(fs: Entries, root: Path)
    requires Tree(fs) && root in fs && fs[root].Dir?
    ensures ListAccess(fs, root, "") == Listable(root)
  {
    assert Split("") == [""];
    assert JoinPath(root, "") == root;
    StatNormal(fs, root);
  }

  /** ".." climbs out of ROOT and is refused. */
  lemma ListParentDenied(fs: Entries, root: Path)
    requires Normal(root) && root != []
    ensures ListAccess(fs, root, "..") == Denied
  {
    SplitNoSlash("..");
    assert JoinPath(root, "..") == root + [".."];
    ResolveFromAppend([], root, [".."]);
  }

  /** `"../" + x` is `[.., x]` segment by segment. */
  lemma ParseUpThen(x: string)
    requires IsName(x)
    ensures Parse("../" + x) == ["..", x]
  {
    assert "../" + x == ".." + "/" + x;
    SplitConcat("..", x);
    SplitNoSlash("..");
    SplitNoSlash(x);
    assert Split("../" + x) == ["..", x];
    assert ["..", x][1..] == [x] && [x][1..] == [];
    assert Parts([x]) == [x];
    assert Parts(["..", x]) == [".."] + Parts([x]);
  }

  /** `"../" + x` passes the containment check only when it climbs back into ROOT itself. */
  lemma ListSiblingDenied(fs: Entries, root: Path, x: string)
    requires Normal(root) && root != [] && IsName(x) && x != Name(root)
    ensures ListAccess(fs, root, "../" + x) == Denied
  {
    ParseUpThen(x);
    assert JoinPath(root, "../" + x) == root + ["..", x];
    SiblingResolves(root, x);
    SiblingOutside(root, x);
  }

  /** `"../" + n`, for ROOT = R/n, climbs out and back in, and lists ROOT. */
  lemma ListSiblingReenters(fs: Entries, root: Path)
    requires Tree(fs) && root in fs && fs[root].Dir? && root != []
    ensures ListAccess(fs, root, "../" + Name(root)) == Listable(root)
  {
    var n := Name(root);
    assert Normal(root) && IsName(n);
    ParseUpThen(n);
    assert JoinPath(root, "../" + n) == root + ["..", n];
    SiblingResolves(root, n);
    assert Parent(root) + [n] == root;
    assert IsRelativeTo(root, root);
    SiblingWalk(fs, root);
  }

  /** ROOT/../x resolves to the sibling R/x of ROOT = R/n. */
  lemma SiblingResolves(root: Path, x: string)
    requires Normal(root) && root != [] && IsName(x)
    ensures Resolve(root + ["..", x]) == Parent(root) + [x]
  {
    ResolveFromAppend([], root, ["..", x]);
    assert ResolveFrom([], root) == root;
    assert ["..", x][1..] == [x] && [x][1..] == [];
    assert ResolveFrom(root, ["..", x]) == ResolveFrom(Parent(root), [x]);
  }

  /** The sibling R/x lies under ROOT = R/n only when it is ROOT itself. */
  lemma SiblingOutside(root: Path, x: string)
    requires root != []
    ensures IsRelativeTo(Parent(root) + [x], root) ==> x == Name(root)
  {
    var y := Parent(root) + [x];
    if IsRelativeTo(y, root) {
      assert |y| == |root| && y[..|root|] == y;
      assert y[|y| - 1] == root[|root| - 1];
    }
  }

  /** The walk along ROOT/../n, for ROOT = R/n, ends at ROOT. */
  lemma SiblingWalk(fs: Entries, root: Path)
    requires Tree(fs) && root in fs && fs[root].Dir? && root != []
    ensures Stat(fs, root + ["..", Name(root)]) == Some(fs[root])
  {
    var n := Name(root);
    assert Parent(root) + [n] == root;
    WalkBelow(fs, root, ["..", n]);
    WalkCons(fs, root, "..", [n]);
    assert [n] == [n] + [];
    WalkCons(fs, Parent(root), n, []);
    assert Walk(fs, [], root + ["..", n]) == Found(root);
  }

  /** An absolute request path replaces ROOT, and is refused unless it resolves inside ROOT. */
  lemma ListAbsolute(fs: Entries, root: Path, s: string)
    requires IsAbsolute(s) && !IsRelativeTo(Resolve(Parse(s)), root)
    ensures ListAccess(fs, root, s) == Denied
  {
  }

  // ----------------------------------------------------------------------
  // Lemmas: download

  /** As written, every regular file of the machine can be downloaded by its absolute path. */
  lemma DownloadReachesEverything(fs: Entries, root: Path, p: Path)
    requires Tree(fs) && p in fs && fs[p].File?
    ensures Download(fs, root, Render(p)) == SendFile(Name(p), fs[p].data, true)
  {
    ParseRender(p);
    assert JoinPath(root, Render(p)) == p;
    StatNormal(fs, p);
  }

  /** The corrected route refuses every file outside ROOT. */
  lemma DownloadConfinedRefusesOutside(fs: Entries, root: Path, p: Path)
    requires Tree(fs) && p in fs && !IsRelativeTo(p, root)
    ensures DownloadConfined(fs, root, Render(p)) == Abort(403)
  {
    ParseRender(p);
    assert JoinPath(root, Render(p)) == p;
  }

  /** Inside ROOT the corrected route serves what the original one does. */
  lemma DownloadConfinedAgrees(fs: Entries, root: Path, rel: string)
    requires IsRelativeTo(Resolve(JoinPath(root, rel)), root)
    ensures DownloadConfined(fs, root, rel) == Download(fs, root, rel)
      || (DownloadConfined(fs, root, rel) == Abort(403) && Download(fs, root, rel) == Abort(404))
  {
  }

  // ----------------------------------------------------------------------
  // Lemmas: upload as written

  /**
   * As written, the 403 is exactly the containment check; every outcome
   * keeps the tree shape; a refused or failed upload loses no entry.
   */
  lemma UploadAsWrittenEffect(fs: Entries, root: Path, form: Option<string>, file: Option<seq<byte>>, st: Stamp)
    requires Tree(fs) && Normal(root)
    ensures var r := UploadAsWritten(fs, root, form, file, st);
      && Tree(r.fs)
      && (r.reply == Abort(403) <==> form.Some? && !IsRelativeTo(Resolve(JoinPath(root, form.value)), root))
      && (r.reply != NoContent ==> Grows(fs, r.fs, st))
  {
    if form.Some? && file.Some? {
      var u := JoinPath(root, form.value);
      TreeMkdirParents(fs, Parent(u), st);
      var m := MkdirParents(fs, Parent(u), st);
      if m.Done? {
        TreeOpenForWrite(m.fs, u, file.value, st);
      }
    }
  }

  /**
   * A successful upload, as written, writes the file at the resolved
   * destination inside ROOT, keeps every other entry, and adds nothing but
   * directories besides.
   */
  lemma UploadAsWrittenWrites(fs: Entries, root: Path, form: Option<string>, file: Option<seq<byte>>, st: Stamp)
    requires Tree(fs) && Normal(root)
    requires UploadAsWritten(fs, root, form, file, st).reply == NoContent
    ensures form.Some? && file.Some?
    ensures var q := Resolve(JoinPath(root, form.value));
      var r := UploadAsWritten(fs, root, form, file, st);
      && IsRelativeTo(q, root)
      && q in r.fs && r.fs[q] == File(file.value, st.now)
      && (forall p :: p in fs && p != q ==> p in r.fs && r.fs[p] == fs[p])
      && (forall p :: p in r.fs && p !in fs && p != q ==> r.fs[p] == Dir(st.dirSize, st.now))
  {
    var u := JoinPath(root, form.value);
    var m := MkdirParents(fs, Parent(u), st);
    assert m.Done? && Grows(fs, m.fs, st);
    var w := OpenForWrite(m.fs, u, file.value, st);
    assert w.Done? && w.fs == m.fs[Resolve(u) := File(file.value, st.now)];
    assert UploadAsWritten(fs, root, form, file, st).fs == w.fs;
  }

  /**
   * The escape, on a POSIX host, where the kernel walks ".." after the
   * segment before it: with ROOT = R/n, the request path "../x/../n/f" resolves to
   * ROOT/f and passes the check, yet the directories are made along the
   * unresolved path, so the sibling R/x of ROOT is created outside ROOT.
   */
  lemma UploadEscapesRoot(fs: Entries, root: Path, rel: string, x: string, f: string, data: seq<byte>, st: Stamp)
    requires Tree(fs) && root in fs && fs[root].Dir? && root != []
    requires IsName(x) && IsName(f) && !IsAbsolute(rel)
    requires Parse(rel) == ["..", x, "..", Name(root), f]
    requires Parent(root) + [x] !in fs
    requires !(root + [f] in fs && fs[root + [f]].Dir?)
    ensures var r := UploadAsWritten(fs, root, Some(rel), Some(data), st);
      && r.reply == NoContent
      && Parent(root) + [x] in r.fs && r.fs[Parent(root) + [x]].Dir?
      && !IsRelativeTo(Parent(root) + [x], root)
  {
    var R, n := Parent(root), Name(root);
    var u := root + ["..", x, "..", n, f];
    var fs1 := fs[R + [x] := Dir(st.dirSize, st.now)];
    var fs2 := fs1[root + [f] := File(data, st.now)];
    assert JoinPath(root, rel) == u;
    assert Parent(u) == root + ["..", x, "..", n];
    EscapeResolves(root, x, f);
    EscapeMkdir(fs, root, x, st);
    EscapeWrite(fs, root, x, f, data, st);
    UploadAsWrittenDone(fs, root, rel, data, st, fs1, fs2);
    EscapeOutside(fs, root, x, f, data, st);
  }

  /**
   * On a POSIX host the escape survives a failed upload: with ROOT = R/n holding a regular
   * file ROOT/g, the request path "../x/../n/g/h" resolves to ROOT/g/h and
   * passes the check; making its parents creates R/x outside ROOT and then
   * fails on ROOT/g, which is a file. The route answers 500, and R/x stays.
   */
  lemma UploadEscapesOnFailure(fs: Entries, root: Path, rel: string, x: string, g: string, h: string, data: seq<byte>, st: Stamp)
    requires Tree(fs) && root in fs && fs[root].Dir? && root != []
    requires IsName(x) && IsName(g) && IsName(h) && !IsAbsolute(rel)
    requires Parse(rel) == ["..", x, "..", Name(root), g, h]
    requires Parent(root) + [x] !in fs
    requires root + [g] in fs && fs[root + [g]].File?
    ensures var r := UploadAsWritten(fs, root, Some(rel), Some(data), st);
      && r.reply == Abort(500)
      && Parent(root) + [x] in r.fs && r.fs[Parent(root) + [x]].Dir?
      && !IsRelativeTo(Parent(root) + [x], root)
  {
    var R, n := Parent(root), Name(root);
    var u := root + ["..", x, "..", n, g, h];
    var fs1 := fs[R + [x] := Dir(st.dirSize, st.now)];
    assert JoinPath(root, rel) == u;
    assert Parent(u) == root + ["..", x, "..", n, g];
    BlockedResolves(root, x, g, h);
    BlockedMkdir(fs, root, x, g, st);
    assert UploadAsWritten(fs, root, Some(rel), Some(data), st) == Uploaded(Abort(500), fs1);
    assert |R + [x]| == |root| && R + [x] != root;
    assert (R + [x])[..|root|] == R + [x];
  }

  /** "../x/../n/g/h" below ROOT = R/n resolves to ROOT/g/h, inside ROOT. */
  lemma BlockedResolves(root: Path, x: string, g: string, h: string)
    requires Normal(root) && root != [] && IsName(x) && IsName(g) && IsName(h)
    ensures Resolve(root + ["..", x, "..", Name(root), g, h]) == root + [g, h]
    ensures IsRelativeTo(root + [g, h], root)
  {
    var segs := ["..", x, "..", Name(root), g];
    var all := segs + [h];
    assert root + ["..", x, "..", Name(root), g, h] == root + all;
    ResolveFromAppend([], root, all);
    assert ResolveFrom([], root) == root;
    ResolveFromAppend(root, segs, [h]);
    EscapeSteps(root, x, g);
    assert ResolveFrom(root + [g], [h]) == root + [g] + [h];
    assert root + [g] + [h] == root + [g, h];
    assert (root + [g, h])[..|root|] == root;
  }

  /**
   * On a POSIX host, mkdir(parents=True) of ROOT/../x/../n/g, for ROOT = R/n without R/x and
   * with a regular file ROOT/g: R/x is made on the way, and the last retry
   * raises EEXIST with R/x left in place.
   */
  lemma BlockedMkdir(fs: Entries, root: Path, x: string, g: string, st: Stamp)
    requires Tree(fs) && root in fs && fs[root].Dir? && root != [] && IsName(x) && IsName(g)
    requires Parent(root) + [x] !in fs
    requires root + [g] in fs && fs[root + [g]].File?
    ensures MkdirParents(fs, root + ["..", x, "..", Name(root), g], st)
      == Raised(EEXIST, fs[Parent(root) + [x] := Dir(st.dirSize, st.now)])
  {
    var R, n := Parent(root), Name(root);
    var P := root + ["..", x, "..", n, g];
    var P4 := root + ["..", x, "..", n];
    var fs1 := fs[R + [x] := Dir(st.dirSize, st.now)];
    assert Parent(P) == P4;
    BlockedFirstAttempt(fs, root, x, g, st);
    EscapeMkdir(fs, root, x, st);
    MkdirRetry(fs, P, st, fs1);
    SiblingAdded(fs, root, x, st);
    BlockedRetry(fs1, root, x, g, st);
  }

  /** Adding the directory R/x beside ROOT = R/n keeps the tree and everything in it. */
  lemma SiblingAdded(fs: Entries, root: Path, x: string, st: Stamp)
    requires Tree(fs) && root in fs && root != [] && IsName(x) && Parent(root) + [x] !in fs
    ensures var fs1 := fs[Parent(root) + [x] := Dir(st.dirSize, st.now)];
      && Tree(fs1) && (forall p :: p in fs ==> p in fs1 && fs1[p] == fs[p])
  {
    var R := Parent(root);
    assert Normal(root) && R == root[..|root| - 1] && Normal(R) && Parent(R + [x]) == R;
    PrefixClosed(fs, root, |R|);
    TreeAddDir(fs, R + [x], st);
  }

  /** Without R/x, os.mkdir of ROOT/../x/../n/g finds no R/x on the way. */
  lemma BlockedFirstAttempt(fs: Entries, root: Path, x: string, g: string, st: Stamp)
    requires Tree(fs) && root in fs && fs[root].Dir? && IsName(x) && Parent(root) + [x] !in fs
    ensures OsMkdir(fs, root + ["..", x, "..", Name(root), g], st) == Raised(ENOENT, fs)
  {
    var n := Name(root);
    var P := root + ["..", x, "..", n, g];
    assert Parent(P) == root + ["..", x, "..", n];
    assert ["..", x, "..", n] == ["..", x] + ["..", n];
    WalkMissingSibling(fs, root, x, ["..", n]);
    WalkBelow(fs, root, ["..", x, "..", n]);
    MkdirWithoutSlot(fs, P, st);
  }

  /** Once R/x exists, the retry for ROOT/../x/../n/g finds the file ROOT/g and raises. */
  lemma BlockedRetry(fs1: Entries, root: Path, x: string, g: string, st: Stamp)
    requires Tree(fs1) && root in fs1 && fs1[root].Dir? && root != [] && IsName(x) && IsName(g)
    requires Parent(root) + [x] in fs1 && fs1[Parent(root) + [x]].Dir?
    requires root + [g] in fs1 && fs1[root + [g]].File?
    ensures MkdirExistOk(fs1, root + ["..", x, "..", Name(root), g], st) == Raised(EEXIST, fs1)
  {
    var n := Name(root);
    var segs := ["..", x, "..", n];
    var P := root + segs + [g];
    assert root + ["..", x, "..", n, g] == P && Parent(P) == root + segs;
    EscapeWalk(fs1, root, x);
    WalkBelow(fs1, root, segs);
    assert CreationSlot(fs1, P) == Slot(root, g);
    assert OsMkdir(fs1, P, st) == Raised(EEXIST, fs1);
    assert root + segs + [g] == root + (segs + [g]);
    WalkBelow(fs1, root, segs + [g]);
    WalkAppend(fs1, root, segs, [g], root);
    assert [g] == [g] + [];
    WalkCons(fs1, root, g, []);
    assert Stat(fs1, P) == Some(fs1[root + [g]]);
  }

  /** Without R/x, the walk from ROOT = R/n along "../x" and anything after it fails. */
  lemma WalkMissingSibling(fs: Entries, root: Path, x: string, rest: seq<string>)
    requires IsName(x) && Parent(root) + [x] !in fs
    ensures Walk(fs, root, ["..", x] + rest) == Failed(ENOENT)
  {
    assert ["..", x] + rest == [".."] + ([x] + rest);
    WalkCons(fs, root, "..", [x] + rest);
    WalkCons(fs, Parent(root), x, rest);
  }

  /** R/x is a directory after the upload, and it lies outside ROOT = R/n. */
  lemma EscapeOutside(fs: Entries, root: Path, x: string, f: string, data: seq<byte>, st: Stamp)
    requires root in fs && root != [] && Parent(root) + [x] !in fs
    ensures var fs2 := fs[Parent(root) + [x] := Dir(st.dirSize, st.now)][root + [f] := File(data, st.now)];
      && Parent(root) + [x] in fs2 && fs2[Parent(root) + [x]].Dir?
      && !IsRelativeTo(Parent(root) + [x], root)
  {
    var R := Parent(root);
    assert |R + [x]| == |root| && |R + [x]| != |root + [f]|;
    assert R + [x] != root;
    assert (R + [x])[..|root|] == R + [x];
  }

  /** The as-written upload with both filesystem calls succeeding. */
  lemma UploadAsWrittenDone(fs: Entries, root: Path, rel: string, data: seq<byte>, st: Stamp, fs1: Entries, fs2: Entries)
    requires IsRelativeTo(Resolve(JoinPath(root, rel)), root)
    requires MkdirParents(fs, Parent(JoinPath(root, rel)), st) == Done(fs1)
    requires OpenForWrite(fs1, JoinPath(root, rel), data, st) == Done(fs2)
    ensures UploadAsWritten(fs, root, Some(rel), Some(data), st) == Uploaded(NoContent, fs2)
  {
  }

  /** After R/x is made, open(ROOT/../x/../n/f, "wb") writes ROOT/f. */
  lemma EscapeWrite(fs: Entries, root: Path, x: string, f: string, data: seq<byte>, st: Stamp)
    requires Tree(fs) && root in fs && fs[root].Dir? && root != [] && IsName(x) && IsName(f)
    requires Parent(root) + [x] !in fs
    requires !(root + [f] in fs && fs[root + [f]].Dir?)
    ensures var fs1 := fs[Parent(root) + [x] := Dir(st.dirSize, st.now)];
      OpenForWrite(fs1, root + ["..", x, "..", Name(root), f], data, st)
        == Done(fs1[root + [f] := File(data, st.now)])
  {
    var R, n := Parent(root), Name(root);
    var u := root + ["..", x, "..", n, f];
    var fs1 := fs[R + [x] := Dir(st.dirSize, st.now)];
    assert Normal(root) && R == root[..|root| - 1] && Normal(R) && Parent(R + [x]) == R;
    TreeAddDir(fs, R + [x], st);
    assert Parent(u) == root + ["..", x, "..", n] && Name(u) == f;
    WalkBelow(fs1, root, ["..", x, "..", n]);
    EscapeWalk(fs1, root, x);
    assert CreationSlot(fs1, u) == Slot(root, f);
    assert |R + [x]| != |root + [f]|;
  }

  /** The walk up from ROOT = R/n into R/x and back down to ROOT. */
  lemma EscapeWalk(fs: Entries, root: Path, x: string)
    requires Tree(fs) && root in fs && root != [] && IsName(x)
    ensures Walk(fs, root, [".."]) == Found(Parent(root))
    ensures Walk(fs, root, ["..", x]) ==
      if Parent(root) + [x] in fs then Found(Parent(root) + [x]) else Failed(ENOENT)
    ensures Parent(root) + [x] in fs && fs[Parent(root) + [x]].Dir? ==>
      && Walk(fs, root, ["..", x, ".."]) == Found(Parent(root))
      && Walk(fs, root, ["..", x, "..", Name(root)]) == Found(root)
    ensures Parent(root) + [x] !in fs ==> Walk(fs, root, ["..", x, ".."]) == Failed(ENOENT)
  {
    var R, n := Parent(root), Name(root);
    var Rx := R + [x];
    assert R + [n] == root && Parent(Rx) == R;
    assert ["..", x][1..] == [x] && [x][1..] == [];
    assert Walk(fs, root, ["..", x]) == Walk(fs, R, [x]);
    if Rx in fs {
      assert Walk(fs, R, [x]) == Walk(fs, Rx, []);
    }
    assert ["..", x, ".."][1..] == [x, ".."] && [x, ".."][1..] == [".."];
    assert Walk(fs, root, ["..", x, ".."]) == Walk(fs, R, [x, ".."]);
    if Rx in fs && fs[Rx].Dir? {
      assert Walk(fs, R, [x, ".."]) == Walk(fs, Rx, [".."]) == Walk(fs, R, []);
      assert ["..", x, "..", n][1..] == [x, "..", n];
      assert [x, "..", n][1..] == ["..", n] && ["..", n][1..] == [n] && [n][1..] == [];
      assert Walk(fs, root, ["..", x, "..", n]) == Walk(fs, R, [x, "..", n]);
      assert Walk(fs, R, [x, "..", n]) == Walk(fs, Rx, ["..", n]) == Walk(fs, R, [n]);
      assert Walk(fs, R, [n]) == Walk(fs, root, []);
    }
  }

  /** Walking from "/" along ROOT and then `segs` is walking `segs` from ROOT. */
  lemma WalkBelow(fs: Entries, root: Path, segs: seq<string>)
    requires Tree(fs) && root in fs && fs[root].Dir?
    ensures Walk(fs, [], root + segs) == Walk(fs, root, segs)
  {
    WalkToEntry(fs, root);
    WalkAppend(fs, [], root, segs, root);
  }

  /**
   * On a POSIX host, mkdir(parents=True) of ROOT/../x/../n, for ROOT = R/n without a sibling
   * R/x: the first two attempts find no R/x, the third makes it, and the
   * retries accept R/x/.. and ROOT as existing directories.
   */
  lemma EscapeMkdir(fs: Entries, root: Path, x: string, st: Stamp)
    requires Tree(fs) && root in fs && fs[root].Dir? && root != [] && IsName(x)
    requires Parent(root) + [x] !in fs
    ensures MkdirParents(fs, root + ["..", x, "..", Name(root)], st)
      == Done(fs[Parent(root) + [x] := Dir(st.dirSize, st.now)])
  {
    var R, n := Parent(root), Name(root);
    var P := root + ["..", x, "..", n];
    var P1 := root + ["..", x, ".."];
    var P2 := root + ["..", x];
    assert Parent(P) == P1 && Parent(P1) == P2 && Parent(P2) == root + [".."];
    EscapeWalk(fs, root, x);
    WalkBelow(fs, root, ["..", x, ".."]);
    MkdirWithoutSlot(fs, P, st);
    WalkBelow(fs, root, ["..", x]);
    MkdirWithoutSlot(fs, P1, st);
    WalkBelow(fs, root, [".."]);
    assert R in fs && fs[R].Dir?;
    assert CreationSlot(fs, P2) == Slot(R, x);
    var fs1 := fs[R + [x] := Dir(st.dirSize, st.now)];
    assert OsMkdir(fs, P2, st) == Done(fs1);
    assert MkdirParents(fs, P2, st) == Done(fs1);
    TreeOsMkdir(fs, P2, st);
    EscapeRetry(fs1, root, x, st);
    MkdirRetry(fs, P1, st, fs1);
    MkdirRetry(fs, P, st, fs1);
  }

  /** Once R/x exists, the retries for ROOT/../x/.. and ROOT/../x/../n change nothing. */
  lemma EscapeRetry(fs1: Entries, root: Path, x: string, st: Stamp)
    requires Tree(fs1) && root in fs1 && fs1[root].Dir? && root != [] && IsName(x)
    requires Parent(root) + [x] in fs1 && fs1[Parent(root) + [x]].Dir?
    ensures MkdirExistOk(fs1, root + ["..", x, ".."], st) == Done(fs1)
    ensures MkdirExistOk(fs1, root + ["..", x, "..", Name(root)], st) == Done(fs1)
  {
    EscapeRetryUp(fs1, root, x, st);
    EscapeRetryBack(fs1, root, x, st);
  }

  /** The retry for ROOT/../x/.. finds R, a directory. */
  lemma EscapeRetryUp(fs1: Entries, root: Path, x: string, st: Stamp)
    requires Tree(fs1) && root in fs1 && fs1[root].Dir? && root != [] && IsName(x)
    requires Parent(root) + [x] in fs1 && fs1[Parent(root) + [x]].Dir?
    ensures MkdirExistOk(fs1, root + ["..", x, ".."], st) == Done(fs1)
  {
    var R := Parent(root);
    var P1 := root + ["..", x, ".."];
    assert Parent(P1) == root + ["..", x];
    EscapeWalk(fs1, root, x);
    WalkBelow(fs1, root, ["..", x]);
    WalkBelow(fs1, root, ["..", x, ".."]);
    assert CreationSlot(fs1, P1) == Slot(R + [x], "..");
    assert OsMkdir(fs1, P1, st) == Raised(EEXIST, fs1);
    assert IsDir(fs1, P1);
  }

  /** The retry for ROOT/../x/../n finds ROOT, a directory. */
  lemma EscapeRetryBack(fs1: Entries, root: Path, x: string, st: Stamp)
    requires Tree(fs1) && root in fs1 && fs1[root].Dir? && root != [] && IsName(x)
    requires Parent(root) + [x] in fs1 && fs1[Parent(root) + [x]].Dir?
    ensures MkdirExistOk(fs1, root + ["..", x, "..", Name(root)], st) == Done(fs1)
  {
    var R, n := Parent(root), Name(root);
    var P := root + ["..", x, "..", n];
    assert Parent(P) == root + ["..", x, ".."];
    EscapeWalk(fs1, root, x);
    WalkBelow(fs1, root, ["..", x, ".."]);
    WalkBelow(fs1, root, ["..", x, "..", n]);
    assert R in fs1 && fs1[R].Dir? && R + [n] == root;
    assert CreationSlot(fs1, P) == Slot(R, n);
    assert OsMkdir(fs1, P, st) == Raised(EEXIST, fs1);
    assert IsDir(fs1, P);
  }

  /** "../x/../n/f" below ROOT = R/n resolves to ROOT/f. */
  lemma EscapeResolves(root: Path, x: string, f: string)
    requires Normal(root) && root != [] && IsName(x) && IsName(f)
    ensures Resolve(root + ["..", x, "..", Name(root), f]) == root + [f]
  {
    var segs := ["..", x, "..", Name(root), f];
    ResolveFromAppend([], root, segs);
    assert ResolveFrom([], root) == root;
    EscapeSteps(root, x, f);
  }

  /** The five steps of "../x/../n/f" from ROOT = R/n. */
  lemma EscapeSteps(root: Path, x: string, f: string)
    requires Normal(root) && root != [] && IsName(x) && IsName(f)
    ensures ResolveFrom(root, ["..", x, "..", Name(root), f]) == root + [f]
  {
    var R, n := Parent(root), Name(root);
    assert R + [n] == root;
    assert IsName(n);
    var s1 := [x, "..", n, f];
    var s2 := ["..", n, f];
    var s3 := [n, f];
    assert ["..", x, "..", n, f][1..] == s1;
    assert s1[1..] == s2 && s2[1..] == s3 && s3[1..] == [f];
    assert ResolveFrom(root, ["..", x, "..", n, f]) == ResolveFrom(R, s1);
    assert ResolveFrom(R, s1) == ResolveFrom(R + [x], s2);
    assert Parent(R + [x]) == R;
    assert ResolveFrom(R + [x], s2) == ResolveFrom(R, s3);
    assert ResolveFrom(R, s3) == ResolveFrom(root, [f]);
  }

  // ----------------------------------------------------------------------
  // Lemmas: upload as intended

  /** Without ".." segments the two versions coincide: the escape needs "..". */
  lemma UploadAgreesWhenNormal(fs: Entries, root: Path, s: string, file: Option<seq<byte>>, st: Stamp)
    requires Normal(JoinPath(root, s))
    ensures UploadAsWritten(fs, root, Some(s), file, st) == UploadConfined(fs, root, Some(s), file, st)
  {
  }

  /**
   * The corrected upload keeps the tree shape, removes nothing, and
   * changes or adds entries only at ROOT or below it.
   */
  lemma UploadConfinedInside(fs: Entries, root: Path, form: Option<string>, file: Option<seq<byte>>, st: Stamp)
    requires Tree(fs) && Normal(root) && root in fs
    ensures var r := UploadConfined(fs, root, form, file, st);
      && Tree(r.fs)
      && (forall p :: p in fs ==> p in r.fs)
      && (forall p :: p in r.fs && (p !in fs || r.fs[p] != fs[p]) ==> IsRelativeTo(p, root))
  {
    var r := UploadConfined(fs, root, form, file, st);
    if form.Some? && file.Some? {
      var q := Resolve(JoinPath(root, form.value));
      if IsRelativeTo(q, root) {
        var P := Parent(q);
        assert Normal(q) && Normal(P);
        TreeMkdirParents(fs, P, st);
        var m := MkdirParents(fs, P, st);
        forall p | p in m.fs && p !in fs
          ensures IsRelativeTo(p, root)
        {
          var k :| 0 <= k <= |P| && p == Resolve(P[..k]);
          NewPrefixBelowRoot(fs, root, q, k);
        }
        if m.Done? {
          TreeOpenForWrite(m.fs, q, file.value, st);
        }
      }
    }
  }

  /** A prefix of a destination's parent that is missing from the tree lies below ROOT. */
  lemma NewPrefixBelowRoot(fs: Entries, root: Path, q: Path, k: nat)
    requires Tree(fs) && root in fs && Normal(q) && IsRelativeTo(q, root) && k <= |Parent(q)|
    requires Parent(q)[..k] !in fs
    ensures Resolve(Parent(q)[..k]) == Parent(q)[..k] && IsRelativeTo(Parent(q)[..k], root)
  {
    var P := Parent(q);
    assert Normal(P[..k]);
    PrefixOfParent(q);
    assert P[..k] == q[..k];
    if k <= |root| {
      assert q[..k] == root[..k];
      PrefixClosed(fs, root, k);
      assert false;
    }
    assert P[..k][..|root|] == q[..|root|];
  }

  /**
   * The corrected upload succeeds whenever no file stands in the way: no
   * prefix of the destination's parent is a file, and the destination is
   * not a directory. It then writes exactly the file, after the directories.
   */
  lemma UploadConfinedSucceeds(fs: Entries, root: Path, s: string, data: seq<byte>, st: Stamp)
    requires Tree(fs) && Normal(root)
    requires var q := Resolve(JoinPath(root, s));
      && IsRelativeTo(q, root)
      && !(q in fs && fs[q].Dir?)
      && NoFileAlong(fs, Parent(q))
    ensures var q := Resolve(JoinPath(root, s));
      var r := UploadConfined(fs, root, Some(s), Some(data), st);
      && MkdirParents(fs, Parent(q), st).Done?
      && r.reply == NoContent
      && r.fs == MkdirParents(fs, Parent(q), st).fs[q := File(data, st.now)]
  {
    var q := Resolve(JoinPath(root, s));
    assert Normal(q);
    assert q != [] by { assert [] in fs && fs[[]].Dir?; }
    WriteAfterMkdir(fs, q, data, st);
  }

  /** What the corrected upload wrote, the corrected download returns, by its resolved path. */
  lemma UploadThenDownload(fs: Entries, root: Path, s: string, data: seq<byte>, st: Stamp)
    requires Tree(fs) && Normal(root)
    requires UploadConfined(fs, root, Some(s), Some(data), st).reply == NoContent
    ensures var q := Resolve(JoinPath(root, s));
      DownloadConfined(UploadConfined(fs, root, Some(s), Some(data), st).fs, root, Render(q))
        == SendFile(Name(q), data, true)
  {
    var q := Resolve(JoinPath(root, s));
    var fs' := UploadConfined(fs, root, Some(s), Some(data), st).fs;
    UploadConfinedWrote(fs, root, s, data, st);
    DownloadConfinedServes(fs', root, q);
  }

  /** The corrected download serves every file inside ROOT by its own path. */
  lemma DownloadConfinedServes(fs: Entries, root: Path, q: Path)
    requires Tree(fs) && q in fs && fs[q].File? && IsRelativeTo(q, root)
    ensures DownloadConfined(fs, root, Render(q)) == SendFile(Name(q), fs[q].data, true)
  {
    ParseRender(q);
    assert JoinPath(root, Render(q)) == q;
    StatNormal(fs, q);
  }

  /** A successful corrected upload leaves a tree holding the file at the resolved path inside ROOT. */
  lemma UploadConfinedWrote(fs: Entries, root: Path, s: string, data: seq<byte>, st: Stamp)
    requires Tree(fs) && Normal(root)
    requires UploadConfined(fs, root, Some(s), Some(data), st).reply == NoContent
    ensures var q := Resolve(JoinPath(root, s));
      var fs' := UploadConfined(fs, root, Some(s), Some(data), st).fs;
      && Tree(fs') && Normal(q) && IsRelativeTo(q, root)
      && q in fs' && fs'[q] == File(data, st.now)
  {
    var q := Resolve(JoinPath(root, s));
    TreeMkdirParents(fs, Parent(q), st);
    var m := MkdirParents(fs, Parent(q), st);
    TreeOpenForWrite(m.fs, q, data, st);
  }
}
