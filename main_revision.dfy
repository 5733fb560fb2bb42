/**
 * The current revision, main/main.py: the recorder with its "\t" lines and
 * its guard for a missing keyboard library, `safe_path` and the file
 * browser built on it, the power table, the ping parse, and `local_ips`.
 */
module MainRevision {
  import opened Wrappers
  import opened Paths
  import opened Posix
  import opened Web
  import KeyRecorder
  import PingOutput

  // ----------------------------------------------------------------------
  // Key-capture recorder

  /** The separator between timestamp and key text in this revision. */
  const Sep := "\t"

  class KeyLogger {
    /** Whether `from pynput import keyboard` succeeded at import time. */
    const keyboardLoaded: bool
    var buffer: seq<string>
    var running: bool
    var listener: Option<KeyRecorder.Handle>

    function State(): KeyRecorder.State
      reads this
    {
      KeyRecorder.State(buffer, running, listener)
    }

    constructor (loaded: bool)
      ensures keyboardLoaded == loaded && State() == KeyRecorder.Idle
    {
      keyboardLoaded := loaded;
      buffer := [];
      running := false;
      listener := None;
    }

    /** `_on_press(k)`, with the formatted clock `ts` and `str(k)` as `key`. */
    method OnPress(ts: string, key: string)
      modifies this
      ensures buffer == old(buffer) + [KeyRecorder.Line(ts, Sep, key)]
      ensures running == old(running) && listener == old(listener)
      ensures State() == KeyRecorder.PressStep(old(State()), KeyRecorder.Line(ts, Sep, key))
    {
      buffer := buffer + [KeyRecorder.Line(ts, Sep, key)];
    }

    /** `keylog_start()`; `h` is the listener it would construct. */
    method Start(h: KeyRecorder.Handle)
      modifies this
      ensures State() == KeyRecorder.StartStep(old(State()), keyboardLoaded, h)
      ensures !keyboardLoaded || old(running) ==> State() == old(State())
      ensures keyboardLoaded && !old(running) ==> running && listener == Some(h) && buffer == old(buffer)
    {
      if !keyboardLoaded || running {
        return;
      }
      listener := Some(h);
      running := true;
    }

    /** `keylog_stop()`: stops the stored listener, if any, and clears the flag. */
    method Stop()
      modifies this
      ensures State() == KeyRecorder.StopStep(old(State()))
      ensures !running && buffer == old(buffer) && listener == old(listener)
    {
      running := false;
    }

    /** `keylogs()`: the newest lines, as a bare JSON array; the buffer stays as it is. */
    function Keylogs(): (r: Reply)
      reads this
      ensures r.Lines? && |r.lines| <= KeyRecorder.Limit
      ensures |r.lines| <= |buffer| && r.lines == buffer[|buffer| - |r.lines|..]
      ensures |buffer| <= KeyRecorder.Limit ==> r.lines == buffer
      ensures |buffer| > KeyRecorder.Limit ==> |r.lines| == KeyRecorder.Limit
    {
      Lines(KeyRecorder.Tail(buffer))
    }

    /** The `/keylogger/<cmd>` route. */
    method Keylog(cmd: string, h: KeyRecorder.Handle) returns (reply: Reply)
      modifies this
      ensures cmd == "start" ==> reply == NoContent && State() == KeyRecorder.StartStep(old(State()), keyboardLoaded, h)
      ensures cmd == "stop" ==> reply == NoContent && State() == KeyRecorder.StopStep(old(State()))
      ensures cmd != "start" && cmd != "stop" ==> reply == Abort(400) && State() == old(State())
    {
      var c := KeyRecorder.KeylogCommand(cmd);
      if c == Some(KeyRecorder.Start) {
        Start(h);
        reply := NoContent;
      } else if c == Some(KeyRecorder.Stop) {
        Stop();
        reply := NoContent;
      } else {
        reply := Abort(400);
      }
    }
  }

  // ----------------------------------------------------------------------
  // File browser

  const Separators: set<char> := {'/', '\\'}

  /**
   * `safe_path(rel)`: strip every leading '/' and '\', anchor the rest at
   * "/" and resolve it. The result is always a normalised absolute path.
   */
  function SafePath(rel: string): (p: Path)
    ensures Normal(p)
  {
    Resolve(JoinPath([], LStrip(rel, Separators)))
  }

  /** The `/files` route. */
  method Listing(fsys: FileSystem, rel: string) returns (reply: Reply)
    requires fsys.Valid()
    ensures var p := SafePath(rel);
      && (p !in fsys.entries ==> reply == Abort(404))
      && (p in fsys.entries && fsys.entries[p].File? ==>
            reply == SendFile(Name(p), fsys.entries[p].data, false))
      && (p in fsys.entries && fsys.entries[p].Dir? ==>
            && reply.DirListing?
            && reply.path == Render(p)
            && (set e | e in reply.items) == Listed(fsys.entries, p)
            && forall i, j :: 0 <= i < j < |reply.items| ==> reply.items[i].name != reply.items[j].name)
  {
    var p := SafePath(rel);
    StatNormal(fsys.entries, p);
    var node := Stat(fsys.entries, p);
    if node.None? {
      return Abort(404);
    }
    if node.value.File? {
      return SendFile(Name(p), node.value.data, false);
    }
    var items := fsys.DirItems(p);
    reply := DirListing(Render(p), items);
  }

  /** The `/download` route: any regular file, sent as an attachment. */
  function Download(fs: Entries, rel: string): (r: Reply)
    requires Tree(fs)
    ensures var p := SafePath(rel);
      && (r.SendFile? <==> p in fs && fs[p].File?)
      && (r.SendFile? ==> r == SendFile(Name(p), fs[p].data, true))
      && (!r.SendFile? ==> r == Abort(404))
  {
    var p := SafePath(rel);
    StatNormal(fs, p);
    if IsFile(fs, p) then SendFile(Name(p), Stat(fs, p).value.data, true) else Abort(404)
  }

  // ----------------------------------------------------------------------
  // Commands and helpers

  const PowerTable: map<string, seq<string>> := map[
    "lock" := ["rundll32.exe", "user32.dll,LockWorkStation"],
    "restart" := ["shutdown", "/r", "/t", "0"],
    "shutdown" := ["shutdown", "/s", "/t", "0"],
    "sleep" := ["rundll32.exe", "powrprof.dll,SetSuspendState", "0,1,0"],
    "hibernate" := ["shutdown", "/h"]
  ]

  /** The `/action/<cmd>` route: a known command launches its program, anything else is a 400. */
  function Power(cmd: string): (r: Handled)
    ensures cmd in {"lock", "restart", "shutdown", "sleep", "hibernate"} ==>
      r == Handled(NoContent, Some(Spawn(PowerTable[cmd])))
    ensures cmd !in {"lock", "restart", "shutdown", "sleep", "hibernate"} ==>
      r == Handled(Abort(400), None)
  {
    if cmd !in PowerTable then Handled(Abort(400), None)
    else Handled(NoContent, Some(Spawn(PowerTable[cmd])))
  }

  /**
   * `ping_time()`: `check_output` raises on a nonzero exit, and every
   * exception reads as no answer.
   */
  function PingTime(run: PingOutput.PingRun): (r: Option<nat>)
    ensures run.NotRun? ==> r == None
    ensures run.Exited? && run.code != 0 ==> r == None
    ensures run.Exited? && run.code == 0 ==> r == PingOutput.AverageMs(run.stdout)
  {
    match run
    case NotRun => None
    case Exited(code, out) => if code != 0 then None else PingOutput.AverageMs(out)
  }

  datatype Family = AfInet | AfInet6 | AfPacket

  /** One address of an interface, as `psutil.net_if_addrs()` lists it. */
  datatype Addr = Addr(family: Family, address: string)

  /** An IPv4 address outside the loopback block "127.". */
  predicate Qualifies(a: Addr)
  {
    a.family == AfInet && !("127." <= a.address)
  }

  /** The last qualifying address in `addrs`, if any. */
  function LastLocal(addrs: seq<Addr>): Option<string>
    decreases |addrs|
  {
    if addrs == [] then None
    else if Qualifies(addrs[|addrs| - 1]) then Some(addrs[|addrs| - 1].address)
    else LastLocal(addrs[..|addrs| - 1])
  }

  /**
   * `local_ips()`: for each interface with a qualifying address, the last
   * one; interfaces are the keys of a dictionary, so their order does not
   * matter.
   */
  method LocalIps(ifaces: map<string, seq<Addr>>) returns (ips: map<string, string>)
    ensures forall n :: n in ips <==> n in ifaces && LastLocal(ifaces[n]).Some?
    ensures forall n :: n in ips ==> ips[n] == LastLocal(ifaces[n]).value
  {
    ips := map[];
    var todo := ifaces.Keys;
    while todo != {}
      invariant todo <= ifaces.Keys
      invariant forall n :: n in ips <==> n in ifaces && n !in todo && LastLocal(ifaces[n]).Some?
      invariant forall n :: n in ips ==> ips[n] == LastLocal(ifaces[n]).value
      decreases |todo|
    {
      var iface :| iface in todo;
      var addrs := ifaces[iface];
      ghost var before := ips;
      var k := 0;
      while k < |addrs|
        invariant 0 <= k <= |addrs|
        invariant ips == Record(before, iface, LastLocal(addrs[..k]))
      {
        var a := addrs[k];
        LastLocalSnoc(addrs, k);
        if a.family == AfInet && !("127." <= a.address) {
          ips := ips[iface := a.address];
        }
        k := k + 1;
      }
      assert addrs[..k] == addrs;
      todo := todo - {iface};
    }
  }

  /** `ips` after the addresses of `iface` seen so far: its last qualifying one, if any. */
  function Record(ips: map<string, string>, iface: string, last: Option<string>): map<string, string>
  {
    if last.Some? then ips[iface := last.value] else ips
  }

  // ----------------------------------------------------------------------
  // Lemmas

  /** One more address: it is the last qualifying one if it qualifies. */
  lemma LastLocalSnoc(addrs: seq<Addr>, k: nat)
    requires k < |addrs|
    ensures LastLocal(addrs[..k + 1]) ==
      if Qualifies(addrs[k]) then Some(addrs[k].address) else LastLocal(addrs[..k])
  {
    assert addrs[..k + 1][..k] == addrs[..k];
  }

  /**
   * The address kept for an interface is the last qualifying one: none when
   * no address qualifies, and otherwise one that qualifies with no
   * qualifying address after it.
   */
  lemma {:induction false} LastLocalIsLast(addrs: seq<Addr>)
    ensures LastLocal(addrs).None? <==> forall i :: 0 <= i < |addrs| ==> !Qualifies(addrs[i])
    ensures LastLocal(addrs).Some? ==> exists i :: (0 <= i < |addrs| && Qualifies(addrs[i])
      && LastLocal(addrs).value == addrs[i].address
      && forall j :: i < j < |addrs| ==> !Qualifies(addrs[j]))
    decreases |addrs|
  {
    if addrs != [] {
      var front := addrs[..|addrs| - 1];
      LastLocalIsLast(front);
      if !Qualifies(addrs[|addrs| - 1]) {
        assert forall i :: 0 <= i < |front| ==> front[i] == addrs[i];
        if LastLocal(addrs).Some? {
          var i :| 0 <= i < |front| && Qualifies(front[i]) && LastLocal(front).value == front[i].address
            && forall j :: i < j < |front| ==> !Qualifies(front[j]);
          assert forall j :: i < j < |addrs| ==> !Qualifies(addrs[j]);
        }
      }
    }
  }

  /** Leading separators do not matter. */
  lemma SafePathSkipsSeparator(c: char, s: string)
    requires c in Separators
    ensures SafePath([c] + s) == SafePath(s)
  {
    assert ([c] + s)[1..] == s;
    assert LStrip([c] + s, Separators) == LStrip(s, Separators);
  }

  /** The empty path, "/" and ".." all name "/". */
  lemma SafePathRoot()
    ensures SafePath("") == [] && SafePath("/") == [] && SafePath("..") == []
  {
    SafePathEmpty();
    SafePathSkipsSeparator('/', "");
    assert "/" == ['/'] + "";
    SafePathUp();
  }

  lemma SafePathEmpty()
    ensures SafePath("") == []
  {
    assert LStrip("", Separators) == "";
    assert Split("") == [""] && Parts([""]) == [];
    assert JoinPath([], "") == [];
  }

  lemma SafePathUp()
    ensures SafePath("..") == []
  {
    assert ".."[0] !in Separators;
    assert LStrip("..", Separators) == "..";
    SplitNoSlash("..");
    assert [".."][1..] == [] && Parts([".."]) == [".."];
    assert JoinPath([], "..") == [".."];
    assert ResolveFrom([], [".."]) == ResolveFrom([], []) == [];
  }

  /**
   * ".." at "/" stays at "/": any number of leading ".." segments in front
   * of a normalised path resolve to that path.
   */
  lemma {:induction false} ClimbAtRoot(n: nat, q: Path)
    requires Normal(q)
    ensures Resolve(seq(n, _ => "..") + q) == q
    decreases n
  {
    var ups := seq(n, _ => "..");
    if n == 0 {
      assert ups + q == q;
    } else {
      var rest := seq(n - 1, _ => "..");
      assert (ups + q)[0] == ".." && (ups + q)[1..] == rest + q;
      ClimbAtRoot(n - 1, q);
    }
  }

  /**
   * `safe_path(str(p)) == p` for every normalised path whose first segment
   * does not begin with a backslash: the path confines nothing below "/".
   */
  lemma SafePathRender(p: Path)
    requires Normal(p) && (p != [] ==> p[0][0] != '\\')
    ensures SafePath(Render(p)) == p
  {
    var j := JoinSlash(p);
    assert Render(p) == "/" + j;
    assert ("/" + j)[1..] == j;
    assert LStrip("/" + j, Separators) == LStrip(j, Separators);
    if p == [] {
      assert j == "";
      assert Parse("") == [];
    } else {
      assert IsName(p[0]);
      JoinSlashHead(p);
      assert LStrip(j, Separators) == j;
      assert !IsAbsolute(j);
      SplitJoin(p);
      PartsOfNames(p);
      assert Parse(j) == p;
      assert JoinPath([], j) == p;
    }
  }

  /** A joined path starts with the first character of its first segment. */
  lemma JoinSlashHead(p: seq<string>)
    requires p != [] && p[0] != ""
    ensures JoinSlash(p) != "" && JoinSlash(p)[0] == p[0][0]
  {
  }

  /**
   * `safe_path("." + str(p)) == p` for every normalised path: the leading
   * "." keeps lstrip off a first segment that begins with a backslash, and
   * is then dropped as a segment of its own.
   */
  lemma SafePathDotRender(p: Path)
    requires Normal(p)
    ensures SafePath("." + Render(p)) == p
  {
    var s := "." + Render(p);
    assert s[0] == '.';
    assert LStrip(s, Separators) == s && !IsAbsolute(s);
    ParseDotRender(p);
    assert JoinPath([], s) == p;
  }

  /** "." followed by `str(p)` parses to `p`: the "." segment is dropped. */
  lemma ParseDotRender(p: Path)
    requires Normal(p)
    ensures Parse("." + Render(p)) == p
  {
    var j := JoinSlash(p);
    assert "." + Render(p) == "." + "/" + j;
    SplitDot(j);
    if p == [] {
      assert Parts([".", ""]) == Parts([""]) == [];
    } else {
      SplitJoin(p);
      PartsOfNames(p);
      assert (["."] + p)[1..] == p;
    }
  }

  lemma SplitDot(j: string)
    ensures Split("." + "/" + j) == ["."] + Split(j)
  {
    SplitConcat(".", j);
    SplitNoSlash(".");
  }

  /**
   * Every regular file of the machine can be downloaded: by its own path
   * when its first name does not begin with a backslash, and by its path
   * behind a leading "." in any case.
   */
  lemma DownloadReachesEverything(fs: Entries, p: Path)
    requires Tree(fs) && p in fs && fs[p].File?
    ensures Download(fs, "." + Render(p)) == SendFile(Name(p), fs[p].data, true)
    ensures p[0][0] != '\\' ==> Download(fs, Render(p)) == SendFile(Name(p), fs[p].data, true)
  {
    assert p != [] && Normal(p);
    SafePathDotRender(p);
    if p[0][0] != '\\' {
      SafePathRender(p);
    }
  }
}
