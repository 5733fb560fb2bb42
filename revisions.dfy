/**
 * How the two revisions of the agent differ where they implement the same
 * routes: the power commands, the ping parse and the recorded line format.
 */
module Revisions {
  import opened Wrappers
  import opened Web
  import PingOutput
  import KeyRecorder
  import MainRevision
  import AppRevision

  /**
   * Both revisions accept the same power commands except "reboot", which
   * only the older one, app.py, knows (as another name for "restart"); restart,
   * shutdown, sleep and hibernate launch the same programs in both, and
   * only the lock is done differently.
   */
  lemma PowerCommandsAgree(cmd: string)
    ensures cmd != "reboot" ==> (MainRevision.Power(cmd).reply == AppRevision.Action(cmd).reply)
    ensures cmd != "lock" && cmd != "reboot" ==> MainRevision.Power(cmd) == AppRevision.Action(cmd)
    ensures MainRevision.Power("lock").effect == Some(Spawn(["rundll32.exe", "user32.dll,LockWorkStation"]))
    ensures AppRevision.Action("lock").effect == Some(LockWorkStation)
    ensures MainRevision.Power("reboot") == Handled(Abort(400), None)
    ensures AppRevision.Action("reboot") == AppRevision.Action("restart")
  {
  }

  /**
   * Where the current revision, main/main.py, reads an average, the older
   * app.py reads the same; on a zero exit code they always agree.
   */
  lemma PingRevisionsAgree(run: PingOutput.PingRun)
    ensures MainRevision.PingTime(run).Some? ==> AppRevision.PingTime(run) == MainRevision.PingTime(run)
    ensures run.Exited? && run.code == 0 ==> AppRevision.PingTime(run) == MainRevision.PingTime(run)
    ensures run.NotRun? ==> AppRevision.PingTime(run) == None && MainRevision.PingTime(run) == None
  {
  }

  /**
   * They part on a failed ping that still printed a summary: the current
   * revision's `check_output` raises, the older one parses the output.
   */
  lemma PingRevisionsDiffer(pre: string, n: nat, rest: string, code: int)
    requires code != 0
    requires forall j :: 0 <= j < |pre| ==>
      !PingOutput.AnchorAt(pre + PingOutput.Anchor + PingOutput.DecimalString(n) + "ms" + rest, j)
    ensures var run := PingOutput.Exited(code, pre + PingOutput.Anchor + PingOutput.DecimalString(n) + "ms" + rest);
      && MainRevision.PingTime(run) == None
      && AppRevision.PingTime(run) == Some(n)
  {
    PingOutput.AverageWritten(pre, n, rest);
  }

  /**
   * The same key press at the same time is recorded as different lines:
   * a tab in the current revision, a colon and a space in the older one.
   * Both begin with the timestamp and end with the key's text.
   */
  lemma LineFormatsDiffer(ts: string, key: string)
    ensures var a := KeyRecorder.Line(ts, MainRevision.Sep, key);
      var b := KeyRecorder.Line(ts, AppRevision.Sep, key);
      && a != b
      && |b| == |a| + 1
      && a[..|ts|] == ts == b[..|ts|]
      && a[|a| - |key|..] == key == b[|b| - |key|..]
  {
    var a := KeyRecorder.Line(ts, MainRevision.Sep, key);
    var b := KeyRecorder.Line(ts, AppRevision.Sep, key);
    assert a[..|ts|] == ts && b[..|ts|] == ts;
    assert a[|a| - |key|..] == key && b[|b| - |key|..] == key;
  }
}
