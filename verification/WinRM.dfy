/**
 stembuild/remotemanager and stembuild/construct/script_executor.go: what becomes of a
 remote command's outcome, from the WinRM client up to PrepareVM.
 */
module WinRM {
  import opened Basics

  /** What a collaborator answers: an exit code, an error, and text output (stderr for WinRM commands). */
  datatype Reply = Reply(exit: int, err: Option<string>, out: string)

  const MARKER := "powershell encountered an issue"
  const EVENT := "winrm connection event"
  const SEPARATOR := ": "

  /** ExecuteCommandWithTimeout: a non-zero exit becomes an error that carries stderr. */
  method ExecuteCommandWithTimeout(reply: Reply) returns (exitCode: int, err: Option<string>)
    ensures exitCode == reply.exit && err == CommandError(reply)
    ensures err.None? <==> reply.err.None? && exitCode == 0
    ensures reply.err.Some? ==> err == reply.err
    ensures reply.err.None? && err.Some? ==> err.value == "powershell encountered an issue: " + reply.out
  {
    exitCode, err := reply.exit, reply.err;
    if err.None? && exitCode != 0 {
      err := Some(MARKER + SEPARATOR + reply.out);
    }
  }

  function CommandError(reply: Reply): Option<string> {
    if reply.err.None? && reply.exit != 0 then Some(MARKER + SEPARATOR + reply.out) else reply.err
  }

  /** ExecutePostRebootScript: errors without the marker are taken for a lost connection. */
  method ExecutePostRebootScript(reply: Reply) returns (err: Option<string>)
    ensures err == PostRebootError(reply)
  {
    var _, commandErr := ExecuteCommandWithTimeout(reply);
    if commandErr.Some? && Contains(commandErr.value, MARKER) {
      return commandErr;
    }
    if commandErr.Some? {
      return Some(EVENT + SEPARATOR + commandErr.value);
    }
    return None;
  }

  function PostRebootError(reply: Reply): Option<string> {
    match CommandError(reply)
    case None => None
    case Some(e) => if Contains(e, MARKER) then Some(e) else Some(EVENT + SEPARATOR + e)
  }

  /** PrepareVM stops on this reply to the post-reboot script. */
  predicate FatalPostReboot(reply: Reply) {
    PostRebootError(reply).Some? && !Contains(PostRebootError(reply).value, EVENT)
  }

  lemma {:induction false} MarkerHidesNoEvent(i: nat)
    requires i < |MARKER + SEPARATOR| && (MARKER + SEPARATOR)[i] == 'w'
    ensures i + 1 < |MARKER + SEPARATOR| && (MARKER + SEPARATOR)[i + 1] != 'i'
  {
    var p := MARKER + SEPARATOR;
    assert p[..16] == "powershell encou" && p[16..] == "ntered an issue: ";
    assert i == 2;
  }

  /** No occurrence of the event text straddles the fixed prefix. */
  lemma {:induction false} NoStraddle(stderr: string)
    ensures Contains("powershell encountered an issue: " + stderr, "winrm connection event")
       <==> Contains(stderr, "winrm connection event")
  {
    var p := MARKER + SEPARATOR;
    var text := p + stderr;
    assert p == "powershell encountered an issue: ";
    forall i | 0 <= i <= |text| && OccursAt(text, EVENT, i)
      ensures Contains(stderr, EVENT)
    {
      assert text[i..i + |EVENT|][0] == text[i] == 'w' && text[i..i + |EVENT|][1] == text[i + 1] == 'i';
      if i < |p| {
        MarkerHidesNoEvent(i);
      }
      assert stderr[i - |p|..i - |p| + |EVENT|] == text[i..i + |EVENT|];
      assert OccursAt(stderr, EVENT, i - |p|);
    }
    forall i | 0 <= i <= |stderr| && OccursAt(stderr, EVENT, i)
      ensures Contains(text, EVENT)
    {
      assert text[i + |p|..i + |p| + |EVENT|] == stderr[i..i + |EVENT|];
      assert OccursAt(text, EVENT, i + |p|);
    }
  }

  /**
   Exactly which outcomes of the post-reboot script are fatal: a script that ran and failed
   unless its stderr mentions the event text, and a transport error that carries the marker
   but not the event text.
   */
  lemma {:induction false} PostRebootClassification(reply: Reply)
    ensures FatalPostReboot(reply) <==>
              if reply.err.None? then reply.exit != 0 && !Contains(reply.out, "winrm connection event")
              else Contains(reply.err.value, "powershell encountered an issue")
                   && !Contains(reply.err.value, "winrm connection event")
  {
    if reply.err.None? && reply.exit != 0 {
      assert MARKER + SEPARATOR == "powershell encountered an issue: ";
      assert MARKER + SEPARATOR + reply.out == MARKER + (SEPARATOR + reply.out);
      ContainsPrefix(MARKER, SEPARATOR + reply.out);
      NoStraddle(reply.out);
    } else if reply.err.Some? && !Contains(reply.err.value, MARKER) {
      assert EVENT + SEPARATOR + reply.err.value == EVENT + (SEPARATOR + reply.err.value);
      ContainsPrefix(EVENT, SEPARATOR + reply.err.value);
    }
  }
}
