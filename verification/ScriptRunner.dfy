/**
 Running a task's scripts: the before and main scripts stop at their first failure, the
 after script runs in full, and the response collects exit code, failed command and status.
 */
module ScriptRunner {
  import opened Options
  import opened Decimals
  import opened Strings

  /**
   A command with what executing it yields: its exit code, an error if it failed,
   and an error if its output could not be saved. `masked` is its text with secrets blanked.
   */
  datatype Command = Command(
    masked: string, exitCode: int, err: Option<string>, saveErr: Option<string>)
  {
    /** What makes a script that stops on errors stop. */
    function Failure(): Option<string> { if err.Some? then err else saveErr }
  }

  datatype Status = Undecided | Completed | Failed

  /******* What the commands that ran amount to *******/

  /** The last positive exit code, or else that of the first command. */
  function ExitCode(ran: seq<Command>): string {
    if ran == [] then ""
    else
      var last := ran[|ran| - 1];
      if last.exitCode > 0 || |ran| == 1 then Itoa(last.exitCode) else ExitCode(ran[..|ran| - 1])
  }

  lemma ItoaNonEmpty(n: int)
    ensures Itoa(n) != ""
  {
  }

  lemma {:induction false} ExitCodeSet(ran: seq<Command>)
    ensures ExitCode(ran) == "" <==> ran == []
  {
    if ran != [] {
      ItoaNonEmpty(ran[|ran| - 1].exitCode);
      ExitCodeSet(ran[..|ran| - 1]);
    }
  }

  lemma {:induction false} ExitCodeLastPositive(ran: seq<Command>, k: nat)
    requires k < |ran| && ran[k].exitCode > 0 && forall i :: k < i < |ran| ==> ran[i].exitCode <= 0
    ensures ExitCode(ran) == Itoa(ran[k].exitCode)
  {
    if k < |ran| - 1 {
      ExitCodeLastPositive(ran[..|ran| - 1], k);
    }
  }

  lemma {:induction false} ExitCodeFirst(ran: seq<Command>)
    requires ran != [] && forall i :: 0 <= i < |ran| ==> ran[i].exitCode <= 0
    ensures ExitCode(ran) == Itoa(ran[0].exitCode)
  {
    if |ran| > 1 {
      ExitCodeFirst(ran[..|ran| - 1]);
    }
  }

  /** The first failing command whose masked text is not empty. */
  function FailedCommand(ran: seq<Command>): string {
    if ran == [] then ""
    else
      var earlier := FailedCommand(ran[..|ran| - 1]);
      if earlier == "" && ran[|ran| - 1].err.Some? then ran[|ran| - 1].masked else earlier
  }

  lemma {:induction false} FailedCommandMeaning(ran: seq<Command>, k: nat)
    requires k < |ran| && ran[k].err.Some? && ran[k].masked != ""
    requires forall i :: 0 <= i < k ==> ran[i].err.None? || ran[i].masked == ""
    ensures FailedCommand(ran) == ran[k].masked
  {
    if k < |ran| - 1 {
      FailedCommandMeaning(ran[..|ran| - 1], k);
    } else {
      NoFailedCommand(ran[..k]);
    }
  }

  lemma {:induction false} NoFailedCommand(ran: seq<Command>)
    requires forall i :: 0 <= i < |ran| ==> ran[i].err.None? || ran[i].masked == ""
    ensures FailedCommand(ran) == ""
  {
    if ran != [] {
      NoFailedCommand(ran[..|ran| - 1]);
    }
  }

  /** The commands of a script that stops on errors which are run: up to the first failure. */
  function RunUntilFailure(cmds: seq<Command>): (r: seq<Command>)
    ensures |r| <= |cmds|
  {
    if cmds == [] then []
    else if cmds[0].Failure().Some? then [cmds[0]]
    else [cmds[0]] + RunUntilFailure(cmds[1..])
  }

  lemma {:induction false} RunUntilFailurePrefix(cmds: seq<Command>)
    ensures RunUntilFailure(cmds) <= cmds
    ensures forall i :: 0 <= i < |RunUntilFailure(cmds)| - 1 ==> cmds[i].Failure().None?
    ensures |RunUntilFailure(cmds)| < |cmds| ==>
      RunUntilFailure(cmds) != [] && cmds[|RunUntilFailure(cmds)| - 1].Failure().Some?
  {
    if cmds != [] && cmds[0].Failure().None? {
      RunUntilFailurePrefix(cmds[1..]);
      assert cmds == [cmds[0]] + cmds[1..];
    }
  }

  ghost predicate AllFine(cmds: seq<Command>) { forall i :: 0 <= i < |cmds| ==> cmds[i].Failure().None? }

  lemma AllFineSnoc(cmds: seq<Command>, i: nat)
    requires i < |cmds|
    ensures cmds[..i + 1] == cmds[..i] + [cmds[i]]
    ensures AllFine(cmds[..i + 1]) <==> AllFine(cmds[..i]) && cmds[i].Failure().None?
  {
    assert forall j :: 0 <= j < i ==> cmds[..i + 1][j] == cmds[..i][j];
    assert cmds[..i + 1][i] == cmds[i];
  }

  /** After commands that did not fail, the script has run so far and goes on with the rest. */
  lemma {:induction false} RunSoFar(cmds: seq<Command>, i: nat)
    requires i <= |cmds| && AllFine(cmds[..i])
    ensures i == |cmds| ==> RunUntilFailure(cmds) == cmds
    ensures i < |cmds| && cmds[i].Failure().Some? ==> RunUntilFailure(cmds) == cmds[..i + 1]
  {
    if i > 0 {
      assert cmds[..i][0] == cmds[0] && cmds[..i][1..] == cmds[1..][..i - 1];
      assert AllFine(cmds[1..][..i - 1]);
      RunSoFar(cmds[1..], i - 1);
      assert cmds == [cmds[0]] + cmds[1..];
      assert i < |cmds| ==> cmds[..i + 1] == [cmds[0]] + cmds[1..][..i];
    }
  }

  /** A script ran without any failure, and its context was live at the end. */
  ghost predicate Clear(cmds: seq<Command>, ctxErr: Option<string>) { AllFine(cmds) && ctxErr.None? }

  /** Something reported beside a script; blank reports count for nothing. */
  datatype Finding = Finding(text: string, fatal: bool) {
    predicate Counts() { fatal && TrimSpace(text) != "" }
  }

  predicate AnyFatal(findings: seq<Finding>) { exists i :: 0 <= i < |findings| && findings[i].Counts() }

  lemma AnyFatalSnoc(findings: seq<Finding>, f: Finding)
    ensures AnyFatal(findings + [f]) <==> AnyFatal(findings) || f.Counts()
  {
    var all := findings + [f];
    assert all[|findings|] == f;
    if AnyFatal(findings) {
      var i :| 0 <= i < |findings| && findings[i].Counts();
      assert all[i].Counts();
    }
  }

  /**
   What the set-up of caches and artifacts does to the response: reports in their order, and the
   error it returns. A failed download of a dependent artifact is reported as fatal, and its
   error is not returned.
   */
  datatype Setup = Setup(reports: seq<Finding>, err: Option<string>)

  /** The part of a response that reports change. */
  datatype Notes = Notes(status: Status, message: string, warnings: seq<string>)

  function Noted(n: Notes, findings: seq<Finding>): Notes {
    if findings == [] then n
    else
      var before, last := Noted(n, findings[..|findings| - 1]), findings[|findings| - 1];
      var text := TrimSpace(last.text);
      if text == "" then before
      else if last.fatal && before.status != Failed then before.(status := Failed, message := text)
      else before.(warnings := before.warnings + [text])
  }

  /** The trimmed text of the first fatal report, if there is one. */
  function FatalText(findings: seq<Finding>): string {
    if findings == [] then ""
    else
      var earlier, last := FatalText(findings[..|findings| - 1]), findings[|findings| - 1];
      if earlier != "" then earlier else if last.fatal then TrimSpace(last.text) else ""
  }

  lemma {:induction false} FatalTextAt(findings: seq<Finding>, k: nat)
    requires k < |findings| && findings[k].Counts() && forall i :: 0 <= i < k ==> !findings[i].Counts()
    ensures FatalText(findings) == TrimSpace(findings[k].text)
  {
    if k < |findings| - 1 {
      FatalTextAt(findings[..|findings| - 1], k);
    } else {
      NoFatalText(findings[..k]);
    }
  }

  lemma {:induction false} NoFatalText(findings: seq<Finding>)
    requires !AnyFatal(findings)
    ensures FatalText(findings) == ""
  {
    if findings != [] {
      var init, last := findings[..|findings| - 1], findings[|findings| - 1];
      assert findings == init + [last];
      AnyFatalSnoc(init, last);
      NoFatalText(init);
    }
  }

  lemma {:induction false} SomeFatalText(findings: seq<Finding>)
    requires AnyFatal(findings)
    ensures FatalText(findings) != ""
  {
    var init, last := findings[..|findings| - 1], findings[|findings| - 1];
    assert findings == init + [last];
    AnyFatalSnoc(init, last);
    if AnyFatal(init) {
      SomeFatalText(init);
    } else {
      NoFatalText(init);
    }
  }

  /** A fatal report fails the response, and the text of the first one becomes its message. */
  lemma {:induction false} FatalIsNoted(n: Notes, findings: seq<Finding>)
    requires n.status != Failed
    ensures Noted(n, findings).status == if AnyFatal(findings) then Failed else n.status
    ensures Noted(n, findings).message == if AnyFatal(findings) then FatalText(findings) else n.message
  {
    if findings != [] {
      var init, last := findings[..|findings| - 1], findings[|findings| - 1];
      assert findings == init + [last];
      FatalIsNoted(n, init);
      AnyFatalSnoc(init, last);
      if AnyFatal(init) {
        SomeFatalText(init);
      } else {
        NoFatalText(init);
      }
    }
  }

  /******* The runner *******/

  class TaskResponse {
    var exitCode: string
    var failedCommand: string
    var status: Status
    var errorMessage: string
    var warnings: seq<string>
    ghost var ran: seq<Command>

    ghost predicate Valid()
      reads this`exitCode, this`failedCommand, this`ran
    {
      exitCode == ExitCode(ran) && failedCommand == FailedCommand(ran)
    }

    constructor ()
      ensures Valid() && ran == [] && status == Undecided && warnings == []
    {
      exitCode, failedCommand, status, errorMessage, warnings, ran := "", "", Undecided, "", [], [];
    }

    method RunCommand(cmd: Command)
      requires Valid()
      modifies this`exitCode, this`failedCommand, this`ran
      ensures Valid() && ran == old(ran) + [cmd]
    {
      ExitCodeSet(ran);
      ran := ran + [cmd];
      assert ran[..|ran| - 1] == old(ran);
      if exitCode == "" || cmd.exitCode > 0 {
        exitCode := Itoa(cmd.exitCode);
      }
      if cmd.err.Some? && failedCommand == "" {
        failedCommand := cmd.masked;
      }
    }

    /** A script that stops on errors: nothing runs after its first failure. */
    method RunStrict(cmds: seq<Command>, ctxErr: Option<string>) returns (err: Option<string>)
      requires Valid()
      modifies this`exitCode, this`failedCommand, this`ran
      ensures Valid() && ran == old(ran) + RunUntilFailure(cmds)
      ensures err.None? <==> Clear(cmds, ctxErr)
    {
      for i := 0 to |cmds|
        invariant Valid() && AllFine(cmds[..i]) && ran == old(ran) + cmds[..i]
      {
        AllFineSnoc(cmds, i);
        RunSoFar(cmds, i);
        RunCommand(cmds[i]);
        if cmds[i].err.Some? {
          return cmds[i].err;
        }
        if cmds[i].saveErr.Some? {
          return cmds[i].saveErr;
        }
      }
      RunSoFar(cmds, |cmds|);
      assert cmds[..|cmds|] == cmds;
      err := ctxErr;
    }

    /** The after script: every command is attempted, and the last error is returned. */
    method RunAll(cmds: seq<Command>, ctxErr: Option<string>) returns (err: Option<string>)
      requires Valid()
      modifies this`exitCode, this`failedCommand, this`ran
      ensures Valid() && ran == old(ran) + cmds
      ensures err.None? <==> Clear(cmds, ctxErr)
    {
      var lastError: Option<string> := None;
      for i := 0 to |cmds|
        invariant Valid() && ran == old(ran) + cmds[..i]
        invariant lastError.None? <==> AllFine(cmds[..i])
      {
        AllFineSnoc(cmds, i);
        RunCommand(cmds[i]);
        if cmds[i].err.Some? {
          lastError := cmds[i].err;
        }
        if cmds[i].saveErr.Some? {
          lastError := cmds[i].saveErr;
        }
      }
      assert cmds[..|cmds|] == cmds;
      err := if lastError.Some? then lastError else ctxErr;
    }

    /** A fatal error fails the task unless it has failed already; any other becomes a warning. */
    method AdditionalError(text: string, fatal: bool)
      modifies this`errorMessage, this`status, this`warnings
      ensures TrimSpace(text) == "" ==>
        status == old(status) && warnings == old(warnings) && errorMessage == old(errorMessage)
      ensures TrimSpace(text) != "" ==>
        && status == (if fatal then Failed else old(status))
        && (if fatal && old(status) != Failed
            then warnings == old(warnings) && errorMessage == TrimSpace(text)
            else warnings == old(warnings) + [TrimSpace(text)] && errorMessage == old(errorMessage))
    {
      var warning := TrimSpace(text);
      if warning == "" {
        return;
      }
      if fatal && status != Failed {
        errorMessage := warning;
        status := Failed;
      } else {
        warnings := warnings + [warning];
      }
    }

    /** Reports of the set-up, which do not keep the main script from running. */
    method Report(findings: seq<Finding>)
      modifies this`errorMessage, this`status, this`warnings
      ensures Notes(status, errorMessage, warnings) == Noted(Notes(old(status), old(errorMessage), old(warnings)), findings)
    {
      ghost var n := Notes(status, errorMessage, warnings);
      for i := 0 to |findings|
        invariant Notes(status, errorMessage, warnings) == Noted(n, findings[..i])
      {
        assert findings[..i + 1][..i] == findings[..i];
        AdditionalError(findings[i].text, findings[i].fatal);
      }
      assert findings[..|findings|] == findings;
    }

    /**
     The before script, the set-up of caches and artifacts, and the main script. The status
     depends on the errors these return alone: a fatal report of the set-up is overwritten when
     the main script succeeds, and only its message stays.
     */
    method RunScriptPhase(before: seq<Command>, setup: Setup, main: seq<Command>,
                          beforeCtxErr: Option<string>, mainCtxErr: Option<string>)
      requires Valid() && ran == []
      modifies this
      ensures Valid()
      ensures status == Completed <==> Clear(before, beforeCtxErr) && setup.err.None? && Clear(main, mainCtxErr)
      ensures status in {Completed, Failed}
      ensures
        var noted := Noted(Notes(old(status), old(errorMessage), old(warnings)), setup.reports);
        && warnings == (if Clear(before, beforeCtxErr) then noted.warnings else old(warnings))
        && (status == Completed ==> errorMessage == noted.message)
      ensures ran == RunUntilFailure(before) +
        if Clear(before, beforeCtxErr) && setup.err.None? then RunUntilFailure(main) else []
    {
      var err := RunStrict(before, beforeCtxErr);
      assert ran == RunUntilFailure(before) == RunUntilFailure(before) + [];
      if err.Some? {
        status, errorMessage := Failed, err.value;
        return;
      }
      Report(setup.reports);
      if setup.err.Some? {
        status, errorMessage := Failed, setup.err.value;
        return;
      }
      RunMain(main, mainCtxErr);
    }

    method RunMain(main: seq<Command>, ctxErr: Option<string>)
      requires Valid()
      modifies this
      ensures Valid() && ran == old(ran) + RunUntilFailure(main) && warnings == old(warnings)
      ensures status == if Clear(main, ctxErr) then Completed else Failed
      ensures Clear(main, ctxErr) ==> errorMessage == old(errorMessage)
    {
      var err := RunStrict(main, ctxErr);
      if err.Some? {
        status, errorMessage := Failed, err.value;
      } else {
        status := Completed;
      }
    }

    /** After the script phase: the after script, then the findings of post-processing. */
    method FinishTask(after: seq<Command>, ctxErr: Option<string>, findings: seq<Finding>)
      requires Valid()
      modifies this
      ensures Valid() && ran == old(ran) + after
      ensures status == if AnyFatal(findings) then Failed else old(status)
    {
      var err := RunAll(after, ctxErr);
      if err.Some? {
        AdditionalError(err.value, false);
      }
      ghost var ran' := ran;
      assert !AnyFatal(findings[..0]);
      for i := 0 to |findings|
        invariant Valid() && ran == ran'
        invariant status == if AnyFatal(findings[..i]) then Failed else old(status)
      {
        AnyFatalSnoc(findings[..i], findings[i]);
        assert findings[..i + 1] == findings[..i] + [findings[i]];
        AdditionalError(findings[i].text, findings[i].fatal);
      }
      assert findings[..|findings|] == findings;
    }
  }
}
