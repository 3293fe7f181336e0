/**
 * `do_clone` (git_clone.rb:176-223): a fixed sequence of external commands,
 * abandoned at the first one that fails. Whether a command succeeds is an
 * input, `succeeds`, standing for the exit status `system` reports (or, for
 * the report, whether writing the file raised).
 */
module Pipeline {
  import opened Wrappers

  /** One external action of the clone, with the values it is run with. */
  datatype Step =
    | RemoveDir(dir: string)                       // rm -rf "<dest>"
    | MakeDir(dir: string)                         // mkdir -p "<dest>"
    | GitInit                                      // git init
    | AddRemote(url: string)                       // git remote add origin "<url>"
    | Fetch                                        // git fetch
    | Checkout(ref: string)                        // git checkout <ref>
    | SubmoduleUpdate                              // git submodule update --init --recursive
    | WriteReport(path: string, headHash: string, lastLog: string)
                                                   // write_formatted_output_to_file(<path>), from the two git log outputs

  /** Steps run inside the destination directory, after it has been recreated. */
  predicate InRepository(s: Step)
  {
    !s.RemoveDir? && !s.MakeDir?
  }

  /** The report path and the `git log` outputs the report is made from, when a report was asked for. */
  datatype ReportRequest = ReportRequest(path: string, headHash: string, lastLog: string)

  /** The two steps that reset the destination directory. */
  function ResetSteps(dest: string): seq<Step>
  {
    [RemoveDir(dest), MakeDir(dest)]
  }

  /** The steps inside the begin/rescue block, in the order they appear there. */
  function RepositorySteps(url: string, ref: string, report: Option<ReportRequest>): (r: seq<Step>)
    ensures forall i :: 0 <= i < |r| ==> InRepository(r[i])
    ensures |r| == (if report.Some? then 6 else 5)
    ensures r[0] == GitInit && r[1] == AddRemote(url) && r[2] == Fetch && r[3] == Checkout(ref) && r[4] == SubmoduleUpdate
    ensures report.Some? ==> r[5] == WriteReport(report.value.path, report.value.headHash, report.value.lastLog)
  {
    [GitInit, AddRemote(url), Fetch, Checkout(ref), SubmoduleUpdate]
    + (if report.Some? then [WriteReport(report.value.path, report.value.headHash, report.value.lastLog)] else [])
  }

  /** Every step of a clone, in order. */
  function ClonePlan(dest: string, url: string, ref: string, report: Option<ReportRequest>): (r: seq<Step>)
    ensures |r| == (if report.Some? then 8 else 7)
    ensures r[0] == RemoveDir(dest) && r[1] == MakeDir(dest)
    ensures r[2..] == RepositorySteps(url, ref, report)
  {
    ResetSteps(dest) + RepositorySteps(url, ref, report)
  }

  /** The steps that were run, and whether all of them succeeded. */
  datatype Run = Run(executed: seq<Step>, succeeded: bool)

  /**
   * Runs `steps` in order and stops at the first failure: a left fold that
   * carries "everything so far succeeded".
   */
  function Execute(steps: seq<Step>, succeeds: Step -> bool): (r: Run)
    ensures r.executed <= steps
    ensures forall i :: 0 <= i < |r.executed| - 1 ==> succeeds(r.executed[i])
    ensures r.succeeded <==> r.executed == steps && forall i :: 0 <= i < |steps| ==> succeeds(steps[i])
    ensures !r.succeeded ==> |r.executed| > 0 && !succeeds(r.executed[|r.executed| - 1])
  {
    if |steps| == 0 then Run([], true)
    else if succeeds(steps[0]) then
      var rest := Execute(steps[1..], succeeds);
      var executed := [steps[0]] + rest.executed;
      assert steps == [steps[0]] + steps[1..];
      assert forall i :: 1 <= i < |executed| ==> executed[i] == rest.executed[i - 1];
      Run(executed, rest.succeeded)
    else
      Run([steps[0]], false)
  }

  /** What `do_clone` did: the steps it ran, its result, and whether it deleted the destination afterwards. */
  datatype CloneOutcome = CloneOutcome(executed: seq<Step>, success: bool, removedDestination: bool)

  /**
   * Runs `setup`; if all of it succeeded, runs `guarded` under a rescue that
   * reports the failure as a removal of the destination.
   */
  function RunPhases(setup: seq<Step>, guarded: seq<Step>, succeeds: Step -> bool): (r: CloneOutcome)
    ensures r.executed <= setup + guarded
    ensures r.success <==> forall i :: 0 <= i < |setup + guarded| ==> succeeds((setup + guarded)[i])
    ensures r.success ==> r.executed == setup + guarded && !r.removedDestination
    ensures forall i :: 0 <= i < |r.executed| - 1 ==> succeeds(r.executed[i])
    ensures !r.success ==> |r.executed| > 0 && !succeeds(r.executed[|r.executed| - 1])
    ensures r.removedDestination <==> !r.success && forall i :: 0 <= i < |setup| ==> succeeds(setup[i])
    ensures !r.removedDestination && !r.success ==> r.executed <= setup
  {
    var first := Execute(setup, succeeds);
    if !first.succeeded then
      CloneOutcome(first.executed, false, false)
    else
      var second := Execute(guarded, succeeds);
      ExecuteAppend(setup, guarded, succeeds);
      CloneOutcome(first.executed + second.executed, second.succeeded, !second.succeeded)
  }

  /**
   * A failure of the reset steps returns false at once; a failure inside the
   * repository is rescued and the destination is deleted before returning false.
   */
  function DoClone(dest: string, url: string, ref: string, report: Option<ReportRequest>,
                   succeeds: Step -> bool): (r: CloneOutcome)
    ensures r.executed <= ClonePlan(dest, url, ref, report)
    ensures r.success <==> forall i :: 0 <= i < |ClonePlan(dest, url, ref, report)| ==>
                                         succeeds(ClonePlan(dest, url, ref, report)[i])
    ensures r.success ==> r.executed == ClonePlan(dest, url, ref, report) && !r.removedDestination
    ensures forall i :: 0 <= i < |r.executed| - 1 ==> succeeds(r.executed[i])
    ensures !r.success ==> |r.executed| > 0 && !succeeds(r.executed[|r.executed| - 1])
    ensures !succeeds(RemoveDir(dest)) || !succeeds(MakeDir(dest)) ==>
              !r.success && !r.removedDestination && forall i :: 0 <= i < |r.executed| ==> !InRepository(r.executed[i])
    ensures r.removedDestination <==> !r.success && succeeds(RemoveDir(dest)) && succeeds(MakeDir(dest))
  {
    var reset := ResetSteps(dest);
    var r := RunPhases(reset, RepositorySteps(url, ref, report), succeeds);
    assert forall i :: 0 <= i < |reset| ==> !InRepository(reset[i]);
    r
  }

  /** Running two sequences one after the other, the second only if the first succeeded, is running their concatenation. */
  lemma {:induction false} ExecuteAppend(a: seq<Step>, b: seq<Step>, succeeds: Step -> bool)
    ensures Execute(a + b, succeeds) == Sequence(Execute(a, succeeds), Execute(b, succeeds))
  {
    if |a| == 0 {
      assert a + b == b;
    } else {
      assert (a + b)[0] == a[0];
      assert (a + b)[1..] == a[1..] + b;
      if succeeds(a[0]) {
        ExecuteAppend(a[1..], b, succeeds);
        SequenceCons(a[0], Execute(a[1..], succeeds), Execute(b, succeeds));
      }
    }
  }

  /** The run of a second sequence appended to a first run, if the first succeeded. */
  function Sequence(ra: Run, rb: Run): Run
  {
    if ra.succeeded then Run(ra.executed + rb.executed, rb.succeeded) else ra
  }

  lemma SequenceCons(s: Step, ra: Run, rb: Run)
    ensures Sequence(Run([s] + ra.executed, ra.succeeded), rb)
            == Run([s] + Sequence(ra, rb).executed, Sequence(ra, rb).succeeded)
  {
    if ra.succeeded {
      assert [s] + (ra.executed + rb.executed) == ([s] + ra.executed) + rb.executed;
    }
  }

  /** The clone, for all its two phases, is one pass over the plan that stops at the first failure. */
  lemma DoCloneIsOnePass(dest: string, url: string, ref: string, report: Option<ReportRequest>,
                         succeeds: Step -> bool)
    ensures DoClone(dest, url, ref, report, succeeds).executed == Execute(ClonePlan(dest, url, ref, report), succeeds).executed
    ensures DoClone(dest, url, ref, report, succeeds).success == Execute(ClonePlan(dest, url, ref, report), succeeds).succeeded
  {
    ExecuteAppend(ResetSteps(dest), RepositorySteps(url, ref, report), succeeds);
  }

  /** A run stops exactly at the first failing step: everything up to it runs, nothing after it. */
  lemma {:induction false} ExecuteStopsAtFirstFailure(steps: seq<Step>, succeeds: Step -> bool, k: nat)
    requires k < |steps|
    requires forall i :: 0 <= i < k ==> succeeds(steps[i])
    requires !succeeds(steps[k])
    ensures Execute(steps, succeeds) == Run(steps[..k + 1], false)
  {
    if k > 0 {
      assert succeeds(steps[0]);
      ExecuteStopsAtFirstFailure(steps[1..], succeeds, k - 1);
      assert [steps[0]] + steps[1..][..k] == steps[..k + 1];
    }
  }

  /**
   * Failing to write the report still deletes the destination, although
   * every git step succeeded and the working tree was complete.
   */
  lemma ReportFailureDeletesClone(dest: string, url: string, ref: string, report: ReportRequest,
                                  succeeds: Step -> bool)
    requires succeeds(RemoveDir(dest)) && succeeds(MakeDir(dest))
    requires succeeds(GitInit) && succeeds(AddRemote(url)) && succeeds(Fetch)
    requires succeeds(Checkout(ref)) && succeeds(SubmoduleUpdate)
    requires !succeeds(WriteReport(report.path, report.headHash, report.lastLog))
    ensures var r := DoClone(dest, url, ref, Some(report), succeeds);
      !r.success && r.removedDestination && r.executed == ClonePlan(dest, url, ref, Some(report))
  {
    var plan := ClonePlan(dest, url, ref, Some(report));
    assert plan == [RemoveDir(dest), MakeDir(dest), GitInit, AddRemote(url), Fetch, Checkout(ref), SubmoduleUpdate,
                    WriteReport(report.path, report.headHash, report.lastLog)];
    assert plan[..8] == plan;
    ExecuteStopsAtFirstFailure(plan, succeeds, 7);
    DoCloneIsOnePass(dest, url, ref, Some(report), succeeds);
  }
}
