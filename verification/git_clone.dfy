/**
 * The script as a whole (git_clone.rb:62-233): validate the options, prepare
 * credentials, resolve the checkout reference, run the clone, remove the key
 * file, exit. Library calls, subprocess exit statuses and the `git log`
 * output are parameters.
 */
module GitClone {
  import opened Wrappers
  import opened CliOptions
  import opened Auth
  import opened Checkout
  import opened Report
  import opened Pipeline

  /** Everything the script does outside itself, in the order it does it. */
  datatype Effect =
    | WriteKeyFile(key: string)        // write_private_key_to_file: mkdir -p, write, chmod 600
    | Command(step: Step)              // one step of do_clone
    | RemoveDestination(dir: string)   // the rm -rf after a failed clone
    | RemoveKeyFile                    // the `rm -P` command on the key file, issued; its status is ignored

  /** The effects of one run and the process exit status. */
  datatype Outcome = Outcome(effects: seq<Effect>, exitCode: int)

  /** The report to write, when a non-empty report path was given. */
  function ReportFor(c: Config, headHash: string, lastLog: string): Option<ReportRequest>
  {
    if c.reportPath.Some? then Some(ReportRequest(c.reportPath.value, headHash, lastLog)) else None
  }

  function CommandEffects(steps: seq<Step>): (r: seq<Effect>)
    ensures |r| == |steps|
    ensures forall i :: 0 <= i < |steps| ==> r[i] == Command(steps[i])
  {
    seq(|steps|, i requires 0 <= i < |steps| => Command(steps[i]))
  }

  /** Every clone step the options and credentials call for, in order. */
  function PlanFor(c: Config, p: Prepared, headHash: string, lastLog: string): seq<Step>
  {
    ClonePlan(c.destDir, p.url, CheckoutRef(c.commitHash, c.tag, c.branch), ReportFor(c, headHash, lastLog))
  }

  /** The number of effects before the clone's first command: one when a key file was written. */
  function KeyOffset(mode: AuthMode): nat
  {
    if mode.Ssh? then 1 else 0
  }

  /**
   * The effects once credentials are prepared: the key file, the clone's
   * commands, the clean-up of a failed clone, the key file's removal; and
   * the exit status the clone's result maps to.
   */
  function Assemble(mode: AuthMode, dest: string, clone: CloneOutcome): (r: Outcome)
    ensures r.exitCode == 0 <==> clone.success
    ensures r.exitCode == 0 || r.exitCode == 1
  {
    var key := if mode.Ssh? then [WriteKeyFile(mode.privateKey)] else [];
    var cleanup := if clone.removedDestination then [RemoveDestination(dest)] else [];
    var unkey := if mode.Ssh? then [RemoveKeyFile] else [];
    Outcome(key + CommandEffects(clone.executed) + cleanup + unkey, if clone.success then 0 else 1)
  }

  /** The clone's commands sit, in order, right after the key file and are the only commands. */
  lemma AssembleCommands(mode: AuthMode, dest: string, clone: CloneOutcome)
    ensures var e := Assemble(mode, dest, clone).effects;
      && |e| == 2 * KeyOffset(mode) + |clone.executed| + (if clone.removedDestination then 1 else 0)
      && (forall i :: 0 <= i < |e| && e[i].Command? ==>
            KeyOffset(mode) <= i < KeyOffset(mode) + |clone.executed| &&
            e[i].step == clone.executed[i - KeyOffset(mode)])
      && (forall i :: KeyOffset(mode) <= i < KeyOffset(mode) + |clone.executed| ==> e[i].Command?)
      && (RemoveDestination(dest) in e <==> clone.removedDestination)
  {
    var e := Assemble(mode, dest, clone).effects;
    var key := if mode.Ssh? then [WriteKeyFile(mode.privateKey)] else [];
    var cleanup := if clone.removedDestination then [RemoveDestination(dest)] else [];
    var unkey := if mode.Ssh? then [RemoveKeyFile] else [];
    var cmds := CommandEffects(clone.executed);
    assert e == key + cmds + cleanup + unkey;
    forall i | 0 <= i < |e|
      ensures e[i].Command? <==> KeyOffset(mode) <= i < KeyOffset(mode) + |clone.executed|
      ensures e[i].Command? ==> e[i].step == clone.executed[i - KeyOffset(mode)]
      ensures e[i] == RemoveDestination(dest) <==> clone.removedDestination && i == |key| + |cmds|
    {
      PartOfFour(key, cmds, cleanup, unkey, i);
    }
    if clone.removedDestination {
      assert e[|key| + |cmds|] == RemoveDestination(dest);
    }
  }

  /** Where index `i` of a four-part concatenation falls. */
  lemma PartOfFour<T>(a: seq<T>, b: seq<T>, c: seq<T>, d: seq<T>, i: int)
    requires 0 <= i < |a| + |b| + |c| + |d|
    ensures (a + b + c + d)[i] ==
      if i < |a| then a[i]
      else if i < |a| + |b| then b[i - |a|]
      else if i < |a| + |b| + |c| then c[i - |a| - |b|]
      else d[i - |a| - |b| - |c|]
  {
  }

  /** From the key file (if any) to the exit status, once options and credentials are known to be good. */
  function RunClone(c: Config, p: Prepared, succeeds: Step -> bool, headHash: string, lastLog: string): (r: Outcome)
    ensures r.exitCode == 0 || r.exitCode == 1
    ensures |r.effects| > KeyOffset(p.mode) && r.effects[KeyOffset(p.mode)] == Command(RemoveDir(c.destDir))
  {
    var clone := DoClone(c.destDir, p.url, CheckoutRef(c.commitHash, c.tag, c.branch), ReportFor(c, headHash, lastLog), succeeds);
    assert clone.executed[0] == PlanFor(c, p, headHash, lastLog)[0];
    AssembleFirstCommand(p.mode, c.destDir, clone);
    Assemble(p.mode, c.destDir, clone)
  }

  /** The clone's first command follows the key file directly. */
  lemma AssembleFirstCommand(mode: AuthMode, dest: string, clone: CloneOutcome)
    requires |clone.executed| > 0
    ensures var e := Assemble(mode, dest, clone).effects;
      |e| > KeyOffset(mode) && e[KeyOffset(mode)] == Command(clone.executed[0])
  {
    var key := if mode.Ssh? then [WriteKeyFile(mode.privateKey)] else [];
    var cleanup := if clone.removedDestination then [RemoveDestination(dest)] else [];
    var unkey := if mode.Ssh? then [RemoveKeyFile] else [];
    var cmds := CommandEffects(clone.executed);
    assert Assemble(mode, dest, clone).effects == key + (cmds + cleanup + unkey);
    assert (cmds + cleanup + unkey)[0] == cmds[0];
  }

  /**
   * One run of the script. A missing URL, a missing destination, an
   * undecodable key or a URL that refuses the credentials ends it with
   * status 1 before anything outside the process is touched.
   */
  function RunScript(args: Args, decodeBase64: string -> Option<string>,
                     withUserinfo: (string, string) -> Option<string>,
                     succeeds: Step -> bool, headHash: string, lastLog: string): (r: Outcome)
    ensures r.exitCode == 0 || r.exitCode == 1
    ensures !Present(args.repoUrl) ==> r == Outcome([], 1)
    ensures Configure(args).Failure? ==> r == Outcome([], 1)
    ensures (Configure(args).Success? && PrepareCredentials(Configure(args).value, decodeBase64, withUserinfo).Failure?)
              ==> r == Outcome([], 1)
    ensures r.effects != [] ==>
              Configure(args).Success? && PrepareCredentials(Configure(args).value, decodeBase64, withUserinfo).Success?
  {
    match Configure(args)
    case Failure(_) => Outcome([], 1)
    case Success(c) =>
      match PrepareCredentials(c, decodeBase64, withUserinfo)
      case Failure(_) => Outcome([], 1)
      case Success(p) => RunClone(c, p, succeeds, headHash, lastLog)
  }

  // ---------------------------------------------------------------------------
  // Properties of a run
  // ---------------------------------------------------------------------------

  /**
   * The key file is written only in SSH mode, first of all effects, and
   * whenever it is written the command that removes it is issued, last of
   * all, whatever the clone did.
   */
  lemma KeyFileRemovalAlwaysIssued(mode: AuthMode, dest: string, clone: CloneOutcome)
    ensures var e := Assemble(mode, dest, clone).effects;
      && ((exists i :: 0 <= i < |e| && e[i].WriteKeyFile?) <==> mode.Ssh?)
      && (RemoveKeyFile in e <==> mode.Ssh?)
      && (mode.Ssh? ==> e[0] == WriteKeyFile(mode.privateKey) && e[|e| - 1] == RemoveKeyFile)
      && (forall i :: 0 < i < |e| ==> !e[i].WriteKeyFile?)
      && (forall i :: 0 <= i < |e| - 1 ==> e[i] != RemoveKeyFile)
  {
    var e := Assemble(mode, dest, clone).effects;
    var key := if mode.Ssh? then [WriteKeyFile(mode.privateKey)] else [];
    var cleanup := if clone.removedDestination then [RemoveDestination(dest)] else [];
    var unkey := if mode.Ssh? then [RemoveKeyFile] else [];
    var cmds := CommandEffects(clone.executed);
    assert e == key + cmds + cleanup + unkey;
    forall i | 0 <= i < |e|
      ensures e[i].WriteKeyFile? <==> i == 0 && mode.Ssh?
      ensures e[i] == RemoveKeyFile <==> i == |e| - 1 && mode.Ssh?
    {
      PartOfFour(key, cmds, cleanup, unkey, i);
    }
    if mode.Ssh? {
      assert e[0].WriteKeyFile?;
      assert e[|e| - 1] == RemoveKeyFile;
    }
  }

  /** The exit status is 0 exactly when the options were good and every planned step succeeded. */
  lemma ExitZeroIffEveryStepSucceeded(args: Args, decodeBase64: string -> Option<string>,
                                      withUserinfo: (string, string) -> Option<string>,
                                      succeeds: Step -> bool, headHash: string, lastLog: string)
    ensures RunScript(args, decodeBase64, withUserinfo, succeeds, headHash, lastLog).exitCode == 0 <==>
      && Configure(args).Success?
      && PrepareCredentials(Configure(args).value, decodeBase64, withUserinfo).Success?
      && var plan := PlanFor(Configure(args).value,
                             PrepareCredentials(Configure(args).value, decodeBase64, withUserinfo).value,
                             headHash, lastLog);
         forall i :: 0 <= i < |plan| ==> succeeds(plan[i])
  {
    var r := RunScript(args, decodeBase64, withUserinfo, succeeds, headHash, lastLog);
    if Configure(args).Success? && PrepareCredentials(Configure(args).value, decodeBase64, withUserinfo).Success? {
      var c := Configure(args).value;
      var p := PrepareCredentials(c, decodeBase64, withUserinfo).value;
      var clone := DoClone(c.destDir, p.url, CheckoutRef(c.commitHash, c.tag, c.branch),
                           ReportFor(c, headHash, lastLog), succeeds);
      var plan := PlanFor(c, p, headHash, lastLog);
      assert r == Assemble(p.mode, c.destDir, clone);
      assert r.exitCode == 0 <==> clone.success;
      assert clone.success <==> forall i :: 0 <= i < |plan| ==> succeeds(plan[i]);
    }
  }

  /**
   * The commands run are the plan's first steps, in the plan's order, and
   * every command but the last one run succeeded: nothing runs after the
   * first failure.
   */
  lemma NoCommandAfterFailure(c: Config, p: Prepared, succeeds: Step -> bool, headHash: string, lastLog: string)
    ensures var e := RunClone(c, p, succeeds, headHash, lastLog).effects;
      forall i, j :: 0 <= i < j < |e| && e[i].Command? && e[j].Command? ==> succeeds(e[i].step)
    ensures var e := RunClone(c, p, succeeds, headHash, lastLog).effects;
      var plan := PlanFor(c, p, headHash, lastLog);
      forall i :: 0 <= i < |e| && e[i].Command? ==>
        KeyOffset(p.mode) <= i < KeyOffset(p.mode) + |plan| && e[i].step == plan[i - KeyOffset(p.mode)]
  {
    var clone := DoClone(c.destDir, p.url, CheckoutRef(c.commitHash, c.tag, c.branch),
                         ReportFor(c, headHash, lastLog), succeeds);
    CommandsFollowRun(p.mode, c.destDir, clone, PlanFor(c, p, headHash, lastLog), succeeds);
  }

  /** The commands of an assembled run are the run's steps: a prefix of the plan, all but the last successful. */
  lemma CommandsFollowRun(mode: AuthMode, dest: string, clone: CloneOutcome, plan: seq<Step>, succeeds: Step -> bool)
    requires clone.executed <= plan
    requires forall i :: 0 <= i < |clone.executed| - 1 ==> succeeds(clone.executed[i])
    ensures var e := Assemble(mode, dest, clone).effects;
      forall i, j :: 0 <= i < j < |e| && e[i].Command? && e[j].Command? ==> succeeds(e[i].step)
    ensures var e := Assemble(mode, dest, clone).effects;
      forall i :: 0 <= i < |e| && e[i].Command? ==>
        KeyOffset(mode) <= i < KeyOffset(mode) + |plan| && e[i].step == plan[i - KeyOffset(mode)]
  {
    var e := Assemble(mode, dest, clone).effects;
    var k := KeyOffset(mode);
    AssembleCommands(mode, dest, clone);
    forall i | 0 <= i < |e| && e[i].Command?
      ensures k <= i < k + |plan| && e[i].step == plan[i - k]
    {
      assert e[i].step == clone.executed[i - k];
    }
    forall i, j | 0 <= i < j < |e| && e[i].Command? && e[j].Command?
      ensures succeeds(e[i].step)
    {
      assert e[i].step == clone.executed[i - k];
      assert i - k < |clone.executed| - 1;
    }
  }

  /**
   * The destination is deleted after the run exactly when the run failed
   * inside the recreated directory; when resetting it failed it is left alone
   * and no step inside it runs.
   */
  lemma DestinationRemovedIffLateFailure(c: Config, p: Prepared, succeeds: Step -> bool, headHash: string, lastLog: string)
    ensures var r := RunClone(c, p, succeeds, headHash, lastLog);
      RemoveDestination(c.destDir) in r.effects <==>
        r.exitCode == 1 && exists i :: 0 <= i < |r.effects| && r.effects[i].Command? && InRepository(r.effects[i].step)
    ensures var r := RunClone(c, p, succeeds, headHash, lastLog);
      !succeeds(RemoveDir(c.destDir)) || !succeeds(MakeDir(c.destDir)) ==>
        r.exitCode == 1 && RemoveDestination(c.destDir) !in r.effects &&
        forall i :: 0 <= i < |r.effects| && r.effects[i].Command? ==> !InRepository(r.effects[i].step)
  {
    var r := RunClone(c, p, succeeds, headHash, lastLog);
    var clone := DoClone(c.destDir, p.url, CheckoutRef(c.commitHash, c.tag, c.branch),
                         ReportFor(c, headHash, lastLog), succeeds);
    var plan := PlanFor(c, p, headHash, lastLog);
    var k := KeyOffset(p.mode);
    AssembleCommands(p.mode, c.destDir, clone);
    assert plan[0] == RemoveDir(c.destDir) && plan[1] == MakeDir(c.destDir) && plan[2] == GitInit;
    assert clone.executed <= plan;
    if clone.removedDestination {
      var n := |clone.executed|;
      assert clone.executed[n - 1] == plan[n - 1];
      assert n > 2;
      assert r.effects[k + 2].step == clone.executed[2] == GitInit;
    } else if r.exitCode == 1 {
      assert !succeeds(RemoveDir(c.destDir)) || !succeeds(MakeDir(c.destDir));
    }
  }

  /** The plan's steps carry the prepared URL, the resolved reference and the report request. */
  lemma PlanCarriesValues(c: Config, p: Prepared, headHash: string, lastLog: string)
    ensures var plan := PlanFor(c, p, headHash, lastLog);
      forall i :: 0 <= i < |plan| ==>
        && (plan[i].AddRemote? ==> plan[i].url == p.url)
        && (plan[i].Checkout? ==> plan[i].ref == CheckoutRef(c.commitHash, c.tag, c.branch))
        && (plan[i].WriteReport? ==> c.reportPath.Some? && plan[i] == WriteReport(c.reportPath.value, headHash, lastLog))
  {
    var plan := PlanFor(c, p, headHash, lastLog);
    var ref := CheckoutRef(c.commitHash, c.tag, c.branch);
    assert plan == [RemoveDir(c.destDir), MakeDir(c.destDir), GitInit, AddRemote(p.url), Fetch, Checkout(ref), SubmoduleUpdate]
                   + (if c.reportPath.Some? then [WriteReport(c.reportPath.value, headHash, lastLog)] else []);
  }

  /** The commands of a run carry the prepared URL, the resolved reference and the report request. */
  lemma CloneCarriesValues(c: Config, p: Prepared, succeeds: Step -> bool, headHash: string, lastLog: string)
    ensures var e := RunClone(c, p, succeeds, headHash, lastLog).effects;
      forall i :: 0 <= i < |e| && e[i].Command? ==>
        && (e[i].step.AddRemote? ==> e[i].step.url == p.url)
        && (e[i].step.Checkout? ==> e[i].step.ref == CheckoutRef(c.commitHash, c.tag, c.branch))
        && (e[i].step.WriteReport? ==> c.reportPath.Some? && e[i].step == WriteReport(c.reportPath.value, headHash, lastLog))
  {
    var e := RunClone(c, p, succeeds, headHash, lastLog).effects;
    var plan := PlanFor(c, p, headHash, lastLog);
    NoCommandAfterFailure(c, p, succeeds, headHash, lastLog);
    PlanCarriesValues(c, p, headHash, lastLog);
    forall i | 0 <= i < |e| && e[i].Command?
      ensures e[i].step == plan[i - KeyOffset(p.mode)]
    {
    }
  }

  /**
   * git sees the prepared URL and the resolved reference: the URL given
   * unless credentials were embedded in it, and the first given of commit
   * hash, tag and branch, or the default. A report is written only to the
   * non-empty path given, from the two `git log` outputs.
   */
  lemma CommandsUsePreparedValues(args: Args, decodeBase64: string -> Option<string>,
      withUserinfo: (string, string) -> Option<string>,
      succeeds: Step -> bool, headHash: string, lastLog: string)
    ensures var r := RunScript(args, decodeBase64, withUserinfo, succeeds, headHash, lastLog);
      forall i :: 0 <= i < |r.effects| && r.effects[i].Command? && r.effects[i].step.AddRemote? ==>
        && Configure(args).Success?
        && SelectAuth(Configure(args).value, decodeBase64).Success?
        && var mode := SelectAuth(Configure(args).value, decodeBase64).value;
           (!mode.Login? ==> Some(r.effects[i].step.url) == args.repoUrl) &&
           (mode.Login? ==> withUserinfo(args.repoUrl.value, Userinfo(mode.username, mode.password))
                              == Some(r.effects[i].step.url))
    ensures var r := RunScript(args, decodeBase64, withUserinfo, succeeds, headHash, lastLog);
      forall i :: 0 <= i < |r.effects| && r.effects[i].Command? && r.effects[i].step.Checkout? ==>
        r.effects[i].step.ref == CheckoutRef(args.commitHash, args.tag, args.branch)
    ensures var r := RunScript(args, decodeBase64, withUserinfo, succeeds, headHash, lastLog);
      forall i :: 0 <= i < |r.effects| && r.effects[i].Command? && r.effects[i].step.WriteReport? ==>
        && Present(args.formattedOutputFile)
        && r.effects[i].step == WriteReport(args.formattedOutputFile.value, headHash, lastLog)
  {
    RemoteUsesPreparedUrl(args, decodeBase64, withUserinfo, succeeds, headHash, lastLog);
    CheckoutUsesResolvedRef(args, decodeBase64, withUserinfo, succeeds, headHash, lastLog);
    ReportUsesGivenPath(args, decodeBase64, withUserinfo, succeeds, headHash, lastLog);
  }

  /** The remote added is the URL given, or the URL with the credentials embedded. */
  lemma RemoteUsesPreparedUrl(args: Args, decodeBase64: string -> Option<string>,
      withUserinfo: (string, string) -> Option<string>,
      succeeds: Step -> bool, headHash: string, lastLog: string)
    ensures var r := RunScript(args, decodeBase64, withUserinfo, succeeds, headHash, lastLog);
      forall i :: 0 <= i < |r.effects| && r.effects[i].Command? && r.effects[i].step.AddRemote? ==>
        && Configure(args).Success?
        && SelectAuth(Configure(args).value, decodeBase64).Success?
        && var mode := SelectAuth(Configure(args).value, decodeBase64).value;
           (!mode.Login? ==> Some(r.effects[i].step.url) == args.repoUrl) &&
           (mode.Login? ==> withUserinfo(args.repoUrl.value, Userinfo(mode.username, mode.password))
                              == Some(r.effects[i].step.url))
  {
    var r := RunScript(args, decodeBase64, withUserinfo, succeeds, headHash, lastLog);
    if r.effects != [] {
      var c := Configure(args).value;
      var p := PrepareCredentials(c, decodeBase64, withUserinfo).value;
      assert r == RunClone(c, p, succeeds, headHash, lastLog);
      CloneCarriesValues(c, p, succeeds, headHash, lastLog);
    }
  }

  /** The reference checked out is the first given of commit hash, tag and branch, or the default. */
  lemma CheckoutUsesResolvedRef(args: Args, decodeBase64: string -> Option<string>,
      withUserinfo: (string, string) -> Option<string>,
      succeeds: Step -> bool, headHash: string, lastLog: string)
    ensures var r := RunScript(args, decodeBase64, withUserinfo, succeeds, headHash, lastLog);
      forall i :: 0 <= i < |r.effects| && r.effects[i].Command? && r.effects[i].step.Checkout? ==>
        r.effects[i].step.ref == CheckoutRef(args.commitHash, args.tag, args.branch)
  {
    var r := RunScript(args, decodeBase64, withUserinfo, succeeds, headHash, lastLog);
    if r.effects != [] {
      var c := Configure(args).value;
      var p := PrepareCredentials(c, decodeBase64, withUserinfo).value;
      assert r == RunClone(c, p, succeeds, headHash, lastLog);
      CloneCarriesValues(c, p, succeeds, headHash, lastLog);
    }
  }

  /** A report is written only to the path given, from the two `git log` outputs. */
  lemma ReportUsesGivenPath(args: Args, decodeBase64: string -> Option<string>,
      withUserinfo: (string, string) -> Option<string>,
      succeeds: Step -> bool, headHash: string, lastLog: string)
    ensures var r := RunScript(args, decodeBase64, withUserinfo, succeeds, headHash, lastLog);
      forall i :: 0 <= i < |r.effects| && r.effects[i].Command? && r.effects[i].step.WriteReport? ==>
        && Present(args.formattedOutputFile)
        && r.effects[i].step == WriteReport(args.formattedOutputFile.value, headHash, lastLog)
  {
    var r := RunScript(args, decodeBase64, withUserinfo, succeeds, headHash, lastLog);
    if r.effects != [] {
      var c := Configure(args).value;
      var p := PrepareCredentials(c, decodeBase64, withUserinfo).value;
      assert r == RunClone(c, p, succeeds, headHash, lastLog);
      CloneCarriesValues(c, p, succeeds, headHash, lastLog);
    }
  }
}
