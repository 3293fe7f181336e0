# git_clone.rb, modelled in Dafny

`git_clone.rb` is a command-line step that clones a git repository into a
destination directory. It does the following, in order:

1. It validates its flags.
2. It picks an authentication mode: raw SSH key, then base64 SSH key, then
   username and password, then none.
3. For SSH it writes the private key to a file. For username and password it
   embeds the credentials into the URL.
4. It resolves the reference to check out: commit hash, then tag, then branch,
   then `master`.
5. It runs a fixed sequence of shell commands:
   - `rm -rf` and `mkdir -p` on the destination;
   - then, inside it, `git init`, `git remote add`, `git fetch`,
     `git checkout` and `git submodule update`;
   - then, optionally, it writes a formatted report of the last commit.
6. If a step inside the repository fails, it deletes the destination.
7. It removes the key file and exits with 0 on success, 1 otherwise.

The model is functional: the whole run is one pure function, `GitClone.RunScript`.
It returns the ordered list of effects the script has on the world and the
exit status. Things the model cannot see are parameters:

- **Subprocess results**: `succeeds: Step -> bool`.
- **Base64 decoding**: `decodeBase64: string -> Option<string>`. `None` stands
  for the `ArgumentError` that strict decoding raises.
- **URL parsing and re-serialisation with userinfo**:
  `withUserinfo: (string, string) -> Option<string>`. `None` stands for the
  URI error.
- **The two `git log` outputs**: the strings `headHash` and `lastLog`.

An uncaught Ruby exception ends the script with status 1. This is how the
model treats:

- an invalid base64 key;
- a URL that does not parse;
- a missing `--dest-dir` value, where `File.expand_path(nil)` raises.

Modules:

- `Wrappers`: `Option` and `Result`.
- `CliOptions`: the flag table, the empty-report-path rule, the usage check
  and the destination check.
- `Auth`: the mode precedence and URL preparation, plus reading userinfo back
  (section 3.2.1 of RFC 3986).
- `Checkout`: the reference precedence.
- `TextLines`: `String#prepend_lines_with`. It is modelled twice:
  - as Ruby evaluates the code, with `gsub(/^.*$/, prefix + '\&')` and
    Ruby's replacement-template escapes;
  - as a plain "prefix every line" function.
- `Report`: `puts`, `chomp` and the report layout, plus a reader that parses
  a report back.
- `Pipeline`: `do_clone` as a left fold over the step list that stops at the
  first failure.
- `GitClone`: the effects of a run, the key-file lifecycle and the exit
  status.

Three behaviours of the code worth knowing:

- `GIT_ASKPASS=echo` and `GIT_SSH=...` are passed to remote add, fetch and
  submodule update in every authentication mode. This environment is not
  part of the model; see "Left out".
- The two `git log` calls are backtick calls, which do not raise when git
  exits with an error. The report step fails when the file cannot be opened
  or written, or when the log text cannot be matched or read. Every such
  failure is raised inside the rescued block, so it fails the clone and
  deletes the destination. The model reduces all of them to one step
  result, `succeeds(WriteReport(..))`.
- The destination is deleted only after a failure inside the repository
  block. If `rm -rf` or `mkdir -p` themselves fail, `do_clone` returns false
  at once and no clean-up runs (`GitClone.DestinationRemovedIffLateFailure`).

## Model

| member | source | states |
|---|---|---|
| CliOptions.NormalizeOutputPath | git_clone.rb:64-66 | A report path is kept exactly when it is present and non-empty; an empty one becomes absent. |
| CliOptions.Configure | git_clone.rb:64-104 | A missing or empty URL is a usage error, checked first. A missing `--dest-dir` value is a crash (exit 1), checked next. Otherwise every flag is carried over unchanged, with the report path normalised. |
| Auth.SelectAuth | git_clone.rb:110-128 | The precedence is raw key, then base64 key, then username with password (both non-empty), then none. Login mode holds in both directions exactly when its condition does. Only an undecodable base64 key fails. |
| Auth.PrepareCredentials | git_clone.rb:108-128 | The URL is unchanged unless the mode is login. In login mode it is the URL re-serialised with `username:password` as userinfo. It fails exactly on a bad key or a URL that refuses the userinfo. |
| Auth.Userinfo | git_clone.rb:123 | The userinfo is the username, one colon, then the password, with no escaping. |
| Auth.SplitUserinfo | git_clone.rb:123 | Reading userinfo back splits at the first colon: the user part has no colon, and user, colon and password rebuild the input. |
| Auth.UserinfoRoundTrip | git_clone.rb:123 | The embedded credentials read back as the same username and password if and only if the username contains no colon. |
| Checkout.CheckoutRef | git_clone.rb:131-146 | The result is never empty. It is the commit hash if given, else the tag, else the branch, else `master`; empty values count as not given. |
| Checkout.FirstPresent | git_clone.rb:131-146 | Reference rule: the value of the first present candidate, or the fallback when none is present. |
| Checkout.CheckoutRefIsFirstPresent | git_clone.rb:131-146 | The checkout reference equals the first-present rule applied to (commit hash, tag, branch) with fallback `master`. |
| TextLines.Lines | git_clone.rb:157 | The lines of a text concatenate back to it. There is at least one line. Every line but the last ends with a newline, and no line has a newline elsewhere. |
| TextLines.PrependLines | git_clone.rb:155-159 | The intended method: the result starts with the prefix and is at least the prefix longer than the text. Its properties are in `PrependLinesPerLine`, `StripPrependRoundTrip` and `PrependLinesCounts`. |
| TextLines.ExpandTemplate | git_clone.rb:157 | Ruby's expansion of a `gsub` replacement template for a pattern without groups. A template without backslashes is copied unchanged. |
| TextLines.GsubLines | git_clone.rb:157 | `gsub(/^.*$/, t)`: a text that ends with a newline still does after the substitution. The per-line form, for every template, is `GsubLinesPerLine`; for a template without backslashes, `GsubLinesPlain` gives the closed form. |
| TextLines.GsubLinesPerLine | git_clone.rb:157 | For every template `t` and every text, `gsub(/^.*$/, t)` equals `GsubEach` over `Lines` of the text. `GsubEach` replaces each line's content with `t` expanded against the text before the line, the content, and the text after the content, and keeps the line's newline. |
| TextLines.GsubLinesPlain | git_clone.rb:157 | With a prefix that holds no backslash, the template `prefix + '\&'` puts the prefix verbatim at every line start and changes nothing else. |
| TextLines.PrependLinesAsWritten | git_clone.rb:155-159 | The method as written. For a prefix without backslashes it equals `PrependLines`. |
| TextLines.PrependLinesPerLine | git_clone.rb:155-159 | Prefixing the line starts is the same as putting the prefix in front of every line and concatenating. |
| TextLines.StripPrependRoundTrip | git_clone.rb:155-159 | Removing the prefix from every line start gives back the original text, for any prefix. |
| TextLines.PrependLinesCounts | git_clone.rb:155-159 | The length grows by the prefix length once per line. A prefix without newlines leaves the number of newlines unchanged. |
| TextLines.PrependLinesAsWrittenPlain | git_clone.rb:155-159 | For a prefix without backslashes, the `gsub` the method performs is exactly "prefix every line". |
| TextLines.PrependLinesAsWrittenEscapes | git_clone.rb:157 | For the prefix `\&`, the method turns `a` into `aa`, not `\&a`. |
| Report.Chomp | git_clone.rb:166 | Exactly one trailing `\n`, `\r` or `\r\n` is removed when there is one, `\r\n` as a pair. The input is the result followed by nothing or by one of those terminators. A string that does not end in a line terminator is unchanged. |
| Report.Puts | git_clone.rb:163-172 | What `puts` writes always ends with a newline, starts with the string, and adds at most one character. It adds nothing when the string already ends with a newline. |
| Report.PutsPrependLinesCommute | git_clone.rb:171-172 | Indenting the log and then writing it with `puts` gives the same text as indenting what `puts` would write. |
| Report.ReportLayout | git_clone.rb:161-174 | The report is, in order: the hash header, a blank line, the indented hash, a blank line, the log header, a blank line, then every newline-terminated log line behind four spaces. |
| Report.ReportText | git_clone.rb:161-174 | Definition of the report text. It starts with the hash header and ends with a newline; the full layout is in `Report.ReportLayout`. |
| Report.ParseReport | git_clone.rb:161-174 | Reference reader for the layout. It accepts only a text that starts with the hash header, a blank line and the indentation, and the hash it returns is one line. It is the partner of `Report.ReportRoundTrip`. |
| Report.ReportRoundTrip | git_clone.rb:161-174 | When the chomped hash is one line, parsing the report gives back that hash and the log exactly as `puts` wrote it. |
| Pipeline.RepositorySteps | git_clone.rb:184-209 | The steps are init, remote add with the prepared URL, fetch, checkout of the resolved reference and submodule update, then the report step if and only if a report path was given. None of them is a reset step. |
| Pipeline.ClonePlan | git_clone.rb:176-209 | The plan is `rm -rf` and `mkdir -p` on the destination, then the repository steps: 7 steps, or 8 with a report. A step runs inside the repository if and only if it comes after the two reset steps. |
| Pipeline.Execute | git_clone.rb:184-211 | The steps run are a prefix of the plan, and all but the last succeeded. The run succeeds if and only if every planned step ran and succeeded. On failure, the last step run is the one that failed. |
| Pipeline.RunPhases | git_clone.rb:176-223 | The shape of `do_clone`: a first group of steps whose failure returns at once, then a rescued group. The steps run are a prefix of both groups together. Success means every step succeeded. The clean-up is issued if and only if the run failed after the whole first group succeeded. |
| Pipeline.DoClone | git_clone.rb:176-223 | The steps run are a prefix of the plan, and success means every planned step succeeded. A failure of the reset steps runs nothing inside the repository and deletes nothing. The destination is deleted if and only if the run failed after both reset steps succeeded. |
| Pipeline.ExecuteAppend | git_clone.rb:176-215 | Running two step lists one after the other, the second only if the first succeeded, equals running their concatenation. |
| Pipeline.DoCloneIsOnePass | git_clone.rb:176-223 | The two phases of `do_clone` together are one run over the whole plan. |
| Pipeline.ExecuteStopsAtFirstFailure | git_clone.rb:184-214 | If step k is the first failing step, exactly steps 0..k run, and the run fails. |
| Pipeline.ReportFailureDeletesClone | git_clone.rb:206-220 | If every git step succeeds and only writing the report fails, the whole plan has run, the result is failure, and the completed clone is deleted. |
| GitClone.Assemble | git_clone.rb:225-233 | The exit status is 0 exactly when the clone succeeded, and 1 otherwise. |
| GitClone.AssembleCommands | git_clone.rb:217-231 | The clone's steps appear as commands, in order, right after the key file, and nowhere else. The destination-removal effect occurs if and only if the clone deleted the destination. |
| GitClone.AssembleFirstCommand | git_clone.rb:176-178 | The clone's first command is the effect right after the key file. |
| GitClone.RunClone | git_clone.rb:176-233 | Once options and credentials are good, the exit status is 0 or 1, and the first effect after the key file is always the `rm -rf` of the destination. |
| GitClone.RunScript | git_clone.rb:62-233 | The exit status is 0 or 1. A missing URL, a missing destination, a bad key or a URL that refuses the credentials ends the run with status 1 and no effect. Any effect implies the options and credentials were good. |
| GitClone.KeyFileRemovalAlwaysIssued | git_clone.rb:228-231 | A key file is written if and only if the mode is SSH. When written, it is the first effect, and the command that removes it is issued as the last effect, whatever the clone did. Neither appears at any other position. |
| GitClone.ExitZeroIffEveryStepSucceeded | git_clone.rb:225-233 | The exit status is 0 if and only if the options and credentials were good and every step of the plan succeeded. |
| GitClone.NoCommandAfterFailure | git_clone.rb:176-215 | The commands run are the plan's first steps, in plan order and at consecutive positions. Every command followed by another command succeeded. |
| GitClone.DestinationRemovedIffLateFailure | git_clone.rb:176-220 | The destination is removed if and only if the run failed after a step inside the repository had run. If a reset step fails, the run exits 1, nothing is removed, and no step inside the repository runs. |
| GitClone.PlanCarriesValues | git_clone.rb:189-208 | In the plan, the remote-add step carries the prepared URL, the checkout step the resolved reference, and the report step the given path and the two log outputs. |
| GitClone.CommandsUsePreparedValues | git_clone.rb:189-208 | git is given the URL as passed, or, in login mode, the URL with the credentials embedded. Checkout is given the first present reference. A report is written only to the non-empty path that was given. |
| GitClone.RemoteUsesPreparedUrl | git_clone.rb:189-191 | `git remote add` is given the URL as passed, or, in login mode, the URL with the credentials embedded. |
| GitClone.CheckoutUsesResolvedRef | git_clone.rb:197-199 | `git checkout` is given the first present of commit hash, tag and branch, or the default. |
| GitClone.ReportUsesGivenPath | git_clone.rb:206-209 | A report is written only to the non-empty path that was given, from the two `git log` outputs. |

## Left out

- Flag parsing by `OptionParser`, including unknown flags and `-h`, which
  prints the help and carries on. Flags enter the model already parsed, as
  `Args`.
- `File.expand_path` for the destination and report paths. Paths are used
  as given; only the crash on a missing destination value is modelled.
  `File.expand_path` also raises `ArgumentError` for either path when it
  starts with `~name` for an unknown user, or with `~` when no home
  directory can be found. The script then exits with status 1 and no
  effect, while the model runs the clone with the path as given.
- `Dir.chdir` raising for a destination that `mkdir -p` reported as created.
  That would be an uncaught exception outside the rescue, and the key file
  would not be removed.
- The key file's location (`$HOME/.ssh/bitrise`), `mkdir -p`, the write and
  `chmod 600`. Together they are one effect, `WriteKeyFile`, assumed to
  succeed; the `chmod` status is ignored by the script too. An unset `HOME`,
  which makes `File.join` raise in SSH mode, is not modelled.
- The `GIT_ASKPASS`/`GIT_SSH` environment and the path of the
  `ssh_no_prompt.sh` helper. Steps carry only the values that vary between
  runs.
- Shell quoting of the interpolated values in the `system` strings. Each step
  is modelled as receiving its value intact.
- The results of the clean-up commands (`rm -rf` after a failure, `rm -P` of
  the key). The script ignores both, and so does the model.
- GitClone.KeyFileRemovalAlwaysIssued: it promises that the removal command
  is issued, not that the key file is gone. `-P` is a BSD `rm` option
  (overwrite before deleting); GNU `rm` rejects it as invalid and keeps the
  file. On such systems `$HOME/.ssh/bitrise` outlives the run, and the script
  does not notice.
- Console logging (`puts` to standard output), including the printed options
  and error messages.
- How base64 decoding and URL parsing work inside. They are the parameters
  `decodeBase64` and `withUserinfo`.
- How `git log` produces its output. The two outputs are the inputs
  `headHash` and `lastLog`.
- TextLines.ExpandTemplate: it does not model escapes that start with `\k<`,
  which name a group the pattern does not have. `NoNamedReference` excludes
  every such escape; a `\k` not followed by `<` is copied as written.
- Report.ReportRoundTrip: it requires the chomped hash to be a single line.
  `git log --format=%H` prints one line, and a multi-line input cannot be
  told apart from the log header.

## Findings

| source | as written | input that shows it | evidently intended | confidence | as-written member | corrected member |
|---|---|---|---|---|---|---|
| git_clone.rb:157 | The prefix is pasted into the `gsub` replacement template (`prepend_with_string.to_s+'\&'`), so backslash escapes in the prefix are interpreted. | `"a".prepend_lines_with("\\&")` gives `"aa"` | Put the prefix text verbatim in front of every line, giving `"\\&a"`. | medium, not executed; the script itself only passes four spaces | TextLines.PrependLinesAsWrittenEscapes | TextLines.StripPrependRoundTrip |
