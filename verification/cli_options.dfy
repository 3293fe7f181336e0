/**
 * The option table filled by the command-line parser, and the checks the
 * script applies to it before doing anything else (git_clone.rb:64-73, 101).
 */
module CliOptions {
  import opened Wrappers

  /** Every flag as the parser leaves it: absent, or present with a value that may be empty. */
  datatype Args = Args(
    repoUrl: Option<string>,
    branch: Option<string>,
    tag: Option<string>,
    commitHash: Option<string>,
    destDir: Option<string>,
    authUsername: Option<string>,
    authPassword: Option<string>,
    authSshRaw: Option<string>,
    authSshBase64: Option<string>,
    formattedOutputFile: Option<string>)

  /** Why the script stops with exit status 1 before any clone step. */
  datatype ScriptError =
    | UsageError        // no repository URL, or an empty one: usage text, `exit 1`
    | MissingDestDir    // `File.expand_path(nil)` raises when `--dest-dir` was not given a value
    | InvalidBase64Key  // strict base64 decoding of the key raises
    | InvalidRepoUrl    // the URL cannot be parsed, or refuses the credentials as its userinfo

  /** The script's `x and x.length > 0` test: the flag was given a non-empty value. */
  predicate Present(o: Option<string>)
  {
    o.Some? && |o.value| > 0
  }

  /** The options after validation: the URL and destination are known to be there. */
  datatype Config = Config(
    repoUrl: string,
    destDir: string,
    reportPath: Option<string>,
    commitHash: Option<string>,
    tag: Option<string>,
    branch: Option<string>,
    authUsername: Option<string>,
    authPassword: Option<string>,
    authSshRaw: Option<string>,
    authSshBase64: Option<string>)

  /** An empty report path means the same as no report path. */
  function NormalizeOutputPath(path: Option<string>): (r: Option<string>)
    ensures r.Some? <==> Present(path)
    ensures r.Some? ==> r == path
  {
    if path.Some? && |path.value| < 1 then None else path
  }

  /**
   * Validation in the order the script performs it: the URL check comes
   * first (and happens whatever else was given), then the destination path
   * expansion; of the expansion's failures only the missing value is modelled.
   */
  function Configure(args: Args): (r: Result<Config, ScriptError>)
    ensures r == Failure(UsageError) <==> !Present(args.repoUrl)
    ensures r == Failure(MissingDestDir) <==> Present(args.repoUrl) && args.destDir.None?
    ensures r.Failure? ==> r.error == UsageError || r.error == MissingDestDir
    ensures r.Success? ==>
      && Some(r.value.repoUrl) == args.repoUrl && |r.value.repoUrl| > 0
      && Some(r.value.destDir) == args.destDir
      && (r.value.reportPath.Some? <==> Present(args.formattedOutputFile))
      && (r.value.reportPath.Some? ==> r.value.reportPath == args.formattedOutputFile)
      && r.value.commitHash == args.commitHash
      && r.value.tag == args.tag
      && r.value.branch == args.branch
      && r.value.authUsername == args.authUsername
      && r.value.authPassword == args.authPassword
      && r.value.authSshRaw == args.authSshRaw
      && r.value.authSshBase64 == args.authSshBase64
  {
    var reportPath := NormalizeOutputPath(args.formattedOutputFile);
    if !(args.repoUrl.Some? && |args.repoUrl.value| > 0) then
      Failure(UsageError)
    else if args.destDir.None? then
      Failure(MissingDestDir)
    else
      Success(Config(args.repoUrl.value, args.destDir.value, reportPath,
                     args.commitHash, args.tag, args.branch,
                     args.authUsername, args.authPassword,
                     args.authSshRaw, args.authSshBase64))
  }
}
