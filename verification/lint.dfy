/** The orchestration rules of the lint command (dist/commands/lint.js): where
    the ESLint and Prettier configurations are looked for, which tool runs, and
    how each tool's process result is turned into what the user sees. The
    processes themselves are not modelled: their results are inputs. */
module Lint {
  import opened Prelude
  import opened Text
  import opened FileTree

  // ===========================================================================
  // Finding a configuration
  // ===========================================================================

  /** The paths checkConfigFile probes, in order. */
  function ConfigCandidates(target: string, configName: string): seq<string>
  {
    [ JoinPath(target, configName),
      JoinPath(target, configName + ".js"),
      JoinPath(target, configName + ".json"),
      JoinPath(target, configName + ".yml"),
      JoinPath(target, configName + ".yaml") ]
  }

  /** Some candidate exists. */
  predicate HasConfig(existing: set<string>, target: string, configName: string)
  {
    exists i :: 0 <= i < 5 && ConfigCandidates(target, configName)[i] in existing
  }

  /** checkConfigFile: probe the candidates in order and stop at the first one
      that exists, which is also the file it reports. */
  method CheckConfigFile(existing: set<string>, target: string, configName: string)
    returns (found: Option<string>)
    ensures found.Some? <==> HasConfig(existing, target, configName)
    ensures found.Some? ==>
      exists i :: 0 <= i < 5 && found.value == ConfigCandidates(target, configName)[i]
        && found.value in existing
        && forall j :: 0 <= j < i ==> ConfigCandidates(target, configName)[j] !in existing
  {
    var files := ConfigCandidates(target, configName);
    for i := 0 to |files|
      invariant forall j :: 0 <= j < i ==> files[j] !in existing
    {
      if files[i] in existing {
        return Some(files[i]);
      }
    }
    return None;
  }

  // ===========================================================================
  // Running the tools
  // ===========================================================================

  /** The settlement of one `exec` call: it completed with its output streams,
      or it rejected with an error that may carry the process's stdout. */
  datatype ExecResult =
    | Completed(stdout: string, stderr: string)
    | Failed(message: string, output: Option<string>)

  /** The ESLint command line. */
  function EslintCommand(target: string, fix: bool): (command: string)
    ensures StartsWith(command, "npx eslint \"" + target)
    ensures EndsWith(command, "--fix") <==> fix
  {
    var command := "npx eslint \"" + target + "/**/*.{js,ts,jsx,tsx}\" " + (if fix then "--fix" else "");
    assert command[..|"npx eslint \"" + target|] == "npx eslint \"" + target;
    assert !fix ==> command[|command| - 1] == ' ';
    command
  }

  /** What runESLint shows: the results and the errors it printed and whether it
      reported success; or, for a failed run with output, the problems found and
      whether the `--fix` hint was given; or the error it rethrows. */
  datatype EslintOutcome =
    | EslintRan(results: Option<string>, errors: Option<string>, passed: bool)
    | EslintProblems(output: string, fixHint: bool)
    | EslintFailed(message: string)

  /** runESLint over the result of its command. */
  function RunEslint(fix: bool, result: ExecResult): (r: EslintOutcome)
  {
    match result
    case Completed(stdout, stderr) =>
      EslintRan(if stdout != "" then Some(stdout) else None,
                if stderr != "" && !Contains(stderr, "warning") then Some(stderr) else None,
                stdout == "" && (stderr == "" || Contains(stderr, "warning")))
    case Failed(message, Some(stdout)) => EslintProblems(stdout, !fix)
    case Failed(message, None) => EslintFailed("ESLint执行失败: " + message)
  }

  /** Success is reported exactly when nothing else was printed; a failure with
      output is reported, never rethrown; any other failure is rethrown. */
  lemma RunEslintClassifies(fix: bool, result: ExecResult)
    ensures result.Completed? ==> RunEslint(fix, result).EslintRan?
    ensures RunEslint(fix, result).EslintRan? ==>
      (RunEslint(fix, result).passed <==>
         RunEslint(fix, result).results.None? && RunEslint(fix, result).errors.None?)
    ensures RunEslint(fix, result).EslintRan? && RunEslint(fix, result).passed ==>
      result.stdout == "" && (result.stderr == "" || Contains(result.stderr, "warning"))
    ensures result.Failed? ==> (RunEslint(fix, result).EslintProblems? <==> result.output.Some?)
    ensures RunEslint(fix, result).EslintProblems? ==> (RunEslint(fix, result).fixHint <==> !fix)
    ensures RunEslint(fix, result).EslintFailed? <==> result.Failed? && result.output.None?
  {
  }

  /** What runPrettier shows: a clean check, a completed `--write`, the
      formatting issues with the `--fix` hint, or the error it rethrows. */
  datatype PrettierOutcome =
    | PrettierClean
    | PrettierFormatted
    | PrettierIssues(output: string)
    | PrettierFailed(message: string)

  /** The result of the `--write` run, or the error it rethrows. */
  function AfterWrite(write: ExecResult): PrettierOutcome
  {
    match write
    case Completed(_, _) => PrettierFormatted
    case Failed(message, _) => PrettierFailed("Prettier执行失败: " + message)
  }

  /** runPrettier as written, over the result of `--check` and of the
      `--write` it may start. A check that fails while carrying its output is
      rethrown when fixing is asked for, so `--write` never runs then. */
  function RunPrettierAsWritten(fix: bool, check: ExecResult, write: ExecResult): PrettierOutcome
  {
    match check
    case Completed(stdout, _) =>
      if stdout == "" then PrettierClean
      else if fix then AfterWrite(write)
      else PrettierIssues(stdout)
    case Failed(message, output) =>
      if output.Some? && !fix then PrettierIssues(output.value)
      else PrettierFailed("Prettier执行失败: " + message)
  }

  /** The rules of the code as written: `--write` only with `--fix`, issues are
      shown only without it, and a failed check is swallowed only when it carries
      its output and `--fix` is off. */
  lemma RunPrettierAsWrittenRules(fix: bool, check: ExecResult, write: ExecResult)
    ensures RunPrettierAsWritten(fix, check, write) == PrettierFormatted ==> fix && check.Completed?
    ensures RunPrettierAsWritten(fix, check, write).PrettierIssues? ==> !fix
    ensures check.Failed? ==>
      (!RunPrettierAsWritten(fix, check, write).PrettierFailed? <==> check.output.Some? && !fix)
    ensures RunPrettierAsWritten(fix, check, write) == PrettierClean <==> check.Completed? && check.stdout == ""
  {
  }

  /** `prettier --check` exits with an error when it finds unformatted files,
      and the error carries the list. With `--fix` the run then fails, and the
      `--write` that would have succeeded is never started. */
  lemma FixNeverFormatsAsWritten()
    ensures RunPrettierAsWritten(true, Failed("Command failed", Some("[warn] src/index.ts")), Completed("", ""))
            == PrettierFailed("Prettier执行失败: Command failed")
  {
  }

  /** runPrettier with the failure path completed as the comment on the fix
      branch intends: a failed check that carries its output is formatted with
      `--write` when fixing is asked for. */
  function RunPrettier(fix: bool, check: ExecResult, write: ExecResult): PrettierOutcome
  {
    match check
    case Completed(stdout, _) =>
      if stdout == "" then PrettierClean
      else if fix then AfterWrite(write)
      else PrettierIssues(stdout)
    case Failed(message, output) =>
      if output.Some? && fix then AfterWrite(write)
      else if output.Some? then PrettierIssues(output.value)
      else PrettierFailed("Prettier执行失败: " + message)
  }

  /** With `--fix` and a `--write` that succeeds, whatever the check said about
      the files ends in clean or formatted files; the only failure left is a
      check that failed without any output. Without `--fix` it agrees with the
      code as written. */
  lemma RunPrettierFixes(fix: bool, check: ExecResult, write: ExecResult)
    ensures fix && write.Completed? && !(check.Failed? && check.output.None?) ==>
      RunPrettier(fix, check, write) in {PrettierClean, PrettierFormatted}
    ensures !fix ==> RunPrettier(fix, check, write) == RunPrettierAsWritten(fix, check, write)
    ensures check.Completed? ==> RunPrettier(fix, check, write) == RunPrettierAsWritten(fix, check, write)
  {
  }

  // ===========================================================================
  // The action
  // ===========================================================================

  /** The command-line options; `path` is already resolved. */
  datatype LintOptions = LintOptions(fix: bool, path: string, eslintOnly: bool, prettierOnly: bool)

  /** How a run of the lint command ends. `eslint` and `prettier` are present
      exactly when that tool ran. */
  datatype LintRun =
    | PathMissing
    | Declined
    | Finished(createdDefaults: bool, eslint: Option<EslintOutcome>, prettier: Option<PrettierOutcome>)

  /** The lint action: the path check, the two configuration probes, the offer to
      create default configurations, then ESLint and Prettier as gated by the
      flags computed before the offer. A rethrown ESLint failure ends the run
      before Prettier. */
  method LintAction(options: LintOptions, pathExists: bool, existing: set<string>, createConfig: bool,
                    eslintResult: ExecResult, prettierCheck: ExecResult, prettierWrite: ExecResult)
    returns (run: LintRun)
    ensures !pathExists <==> run == PathMissing
    ensures pathExists && !HasConfig(existing, options.path, ".eslintrc") && !HasConfig(existing, options.path, ".prettierrc")
            ==> run == (if createConfig then Finished(true, None, None) else Declined)
    ensures run.Declined? ==> !createConfig
    ensures run.Finished? ==>
      && (run.createdDefaults <==> !HasConfig(existing, options.path, ".eslintrc") && !HasConfig(existing, options.path, ".prettierrc"))
      && (run.eslint.Some? <==> !options.prettierOnly && HasConfig(existing, options.path, ".eslintrc"))
      && (run.eslint.Some? ==> run.eslint.value == RunEslint(options.fix, eslintResult))
      && (run.prettier.Some? <==>
            !options.eslintOnly && HasConfig(existing, options.path, ".prettierrc")
            && !(run.eslint.Some? && run.eslint.value.EslintFailed?))
      && (run.prettier.Some? ==> run.prettier.value == RunPrettierAsWritten(options.fix, prettierCheck, prettierWrite))
  {
    if !pathExists {
      return PathMissing;
    }
    var eslintConfig := CheckConfigFile(existing, options.path, ".eslintrc");
    var prettierConfig := CheckConfigFile(existing, options.path, ".prettierrc");
    var hasEslintConfig := eslintConfig.Some?;
    var hasPrettierConfig := prettierConfig.Some?;
    var created := false;
    if !hasEslintConfig && !hasPrettierConfig {
      if createConfig {
        created := true;
      } else {
        return Declined;
      }
    }
    var eslint: Option<EslintOutcome> := None;
    var prettier: Option<PrettierOutcome> := None;
    if !options.prettierOnly && hasEslintConfig {
      eslint := Some(RunEslint(options.fix, eslintResult));
      if eslint.value.EslintFailed? {
        return Finished(created, eslint, None);
      }
    }
    if !options.eslintOnly && hasPrettierConfig {
      prettier := Some(RunPrettierAsWritten(options.fix, prettierCheck, prettierWrite));
    }
    return Finished(created, eslint, prettier);
  }
}
