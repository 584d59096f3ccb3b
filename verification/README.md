# Prism CLI command rules in Dafny

Prism CLI is a Node.js command-line scaffolder. It has five commands:

- `init` creates a project from a template.
- `template` lists, describes and validates the templates.
- `git` assembles Conventional Commits messages, formats branch names and summarises `git status`.
- `lint` runs ESLint and Prettier.
- `config` edits the stored user configuration.

This project models the decisions these commands make and proves what they promise. Everything outside the process is an input to the model rather than an effect:

- the file system is a set of existing paths or a tree of entries;
- the prompts are the answers the user would give;
- the child processes are their settled results.

Modules:

- `Prelude`: `Option` and the `Validation` answer of a prompt validator.
- `Text`: the JavaScript string operations the commands use:
  - `trim` with the ECMAScript white-space set;
  - UTF-16 `length`;
  - ASCII `toLowerCase`;
  - `includes`;
  - global replacement of a literal pattern;
  - `split` and `join`.
- `FileTree`: directory entries in listing order.
- `Git` (dist/commands/git.js):
  - branch-name cleaning;
  - the commit-message assembly, with a decoder proved to be its inverse;
  - the subject validator;
  - the status labels;
  - the porcelain line split.
- `Init` (src/commands/init.ts):
  - the name validator;
  - the order in which the name, template and package manager are chosen;
  - `isTextFile` over `path.extname`;
  - placeholder substitution over all listed files;
  - the common-file selection;
  - the `node_modules` copy filter;
  - the recursive listing;
  - the next-steps table.
- `Config` (src/utils/config.ts): the configuration manager as a class. It keeps the reference sharing between the live configuration and the defaults, because the source shares the nested `project` object.
- `Templates` (src/commands/template.ts):
  - the template filter;
  - the list and info lines;
  - `validateTemplate` with its warnings;
  - the tree renderer, together with its line count and its depth bound.
- `Lint` (dist/commands/lint.js):
  - the configuration probe;
  - which tool runs;
  - how each tool's result is classified.

JavaScript's `toLowerCase` is modelled on ASCII letters only. For `isTextFile` this changes nothing. The only non-ASCII characters that lower-case to ASCII are the Kelvin sign, which lowers to `k`, and `İ`, which lowers to `i` plus a combining dot. No listed extension contains a `k`, and the combining dot is in no extension.

## Model

| member | source | states |
|---|---|---|
| Text.Trim | dist/commands/git.js:141-143 | `trim` gives the slice of the input left once a blank prefix and a blank suffix are removed; it is empty exactly for blank input, and otherwise neither starts nor ends with ECMAScript white space |
| Text.Utf16Length | dist/commands/git.js:207 | the UTF-16 length of a string lies between its number of code points and twice that number |
| Text.ContainsIff | src/commands/init.ts:181 | `includes` holds exactly when the pattern occurs at some index |
| Text.JoinSplit | dist/commands/git.js:143 | joining the pieces of `Split` with the separator gives back the text |
| Text.SplitPiecesFree | dist/commands/git.js:143 | no piece of `Split` contains the separator |
| Text.ReplaceAllIsSplitJoin | src/commands/init.ts:247-248 | `ReplaceAll`, the global literal replacement, cuts the text at every occurrence and joins the pieces with the replacement |
| Git.Sanitize | dist/commands/git.js:242 | each character outside `a-z0-9-` becomes a dash and every other character stays where it is, so the length is kept and only `a-z0-9-` remain |
| Git.SanitizeKeepsAlnums | dist/commands/git.js:241-242 | after lower-casing and sanitizing, the non-dash characters are exactly the input's ASCII letters and digits, lower-cased and in order |
| Git.Collapse | dist/commands/git.js:243 | collapsing dash runs leaves no `--`, keeps the first and last characters, and gives the empty text only for the empty text |
| Git.CollapseAddsNothing | dist/commands/git.js:243 | collapsing adds no character that was not in the text |
| Git.CollapseKeepsNonDashes | dist/commands/git.js:243 | collapsing removes dashes only: the non-dash characters stay, in order |
| Git.CollapseNoDoubleDash | dist/commands/git.js:243 | a text without `--` is unchanged by the collapsing |
| Git.TrimDashes | dist/commands/git.js:244 | removing one leading and one trailing dash keeps the non-dash characters in order and adds no new character |
| Git.TrimDashesEnds | dist/commands/git.js:244 | on a text without `--`, the result has no `--` and no dash at either end |
| Git.TrimDashesAround | dist/commands/git.js:244 | an optional dash in front of and an optional dash after a text that neither starts nor ends with a dash are removed, and nothing else |
| Git.Words | dist/commands/git.js:241-244 | the words of a text are non-empty runs of `a-z0-9`, and a text starting with a letter or digit has a first word starting with it |
| Git.WordsSanitize | dist/commands/git.js:242 | sanitizing changes no word: it only turns characters that are neither letters nor digits into dashes |
| Git.CollapseWords | dist/commands/git.js:243 | on a sanitized text, every run of dashes becomes one dash: the result is the words joined by single dashes, with one dash in front when the text starts with a dash and one after when it ends with one and has a word |
| Git.TrimDashesWords | dist/commands/git.js:243-244 | collapsing and then trimming a sanitized text leaves exactly its words joined by single dashes |
| Git.CleanNameWords | dist/commands/git.js:239-244 | the cleaned name is the maximal runs of ASCII letters and digits of the lower-cased name, joined by single dashes |
| Git.CleanName | dist/commands/git.js:239-244 | the cleaned name contains only `a-z`, `0-9` and `-`, has no `--` and no dash at either end, and its non-dash characters are the input's letters and digits, lower-cased and in order |
| Git.FormatBranchName | dist/commands/git.js:238-246 | the branch name is the type, a slash, then the name's runs of ASCII letters and digits, lower-cased and joined by single dashes; that part is clean and carries all the name's letters and digits |
| Git.CleanNameIdempotent | dist/commands/git.js:240-245 | an already clean name is returned unchanged |
| Git.CleanNameEmpty | dist/commands/git.js:240-245 | the cleaned name is empty exactly when the input has no ASCII letter or digit, so the branch is `type/` |
| Git.ValidateSubject | dist/commands/git.js:203-211 | a subject is accepted exactly when it is not blank and has at most 50 UTF-16 code units; a blank one gets the "empty" message |
| Git.CommitMessageShape | dist/commands/git.js:225-236 | the message starts with its header, ends with the breaking-change footer when flagged, and is the bare header without body or footer |
| Git.GetCommitMessage | dist/commands/git.js:225-236 | the successive appends build the type, the scope in parentheses only when non-empty, `: ` and the subject, then the body after a blank line only when non-empty, then the breaking-change footer only when flagged |
| Git.HeaderRoundTrip | dist/commands/git.js:225-229 | the header is read back into exactly the type, scope and subject it was built from |
| Git.BodyRoundTrip | dist/commands/git.js:230-235 | what follows the header is read back into the body and the breaking flag |
| Git.CommitMessageRoundTrip | dist/commands/git.js:225-236 | decoding the assembled message gives back the answers for every listed type, single-line scope and subject, and body not ending in the footer |
| Git.StatusText | dist/commands/git.js:247-257 | a code is shown as itself exactly when it has no label, and a labelled code gets one of the six labels |
| Git.StatusTextDistinguishes | dist/commands/git.js:247-257 | two porcelain status codes shown with the same text are the same code: the six labels are distinct and every other code is shown as itself |
| Git.SplitPorcelainLine | dist/commands/git.js:145-146 | the status is the first two characters, and on a line of three or more characters the line is status, one separator character, then the file name |
| Git.ParseLines | dist/commands/git.js:143-147 | each line is split on its own, in order |
| Git.StatusEntriesAsWritten | dist/commands/git.js:141-147 | the status action as written lists nothing exactly when the porcelain output is blank |
| Git.StatusEntries | dist/commands/git.js:141-147 | the corrected decoding gives one entry per non-empty line of the output, split into status and path, in order |
| Git.LeadingSpaceLostAsWritten | dist/commands/git.js:141-146 | as written, an output whose only line is an unstaged change `␠X PATH` (such as ` M README.md`) is shown as status `X␠` for the path without its first character (`M ` and `EADME.md`) |
| Git.LeadingSpaceKept | dist/commands/git.js:141-146 | the corrected decoding of the same output gives status `␠X` with the whole path |
| Git.LeadingSpaceLost | dist/commands/git.js:141-146 | both readings of the same output side by side |
| Git.StatusEntriesRoundTrip | dist/commands/git.js:141-149 | the corrected decoding of porcelain output gives back every entry, status code and path intact |
| Init.ValidateProjectName | src/commands/init.ts:57-65 | a prompted name is accepted exactly when it is not blank and made only of ASCII letters, digits, `-` and `_`; a blank one gets the "empty" message |
| Init.ResolveInit | src/commands/init.ts:50-125 | an argument name bypasses the prompt, a prompted name is valid, and an existing directory stops the action. An explicit template wins, then `--yes` takes the configured one, then the prompt, and the result is empty only if the configured one is. An explicit manager wins; otherwise `python` gets none, `--yes` gets `npm`, and the prompt is asked only for a non-python template without `--yes` |
| Init.LastIndexOf | src/commands/init.ts:279 | the index found holds the character and nothing after it does; None means the character is absent |
| Init.IncludesIff | src/commands/init.ts:280 | the front-to-back scan of `includes` holds exactly when the value is in the list |
| Init.ExtensionListedIff | src/commands/init.ts:276-281 | for any list of dot-and-lower-case-letter extensions, a path's lower-cased extension is listed exactly when its last component is longer than a listed extension and ends with it, ignoring ASCII case |
| Init.ExtNameShape | src/commands/init.ts:279 | `path.extname` gives `''` or a proper suffix of the last component that starts with its last dot and holds no other dot |
| Init.IsTextFileIff | src/commands/init.ts:273-281 | `IsTextFile` holds exactly when its last path component is longer than one of the 17 extensions and ends with it, ignoring ASCII case |
| Init.DotFileIsNotText | src/commands/init.ts:273-281 | a name whose only dot is its first character, such as `.gitignore`, has extension `''` and is not text |
| Init.SubstituteVariablesMeaning | src/commands/init.ts:247-248 | `SubstituteVariables` replaces every `{{projectName}}` is replaced by the name, then every `{{template}}` in the result by the template |
| Init.SubstituteWithoutPlaceholders | src/commands/init.ts:247-248 | text containing neither placeholder is written back unchanged |
| Init.ProcessedContents | src/commands/init.ts:240-251 | processing the listed files changes no file's presence: the same paths have contents afterwards |
| Init.ProcessedContentsPointwise | src/commands/init.ts:240-251 | processing the listed files in order, over a listing without repeats, substitutes each accepted file exactly once and leaves every other file alone |
| Init.ProcessedContentsMeaning | src/commands/init.ts:240-251 | over a listing without repeated paths, every listed file the test accepts gets the substitution and every other file keeps its content |
| Init.ProcessTemplateVariables | src/commands/init.ts:234-253 | the loop over the listing leaves the same files and the same contents as ProcessedContents with the text-file test |
| Init.PresentMembers | src/commands/init.ts:205-212 | a file is kept exactly when it is a candidate and exists |
| Init.CommonCandidatesPresent | src/commands/init.ts:205-231 | the files kept are the existing common files in their order, then `.github` if it exists, then `pnpm-workspace.yaml` for pnpm or `.yarnrc.yml` for yarn if it exists |
| Init.CopyCommonFiles | src/commands/init.ts:186-232 | nothing is copied without the common directory; otherwise the existing ones of the four common files, `.github`, and the manager's own file are copied, in that order |
| Init.ManagerFilesOnlyForTheirManager | src/commands/init.ts:220-231 | `pnpm-workspace.yaml` is copied exactly for `pnpm` when it exists, and `.yarnrc.yml` exactly for `yarn` |
| Init.RefusedBelowRefused | src/commands/init.ts:178-182 | below a path containing `node_modules`, every path contains it |
| Init.CopiedFilesAreAccepted | src/commands/init.ts:177-183 | `CopiedFiles`: copying with the filter, which skips a refused directory entirely, writes exactly the template files whose relative path does not contain `node_modules`, in listing order |
| Init.ListingIsFiles | src/commands/init.ts:255-271 | the recursive `Listing` holds exactly the paths of file entries at any depth, never a directory |
| Init.GetFilesRecursively | src/commands/init.ts:255-271 | the loop with its recursive calls returns the depth-first listing in directory order |
| Init.FindManager | src/commands/init.ts:294 | the manager found has the value asked for; None means no manager has it |
| Init.FindKnownManager | src/commands/init.ts:33-38 | the four manager values are distinct, so looking a listed manager up finds that manager |
| Init.NextStepsCases | src/commands/init.ts:283-303 | `NextSteps` is the heading and the `cd` line, then: for python the five venv and pip lines whatever the manager; for a listed manager `  ` and its install command, then `  `, its run command and ` dev`; for an unlisted one nothing more; without a manager `  npm install` and `  npm run dev` |
| Init.NoManagerMeansNpm | src/commands/init.ts:293-302 | without a package manager the steps are the same as with `npm` |
| Config.NewDefaultConfig | src/utils/config.ts:13-19 | the defaults are `react-ts`, `Your Name` and `MIT` |
| Config.ConfigManager.constructor | src/utils/config.ts:25-41 | the load is a shallow merge: a template key in the file overrides the default, and a `project` key replaces the whole project. Without a readable file the template is `react-ts` and the project is the defaults' own object |
| Config.ConfigManager.GetConfig | src/utils/config.ts:52-54 | a new top-level record whose `project` is the manager's own object |
| Config.ConfigManager.GetDefaultTemplate | src/utils/config.ts:56-58 | returns the live configuration's template |
| Config.ConfigManager.SetDefaultTemplate | src/utils/config.ts:60-63 | only the template changes; the project object and its fields are untouched |
| Config.ConfigManager.SetAuthor | src/utils/config.ts:65-68 | only the author of the current project object changes |
| Config.ConfigManager.SetLicense | src/utils/config.ts:70-73 | only the license of the current project object changes |
| Config.ConfigManager.ResetConfig | src/utils/config.ts:75-78 | the template is back to `react-ts`, but the project is the defaults' shared object with whatever was written into it |
| Config.ConfigManager.ResetToDefaults | src/utils/config.ts:75-78 | the corrected reset restores `react-ts`, `Your Name` and `MIT` in a fresh project |
| Config.AuthorAfterResetAsWritten | src/utils/config.ts:65-78 | with no configuration file, an author set before a reset is still there after it |
| Config.AuthorAfterReset | src/utils/config.ts:75-78 | with the corrected reset the author is `Your Name` again |
| Config.AuthorAfterResetWithFileProject | src/utils/config.ts:33-34 | a `project` key in the file gives the manager its own project object, so the shallow reset does give back `Your Name` |
| Templates.TemplateNamesAppend | src/commands/template.ts:55-57 | the filter keeps directory order |
| Templates.TemplateNamesMembership | src/commands/template.ts:55-57 | a name is listed exactly when it is a directory entry other than `common` |
| Templates.ListLine | src/commands/template.ts:69-79 | the line is the template name followed by ` - description` when the description is non-empty, and a bare trailing space otherwise |
| Templates.ListTemplates | src/commands/template.ts:47-81 | an error without the directory, a warning exactly when no template is found, otherwise a heading and one line per template in order |
| Templates.OrNone | src/commands/template.ts:112-113 | a missing or empty value shows as `无`, any other value as itself |
| Templates.InfoLines | src/commands/template.ts:109-131 | no lines without package.json, the error line for an unreadable one, and otherwise `描述: ` with the description and `版本: ` with the version, each shown through `OrNone` |
| Templates.ValidateTemplate | src/commands/template.ts:158-185 | valid exactly when `IsValidTemplate` holds, that is when package.json exists, parses and has a non-empty name and version, with the matching warning on each failure path |
| Templates.MissingPackageJsonInvalid | src/commands/template.ts:161-169 | without package.json a template is invalid, whatever the file would contain |
| Templates.TreeLines | src/commands/template.ts:187-214 | every line of the tree starts with the prefix it was called with |
| Templates.LinesUpTo | src/commands/template.ts:198-210 | every line of the first entries starts with the prefix |
| Templates.EntryLines | src/commands/template.ts:198-209 | an entry's first line is the prefix, `└── ` for the last sibling and `├── ` for the others, then the name; the lines below it start with the prefix |
| Templates.EntryLinesChildren | src/commands/template.ts:198-209 | below an entry's line come the tree lines of its contents, with the prefix extended by `    ` under the last sibling and by `│   ` under the others, one level deeper; a file or a directory at `maxDepth` has no lines below it |
| Templates.ShowDirectoryTree | src/commands/template.ts:187-214 | the indexed loop with its recursive calls prints exactly the tree lines |
| Templates.TreeLinesCount | src/commands/template.ts:193-209 | one line per entry within `maxDepth - depth` levels, and none once `depth > maxDepth` |
| Templates.TreeLinesIgnoresDeeper | src/commands/template.ts:193-209 | entries deeper than `maxDepth - depth` levels never change the drawing, so a call with `(0, 2)` shows three levels |
| Lint.CheckConfigFile | dist/commands/lint.js:98-113 | a configuration is found exactly when one of `name`, `name.js`, `name.json`, `name.yml` and `name.yaml` exists, and the one reported is the first of them that exists |
| Lint.EslintCommand | dist/commands/lint.js:160 | the command targets the path and ends with `--fix` exactly when fixing is asked for |
| Lint.RunEslintClassifies | dist/commands/lint.js:157-186 | for `RunEslint`, success is reported exactly when nothing else was printed, which needs empty stdout and an empty or `warning` stderr. A failure carrying stdout is reported, with the hint only without `--fix`; any other failure is rethrown |
| Lint.RunPrettierAsWrittenRules | dist/commands/lint.js:187-219 | in `RunPrettierAsWritten`, `--write` runs only with `--fix`, issues are shown only without it, a failed check is swallowed only when it carries output and `--fix` is off, and the check is clean exactly when it completes with empty stdout |
| Lint.FixNeverFormatsAsWritten | dist/commands/lint.js:209-217 | as written, with `--fix` a check failing with a list of unformatted files ends in the failure, and `--write` never runs |
| Lint.RunPrettierFixes | dist/commands/lint.js:192-217 | with the corrected failure path of `RunPrettier`, `--fix` and a successful write always end clean or formatted unless the check failed without output; without `--fix` it agrees with the code as written |
| Lint.LintAction | dist/commands/lint.js:55-97 | a missing path stops the run. With neither configuration, declining stops it, and accepting creates defaults but runs no tool. ESLint runs exactly when `--prettier-only` is absent and its configuration was found. Prettier runs exactly when `--eslint-only` is absent, its configuration was found and ESLint did not fail. Each tool's outcome is its runner's classification as written |

## Left out

- File-system effects are not modelled: reading, writing, copying, `ensureDir`, and `path.resolve`/`path.join` normalisation. Existence is a set of paths and directories are trees. `path.join` is plain concatenation with `/`.
- Prompts (`inquirer`), `commander` wiring, the spinner and the logger are not modelled. Prompt answers are inputs, and chalk colours in the status labels are dropped.
- Child processes are not modelled: `git`, `npx eslint` and `npx prettier`. Their settled results are inputs. The `git` command's own actions (commit, branch, log listing, repository check) are not modelled beyond the pure functions they call. The status action is modelled only by its decoding of the porcelain output.
- JSON is not parsed. A package.json or configuration file is modelled as the string fields the commands read, with `""` standing for a missing or falsy field. Non-string values are not modelled.
- `saveConfig` persistence, and the home-directory configuration path, are not modelled.
- Config.ConfigManager.constructor: a `project` object in the file is taken to carry both fields. Extra keys and partial project objects are not modelled.
- `String.prototype.replace` `$` patterns in the replacement text are not modelled: the name and template are inserted literally.
- `toLowerCase` is ASCII-only, as explained above.
- Init.ResolveInit: the choice prompts are taken to answer one of their listed values. The existence check is on the bare name rather than the resolved absolute path.
- Init.ProcessTemplateVariables: the files are given as a map from path to content rather than read through `Init.GetFilesRecursively`. Init.ProcessedContentsMeaning takes the listing without repeated paths, as a file-system listing is.
- The missing-template error of `copyTemplateFiles` is not modelled. Errors raised by the copy or by `createDefaultConfigs` are not modelled either.
- Git.CommitMessageRoundTrip: holds for answers whose type is listed, whose scope has no `)` and no line break, whose subject has no line break, and whose body does not end with the footer text. Other answers make the message ambiguous.
- Templates.InfoLines: the dependency and devDependency lists of `showTemplateInfo` are not modelled, nor is its path line.
- Templates.ShowDirectoryTree: a directory that cannot be read prints nothing in the source; the model has no unreadable directories. The per-template logging loop of `validateTemplates` and the template menu are not modelled.
- Lint.LintAction: failure of the default-configuration writes is not modelled. The final success message and `process.exit(1)` follow from the outcomes and are not modelled separately.

## Findings

| source | as written | input that shows it | evidently intended | confidence | as-written member | corrected member |
|---|---|---|---|---|---|---|
| dist/commands/git.js:141-146 | the whole porcelain output is trimmed before the split, so the first line's leading space, which is part of its status code, is removed | output ` M README.md` followed by a newline | status ` M` (shown as 修改) for `README.md` | high; not executed | Git.LeadingSpaceLostAsWritten | Git.StatusEntriesRoundTrip |
| src/utils/config.ts:75-76 | `{ ...DEFAULT_CONFIG }` copies only the top level, so the project object written by `setAuthor`/`setLicense` is the defaults' own and survives the reset | no configuration file, `setAuthor("Alice")`, then `resetConfig()`: the author is `Alice` | the author is `Your Name` again after a reset | medium; not executed | Config.AuthorAfterResetAsWritten | Config.AuthorAfterReset |
| dist/commands/lint.js:209-217 | with `--fix`, a failing `prettier --check` is rethrown even when it carries its output. The check fails precisely when it finds unformatted files, so `--write` never runs in the case it exists for | `--fix`, and the check fails with stdout `[warn] src/index.ts` | run `--write` and report the files formatted | medium; not executed | Lint.FixNeverFormatsAsWritten | Lint.RunPrettierFixes |
