/** The rules of project initialisation (src/commands/init.ts): the name
    validator, how the template and the package manager are chosen, which
    files are treated as text and how placeholders are substituted in them,
    which common files are copied, the copy filter, the recursive listing and
    the closing "next steps" table. */
module Init {
  import opened Prelude
  import opened Text
  import opened FileTree

  // ===========================================================================
  // Project name
  // ===========================================================================

  /** The characters of `/^[a-zA-Z0-9-_]+$/`. */
  predicate IsNameChar(c: char) { IsAsciiAlnum(c) || c == '-' || c == '_' }

  /** The name prompt's `validate`: a blank name is refused first, then any
      name with a character other than ASCII letters, digits, `-` and `_`. */
  function ValidateProjectName(input: string): (v: Validation)
    ensures v == Accepted <==> !IsBlank(input) && forall i :: 0 <= i < |input| ==> IsNameChar(input[i])
    ensures IsBlank(input) ==> v == Rejected("项目名称不能为空")
  {
    if Trim(input) == [] then Rejected("项目名称不能为空")
    else if !(|input| > 0 && forall i :: 0 <= i < |input| ==> IsNameChar(input[i])) then
      Rejected("项目名称只能包含字母、数字、连字符和下划线")
    else
      assert !IsJsWhitespace(input[0]);
      Accepted
  }

  // ===========================================================================
  // Choosing the name, the template and the package manager
  // ===========================================================================

  /** The template values of the template prompt. */
  const TemplateValues: seq<string> := ["react-ts", "vue-ts", "node-ts", "express-ts", "python"]

  /** A package manager choice with the commands the next steps show. */
  datatype PackageManager = PackageManager(value: string, installCommand: string, runCommand: string)

  const PackageManagers: seq<PackageManager> := [
    PackageManager("npm", "npm install", "npm run"),
    PackageManager("yarn", "yarn install", "yarn"),
    PackageManager("pnpm", "pnpm install", "pnpm"),
    PackageManager("bun", "bun install", "bun run")
  ]

  /** The command-line options; an option that was not given is the empty string,
      which the action treats exactly like a missing one. */
  datatype InitOptions = InitOptions(template: string, packageManager: string, yes: bool)

  /** What the user would answer to each prompt if it were asked. */
  datatype PromptAnswers = PromptAnswers(projectName: string, template: string, packageManager: string)

  /** The outcome of the action's decisions before any file is written. */
  datatype InitPlan =
    | AlreadyExists(name: string, askedName: bool)
    | Generate(name: string, template: string, packageManager: string,
               askedName: bool, askedTemplate: bool, askedManager: bool)

  /** The decisions of the init action, in its order: the name (prompted only
      when no argument is given), the existence check, the template, the package
      manager and the final fallback of an empty template to the configured one. */
  method ResolveInit(arg: string, options: InitOptions, configuredTemplate: string,
                     answers: PromptAnswers, existing: set<string>)
    returns (plan: InitPlan)
    requires arg == "" ==> ValidateProjectName(answers.projectName) == Accepted
    requires answers.template in TemplateValues
    requires exists m :: m in PackageManagers && m.value == answers.packageManager
    ensures plan.name == (if arg != "" then arg else answers.projectName)
    ensures plan.askedName <==> arg == ""
    ensures arg == "" ==> forall i :: 0 <= i < |plan.name| ==> IsNameChar(plan.name[i])
    ensures plan.AlreadyExists? <==> plan.name in existing
    ensures plan.Generate? ==>
      && (options.template != "" ==> plan.template == options.template)
      && (options.template == "" && options.yes ==> plan.template == configuredTemplate)
      && (options.template == "" && !options.yes ==> plan.template == answers.template)
      && (plan.template == "" ==> configuredTemplate == "")
      && (plan.askedTemplate <==> options.template == "" && !options.yes)
    ensures plan.Generate? ==>
      && (options.packageManager != "" ==> plan.packageManager == options.packageManager)
      && (options.packageManager == "" && plan.template == "python" ==> plan.packageManager == "")
      && (options.packageManager == "" && plan.template != "python" && options.yes ==> plan.packageManager == "npm")
      && (options.packageManager == "" && plan.template != "python" && !options.yes ==>
            plan.packageManager == answers.packageManager)
      && (plan.askedManager <==> options.packageManager == "" && !options.yes && plan.template != "python")
  {
    var projectName := arg;
    var askedName := false;
    if projectName == "" {
      askedName := true;
      projectName := answers.projectName;
    }
    if projectName in existing {
      return AlreadyExists(projectName, askedName);
    }
    var template := options.template;
    var askedTemplate := false;
    if template == "" && !options.yes {
      askedTemplate := true;
      template := answers.template;
    } else if template == "" {
      template := configuredTemplate;
    }
    var packageManager := options.packageManager;
    var askedManager := false;
    if packageManager == "" && !options.yes && template != "python" {
      askedManager := true;
      packageManager := answers.packageManager;
    } else if packageManager == "" && template != "python" {
      packageManager := "npm";
    }
    if template == "" {
      template := configuredTemplate;
    }
    plan := Generate(projectName, template, packageManager, askedName, askedTemplate, askedManager);
  }

  // ===========================================================================
  // Text files and placeholder substitution
  // ===========================================================================

  /** The extensions isTextFile accepts. */
  const TextExtensions: seq<string> := [
    ".js", ".ts", ".jsx", ".tsx", ".vue", ".py", ".json", ".md", ".txt",
    ".html", ".css", ".scss", ".sass", ".less", ".yml", ".yaml", ".xml"
  ]

  /** The index of the last `c` in `s`. */
  function LastIndexOf(s: string, c: char): (r: Option<nat>)
    ensures r.None? ==> c !in s
    ensures r.Some? ==> r.value < |s| && s[r.value] == c
    ensures r.Some? ==> forall i :: r.value < i < |s| ==> s[i] != c
  {
    if s == [] then None
    else if s[|s| - 1] == c then Some(|s| - 1)
    else
      var r := LastIndexOf(s[..|s| - 1], c);
      if r.None? then
        assert s == s[..|s| - 1] + [s[|s| - 1]];
        None
      else
        r
  }

  /** A `c` with no `c` after it is the one LastIndexOf finds. */
  lemma {:induction false} LastIndexOfIs(s: string, c: char, k: nat)
    requires k < |s| && s[k] == c
    requires forall i :: k < i < |s| ==> s[i] != c
    ensures LastIndexOf(s, c) == Some(k)
  {
    if k < |s| - 1 {
      assert s[|s| - 1] != c;
      LastIndexOfIs(s[..|s| - 1], c, k);
    }
  }

  /** `s` without its trailing slashes. */
  function StripTrailingSlashes(s: string): (r: string)
    ensures |r| <= |s| && r == s[..|r|]
    ensures r == [] || r[|r| - 1] != '/'
  {
    if s != [] && s[|s| - 1] == '/' then StripTrailingSlashes(s[..|s| - 1]) else s
  }

  /** The last path component, as `path.basename` gives it. */
  function BaseName(p: string): (b: string)
    ensures '/' !in b
  {
    var t := StripTrailingSlashes(p);
    match LastIndexOf(t, '/')
    case None => t
    case Some(k) => t[k + 1..]
  }

  /** `path.extname`: from the last dot of the last component, or `''` when that
      component has no dot, starts with its only counted dot, or is `..`. */
  function ExtName(p: string): string
  {
    var b := BaseName(p);
    match LastIndexOf(b, '.')
    case None => ""
    case Some(k) => if k == 0 || b == ".." then "" else b[k..]
  }

  /** A non-empty extension is a proper suffix of the last component that starts
      with its last dot. */
  lemma ExtNameShape(p: string)
    ensures var r := ExtName(p); var b := BaseName(p);
            r == [] || (r[0] == '.' && '.' !in r[1..] && |r| < |b| && r == b[|b| - |r|..])
  {
  }

  /** isTextFile: the lower-cased extension is one of the listed ones. */
  predicate IsTextFile(p: string)
  {
    Includes(TextExtensions, Lower(ExtName(p)))
  }

  /** `list.includes(x)`, scanning from the front. */
  predicate Includes(list: seq<string>, x: string)
  {
    list != [] && (list[0] == x || Includes(list[1..], x))
  }

  lemma {:induction false} IncludesIff(list: seq<string>, x: string)
    ensures Includes(list, x) <==> x in list
  {
    if list != [] {
      IncludesIff(list[1..], x);
      assert list == [list[0]] + list[1..];
    }
  }

  /** Every listed extension is a dot followed by lower-case letters. */
  predicate IsExtensionShape(e: string)
  {
    |e| >= 2 && e[0] == '.' && forall i :: 1 <= i < |e| ==> 'a' <= e[i] <= 'z'
  }

  lemma TextExtensionsShape()
    ensures forall e :: e in TextExtensions ==> IsExtensionShape(e)
  {
  }

  /** A suffix `e` of `b`, a dot followed by letters in any ASCII case, is the
      extension of any path whose last component is `b`. */
  lemma ExtensionOfSuffix(p: string, e: string)
    requires IsExtensionShape(e)
    requires |e| < |BaseName(p)| && Lower(BaseName(p)[|BaseName(p)| - |e|..]) == e
    ensures ExtName(p) == BaseName(p)[|BaseName(p)| - |e|..]
  {
    var b := BaseName(p);
    var k := |b| - |e|;
    assert b[k] == '.' by {
      assert Lower(b[k..])[0] == LowerChar(b[k]);
    }
    forall i | k < i < |b| ensures b[i] != '.' {
      assert Lower(b[k..])[i - k] == LowerChar(b[i]);
    }
    LastIndexOfIs(b, '.', k);
    assert b != ".." by {
      assert |b| > |e| >= 2;
      assert b[|b| - 1] != '.';
    }
  }

  /** For any list of extensions of that shape, the lower-cased extension of a
      path is listed exactly when its last component, longer than some listed
      extension, ends with it up to ASCII case. */
  lemma ExtensionListedIff(p: string, exts: seq<string>)
    requires forall e :: e in exts ==> IsExtensionShape(e)
    ensures Lower(ExtName(p)) in exts <==>
      exists e :: e in exts && |e| < |BaseName(p)| && Lower(BaseName(p)[|BaseName(p)| - |e|..]) == e
  {
    var b := BaseName(p);
    if Lower(ExtName(p)) in exts {
      var x := ExtName(p);
      assert IsExtensionShape(Lower(x));
      assert |x| >= 2;
      var r := LastIndexOf(b, '.');
      assert r.Some?;
      var k := r.value;
      assert k != 0 && b != "..";
      assert x == b[k..];
      assert b[|b| - |Lower(x)|..] == x;
    }
    forall e | e in exts && |e| < |b| && Lower(b[|b| - |e|..]) == e
      ensures Lower(ExtName(p)) in exts
    {
      ExtensionOfSuffix(p, e);
    }
  }

  /** A file is text exactly when its name, longer than the extension, ends
      with one of the listed extensions, ignoring ASCII case. Leading-dot names
      such as `.gitignore` and names without a dot are therefore never text. */
  lemma IsTextFileIff(p: string)
    ensures IsTextFile(p) <==>
      exists e :: e in TextExtensions && |e| < |BaseName(p)|
                  && Lower(BaseName(p)[|BaseName(p)| - |e|..]) == e
  {
    TextExtensionsShape();
    IncludesIff(TextExtensions, Lower(ExtName(p)));
    ExtensionListedIff(p, TextExtensions);
  }

  /** A name whose only dot is its first character has no extension and is not text. */
  lemma DotFileIsNotText(p: string)
    requires BaseName(p) != [] && BaseName(p)[0] == '.' && '.' !in BaseName(p)[1..]
    ensures ExtName(p) == "" && !IsTextFile(p)
  {
    DotFileHasNoExtension(p);
    NoExtensionIsNotText(p);
  }

  lemma DotFileHasNoExtension(p: string)
    requires BaseName(p) != [] && BaseName(p)[0] == '.' && '.' !in BaseName(p)[1..]
    ensures ExtName(p) == ""
  {
    var b := BaseName(p);
    forall i | 0 < i < |b| ensures b[i] != '.' {
      assert b[i] == b[1..][i - 1];
    }
    LastIndexOfIs(b, '.', 0);
  }

  /** Without an extension a file is not text. */
  lemma NoExtensionIsNotText(p: string)
    requires ExtName(p) == ""
    ensures !IsTextFile(p)
  {
    assert Lower("") == "";
    IncludesIff(TextExtensions, "");
    TextExtensionsShape();
    assert !IsExtensionShape("");
  }

  const ProjectNamePlaceholder: string := "{{projectName}}"
  const TemplatePlaceholder: string := "{{template}}"

  /** The two replacements processTemplateVariables makes in a text file. */
  function SubstituteVariables(content: string, projectName: string, template: string): string
  {
    ReplaceAll(ReplaceAll(content, ProjectNamePlaceholder, projectName), TemplatePlaceholder, template)
  }

  /** The substitution cuts the text at every `{{projectName}}` and fills in the
      name, then does the same for `{{template}}`. */
  lemma SubstituteVariablesMeaning(content: string, projectName: string, template: string)
    ensures SubstituteVariables(content, projectName, template)
            == Join(Split(Join(Split(content, ProjectNamePlaceholder), projectName), TemplatePlaceholder), template)
  {
    ReplaceAllIsSplitJoin(content, ProjectNamePlaceholder, projectName);
    ReplaceAllIsSplitJoin(ReplaceAll(content, ProjectNamePlaceholder, projectName), TemplatePlaceholder, template);
  }

  /** Text containing neither placeholder is written back unchanged. */
  lemma SubstituteWithoutPlaceholders(content: string, projectName: string, template: string)
    requires !Contains(content, ProjectNamePlaceholder) && !Contains(content, TemplatePlaceholder)
    ensures SubstituteVariables(content, projectName, template) == content
  {
    ReplaceAllNoMatch(content, ProjectNamePlaceholder, projectName);
    ReplaceAllNoMatch(content, TemplatePlaceholder, template);
  }

  /** The file contents after processing the listed files in order: each file
      that `isText` accepts gets the substitution applied to its current content. */
  function ProcessedContents(contents: map<string, string>, files: seq<string>, isText: string -> bool,
                             projectName: string, template: string): (m: map<string, string>)
    requires forall i :: 0 <= i < |files| ==> files[i] in contents
    ensures m.Keys == contents.Keys
  {
    if files == [] then contents
    else
      var m := ProcessedContents(contents, files[..|files| - 1], isText, projectName, template);
      var file := files[|files| - 1];
      if isText(file) then m[file := SubstituteVariables(m[file], projectName, template)] else m
  }

  /** Over a listing without repeated paths, every listed accepted file gets the
      substitution once and every other file keeps its content. */
  lemma {:induction false} ProcessedContentsPointwise(contents: map<string, string>, files: seq<string>,
                                                      isText: string -> bool,
                                                      projectName: string, template: string, p: string)
    requires forall i :: 0 <= i < |files| ==> files[i] in contents
    requires forall i, j :: 0 <= i < j < |files| ==> files[i] != files[j]
    requires p in contents
    ensures ProcessedContents(contents, files, isText, projectName, template)[p]
            == if p in files && isText(p) then SubstituteVariables(contents[p], projectName, template)
               else contents[p]
  {
    if files != [] {
      var front := files[..|files| - 1];
      var last := files[|files| - 1];
      var m := ProcessedContents(contents, front, isText, projectName, template);
      ProcessedContentsPointwise(contents, front, isText, projectName, template, p);
      assert files == front + [last];
      assert p in files <==> p in front || p == last;
      if p == last {
        assert p !in front by {
          forall j | 0 <= j < |front| ensures front[j] != p {
            assert front[j] == files[j];
          }
        }
        assert m[p] == contents[p];
      } else {
        assert ProcessedContents(contents, files, isText, projectName, template)[p] == m[p];
      }
    }
  }

  /** processTemplateVariables over file contents: the loop reads, substitutes
      and writes back each listed text file. */
  method ProcessTemplateVariables(contents: map<string, string>, files: seq<string>,
                                  projectName: string, template: string)
    returns (result: map<string, string>)
    requires forall i :: 0 <= i < |files| ==> files[i] in contents
    ensures result.Keys == contents.Keys
    ensures result == ProcessedContents(contents, files, IsTextFile, projectName, template)
  {
    result := contents;
    for i := 0 to |files|
      invariant result == ProcessedContents(contents, files[..i], IsTextFile, projectName, template)
    {
      var file := files[i];
      assert files[..i + 1][..i] == files[..i];
      if IsTextFile(file) {
        var content := result[file];
        content := ReplaceAll(content, ProjectNamePlaceholder, projectName);
        content := ReplaceAll(content, TemplatePlaceholder, template);
        result := result[file := content];
      }
    }
    assert files[..|files|] == files;
  }

  /** Processing a listing without repeated paths substitutes every listed
      file that `isText` accepts and leaves every other file as it was; with
      `isText` the text-file test this is what ProcessTemplateVariables
      writes. */
  lemma ProcessedContentsMeaning(contents: map<string, string>, files: seq<string>, isText: string -> bool,
                                 projectName: string, template: string)
    requires forall i :: 0 <= i < |files| ==> files[i] in contents
    requires forall i, j :: 0 <= i < j < |files| ==> files[i] != files[j]
    ensures forall p :: p in contents ==>
      ProcessedContents(contents, files, isText, projectName, template)[p]
      == if p in files && isText(p) then SubstituteVariables(contents[p], projectName, template) else contents[p]
  {
    forall p | p in contents
      ensures ProcessedContents(contents, files, isText, projectName, template)[p]
              == if p in files && isText(p) then SubstituteVariables(contents[p], projectName, template) else contents[p]
    {
      ProcessedContentsPointwise(contents, files, isText, projectName, template, p);
    }
  }

  // ===========================================================================
  // Copying the template
  // ===========================================================================

  /** The common files copyCommonFiles tries, in order. */
  const CommonFiles: seq<string> := [".gitignore", ".editorconfig", ".eslintrc.json", ".prettierrc"]

  /** Everything copyCommonFiles may copy for a package manager, in its order:
      the four common files, the `.github` workflows, then the manager's own file. */
  function CommonCandidates(packageManager: string): seq<string>
  {
    CommonFiles + [".github"]
    + (if packageManager == "pnpm" then ["pnpm-workspace.yaml"]
       else if packageManager == "yarn" then [".yarnrc.yml"]
       else [])
  }

  /** The candidates that exist, in order. */
  function Present(candidates: seq<string>, available: set<string>): seq<string>
  {
    if candidates == [] then []
    else
      var last := candidates[|candidates| - 1];
      Present(candidates[..|candidates| - 1], available) + (if last in available then [last] else [])
  }

  /** The existing candidates are exactly the candidates that exist. */
  lemma {:induction false} PresentMembers(candidates: seq<string>, available: set<string>)
    ensures forall f :: f in Present(candidates, available) <==> f in candidates && f in available
  {
    if candidates != [] {
      var last := candidates[|candidates| - 1];
      PresentMembers(candidates[..|candidates| - 1], available);
      assert candidates == candidates[..|candidates| - 1] + [last];
    }
  }

  /** copyCommonFiles: nothing when the common directory is missing; otherwise
      each existing candidate, in order. */
  method CopyCommonFiles(commonExists: bool, available: set<string>, packageManager: string)
    returns (copied: seq<string>)
    ensures !commonExists ==> copied == []
    ensures commonExists ==> copied == Present(CommonCandidates(packageManager), available)
  {
    copied := [];
    if !commonExists {
      return;
    }
    for i := 0 to |CommonFiles|
      invariant copied == Present(CommonFiles[..i], available)
    {
      var file := CommonFiles[i];
      assert CommonFiles[..i + 1][..i] == CommonFiles[..i];
      if file in available {
        copied := copied + [file];
      }
    }
    assert CommonFiles[..|CommonFiles|] == CommonFiles;
    CommonCandidatesPresent(packageManager, available);
    if ".github" in available {
      copied := copied + [".github"];
    }
    if packageManager == "pnpm" {
      if "pnpm-workspace.yaml" in available {
        copied := copied + ["pnpm-workspace.yaml"];
      }
    } else if packageManager == "yarn" {
      if ".yarnrc.yml" in available {
        copied := copied + [".yarnrc.yml"];
      }
    }
  }

  /** The existing candidates: the existing common files, then `.github` and
      the manager's own file when they exist. */
  lemma CommonCandidatesPresent(packageManager: string, available: set<string>)
    ensures Present(CommonCandidates(packageManager), available)
            == Present(CommonFiles, available)
               + (if ".github" in available then [".github"] else [])
               + (if packageManager == "pnpm" && "pnpm-workspace.yaml" in available then ["pnpm-workspace.yaml"]
                  else if packageManager == "yarn" && ".yarnrc.yml" in available then [".yarnrc.yml"]
                  else [])
  {
    var head := CommonFiles + [".github"];
    PresentSnoc(CommonFiles, ".github", available);
    if packageManager == "pnpm" {
      PresentSnoc(head, "pnpm-workspace.yaml", available);
      assert CommonCandidates(packageManager) == head + ["pnpm-workspace.yaml"];
    } else if packageManager == "yarn" {
      PresentSnoc(head, ".yarnrc.yml", available);
      assert CommonCandidates(packageManager) == head + [".yarnrc.yml"];
    } else {
      assert CommonCandidates(packageManager) == head;
    }
  }

  /** One more candidate adds itself when it exists. */
  lemma PresentSnoc(candidates: seq<string>, x: string, available: set<string>)
    ensures Present(candidates + [x], available) == Present(candidates, available) + (if x in available then [x] else [])
  {
    assert (candidates + [x])[..|candidates|] == candidates;
  }

  /** pnpm's workspace file is copied only for pnpm and yarn's settings only for yarn. */
  lemma ManagerFilesOnlyForTheirManager(packageManager: string, available: set<string>)
    ensures "pnpm-workspace.yaml" in Present(CommonCandidates(packageManager), available)
            <==> packageManager == "pnpm" && "pnpm-workspace.yaml" in available
    ensures ".yarnrc.yml" in Present(CommonCandidates(packageManager), available)
            <==> packageManager == "yarn" && ".yarnrc.yml" in available
  {
    PresentMembers(CommonCandidates(packageManager), available);
  }

  /** The copy filter: a path relative to the template is copied unless it
      contains `node_modules` anywhere. */
  predicate CopyFilter(relativePath: string)
  {
    !Contains(relativePath, "node_modules")
  }

  /** `path.relative` of a child below the template directory. */
  function RelativeJoin(dir: string, name: string): string
  {
    if dir == "" then name else dir + "/" + name
  }

  /** The files below a directory, as paths relative to the template, in listing order. */
  function RelativeFiles(dir: string, items: seq<Entry>): seq<string>
    decreases items
  {
    if items == [] then []
    else
      var e := items[|items| - 1];
      RelativeFiles(dir, items[..|items| - 1])
      + match e
        case File(n) => [RelativeJoin(dir, n)]
        case Dir(n, cs) => RelativeFiles(RelativeJoin(dir, n), cs)
  }

  /** The files fs.copy writes: the filter is asked about every entry, and a
      refused directory is skipped with everything below it. */
  function CopiedFiles(dir: string, items: seq<Entry>): seq<string>
    decreases items
  {
    if items == [] then []
    else
      var e := items[|items| - 1];
      var rel := RelativeJoin(dir, e.name);
      CopiedFiles(dir, items[..|items| - 1])
      + if !CopyFilter(rel) then []
        else match e
          case File(n) => [rel]
          case Dir(n, cs) => CopiedFiles(rel, cs)
  }

  /** The paths of `ps` the filter accepts, in order. */
  function PassingFilter(ps: seq<string>): (r: seq<string>)
  {
    if ps == [] then [] else PassingFilter(ps[..|ps| - 1]) + (if CopyFilter(ps[|ps| - 1]) then [ps[|ps| - 1]] else [])
  }

  lemma {:induction false} PassingFilterAppend(a: seq<string>, b: seq<string>)
    ensures PassingFilter(a + b) == PassingFilter(a) + PassingFilter(b)
    decreases |b|
  {
    if b == [] {
      assert a + b == a;
    } else {
      assert (a + b)[..|a + b| - 1] == a + b[..|b| - 1];
      PassingFilterAppend(a, b[..|b| - 1]);
    }
  }

  /** Below a directory whose path contains `node_modules`, every path contains it. */
  lemma {:induction false} RefusedBelowRefused(dir: string, items: seq<Entry>)
    requires !CopyFilter(dir)
    ensures PassingFilter(RelativeFiles(dir, items)) == []
    decreases items
  {
    if items != [] {
      var e := items[|items| - 1];
      var rel := RelativeJoin(dir, e.name);
      RefusedBelowRefused(dir, items[..|items| - 1]);
      ContainsInside("", dir, "/" + e.name, "node_modules");
      assert "" + dir + ("/" + e.name) == rel;
      match e {
        case File(n) =>
          assert PassingFilter([rel]) == [];
          PassingFilterAppend(RelativeFiles(dir, items[..|items| - 1]), [rel]);
        case Dir(n, cs) =>
          RefusedBelowRefused(rel, cs);
          PassingFilterAppend(RelativeFiles(dir, items[..|items| - 1]), RelativeFiles(rel, cs));
      }
    }
  }

  /** Copying with the filter writes exactly the template's files whose relative
      path does not contain `node_modules`, in listing order: pruning refused
      directories loses nothing the filter would have kept. */
  lemma {:induction false} CopiedFilesAreAccepted(dir: string, items: seq<Entry>)
    ensures CopiedFiles(dir, items) == PassingFilter(RelativeFiles(dir, items))
    decreases items
  {
    if items != [] {
      var e := items[|items| - 1];
      var rel := RelativeJoin(dir, e.name);
      var front := items[..|items| - 1];
      CopiedFilesAreAccepted(dir, front);
      match e {
        case File(n) =>
          PassingFilterAppend(RelativeFiles(dir, front), [rel]);
          assert PassingFilter([rel]) == (if CopyFilter(rel) then [rel] else []) by {
            assert [rel][..0] == [];
          }
        case Dir(n, cs) =>
          PassingFilterAppend(RelativeFiles(dir, front), RelativeFiles(rel, cs));
          if CopyFilter(rel) {
            CopiedFilesAreAccepted(rel, cs);
          } else {
            RefusedBelowRefused(rel, cs);
          }
      }
    }
  }

  // ===========================================================================
  // Listing the generated files
  // ===========================================================================

  /** The files below `dir`, depth first in listing order. */
  function Listing(dir: string, items: seq<Entry>): seq<string>
    decreases items
  {
    if items == [] then []
    else
      Listing(dir, items[..|items| - 1])
      + match items[|items| - 1]
        case File(n) => [JoinPath(dir, n)]
        case Dir(n, cs) => Listing(JoinPath(dir, n), cs)
  }

  /** `p` is the path of a file entry somewhere below `dir`. */
  ghost predicate IsFileBelow(dir: string, items: seq<Entry>, p: string)
    decreases items
  {
    exists i :: 0 <= i < |items| && IsFileIn(dir, items[i], p)
  }

  /** `p` is the path of `e` when `e` is a file, or of a file below it. */
  ghost predicate IsFileIn(dir: string, e: Entry, p: string)
    decreases e
  {
    match e
    case File(n) => p == JoinPath(dir, n)
    case Dir(n, cs) => IsFileBelow(JoinPath(dir, n), cs, p)
  }

  /** A file below the whole listing is below its front part or the last entry. */
  lemma FileBelowSplit(dir: string, items: seq<Entry>, p: string)
    requires items != []
    ensures IsFileBelow(dir, items, p) <==>
      IsFileBelow(dir, items[..|items| - 1], p) || IsFileIn(dir, items[|items| - 1], p)
  {
    var front := items[..|items| - 1];
    if IsFileBelow(dir, items, p) {
      var i :| 0 <= i < |items| && IsFileIn(dir, items[i], p);
      if i < |front| {
        assert front[i] == items[i];
      }
    }
    if IsFileBelow(dir, front, p) {
      var i :| 0 <= i < |front| && IsFileIn(dir, front[i], p);
      assert items[i] == front[i];
    }
  }

  /** The listing holds exactly the paths of file entries: directories are
      descended into, never listed themselves. */
  lemma {:induction false} ListingIsFiles(dir: string, items: seq<Entry>, p: string)
    ensures p in Listing(dir, items) <==> IsFileBelow(dir, items, p)
    decreases items
  {
    if items != [] {
      var k := |items| - 1;
      ListingIsFiles(dir, items[..k], p);
      FileBelowSplit(dir, items, p);
      match items[k] {
        case File(n) =>
        case Dir(n, cs) => ListingIsFiles(JoinPath(dir, n), cs, p);
      }
    }
  }

  /** getFilesRecursively: directories are listed recursively, files are pushed. */
  method GetFilesRecursively(dir: string, items: seq<Entry>) returns (files: seq<string>)
    ensures files == Listing(dir, items)
    decreases items
  {
    files := [];
    for i := 0 to |items|
      invariant files == Listing(dir, items[..i])
    {
      var item := items[i];
      assert items[..i + 1][..i] == items[..i];
      match item {
        case Dir(n, cs) =>
          var sub := GetFilesRecursively(JoinPath(dir, n), cs);
          files := files + sub;
        case File(n) =>
          files := files + [JoinPath(dir, n)];
      }
    }
    assert items[..|items|] == items;
  }

  // ===========================================================================
  // Next steps
  // ===========================================================================

  /** The first package manager whose value is `value`. */
  function FindManager(managers: seq<PackageManager>, value: string): (r: Option<PackageManager>)
    ensures r.None? <==> forall m :: m in managers ==> m.value != value
    ensures r.Some? ==> r.value in managers && r.value.value == value
  {
    if managers == [] then None
    else if managers[0].value == value then Some(managers[0])
    else FindManager(managers[1..], value)
  }

  const PythonSteps: seq<string> := [
    "  python -m venv venv",
    "  # Windows: venv\\Scripts\\activate",
    "  # macOS/Linux: source venv/bin/activate",
    "  pip install -r requirements.txt",
    "  python main.py"
  ]

  /** The lines showNextSteps logs. */
  function NextSteps(projectName: string, packageManager: string, template: string): seq<string>
  {
    ["\n下一步操作:", "  cd " + projectName]
    + if template == "python" then PythonSteps
      else if packageManager != "" then
        match FindManager(PackageManagers, packageManager)
        case Some(pm) => ["  " + pm.installCommand, "  " + pm.runCommand + " dev"]
        case None => []
      else ["  npm install", "  npm run dev"]
  }

  /** The cases of showNextSteps: after the heading and the `cd` line, python
      gets its five venv/pip steps whatever the manager, a known manager its install
      command and its run command with `dev`, an unknown one nothing more, and no
      manager npm's two commands. */
  lemma NextStepsCases(projectName: string, packageManager: string, template: string)
    ensures var head := ["\n下一步操作:", "  cd " + projectName];
      && (template == "python" ==> NextSteps(projectName, packageManager, template) == head + PythonSteps)
      && (forall m :: m in PackageManagers && m.value == packageManager && template != "python" ==>
            NextSteps(projectName, packageManager, template) == head + ["  " + m.installCommand, "  " + m.runCommand + " dev"])
      && ((template != "python" && packageManager != "" && forall m :: m in PackageManagers ==> m.value != packageManager)
          ==> NextSteps(projectName, packageManager, template) == head)
      && ((template != "python" && packageManager == "")
          ==> NextSteps(projectName, packageManager, template) == head + ["  npm install", "  npm run dev"])
  {
    forall m | m in PackageManagers && m.value == packageManager
      ensures FindManager(PackageManagers, packageManager) == Some(m)
    {
      FindKnownManager(m);
    }
  }

  /** The package manager values are distinct, so looking one up finds that one. */
  lemma FindKnownManager(m: PackageManager)
    requires m in PackageManagers
    ensures FindManager(PackageManagers, m.value) == Some(m)
  {
    var ms := PackageManagers;
    assert ms[0].value == "npm" && ms[1].value == "yarn" && ms[2].value == "pnpm" && ms[3].value == "bun";
    assert m == ms[0] || m == ms[1] || m == ms[2] || m == ms[3];
  }

  /** Without a package manager the steps are npm's. */
  lemma NoManagerMeansNpm(projectName: string, template: string)
    ensures NextSteps(projectName, "", template) == NextSteps(projectName, "npm", template)
  {
    assert FindManager(PackageManagers, "npm") == Some(PackageManagers[0]);
    assert "  " + "npm install" == "  npm install";
    assert "  " + "npm run" + " dev" == "  npm run dev";
  }
}
