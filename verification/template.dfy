/** The template catalogue of src/commands/template.ts: which directories are
    templates, how a template's package.json is summarised, when a template is
    valid, and the depth-bounded tree drawing of a template's files. */
module Templates {
  import opened Prelude
  import opened Text
  import opened FileTree

  // ===========================================================================
  // The catalogue
  // ===========================================================================

  /** The name of the directory of shared files, which is not a template. */
  const CommonDirectory: string := "common"

  /** The filter and map over the templates directory: directories other than
      `common`, by name, in listing order. */
  function TemplateNames(entries: seq<Entry>): seq<string>
  {
    if entries == [] then []
    else
      var e := entries[|entries| - 1];
      TemplateNames(entries[..|entries| - 1])
      + if e.Dir? && e.name != CommonDirectory then [e.name] else []
  }

  /** Listing a concatenation lists each part in turn: the order of the
      directory is kept. */
  lemma {:induction false} TemplateNamesAppend(a: seq<Entry>, b: seq<Entry>)
    ensures TemplateNames(a + b) == TemplateNames(a) + TemplateNames(b)
    decreases |b|
  {
    if b == [] {
      assert a + b == a;
    } else {
      assert (a + b)[..|a + b| - 1] == a + b[..|b| - 1];
      TemplateNamesAppend(a, b[..|b| - 1]);
    }
  }

  /** A name is listed exactly when some directory entry other than `common` has it. */
  lemma {:induction false} TemplateNamesMembership(entries: seq<Entry>, name: string)
    ensures name in TemplateNames(entries) <==>
      name != CommonDirectory && exists i :: 0 <= i < |entries| && entries[i].Dir? && entries[i].name == name
  {
    if entries != [] {
      var k := |entries| - 1;
      var front := entries[..k];
      TemplateNamesMembership(front, name);
      assert TemplateNames(entries) == TemplateNames(front)
        + if entries[k].Dir? && entries[k].name != CommonDirectory then [entries[k].name] else [];
      if exists i :: 0 <= i < |entries| && entries[i].Dir? && entries[i].name == name {
        var i :| 0 <= i < |entries| && entries[i].Dir? && entries[i].name == name;
        if i < k {
          assert front[i] == entries[i];
        }
      }
      if exists i :: 0 <= i < |front| && front[i].Dir? && front[i].name == name {
        var i :| 0 <= i < |front| && front[i].Dir? && front[i].name == name;
        assert entries[i] == front[i];
      }
    }
  }

  // ===========================================================================
  // package.json summaries
  // ===========================================================================

  /** The outcome of reading a template's package.json: the read or the parse
      fails with a message, or the string fields come back, with `""` for a
      missing one. */
  datatype PackageJson = Unreadable(message: string) | Fields(name: string, version: string, description: string)

  /** The line listTemplates prints for a template. `packageJson` is None when
      the template has no package.json; an unreadable one is ignored. */
  function ListLine(template: string, packageJson: Option<PackageJson>): (line: string)
    ensures StartsWith(line, "  " + template + " ")
    ensures packageJson.Some? && packageJson.value.Fields? && packageJson.value.description != ""
            ==> line == "  " + template + " - " + packageJson.value.description
    ensures !(packageJson.Some? && packageJson.value.Fields? && packageJson.value.description != "")
            ==> line == "  " + template + " "
  {
    var description := if packageJson.Some? && packageJson.value.Fields? then packageJson.value.description else "";
    var line := "  " + template + " " + (if description != "" then "- " + description else "");
    assert line[..|"  " + template + " "|] == "  " + template + " ";
    line
  }

  /** What listTemplates reports. */
  datatype TemplateListing = NoTemplateDirectory | NoTemplates | Listed(lines: seq<string>)

  /** listTemplates: an error without the directory, a warning without
      templates, otherwise a heading and one line per template. */
  function ListTemplates(directoryExists: bool, entries: seq<Entry>,
                         packages: map<string, PackageJson>): (r: TemplateListing)
    ensures !directoryExists <==> r == NoTemplateDirectory
    ensures r == NoTemplates <==> directoryExists && TemplateNames(entries) == []
    ensures r.Listed? ==> |r.lines| == 1 + |TemplateNames(entries)|
    ensures r.Listed? ==> forall i :: 0 <= i < |TemplateNames(entries)| ==>
      r.lines[i + 1] == ListLine(TemplateNames(entries)[i],
                                 if TemplateNames(entries)[i] in packages
                                 then Some(packages[TemplateNames(entries)[i]]) else None)
  {
    var names := TemplateNames(entries);
    if !directoryExists then NoTemplateDirectory
    else if names == [] then NoTemplates
    else
      Listed(["\n可用模板:"]
             + seq(|names|, i requires 0 <= i < |names| =>
                 ListLine(names[i], if names[i] in packages then Some(packages[names[i]]) else None)))
  }

  /** A field as showTemplateInfo prints it: `无` when it is missing or empty. */
  function OrNone(value: string): (r: string)
    ensures r != ""
    ensures value != "" ==> r == value
    ensures value == "" ==> r == "无"
  {
    if value != "" then value else "无"
  }

  /** The package.json part of showTemplateInfo (dependency lists left aside). */
  function InfoLines(packageJson: Option<PackageJson>): (r: seq<string>)
    ensures packageJson.None? ==> r == []
    ensures packageJson.Some? && packageJson.value.Unreadable? ==> r == ["读取package.json失败"]
    ensures packageJson.Some? && packageJson.value.Fields? ==>
      r == ["描述: " + OrNone(packageJson.value.description), "版本: " + OrNone(packageJson.value.version)]
  {
    match packageJson
    case None => []
    case Some(Unreadable(_)) => ["读取package.json失败"]
    case Some(Fields(_, version, description)) =>
      ["描述: " + OrNone(description), "版本: " + OrNone(version)]
  }

  // ===========================================================================
  // Validation
  // ===========================================================================

  /** The files a template must have. */
  const RequiredFiles: seq<string> := ["package.json"]

  /** A template is valid when every required file exists, its package.json
      can be read and parsed, and both `name` and `version` are non-empty. */
  predicate IsValidTemplate(existing: set<string>, packageJson: PackageJson)
  {
    && (forall f :: f in RequiredFiles ==> f in existing)
    && packageJson.Fields?
    && packageJson.name != "" && packageJson.version != ""
  }

  /** validateTemplate, with the warning it logs on each failure path. */
  method ValidateTemplate(existing: set<string>, packageJson: PackageJson)
    returns (valid: bool, warning: string)
    ensures valid <==> IsValidTemplate(existing, packageJson)
    ensures valid ==> warning == ""
    ensures "package.json" !in existing ==> warning == "  缺少文件: package.json"
    ensures "package.json" in existing && packageJson.Unreadable? ==>
      warning == "  验证失败: " + packageJson.message
    ensures "package.json" in existing && packageJson.Fields? && !valid ==>
      warning == "  package.json缺少必需字段"
  {
    for i := 0 to |RequiredFiles|
      invariant forall j :: 0 <= j < i ==> RequiredFiles[j] in existing
    {
      var file := RequiredFiles[i];
      if file !in existing {
        return false, "  缺少文件: " + file;
      }
    }
    assert RequiredFiles[0] in existing;
    match packageJson {
      case Unreadable(message) =>
        return false, "  验证失败: " + message;
      case Fields(name, version, _) =>
        if name == "" || version == "" {
          return false, "  package.json缺少必需字段";
        }
    }
    return true, "";
  }

  /** Without package.json a template is invalid, whatever the file would hold. */
  lemma MissingPackageJsonInvalid(existing: set<string>, packageJson: PackageJson)
    requires "package.json" !in existing
    ensures !IsValidTemplate(existing, packageJson)
  {
    assert RequiredFiles[0] == "package.json";
  }

  // ===========================================================================
  // The directory tree
  // ===========================================================================

  const LastConnector: string := "└── "
  const MiddleConnector: string := "├── "
  const LastIndent: string := "    "
  const MiddleIndent: string := "│   "

  /** showDirectoryTree: nothing once `depth` passes `maxDepth`, otherwise the
      lines of every entry. */
  function TreeLines(items: seq<Entry>, prefix: string, depth: int, maxDepth: int): (r: seq<string>)
    ensures forall k :: 0 <= k < |r| ==> StartsWith(r[k], prefix)
    decreases items, 2, 0
  {
    if depth > maxDepth then [] else LinesUpTo(items, |items|, prefix, depth, maxDepth)
  }

  /** The lines of the first `n` entries. */
  function LinesUpTo(items: seq<Entry>, n: nat, prefix: string, depth: int, maxDepth: int): (r: seq<string>)
    requires n <= |items|
    ensures forall k :: 0 <= k < |r| ==> StartsWith(r[k], prefix)
    decreases items, 1, n
  {
    if n == 0 then []
    else
      var front := LinesUpTo(items, n - 1, prefix, depth, maxDepth);
      var last := EntryLines(items, n - 1, prefix, depth, maxDepth);
      assert forall k :: |front| <= k < |front| + |last| ==> (front + last)[k] == last[k - |front|];
      front + last
  }

  /** The line of entry `i` (prefix, connector, name) followed by the lines of
      its contents when it is a directory and `depth < maxDepth`. The last entry
      gets `└── ` and passes `    ` on; the others get `├── ` and pass `│   `. */
  function EntryLines(items: seq<Entry>, i: nat, prefix: string, depth: int, maxDepth: int): (r: seq<string>)
    requires i < |items|
    ensures |r| >= 1
    ensures r[0] == prefix + (if i == |items| - 1 then LastConnector else MiddleConnector) + items[i].name
    ensures forall k :: 0 <= k < |r| ==> StartsWith(r[k], prefix)
    decreases items, 0, 0
  {
    var isLast := i == |items| - 1;
    var line := prefix + (if isLast then LastConnector else MiddleConnector) + items[i].name;
    var nextPrefix := prefix + (if isLast then LastIndent else MiddleIndent);
    var below := if items[i].Dir? && depth < maxDepth
                 then TreeLines(items[i].children, nextPrefix, depth + 1, maxDepth) else [];
    assert line[..|prefix|] == prefix;
    forall k | 0 <= k < |below| ensures StartsWith(below[k], prefix) {
      assert below[k][..|nextPrefix|][..|prefix|] == prefix;
    }
    [line] + below
  }

  /** Below the line of entry `i` come the lines of its contents, indented by
      `    ` under the last entry and by `│   ` under the others; a file, or a
      directory at `maxDepth`, has no lines below it. */
  lemma EntryLinesChildren(items: seq<Entry>, i: nat, prefix: string, depth: int, maxDepth: int)
    requires i < |items|
    ensures var r := EntryLines(items, i, prefix, depth, maxDepth);
            var indent := if i == |items| - 1 then LastIndent else MiddleIndent;
            && r[1..] == (if items[i].Dir? && depth < maxDepth
                          then TreeLines(items[i].children, prefix + indent, depth + 1, maxDepth) else [])
            && forall k :: 1 <= k < |r| ==> StartsWith(r[k], prefix + indent)
  {
    var r := EntryLines(items, i, prefix, depth, maxDepth);
    var indent := if i == |items| - 1 then LastIndent else MiddleIndent;
    var below := if items[i].Dir? && depth < maxDepth
                 then TreeLines(items[i].children, prefix + indent, depth + 1, maxDepth) else [];
    assert r == [r[0]] + below;
    assert r[1..] == below;
  }

  /** showDirectoryTree as the source writes it: an indexed loop printing each
      entry and recursing into directories. */
  method ShowDirectoryTree(items: seq<Entry>, prefix: string, depth: int, maxDepth: int)
    returns (lines: seq<string>)
    ensures lines == TreeLines(items, prefix, depth, maxDepth)
    decreases items
  {
    lines := [];
    if depth > maxDepth {
      return;
    }
    for i := 0 to |items|
      invariant lines == LinesUpTo(items, i, prefix, depth, maxDepth)
    {
      ghost var before := lines;
      var item := items[i];
      var isLast := i == |items| - 1;
      var currentPrefix := prefix + (if isLast then LastConnector else MiddleConnector);
      var nextPrefix := prefix + (if isLast then LastIndent else MiddleIndent);
      lines := lines + [currentPrefix + item.name];
      if item.Dir? && depth < maxDepth {
        var below := ShowDirectoryTree(item.children, nextPrefix, depth + 1, maxDepth);
        lines := lines + below;
        assert lines == before + ([currentPrefix + item.name] + below);
      }
      assert lines == before + EntryLines(items, i, prefix, depth, maxDepth);
    }
  }

  /** The number of entries at most `levels` directory levels below the top. */
  function EntriesWithin(items: seq<Entry>, levels: nat): nat
    decreases items
  {
    if items == [] then 0
    else
      var e := items[|items| - 1];
      EntriesWithin(items[..|items| - 1], levels)
      + 1 + (if e.Dir? && levels > 0 then EntriesWithin(e.children, levels - 1) else 0)
  }

  /** The tree cut off `levels` levels below the top: deeper directories keep
      their names but lose their contents. */
  function Prune(items: seq<Entry>, levels: nat): (r: seq<Entry>)
    ensures |r| == |items|
    ensures forall i :: 0 <= i < |items| ==> r[i].name == items[i].name && r[i].Dir? == items[i].Dir?
    decreases items
  {
    if items == [] then []
    else
      var e := items[|items| - 1];
      var pruned := match e
        case File(n) => e
        case Dir(n, cs) => Dir(n, if levels > 0 then Prune(cs, levels - 1) else []);
      Prune(items[..|items| - 1], levels) + [pruned]
  }

  /** One line is printed per entry within `maxDepth - depth` levels, and none
      once `depth > maxDepth`: called with (0, 2) the tree shows three levels. */
  lemma {:induction false} TreeLinesCount(items: seq<Entry>, prefix: string, depth: int, maxDepth: int)
    ensures depth > maxDepth ==> TreeLines(items, prefix, depth, maxDepth) == []
    ensures depth <= maxDepth ==> |TreeLines(items, prefix, depth, maxDepth)| == EntriesWithin(items, maxDepth - depth)
    decreases items, 2, 0
  {
    if depth <= maxDepth {
      LinesUpToCount(items, |items|, prefix, depth, maxDepth);
      assert items[..|items|] == items;
    }
  }

  lemma {:induction false} LinesUpToCount(items: seq<Entry>, n: nat, prefix: string, depth: int, maxDepth: int)
    requires n <= |items| && depth <= maxDepth
    ensures |LinesUpTo(items, n, prefix, depth, maxDepth)| == EntriesWithin(items[..n], maxDepth - depth)
    decreases items, 1, n
  {
    if n > 0 {
      LinesUpToCount(items, n - 1, prefix, depth, maxDepth);
      assert items[..n][..n - 1] == items[..n - 1];
      var isLast := n - 1 == |items| - 1;
      if items[n - 1].Dir? && depth < maxDepth {
        TreeLinesCount(items[n - 1].children, prefix + (if isLast then LastIndent else MiddleIndent), depth + 1, maxDepth);
      }
    }
  }

  /** Entries more than `maxDepth - depth` levels down never change the
      drawing: the tree drawn equals the tree drawn from its pruned copy. */
  lemma {:induction false} TreeLinesIgnoresDeeper(items: seq<Entry>, prefix: string, depth: int, maxDepth: int)
    requires depth <= maxDepth
    ensures TreeLines(items, prefix, depth, maxDepth)
            == TreeLines(Prune(items, maxDepth - depth), prefix, depth, maxDepth)
    decreases items, 2, 0
  {
    LinesUpToIgnoresDeeper(items, |items|, prefix, depth, maxDepth);
  }

  lemma {:induction false} LinesUpToIgnoresDeeper(items: seq<Entry>, n: nat, prefix: string, depth: int, maxDepth: int)
    requires n <= |items| && depth <= maxDepth
    ensures LinesUpTo(items, n, prefix, depth, maxDepth)
            == LinesUpTo(Prune(items, maxDepth - depth), n, prefix, depth, maxDepth)
    decreases items, 1, n
  {
    if n > 0 {
      var pruned := Prune(items, maxDepth - depth);
      LinesUpToIgnoresDeeper(items, n - 1, prefix, depth, maxDepth);
      EntryLinesIgnoresDeeper(items, n - 1, prefix, depth, maxDepth);
      assert LinesUpTo(items, n, prefix, depth, maxDepth)
             == LinesUpTo(items, n - 1, prefix, depth, maxDepth) + EntryLines(items, n - 1, prefix, depth, maxDepth);
      assert LinesUpTo(pruned, n, prefix, depth, maxDepth)
             == LinesUpTo(pruned, n - 1, prefix, depth, maxDepth) + EntryLines(pruned, n - 1, prefix, depth, maxDepth);
    }
  }

  lemma {:induction false} EntryLinesIgnoresDeeper(items: seq<Entry>, i: nat, prefix: string, depth: int, maxDepth: int)
    requires i < |items| && depth <= maxDepth
    ensures EntryLines(items, i, prefix, depth, maxDepth)
            == EntryLines(Prune(items, maxDepth - depth), i, prefix, depth, maxDepth)
    decreases items, 0, 0
  {
    var pruned := Prune(items, maxDepth - depth);
    PruneAt(items, maxDepth - depth, i);
    var nextPrefix := prefix + (if i == |items| - 1 then LastIndent else MiddleIndent);
    match items[i] {
      case File(n) =>
      case Dir(n, cs) =>
        if depth < maxDepth {
          TreeLinesIgnoresDeeper(cs, nextPrefix, depth + 1, maxDepth);
          assert maxDepth - (depth + 1) == maxDepth - depth - 1;
        }
    }
  }

  /** The pruned copy of entry `i`. */
  lemma {:induction false} PruneAt(items: seq<Entry>, levels: nat, i: nat)
    requires i < |items|
    ensures Prune(items, levels)[i] ==
      match items[i]
      case File(n) => items[i]
      case Dir(n, cs) => Dir(n, if levels > 0 then Prune(cs, levels - 1) else [])
    decreases items
  {
    if i < |items| - 1 {
      PruneAt(items[..|items| - 1], levels, i);
      assert items[..|items| - 1][i] == items[i];
    }
  }
}
