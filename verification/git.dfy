/** The git workflow helpers (dist/commands/git.js): branch-name formatting,
    Conventional Commits message assembly with its subject validator, and
    the decoding of `git status --porcelain` output. */
module Git {
  import opened Prelude
  import opened Text

  // ===========================================================================
  // Branch names: formatBranchName
  // ===========================================================================

  /** The characters `/[^a-z0-9-]/` leaves alone. */
  predicate IsBranchChar(c: char) { IsLowerAlnum(c) || c == '-' }

  /** No two adjacent dashes. */
  predicate NoDoubleDash(s: string)
  {
    forall i :: 0 <= i < |s| - 1 ==> s[i] != '-' || s[i + 1] != '-'
  }

  /** What the cleaning promises: only `a-z0-9-`, no `--`, no dash at either end. */
  predicate IsCleanName(s: string)
  {
    && (forall i :: 0 <= i < |s| ==> IsBranchChar(s[i]))
    && NoDoubleDash(s)
    && (s != [] ==> s[0] != '-' && s[|s| - 1] != '-')
  }

  /** `s` with every dash removed. */
  function WithoutDashes(s: string): string
  {
    if s == [] then [] else (if s[0] == '-' then [] else [s[0]]) + WithoutDashes(s[1..])
  }

  lemma {:induction false} WithoutDashesAppend(a: string, b: string)
    ensures WithoutDashes(a + b) == WithoutDashes(a) + WithoutDashes(b)
    decreases |a|
  {
    if a == [] {
      assert a + b == b;
    } else {
      var x := if a[0] == '-' then [] else [a[0]];
      assert (a + b)[0] == a[0];
      assert (a + b)[1..] == a[1..] + b;
      WithoutDashesAppend(a[1..], b);
      calc {
        WithoutDashes(a + b);
        x + WithoutDashes(a[1..] + b);
        x + (WithoutDashes(a[1..]) + WithoutDashes(b));
        (x + WithoutDashes(a[1..])) + WithoutDashes(b);
        WithoutDashes(a) + WithoutDashes(b);
      }
    }
  }

  /** The ASCII letters and digits of `s`, lower-cased, in order. */
  function LowerAlnums(s: string): string
  {
    if s == [] then [] else (if IsAsciiAlnum(s[0]) then [LowerChar(s[0])] else []) + LowerAlnums(s[1..])
  }

  lemma {:induction false} LowerAlnumsEmpty(s: string)
    ensures LowerAlnums(s) == [] <==> forall i :: 0 <= i < |s| ==> !IsAsciiAlnum(s[i])
  {
    if s != [] {
      LowerAlnumsEmpty(s[1..]);
      assert forall i :: 1 <= i < |s| ==> s[i] == s[1..][i - 1];
    }
  }

  /** `.replace(/[^a-z0-9-]/g, '-')`. */
  function Sanitize(s: string): (r: string)
    ensures |r| == |s|
    ensures forall i :: 0 <= i < |s| ==> IsBranchChar(r[i])
    ensures forall i :: 0 <= i < |s| ==> (IsBranchChar(s[i]) ==> r[i] == s[i]) && (!IsBranchChar(s[i]) ==> r[i] == '-')
  {
    seq(|s|, i requires 0 <= i < |s| => if IsBranchChar(s[i]) then s[i] else '-')
  }

  /** Lower-casing and then sanitizing keeps exactly the name's letters and digits
      among the non-dash characters. */
  lemma {:induction false} SanitizeKeepsAlnums(s: string)
    ensures WithoutDashes(Sanitize(Lower(s))) == LowerAlnums(s)
    decreases |s|
  {
    if s != [] {
      SanitizeKeepsAlnums(s[1..]);
      assert Sanitize(Lower(s))[1..] == Sanitize(Lower(s[1..]));
    }
  }

  /** `.replace(/-+/g, '-')`: every run of dashes becomes one dash. */
  function Collapse(s: string): (r: string)
    ensures |r| <= |s| && (r == [] <==> s == [])
    ensures s != [] ==> r[0] == s[0] && r[|r| - 1] == s[|s| - 1]
    ensures NoDoubleDash(r)
    decreases |s|
  {
    if |s| == 0 then s
    else if |s| >= 2 && s[0] == '-' && s[1] == '-' then
      Collapse(s[1..])
    else
      var c := Collapse(s[1..]);
      var r := [s[0]] + c;
      assert r[1..] == c;
      assert NoDoubleDash(r) by {
        assert c != [] ==> c[0] == s[1];
        forall i | 0 <= i < |r| - 1 ensures r[i] != '-' || r[i + 1] != '-' {
          if i > 0 {
            assert r[i] == c[i - 1] && r[i + 1] == c[i];
          }
        }
      }
      r
  }

  /** Collapsing adds no character that was not there. */
  lemma {:induction false} CollapseAddsNothing(s: string)
    ensures forall j :: 0 <= j < |Collapse(s)| ==> Collapse(s)[j] in s
    decreases |s|
  {
    if s != [] {
      CollapseAddsNothing(s[1..]);
      var c := Collapse(s[1..]);
      var r := Collapse(s);
      forall j | 0 <= j < |r| ensures r[j] in s {
        if |s| >= 2 && s[0] == '-' && s[1] == '-' {
          assert r == c && c[j] in s[1..];
        } else if j > 0 {
          assert r == [s[0]] + c;
          assert r[j] == c[j - 1] && c[j - 1] in s[1..];
        }
      }
    }
  }

  /** Collapsing removes dashes only. */
  lemma {:induction false} CollapseKeepsNonDashes(s: string)
    ensures WithoutDashes(Collapse(s)) == WithoutDashes(s)
    decreases |s|
  {
    if |s| >= 2 && s[0] == '-' && s[1] == '-' {
      CollapseKeepsNonDashes(s[1..]);
    } else if s != [] {
      CollapseKeepsNonDashes(s[1..]);
      var r := Collapse(s);
      assert r[0] == s[0] && r[1..] == Collapse(s[1..]);
    }
  }

  /** A name without double dashes is left as it is by the collapsing. */
  lemma {:induction false} CollapseNoDoubleDash(s: string)
    requires NoDoubleDash(s)
    ensures Collapse(s) == s
    decreases |s|
  {
    if s != [] {
      var t := s[1..];
      assert NoDoubleDash(t) by {
        forall i | 0 <= i < |t| - 1 ensures t[i] != '-' || t[i + 1] != '-' {
          assert t[i] == s[i + 1] && t[i + 1] == s[i + 2];
        }
      }
      assert |s| >= 2 ==> s[0] != '-' || s[1] != '-';
      CollapseNoDoubleDash(t);
      assert Collapse(s) == [s[0]] + t;
      assert [s[0]] + t == s;
    }
  }

  /** `.replace(/^-|-$/g, '')`: drop one leading and one trailing dash. */
  function TrimDashes(s: string): (r: string)
    ensures WithoutDashes(r) == WithoutDashes(s)
    ensures forall j :: 0 <= j < |r| ==> r[j] in s
  {
    var a := if |s| > 0 && s[0] == '-' then s[1..] else s;
    assert WithoutDashes(a) == WithoutDashes(s) by {
      if |s| > 0 && s[0] == '-' { WithoutDashesAppend([s[0]], s[1..]); assert [s[0]] + s[1..] == s; }
    }
    if |a| > 0 && a[|a| - 1] == '-' then
      var r := a[..|a| - 1];
      assert WithoutDashes(r) == WithoutDashes(a) by {
        WithoutDashesAppend(r, [a[|a| - 1]]);
        assert r + [a[|a| - 1]] == a;
      }
      assert forall j :: 0 <= j < |r| ==> r[j] in s by {
        forall j | 0 <= j < |r| ensures r[j] in s {
          assert r[j] == a[j];
        }
      }
      r
    else
      a
  }

  /** On a text without `--`, the trimmed text has no `--` and no dash at either end. */
  lemma TrimDashesEnds(s: string)
    requires NoDoubleDash(s)
    ensures var r := TrimDashes(s); NoDoubleDash(r) && (r != [] ==> r[0] != '-' && r[|r| - 1] != '-')
  {
    var a := if |s| > 0 && s[0] == '-' then s[1..] else s;
    assert NoDoubleDash(a) && (a != [] ==> a[0] != '-') by {
      if |s| > 0 && s[0] == '-' {
        forall i | 0 <= i < |a| - 1 ensures a[i] != '-' || a[i + 1] != '-' {
          assert a[i] == s[i + 1] && a[i + 1] == s[i + 2];
        }
        assert |s| >= 2 ==> s[1] != '-';
      }
    }
    if |a| > 0 && a[|a| - 1] == '-' {
      var r := a[..|a| - 1];
      assert TrimDashes(s) == r;
      forall i | 0 <= i < |r| - 1 ensures r[i] != '-' || r[i + 1] != '-' {
        assert r[i] == a[i] && r[i + 1] == a[i + 1];
      }
      assert |a| >= 2 ==> a[|a| - 2] != '-';
    } else {
      assert TrimDashes(s) == a;
    }
  }

  // ---------------------------------------------------------------------------
  // The cleaned name as the words of the name joined by single dashes
  // ---------------------------------------------------------------------------

  /** A word of a branch name: a non-empty run of `a-z0-9`. */
  predicate IsWord(w: string)
  {
    w != [] && forall i :: 0 <= i < |w| ==> IsLowerAlnum(w[i])
  }

  /** The maximal runs of `a-z0-9` characters of `s`, in order: a letter or digit
      followed by another one extends the same word, anything else ends it. */
  function Words(s: string): (r: seq<string>)
    ensures forall k :: 0 <= k < |r| ==> IsWord(r[k])
    ensures s != [] && IsLowerAlnum(s[0]) ==> r != [] && r[0] != [] && r[0][0] == s[0]
    decreases |s|
  {
    if s == [] then []
    else
      var w := Words(s[1..]);
      if !IsLowerAlnum(s[0]) then w
      else if |s| >= 2 && IsLowerAlnum(s[1]) then [[s[0]] + w[0]] + w[1..]
      else [[s[0]]] + w
  }

  /** A text made only of `a-z0-9-`, as the sanitizing step leaves it. */
  predicate IsBranchText(t: string)
  {
    forall i :: 0 <= i < |t| ==> IsBranchChar(t[i])
  }

  /** A branch text without words is all dashes. */
  lemma {:induction false} NoWordsAllDashes(t: string)
    requires IsBranchText(t) && Words(t) == []
    ensures forall i :: 0 <= i < |t| ==> t[i] == '-'
    decreases |t|
  {
    if t != [] {
      var u := t[1..];
      assert Words(u) == Words(t);
      NoWordsAllDashes(u);
      assert forall i :: 1 <= i < |t| ==> t[i] == u[i - 1];
    }
  }

  /** The dash a collapsed text keeps in front of its words. */
  function LeadDash(t: string): string
  {
    if t != [] && t[0] == '-' then "-" else ""
  }

  /** The dash a collapsed text keeps after its words. */
  function TrailDash(t: string): string
  {
    if t != [] && t[|t| - 1] == '-' && Words(t) != [] then "-" else ""
  }

  /** One step of `Join` on a leading one-letter word. */
  lemma JoinSingleHead(c: char, ws: seq<string>)
    requires ws != []
    ensures Join([[c]] + ws, "-") == [c] + "-" + Join(ws, "-")
  {
    assert ([[c]] + ws)[1..] == ws;
  }

  /** The collapsed form of a branch text: its words joined by single dashes,
      with one dash kept in front when the text starts with dashes and one after
      when it ends with them. */
  function Collapsed(t: string): string
  {
    LeadDash(t) + Join(Words(t), "-") + TrailDash(t)
  }

  /** A dash in front of a text that does not start with one adds the leading dash. */
  lemma CollapsedDash(t: string)
    requires t != [] && t[0] == '-' && (|t| >= 2 ==> t[1] != '-')
    ensures Collapsed(t) == "-" + Collapsed(t[1..])
  {
    var u := t[1..];
    assert Words(t) == Words(u);
    if u != [] {
      assert t[|t| - 1] == u[|u| - 1];
    }
  }

  /** A dash in front of a text that starts with one changes nothing. */
  lemma CollapsedDashDash(t: string)
    requires |t| >= 2 && t[0] == '-' && t[1] == '-'
    ensures Collapsed(t) == Collapsed(t[1..])
  {
    var u := t[1..];
    assert Words(t) == Words(u);
    assert t[|t| - 1] == u[|u| - 1];
  }

  /** A letter or digit in front of a text that starts with one extends its first word. */
  lemma CollapsedAlnumAlnum(t: string)
    requires |t| >= 2 && IsLowerAlnum(t[0]) && IsLowerAlnum(t[1])
    ensures Collapsed(t) == [t[0]] + Collapsed(t[1..])
  {
    var u := t[1..];
    var w := Words(u);
    assert Words(t) == [[t[0]] + w[0]] + w[1..];
    JoinConsHead(t[0], w, "-");
    assert t[|t| - 1] == u[|u| - 1];
  }

  /** A letter or digit in front of a text that starts with a dash is a word of its own. */
  lemma CollapsedAlnumDash(t: string)
    requires |t| >= 2 && IsLowerAlnum(t[0]) && t[1] == '-' && IsBranchText(t[1..])
    ensures Collapsed(t) == [t[0]] + Collapsed(t[1..])
  {
    var u := t[1..];
    var w := Words(u);
    assert Words(t) == [[t[0]]] + w;
    assert t[|t| - 1] == u[|u| - 1];
    if w == [] {
      NoWordsAllDashes(u);
      assert Join(Words(t), "-") == [t[0]];
    } else {
      JoinSingleHead(t[0], w);
    }
  }

  /** `.replace(/-+/g, '-')` on a branch text: every run of dashes becomes one dash,
      so what is left is the collapsed form. */
  lemma {:induction false} CollapseWords(t: string)
    requires IsBranchText(t)
    ensures Collapse(t) == Collapsed(t)
    decreases |t|
  {
    if t != [] {
      var u := t[1..];
      assert IsBranchText(u) by {
        forall i | 0 <= i < |u| ensures IsBranchChar(u[i]) { assert u[i] == t[i + 1]; }
      }
      CollapseWords(u);
      if |t| >= 2 && t[0] == '-' && t[1] == '-' {
        assert Collapse(t) == Collapse(u);
        CollapsedDashDash(t);
      } else {
        assert Collapse(t) == [t[0]] + Collapse(u);
        if t[0] == '-' {
          CollapsedDash(t);
        } else if u == [] {
          assert Words(t) == [[t[0]]];
        } else if IsLowerAlnum(u[0]) {
          CollapsedAlnumAlnum(t);
        } else {
          CollapsedAlnumDash(t);
        }
      }
    }
  }

  /** Words joined by dashes neither start nor end with a dash. */
  lemma {:induction false} JoinWordsEnds(ws: seq<string>)
    requires forall k :: 0 <= k < |ws| ==> IsWord(ws[k])
    ensures var j := Join(ws, "-"); ws != [] ==> j != [] && IsLowerAlnum(j[0]) && IsLowerAlnum(j[|j| - 1])
    decreases |ws|
  {
    if |ws| >= 2 {
      JoinWordsEnds(ws[1..]);
      assert IsWord(ws[0]) && IsWord(ws[1]);
    } else if |ws| == 1 {
      assert IsWord(ws[0]);
    }
  }

  /** Trimming removes exactly one optional dash on each side of a text that
      does not itself start or end with a dash. */
  lemma TrimDashesAround(lead: string, j: string, trail: string)
    requires lead == "" || lead == "-"
    requires trail == "" || trail == "-"
    requires j == [] ==> trail == ""
    requires j != [] ==> j[0] != '-' && j[|j| - 1] != '-'
    ensures TrimDashes(lead + j + trail) == j
  {
    var s := lead + j + trail;
    var a := if |s| > 0 && s[0] == '-' then s[1..] else s;
    if lead == "-" {
      assert s[0] == '-' && s[1..] == j + trail;
    } else {
      assert s == j + trail;
      assert j == [] ==> s == [];
      assert j != [] ==> s[0] == j[0];
    }
    assert a == j + trail;
    if trail == "-" {
      assert a[|a| - 1] == '-';
      assert a[..|a| - 1] == j;
    } else {
      assert a == j;
    }
  }

  /** Collapsing and then trimming a branch text leaves exactly its words joined
      by single dashes. */
  lemma TrimDashesWords(t: string)
    requires IsBranchText(t)
    ensures TrimDashes(Collapse(t)) == Join(Words(t), "-")
  {
    CollapseWords(t);
    assert Collapse(t) == LeadDash(t) + Join(Words(t), "-") + TrailDash(t);
    JoinWordsEnds(Words(t));
    TrimDashesAround(LeadDash(t), Join(Words(t), "-"), TrailDash(t));
  }

  /** Sanitizing changes no word: it only turns characters that are not letters
      or digits into dashes. */
  lemma {:induction false} WordsSanitize(s: string)
    ensures Words(Sanitize(s)) == Words(s)
    decreases |s|
  {
    if s != [] {
      WordsSanitize(s[1..]);
      assert Sanitize(s)[1..] == Sanitize(s[1..]);
    }
  }

  /** The cleaning chain of formatBranchName. Its result is a clean name made of
      the original's letters and digits, lower-cased and in order. */
  function CleanName(name: string): (r: string)
    ensures IsCleanName(r)
    ensures WithoutDashes(r) == LowerAlnums(name)
  {
    var s := Sanitize(Lower(name));
    SanitizeKeepsAlnums(name);
    var c := Collapse(s);
    CollapseKeepsNonDashes(s);
    CollapseAddsNothing(s);
    var r := TrimDashes(c);
    TrimDashesEnds(c);
    assert forall j :: 0 <= j < |r| ==> IsBranchChar(r[j]) by {
      forall j | 0 <= j < |r| ensures IsBranchChar(r[j]) {
        assert r[j] in c;
        var k :| 0 <= k < |s| && s[k] == r[j];
      }
    }
    r
  }

  /** The cleaned name is the name's maximal runs of ASCII letters and digits,
      lower-cased and joined by single dashes. */
  lemma CleanNameWords(name: string)
    ensures CleanName(name) == Join(Words(Lower(name)), "-")
  {
    var s := Sanitize(Lower(name));
    WordsSanitize(Lower(name));
    TrimDashesWords(s);
  }

  /** `formatBranchName`: the type, a slash, then the cleaned name. */
  function FormatBranchName(name: string, kind: string): (r: string)
    ensures StartsWith(r, kind + "/")
    ensures IsCleanName(r[|kind| + 1..])
    ensures WithoutDashes(r[|kind| + 1..]) == LowerAlnums(name)
    ensures r == kind + "/" + Join(Words(Lower(name)), "-")
  {
    var r := kind + "/" + CleanName(name);
    assert r[|kind| + 1..] == CleanName(name);
    CleanNameWords(name);
    r
  }

  /** Cleaning is idempotent: a name that is already clean is returned unchanged. */
  lemma CleanNameIdempotent(s: string)
    requires IsCleanName(s)
    ensures CleanName(s) == s
  {
    assert Lower(s) == s;
    assert Sanitize(s) == s;
    CollapseNoDoubleDash(s);
  }

  /** The cleaned name is empty exactly when the input has no ASCII letter or digit
      (so `formatBranchName` then returns just `type/`). */
  lemma CleanNameEmpty(name: string)
    ensures CleanName(name) == [] <==> forall i :: 0 <= i < |name| ==> !IsAsciiAlnum(name[i])
  {
    var r := CleanName(name);
    LowerAlnumsEmpty(name);
    if r != [] {
      assert WithoutDashes(r) == [r[0]] + WithoutDashes(r[1..]);
    }
  }

  // ===========================================================================
  // Commit messages: getCommitMessage
  // ===========================================================================

  /** The values offered by the commit-type list prompt. */
  const CommitTypes: seq<string> :=
    ["feat", "fix", "docs", "style", "refactor", "perf", "test", "build", "ci", "chore"]

  /** The fixed footer text of a breaking change. */
  const BreakingFooter: string := "BREAKING CHANGE: 破坏性更改说明"

  /** The answers of the commit prompt. */
  datatype CommitAnswers = CommitAnswers(kind: string, scope: string, subject: string, body: string, isBreaking: bool)

  /** The subject prompt's `validate`: blank subjects are refused first, then
      subjects longer than 50 UTF-16 code units. */
  function ValidateSubject(input: string): (v: Validation)
    ensures v == Accepted <==> !IsBlank(input) && Utf16Length(input) <= 50
    ensures IsBlank(input) ==> v == Rejected("描述不能为空")
  {
    if Trim(input) == [] then Rejected("描述不能为空")
    else if Utf16Length(input) > 50 then Rejected("描述不能超过50个字符")
    else Accepted
  }

  /** The first line: `type`, `(scope)` only for a non-empty scope, `: `, the subject. */
  function Header(kind: string, scope: string, subject: string): string
  {
    kind + (if scope != "" then "(" + scope + ")" else "") + ": " + subject
  }

  /** The message getCommitMessage assembles from the answers. */
  function CommitMessage(a: CommitAnswers): string
  {
    Header(a.kind, a.scope, a.subject)
    + (if a.body != "" then "\n\n" + a.body else "")
    + (if a.isBreaking then "\n\n" + BreakingFooter else "")
  }

  /** The message starts with the header, ends with the footer when the change
      is breaking, and is the bare header without body and footer. */
  lemma CommitMessageShape(a: CommitAnswers)
    ensures var r := CommitMessage(a); var h := Header(a.kind, a.scope, a.subject);
            && StartsWith(r, h)
            && (a.isBreaking ==> EndsWith(r, "\n\n" + BreakingFooter))
            && (a.body == "" && !a.isBreaking ==> r == h)
  {
    var r := CommitMessage(a);
    var h := Header(a.kind, a.scope, a.subject);
    assert r[..|h|] == h;
  }

  /** getCommitMessage after the prompt: `message` is built by successive appends. */
  method GetCommitMessage(answers: CommitAnswers) returns (message: string)
    ensures message == CommitMessage(answers)
  {
    message := answers.kind;
    if answers.scope != "" {
      message := message + "(" + answers.scope + ")";
    }
    ghost var scopePart := if answers.scope != "" then "(" + answers.scope + ")" else "";
    assert message == answers.kind + scopePart;
    message := message + ": " + answers.subject;
    assert message == Header(answers.kind, answers.scope, answers.subject);
    ghost var header := message;
    if answers.body != "" {
      message := message + "\n\n" + answers.body;
    }
    ghost var bodyPart := if answers.body != "" then "\n\n" + answers.body else "";
    assert message == header + bodyPart;
    if answers.isBreaking {
      message := message + "\n\n" + BreakingFooter;
    }
    ghost var footerPart := if answers.isBreaking then "\n\n" + BreakingFooter else "";
    assert message == header + bodyPart + footerPart;
  }

  // --- Reading a message back (the partner of CommitMessage) -----------------

  /** The number of leading lower-case letters. */
  function LeadingLetters(s: string): (n: nat)
    ensures n <= |s|
    ensures forall i :: 0 <= i < n ==> 'a' <= s[i] <= 'z'
    ensures n < |s| ==> !('a' <= s[n] <= 'z')
    decreases |s|
  {
    if s != [] && 'a' <= s[0] <= 'z' then 1 + LeadingLetters(s[1..]) else 0
  }

  lemma {:induction false} LeadingLettersOf(w: string, rest: string)
    requires forall i :: 0 <= i < |w| ==> 'a' <= w[i] <= 'z'
    requires rest != [] && !('a' <= rest[0] <= 'z')
    ensures LeadingLetters(w + rest) == |w|
    decreases |w|
  {
    if w != [] {
      assert (w + rest)[1..] == w[1..] + rest;
      LeadingLettersOf(w[1..], rest);
    }
  }

  /** Reads `type(scope): subject` or `type: subject`; the type is a run of
      lower-case letters and the scope ends at the first `)`. */
  function ParseHeader(h: string): Option<(string, string, string)>
  {
    var k := LeadingLetters(h);
    var kind := h[..k];
    var rest := h[k..];
    if kind == [] then None
    else if StartsWith(rest, "(") then
      match IndexOf(rest, ')')
      case None => None
      case Some(j) =>
        var after := rest[j + 1..];
        if StartsWith(after, ": ") then Some((kind, rest[1..j], after[2..])) else None
    else if StartsWith(rest, ": ") then Some((kind, "", rest[2..]))
    else None
  }

  /** The message cut at its first line break: the header, then the rest
      (empty, or starting with the line break). */
  function FirstLine(m: string): (string, string)
  {
    match IndexOf(m, '\n')
    case None => (m, "")
    case Some(n) => (m[..n], m[n..])
  }

  /** Reads what follows the header: an optional body after one blank line,
      then the breaking-change footer if the text ends with it. */
  function DecodeBody(rest: string): Option<(string, bool)>
  {
    var footer := "\n\n" + BreakingFooter;
    var breaking := EndsWith(rest, footer);
    var bodyPart := if breaking then rest[..|rest| - |footer|] else rest;
    if bodyPart == [] then Some(("", breaking))
    else if StartsWith(bodyPart, "\n\n") then Some((bodyPart[2..], breaking))
    else None
  }

  /** Reads a commit message back into the answers it was built from. */
  function DecodeCommitMessage(m: string): Option<CommitAnswers>
  {
    var (header, rest) := FirstLine(m);
    match (ParseHeader(header), DecodeBody(rest))
    case (Some((kind, scope, subject)), Some((body, breaking))) =>
      Some(CommitAnswers(kind, scope, subject, body, breaking))
    case _ => None
  }

  /** A non-empty run of lower-case letters, as every commit type is. */
  predicate IsLowerWord(w: string)
  {
    w != [] && forall i :: 0 <= i < |w| ==> 'a' <= w[i] <= 'z'
  }

  lemma CommitTypesAreWords()
    ensures forall t :: t in CommitTypes ==> IsLowerWord(t)
  {
  }

  /** The answers a prompt can produce and that the message format can carry
      unambiguously: a listed type, single-line scope and subject, a scope
      without `)` and a body that does not itself end with the footer text. */
  predicate Encodable(a: CommitAnswers)
  {
    && a.kind in CommitTypes
    && '\n' !in a.scope && ')' !in a.scope
    && '\n' !in a.subject
    && !EndsWith(a.body, BreakingFooter)
  }

  /** The header is read back into its type, scope and subject. */
  lemma HeaderRoundTrip(kind: string, scope: string, subject: string)
    requires IsLowerWord(kind) && ')' !in scope
    ensures ParseHeader(Header(kind, scope, subject)) == Some((kind, scope, subject))
  {
    if scope == "" {
      assert Header(kind, scope, subject) == kind + (": " + subject);
      HeaderWithoutScope(kind, ": " + subject);
    } else {
      var open := "(" + scope;
      assert Header(kind, scope, subject) == kind + (open + [')'] + (": " + subject));
      HeaderWithScope(kind, open, ": " + subject);
      assert open[1..] == scope;
    }
  }

  /** The type is the run of letters before `: `. */
  lemma HeaderWithoutScope(kind: string, after: string)
    requires IsLowerWord(kind) && StartsWith(after, ": ")
    ensures ParseHeader(kind + after) == Some((kind, "", after[2..]))
  {
    var h := kind + after;
    LeadingLettersOf(kind, after);
    assert h[..|kind|] == kind && h[|kind|..] == after;
    assert !StartsWith(after, "(");
  }

  /** The scope runs from the `(` after the type to the first `)`. */
  lemma HeaderWithScope(kind: string, open: string, after: string)
    requires IsLowerWord(kind) && StartsWith(open, "(") && ')' !in open && StartsWith(after, ": ")
    ensures ParseHeader(kind + (open + [')'] + after)) == Some((kind, open[1..], after[2..]))
  {
    var rest := open + [')'] + after;
    var h := kind + rest;
    assert rest[0] == '(';
    LeadingLettersOf(kind, rest);
    assert h[..|kind|] == kind && h[|kind|..] == rest;
    assert StartsWith(rest, "(") by {
      assert rest[..1] == open[..1];
    }
    IndexOfAfter(open, ')', after);
    assert rest[|open| + 1..] == after;
    assert rest[1..|open|] == open[1..];
  }

  /** The header is everything before the first line break. */
  lemma FirstLineOf(h: string, tail: string)
    requires '\n' !in h && (tail == [] || tail[0] == '\n')
    ensures FirstLine(h + tail) == (h, tail)
  {
    if tail == [] {
      assert h + tail == h;
    } else {
      IndexOfAfter(h, '\n', tail[1..]);
      assert h + tail == h + ['\n'] + tail[1..];
    }
  }

  /** The body and the footer flag are read back from what follows the header. */
  lemma BodyRoundTrip(body: string, isBreaking: bool)
    requires !EndsWith(body, BreakingFooter)
    ensures DecodeBody((if body != "" then "\n\n" + body else "")
                       + (if isBreaking then "\n\n" + BreakingFooter else ""))
            == Some((body, isBreaking))
  {
    var footer := "\n\n" + BreakingFooter;
    var bodyPart := if body != "" then "\n\n" + body else "";
    var rest := bodyPart + (if isBreaking then footer else "");
    if isBreaking {
      assert rest[|rest| - |footer|..] == footer;
      assert rest[..|rest| - |footer|] == bodyPart;
    } else {
      assert rest == bodyPart;
    }
  }

  /** Decoding the assembled message gives back the answers it was built from. */
  lemma CommitMessageRoundTrip(a: CommitAnswers)
    requires Encodable(a)
    ensures DecodeCommitMessage(CommitMessage(a)) == Some(a)
  {
    CommitTypesAreWords();
    var h := Header(a.kind, a.scope, a.subject);
    var tail := (if a.body != "" then "\n\n" + a.body else "")
                + (if a.isBreaking then "\n\n" + BreakingFooter else "");
    assert CommitMessage(a) == h + tail;
    assert '\n' !in h by {
      assert forall i :: 0 <= i < |a.kind| ==> a.kind[i] != '\n';
    }
    FirstLineOf(h, tail);
    HeaderRoundTrip(a.kind, a.scope, a.subject);
    BodyRoundTrip(a.body, a.isBreaking);
  }

  // ===========================================================================
  // git status --porcelain
  // ===========================================================================

  /** The labels getStatusText gives the six codes it knows. */
  const StatusLabels: map<string, string> :=
    map["A " := "新增", " M" := "修改", " D" := "删除", "??" := "未跟踪", "R " := "重命名", "C " := "复制"]

  /** getStatusText: a known code's label, otherwise the code itself. */
  function StatusText(code: string): (r: string)
    ensures r == code <==> code !in StatusLabels
    ensures code in StatusLabels ==> r in StatusLabels.Values
  {
    if code in StatusLabels then StatusLabels[code] else code
  }

  /** A two-character porcelain v1 status code (the `XY` of `XY PATH`). */
  predicate IsStatusCode(code: string)
  {
    |code| == 2 && forall i :: 0 <= i < 2 ==> code[i] in " MTADRCU?!"
  }

  /** Distinct status codes are shown with distinct texts. */
  lemma StatusTextDistinguishes(a: string, b: string)
    requires IsStatusCode(a) && IsStatusCode(b) && StatusText(a) == StatusText(b)
    ensures a == b
  {
  }

  /** One decoded line of the status listing. */
  datatype StatusEntry = StatusEntry(code: string, path: string)

  /** The line split of the status action: `substring(0, 2)` and `substring(3)`. */
  function SplitPorcelainLine(line: string): (e: StatusEntry)
    ensures |e.code| == if |line| < 2 then |line| else 2
    ensures StartsWith(line, e.code)
    ensures |line| >= 3 ==> line == e.code + [line[2]] + e.path
  {
    var e := StatusEntry(line[..if |line| < 2 then |line| else 2], if |line| >= 3 then line[3..] else "");
    assert |line| >= 3 ==> line == line[..2] + [line[2]] + line[3..];
    e
  }

  function ParseLines(lines: seq<string>): (es: seq<StatusEntry>)
    ensures |es| == |lines|
    ensures forall i :: 0 <= i < |lines| ==> es[i] == SplitPorcelainLine(lines[i])
  {
    if lines == [] then [] else [SplitPorcelainLine(lines[0])] + ParseLines(lines[1..])
  }

  /** The status action as written: the whole output is trimmed, then split into lines. */
  function StatusEntriesAsWritten(out: string): (r: seq<StatusEntry>)
    ensures r == [] <==> IsBlank(out)
  {
    var t := Trim(out);
    if t == [] then [] else ParseLines(Split(t, "\n"))
  }

  /** The lines of `out` that are not empty, in order. */
  function NonEmptyLines(lines: seq<string>): (r: seq<string>)
    ensures forall k :: 0 <= k < |r| ==> r[k] != [] && r[k] in lines
  {
    if lines == [] then []
    else (if lines[0] == [] then [] else [lines[0]]) + NonEmptyLines(lines[1..])
  }

  /** The status listing with the leading space of each code kept: the output is
      split into lines and the empty ones (the final newline) are skipped. */
  function StatusEntries(out: string): (r: seq<StatusEntry>)
    ensures |r| == |NonEmptyLines(Split(out, "\n"))|
    ensures forall k :: 0 <= k < |r| ==> r[k] == SplitPorcelainLine(NonEmptyLines(Split(out, "\n"))[k])
  {
    ParseLines(NonEmptyLines(Split(out, "\n")))
  }

  /** What `git status --porcelain` prints for a list of entries. */
  function RenderPorcelain(es: seq<StatusEntry>): string
  {
    if es == [] then "" else es[0].code + " " + es[0].path + "\n" + RenderPorcelain(es[1..])
  }

  predicate WellFormedEntry(e: StatusEntry)
  {
    |e.code| == 2 && '\n' !in e.code && '\n' !in e.path
  }

  /** Decoding porcelain output gives back every entry, with its code and path intact. */
  lemma {:induction false} StatusEntriesRoundTrip(es: seq<StatusEntry>)
    requires forall i :: 0 <= i < |es| ==> WellFormedEntry(es[i])
    ensures StatusEntries(RenderPorcelain(es)) == es
  {
    if es == [] {
      assert Split("", "\n") == [""];
    } else {
      StatusEntriesRoundTrip(es[1..]);
      var rest := RenderPorcelain(es[1..]);
      assert RenderPorcelain(es) == es[0].code + " " + es[0].path + "\n" + rest;
      StatusEntriesLine(es[0], rest);
      assert es == [es[0]] + es[1..];
    }
  }

  /** One rendered line in front of more output decodes to its entry in front. */
  lemma StatusEntriesLine(e: StatusEntry, rest: string)
    requires WellFormedEntry(e)
    ensures StatusEntries(e.code + " " + e.path + "\n" + rest) == [e] + StatusEntries(rest)
  {
    var line := e.code + " " + e.path;
    assert '\n' !in line;
    assert e.code + " " + e.path + "\n" + rest == line + ['\n'] + rest;
    SplitAtFirst(line, '\n', rest);
    assert "\n" == ['\n'];
    assert line != [];
    var ls := Split(rest, "\n");
    assert NonEmptyLines([line] + ls) == [line] + NonEmptyLines(ls) by {
      assert ([line] + ls)[1..] == ls;
    }
    assert SplitPorcelainLine(line) == e by {
      assert line[..2] == e.code;
      assert line[3..] == e.path;
    }
  }

  /** A first porcelain line `␠X PATH` (an unstaged change X, such as ` M
      README.md`) loses its leading space to the trim: it is shown under the
      code `X␠` for the path without its first character (`M ` and `EADME.md`),
      where the corrected decoding keeps ` X` and the whole path. */
  lemma LeadingSpaceLost(x: char, path: string)
    requires !IsJsWhitespace(x) && path != [] && !IsJsWhitespace(path[|path| - 1]) && '\n' !in path
    ensures StatusEntriesAsWritten([' ', x, ' '] + path + "\n") == [StatusEntry([x, ' '], path[1..])]
    ensures StatusEntries([' ', x, ' '] + path + "\n") == [StatusEntry([' ', x], path)]
  {
    LeadingSpaceLostAsWritten(x, path);
    LeadingSpaceKept(x, path);
  }

  lemma LeadingSpaceLostAsWritten(x: char, path: string)
    requires !IsJsWhitespace(x) && path != [] && !IsJsWhitespace(path[|path| - 1]) && '\n' !in path
    ensures StatusEntriesAsWritten([' ', x, ' '] + path + "\n") == [StatusEntry([x, ' '], path[1..])]
  {
    var line := [x, ' '] + path;
    TrimFirstLine(x, path);
    assert x != '\n';
    SplitNoMatchLine(line);
    assert line[..2] == [x, ' '] && line[3..] == path[1..];
    assert ParseLines([line]) == [SplitPorcelainLine(line)];
  }

  /** Trimming the output `␠X PATH` and its newline leaves `X PATH`. */
  lemma TrimFirstLine(x: char, path: string)
    requires !IsJsWhitespace(x) && path != [] && !IsJsWhitespace(path[|path| - 1])
    ensures Trim([' ', x, ' '] + path + "\n") == [x, ' '] + path
  {
    var line := [x, ' '] + path;
    assert [' ', x, ' '] + path + "\n" == [' '] + (line + "\n");
    assert line[|line| - 1] == path[|path| - 1];
    TrimLine(line);
  }

  /** A line without whitespace at either end, after one space and before a newline. */
  lemma TrimLine(line: string)
    requires line != [] && !IsJsWhitespace(line[0]) && !IsJsWhitespace(line[|line| - 1])
    ensures Trim([' '] + (line + "\n")) == line
  {
    TrimStartSpace(line + "\n");
    TrimStartKeeps(line + "\n");
    TrimEndNewline(line);
  }

  lemma LeadingSpaceKept(x: char, path: string)
    requires x != '\n' && '\n' !in path
    ensures StatusEntries([' ', x, ' '] + path + "\n") == [StatusEntry([' ', x], path)]
  {
    var e := StatusEntry([' ', x], path);
    assert RenderPorcelain([e]) == [' ', x, ' '] + path + "\n" by {
      assert [e][1..] == [];
    }
    StatusEntriesRoundTrip([e]);
  }

  lemma SplitNoMatchLine(s: string)
    requires '\n' !in s
    ensures Split(s, "\n") == [s]
  {
    NotContainsChar(s, '\n');
    SplitNoMatch(s, "\n");
  }
}
