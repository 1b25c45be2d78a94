/**
 * The commit-message check of scripts/check_commit_message.py: the message is split into lines
 * as Python's `str.splitlines` does, the stripped header must match `PATTERN` at its start, the
 * second line (if any) must be blank and a non-blank description must follow on the third.
 * Reading the file and printing the reasons are not modelled; the exit code is.
 */
module CommitMessage {
  import opened Wrappers
  import opened Text

  // ---------------------------------------------------------------- lines

  /** The characters `str.splitlines` breaks at (`\r\n` counts as one break). */
  predicate IsLineBoundary(c: char) {
    var n := c as int;
    || n == 0x0A || n == 0x0B || n == 0x0C || n == 0x0D || n == 0x1C || n == 0x1D || n == 0x1E
    || n == 0x85 || n == 0x2028 || n == 0x2029
  }

  predicate NoLineBoundary(s: string) {
    forall i :: 0 <= i < |s| ==> !IsLineBoundary(s[i])
  }

  /** The index of the first line boundary from `i` on, or `|s|`. */
  function LineEnd(s: string, i: nat): (k: nat)
    requires i <= |s|
    ensures i <= k <= |s|
    ensures forall j :: i <= j < k ==> !IsLineBoundary(s[j])
    ensures k < |s| ==> IsLineBoundary(s[k])
    decreases |s| - i
  {
    if i == |s| || IsLineBoundary(s[i]) then i else LineEnd(s, i + 1)
  }

  /** `s.splitlines()`: the lines without their breaks; a final break opens no empty line. */
  function SplitLines(s: string): (lines: seq<string>)
    ensures forall i :: 0 <= i < |lines| ==> NoLineBoundary(lines[i])
    ensures s == [] <==> lines == []
    decreases |s|
  {
    if s == [] then []
    else
      var k := LineEnd(s, 0);
      if k == |s| then [s]
      else
        var next := if s[k] == '\r' && k + 1 < |s| && s[k + 1] == '\n' then k + 2 else k + 1;
        [s[..k]] + SplitLines(s[next..])
  }

  /** Every line followed by a newline. */
  function Terminated(lines: seq<string>): string {
    if lines == [] then [] else lines[0] + "\n" + Terminated(lines[1..])
  }

  /** Splitting newline-terminated lines that hold no break gives the lines back. */
  lemma {:induction false} SplitTerminated(lines: seq<string>)
    requires forall i :: 0 <= i < |lines| ==> NoLineBoundary(lines[i])
    ensures SplitLines(Terminated(lines)) == lines
    decreases |lines|
  {
    if lines != [] {
      var s := Terminated(lines);
      var l := lines[0];
      var rest := Terminated(lines[1..]);
      assert s == l + "\n" + rest;
      assert s[|l|] == '\n';
      LineEndAt(s, l);
      assert s[..|l|] == l;
      assert s[|l| + 1..] == rest;
      SplitTerminated(lines[1..]);
    }
  }

  /** A line without breaks, followed by a break, ends where the break is. */
  lemma LineEndAt(s: string, l: string)
    requires NoLineBoundary(l) && |l| < |s| && s[..|l|] == l && IsLineBoundary(s[|l|])
    ensures LineEnd(s, 0) == |l|
  {
    assert forall j :: 0 <= j < |l| ==> s[j] == l[j];
  }

  // ---------------------------------------------------------------- header

  /** The six commit types `PATTERN` allows. */
  const Types: seq<string> := ["feat", "fix", "refactor", "test", "docs", "chore"]

  /** Type names are lower-case letters. */
  lemma TypeChars(t: int)
    requires 0 <= t < |Types|
    ensures forall i :: 0 <= i < |Types[t]| ==> 'a' <= Types[t][i] <= 'z'
  {
  }

  /** No two allowed types are the same word. */
  lemma TypesDistinct(t: int, u: int)
    requires 0 <= t < |Types| && 0 <= u < |Types| && Types[t] == Types[u]
    ensures t == u
  {
    assert |Types[t]| == |Types[u]| && Types[t][0] == Types[u][0];
  }

  /** At most one type followed by `(` starts a header: no type is a prefix of another. */
  lemma TypeUnique(header: string, t: int, u: int)
    requires 0 <= t < |Types| && 0 <= u < |Types|
    requires StartsWith(header, Types[t] + "(") && StartsWith(header, Types[u] + "(")
    ensures t == u
  {
    TypeChars(t);
    TypeChars(u);
    assert header[|Types[t]|] == (Types[t] + "(")[|Types[t]|] == '(';
    assert header[|Types[u]|] == (Types[u] + "(")[|Types[u]|] == '(';
    assert Types[t] == header[..|Types[t]|] == Types[u];
    TypesDistinct(t, u);
  }

  /** The first type from index `t` on that, followed by `(`, starts the header. */
  function TypeFrom(header: string, t: nat): (r: Option<nat>)
    requires t <= |Types|
    ensures r.Some? ==> t <= r.value < |Types| && StartsWith(header, Types[r.value] + "(")
    ensures r.None? ==> forall u :: t <= u < |Types| ==> !StartsWith(header, Types[u] + "(")
    decreases |Types| - t
  {
    if t == |Types| then None
    else if StartsWith(header, Types[t] + "(") then Some(t)
    else TypeFrom(header, t + 1)
  }

  /** `[a-z0-9-]`, the characters of a scope. */
  predicate IsScopeChar(c: char) {
    ('a' <= c <= 'z') || ('0' <= c <= '9') || c == '-'
  }

  /** The length of the run of scope characters from index `i` on. */
  function ScopeRun(s: string, i: nat): (n: nat)
    requires i <= |s|
    ensures i + n <= |s|
    ensures forall k :: i <= k < i + n ==> IsScopeChar(s[k])
    ensures i + n < |s| ==> !IsScopeChar(s[i + n])
    decreases |s| - i
  {
    if i < |s| && IsScopeChar(s[i]) then 1 + ScopeRun(s, i + 1) else 0
  }

  /**
   * What must follow `type(`: a non-empty scope, `): ` and at least one character that is not
   * a newline.  `[a-z0-9-]+` cannot run past the `)`, so the scope is the whole run.
   */
  predicate MatchesAfterType(rest: string) {
    var n := ScopeRun(rest, 0);
    n >= 1 && n + 4 <= |rest| && rest[n..n + 3] == "): " && rest[n + 3] != '\n'
  }

  /**
   * `PATTERN.match(header)`: the header starts with a type and `(`, followed by what must
   * follow.  The alternatives are tried in order, but at most one of them can start the header.
   */
  predicate HeaderMatches(header: string) {
    var t := TypeFrom(header, 0);
    t.Some? && MatchesAfterType(header[|Types[t.value]| + 1..])
  }

  /** The header `type(scope): summary`. */
  function FormatHeader(commitType: string, scope: string, summary: string): (header: string)
    ensures |header| == |commitType| + |scope| + |summary| + 4
  {
    commitType + "(" + scope + "): " + summary
  }

  /** A valid scope: one or more scope characters. */
  predicate ValidScope(scope: string) {
    |scope| >= 1 && forall i :: 0 <= i < |scope| ==> IsScopeChar(scope[i])
  }

  /** The scope run of a formatted tail stops at its `)`. */
  lemma ScopeRunOfFormatted(scope: string, tail: string)
    requires ValidScope(scope)
    ensures ScopeRun(scope + "): " + tail, 0) == |scope|
  {
    var s := scope + "): " + tail;
    assert s[|scope|] == ')';
    assert forall k :: 0 <= k < |scope| ==> s[k] == scope[k];
  }

  /** A header that starts with `type(` is `type(` followed by the rest. */
  lemma TypePrefixSplit(header: string, t: int)
    requires 0 <= t < |Types| && StartsWith(header, Types[t] + "(")
    ensures header == Types[t] + "(" + header[|Types[t]| + 1..]
  {
    assert header == header[..|Types[t]| + 1] + header[|Types[t]| + 1..];
  }

  /** What follows `type(` in a matched header is a valid scope, `): ` and the summary. */
  lemma AfterTypeSplit(rest: string)
    requires MatchesAfterType(rest)
    ensures var n := ScopeRun(rest, 0);
      && ValidScope(rest[..n]) && rest[n + 3..] != [] && rest[n + 3..][0] != '\n'
      && rest == rest[..n] + "): " + rest[n + 3..]
  {
    var n := ScopeRun(rest, 0);
    assert rest == rest[..n] + rest[n..n + 3] + rest[n + 3..];
  }

  /** A matched header splits into an allowed type, a valid scope and a summary not starting with a newline. */
  lemma HeaderParts(header: string)
    requires HeaderMatches(header)
    ensures exists t, scope, summary ::
      && 0 <= t < |Types| && ValidScope(scope) && summary != [] && summary[0] != '\n'
      && header == FormatHeader(Types[t], scope, summary)
  {
    var t := TypeFrom(header, 0).value;
    var rest := header[|Types[t]| + 1..];
    var n := ScopeRun(rest, 0);
    TypePrefixSplit(header, t);
    AfterTypeSplit(rest);
    FormattedWitness(header, t, rest[..n], rest[n + 3..]);
  }

  /** Exhibits the parts of a formatted header. */
  lemma FormattedWitness(header: string, t: int, scope: string, summary: string)
    requires 0 <= t < |Types| && ValidScope(scope) && summary != [] && summary[0] != '\n'
    requires header == Types[t] + "(" + (scope + "): " + summary)
    ensures exists t, scope, summary ::
      && 0 <= t < |Types| && ValidScope(scope) && summary != [] && summary[0] != '\n'
      && header == FormatHeader(Types[t], scope, summary)
  {
    assert header == FormatHeader(Types[t], scope, summary);
  }

  /** A header built from an allowed type, a valid scope and a summary is matched. */
  lemma HeaderOfParts(t: int, scope: string, summary: string)
    requires 0 <= t < |Types| && ValidScope(scope) && summary != [] && summary[0] != '\n'
    ensures HeaderMatches(FormatHeader(Types[t], scope, summary))
  {
    var header := FormatHeader(Types[t], scope, summary);
    var rest := scope + "): " + summary;
    assert header == Types[t] + "(" + rest;
    assert StartsWith(header, Types[t] + "(") by {
      assert header[..|Types[t]| + 1] == Types[t] + "(";
    }
    var u := TypeFrom(header, 0).value;
    TypeUnique(header, t, u);
    assert header[|Types[t]| + 1..] == rest;
    ScopeRunOfFormatted(scope, summary);
    assert rest[|scope|..|scope| + 3] == "): ";
    assert rest[|scope| + 3] == summary[0];
  }

  /**
   * `PATTERN.match` accepts a header exactly when it is an allowed type, a valid scope and a
   * summary whose first character is not a newline.
   */
  lemma HeaderMatchesExactly(header: string)
    ensures HeaderMatches(header) <==>
      exists t, scope, summary :: 0 <= t < |Types| && ValidScope(scope) && summary != [] && summary[0] != '\n'
        && header == FormatHeader(Types[t], scope, summary)
  {
    if HeaderMatches(header) {
      HeaderParts(header);
    } else {
      forall t, scope, summary | 0 <= t < |Types| && ValidScope(scope) && summary != [] && summary[0] != '\n'
        ensures header != FormatHeader(Types[t], scope, summary)
      {
        HeaderOfParts(t, scope, summary);
      }
    }
  }

  /**
   * Worked example, for the reader: a plain header is accepted, and a summary-less header and an
   * upper-case scope are refused.  `HeaderMatchesExactly` is the general statement.
   */
  lemma HeaderExamples()
    ensures HeaderMatches("feat(api): add rate limit")
    ensures !HeaderMatches("fix(API): crash")
    ensures !HeaderMatches("fix(api): ")
  {
    AcceptedExample();
    UpperCaseScopeExample();
    EmptySummaryExample();
  }

  lemma AcceptedExample()
    ensures HeaderMatches("feat(api): add rate limit")
  {
    AcceptedShape("feat(api): add rate limit");
  }

  lemma UpperCaseScopeExample()
    ensures !HeaderMatches("fix(API): crash")
  {
    UpperCaseAfterFix("fix(API): crash");
  }

  lemma EmptySummaryExample()
    ensures !HeaderMatches("fix(api): ")
  {
    NoSummaryAfterFix("fix(api): ");
  }

  /** `feat(`, a three-character scope, `): ` and a summary not starting with a newline. */
  lemma AcceptedShape(h: string)
    requires |h| >= 12 && h[..5] == "feat(" && IsScopeChar(h[5]) && IsScopeChar(h[6]) && IsScopeChar(h[7])
    requires h[8..11] == "): " && h[11] != '\n'
    ensures HeaderMatches(h)
  {
    assert StartsWith(h, Types[0] + "(");
    TypeHeaderRest(h, 0);
    var rest := h[5..];
    assert rest[0] == h[5] && rest[1] == h[6] && rest[2] == h[7] && rest[3] == h[8] == ')';
    assert ScopeRun(rest, 3) == 0;
    assert ScopeRun(rest, 2) == 1;
    assert ScopeRun(rest, 1) == 2;
    assert ScopeRun(rest, 0) == 3;
    assert rest[3..6] == h[8..11];
  }

  /** After `fix(`, an upper-case letter fails the pattern: the scope is empty. */
  lemma UpperCaseAfterFix(h: string)
    requires |h| >= 5 && h[..4] == "fix(" && 'A' <= h[4] <= 'Z'
    ensures !HeaderMatches(h)
  {
    assert StartsWith(h, Types[1] + "(");
    TypeHeaderRest(h, 1);
    assert ScopeRun(h[4..], 0) == 0;
  }

  /** `fix(` and a three-character scope leave no room for `): ` and a summary in ten characters. */
  lemma NoSummaryAfterFix(h: string)
    requires |h| == 10 && h[..4] == "fix(" && IsScopeChar(h[4]) && IsScopeChar(h[5]) && IsScopeChar(h[6])
    ensures !HeaderMatches(h)
  {
    assert StartsWith(h, Types[1] + "(");
    TypeHeaderRest(h, 1);
    var rest := h[4..];
    assert ScopeRun(rest, 0) == 3 + ScopeRun(rest, 3);
  }

  /** A header starting with an allowed type and `(` is checked on what follows them. */
  lemma TypeHeaderRest(h: string, t: int)
    requires 0 <= t < |Types| && StartsWith(h, Types[t] + "(")
    ensures HeaderMatches(h) <==> MatchesAfterType(h[|Types[t]| + 1..])
  {
    var u := TypeFrom(h, 0);
    TypeUnique(h, t, u.value);
  }

  /** A header without a scope, and one whose type is capitalised, are refused. */
  lemma HeaderNeedsScopeAndLowerCaseType(summary: string)
    ensures !HeaderMatches("feat: " + summary)
    ensures !HeaderMatches("Feat(api): " + summary)
  {
    var h1 := "feat: " + summary;
    var h2 := "Feat(api): " + summary;
    forall u | 0 <= u < |Types|
      ensures !StartsWith(h1, Types[u] + "(") && !StartsWith(h2, Types[u] + "(")
    {
      var p := Types[u] + "(";
      TypeChars(u);
      assert p[0] == Types[u][0] != h2[0];
      var k := if u == 0 then 4 else if u == 1 then 1 else 0;
      assert k < |p| && k < |h1| && p[k] != h1[k] by {
        if u == 0 {
          assert p[4] == '(' && h1[4] == ':';
        } else if u == 1 {
          assert p[1] == 'i' && h1[1] == 'e';
        } else {
          assert h1[0] == 'f' && p[0] != 'f';
        }
      }
    }
  }

  // ---------------------------------------------------------------- verdict

  /** Why a message is refused, in the order the checks run. */
  datatype Verdict = Accepted | EmptyMessage | InvalidHeader | SecondLineNotEmpty | MissingDescription

  /** `main` after reading the file: the first check that fails decides. */
  function CheckLines(lines: seq<string>): (v: Verdict)
    ensures v == EmptyMessage <==> lines == []
    ensures v == InvalidHeader <==> lines != [] && !HeaderMatches(PyStrip(lines[0]))
  {
    if lines == [] then EmptyMessage
    else if !HeaderMatches(PyStrip(lines[0])) then InvalidHeader
    else if |lines| > 1 && PyStrip(lines[1]) != "" then SecondLineNotEmpty
    else if |lines| < 3 || PyStrip(lines[2]) == "" then MissingDescription
    else Accepted
  }

  /** The verdict for the text of a commit-message file. */
  function CheckCommitMessage(text: string): (v: Verdict)
    ensures v == EmptyMessage <==> text == []
    ensures v == InvalidHeader <==> text != [] && !HeaderMatches(PyStrip(SplitLines(text)[0]))
  {
    CheckLines(SplitLines(text))
  }

  /** The script's exit status. */
  function ExitCode(v: Verdict): (code: int)
    ensures code == 0 <==> v == Accepted
    ensures code == 0 || code == 1
  {
    if v == Accepted then 0 else 1
  }

  /**
   * A message is accepted exactly when it has at least three lines, a matching header, a blank
   * second line and a non-blank third line.
   */
  lemma AcceptedExactly(lines: seq<string>)
    ensures CheckLines(lines) == Accepted <==>
      |lines| >= 3 && HeaderMatches(PyStrip(lines[0])) && PyStrip(lines[1]) == "" && PyStrip(lines[2]) != ""
  {
  }

  /** Lines after the third do not affect the verdict. */
  lemma LaterLinesFree(lines: seq<string>, more: seq<string>)
    requires |lines| >= 3
    ensures CheckLines(lines + more) == CheckLines(lines)
  {
    var all := lines + more;
    assert all[0] == lines[0] && all[1] == lines[1] && all[2] == lines[2];
  }

  /** A bad header is reported even when the rest of the message is also wrong. */
  lemma HeaderCheckedFirst(lines: seq<string>)
    requires lines != [] && !HeaderMatches(PyStrip(lines[0]))
    ensures CheckLines(lines) == InvalidHeader && ExitCode(CheckLines(lines)) == 1
  {
  }

  /** A two-line message with a good header is refused for its missing description. */
  lemma DescriptionRequired(header: string, blank: string)
    requires HeaderMatches(PyStrip(header)) && PyStrip(blank) == ""
    ensures CheckLines([header]) == MissingDescription
    ensures CheckLines([header, blank]) == MissingDescription
  {
  }

  /** A message written as header, blank line and description, each ended by a newline, is accepted. */
  lemma WellFormedMessageAccepted(t: int, scope: string, summary: string, description: string)
    requires 0 <= t < |Types| && ValidScope(scope) && summary != [] && NoLineBoundary(summary)
    requires description != [] && NoLineBoundary(description)
    requires !IsPySpace(summary[|summary| - 1]) && !IsPySpace(description[0]) && !IsPySpace(description[|description| - 1])
    ensures CheckCommitMessage(Terminated([FormatHeader(Types[t], scope, summary), "", description])) == Accepted
  {
    var header := FormatHeader(Types[t], scope, summary);
    HeaderNoBoundary(t, scope, summary);
    HeaderFirstCharNotSpace(t, scope, summary);
    assert summary[0] != '\n';
    HeaderOfParts(t, scope, summary);
    ThreeLinesAccepted(header, description);
  }

  /** A formatted header holds no line boundary when its summary holds none. */
  lemma HeaderNoBoundary(t: int, scope: string, summary: string)
    requires 0 <= t < |Types| && ValidScope(scope) && NoLineBoundary(summary)
    ensures NoLineBoundary(FormatHeader(Types[t], scope, summary))
  {
    var header := FormatHeader(Types[t], scope, summary);
    TypeChars(t);
    forall i | 0 <= i < |header|
      ensures !IsLineBoundary(header[i])
    {
      if i < |Types[t]| { assert header[i] == Types[t][i]; }
      else if i == |Types[t]| { }
      else if i < |Types[t]| + 1 + |scope| { assert header[i] == scope[i - |Types[t]| - 1]; }
      else if i < |Types[t]| + |scope| + 4 { }
      else { assert header[i] == summary[i - |Types[t]| - |scope| - 4]; }
    }
  }

  /** A matching, trimmed header, a blank line and a trimmed description, each ended by a newline, are accepted. */
  lemma ThreeLinesAccepted(header: string, description: string)
    requires HeaderMatches(header) && NoLineBoundary(header) && NoLineBoundary(description)
    requires header != [] && !IsPySpace(header[0]) && !IsPySpace(header[|header| - 1])
    requires description != [] && !IsPySpace(description[0]) && !IsPySpace(description[|description| - 1])
    ensures CheckCommitMessage(Terminated([header, "", description])) == Accepted
  {
    var lines := [header, "", description];
    assert forall i :: 0 <= i < |lines| ==> NoLineBoundary(lines[i]);
    SplitTerminated(lines);
    StripUnchanged(header, IsPySpace);
    StripUnchanged(description, IsPySpace);
    StripUnchanged(lines[1], IsPySpace);
    AcceptedExactly(lines);
  }

  /** A formatted header starts with a letter and ends with the summary's last character. */
  lemma HeaderFirstCharNotSpace(t: int, scope: string, summary: string)
    requires 0 <= t < |Types| && summary != []
    ensures var header := FormatHeader(Types[t], scope, summary);
      header[0] == Types[t][0] && header[|header| - 1] == summary[|summary| - 1] && !IsPySpace(header[0])
  {
    TypeChars(t);
  }
}
