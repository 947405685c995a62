/** The permission rule parser: `ToolName(content)` with backslash escapes. */
module RuleParser {
  import opened Wrappers

  datatype Behavior = Allow | Deny | Ask
  datatype Source =
    | UserSettings | ProjectSettings | LocalSettings | FlagSettings
    | PolicySettings | CliArg | Command | Session
  datatype Rule = Rule(toolName: string, content: Option<string>, behavior: Behavior, source: Source, isWildcard: bool)

  // ----- Backslash escapes -----

  /** `s.replace(/ab/g, c)` for a two-character pattern. */
  function ReplacePair(s: string, a: char, b: char, c: char): string {
    if |s| < 2 then s
    else if s[0] == a && s[1] == b then [c] + ReplacePair(s[2..], a, b, c)
    else [s[0]] + ReplacePair(s[1..], a, b, c)
  }

  /** `unescapeContent`: three global replacements, one after the other. */
  function UnescapeContent(content: string): string {
    ReplacePair(ReplacePair(ReplacePair(content, '\\', '(', '('), '\\', ')', ')'), '\\', '\\', '\\')
  }

  predicate Special(c: char) { c == '(' || c == ')' || c == '\\' }

  /** What the escapes are documented to mean: read from the left, a backslash before one of
      the three special characters stands for that character. */
  function Unescape(s: string): string {
    if |s| < 2 then s
    else if s[0] == '\\' && Special(s[1]) then [s[1]] + Unescape(s[2..])
    else [s[0]] + Unescape(s[1..])
  }

  function Escape(s: string): string {
    if s == "" then "" else (if Special(s[0]) then ['\\', s[0]] else [s[0]]) + Escape(s[1..])
  }

  lemma ReplacePairSkips(x: char, s: string, a: char, b: char, c: char)
    requires x != a || s == "" || s[0] != b
    ensures ReplacePair([x] + s, a, b, c) == [x] + ReplacePair(s, a, b, c)
  {
    assert ([x] + s)[1..] == s;
  }

  lemma ReplacePairTakes(s: string, a: char, b: char, c: char)
    ensures ReplacePair([a, b] + s, a, b, c) == [c] + ReplacePair(s, a, b, c)
  {
    assert ([a, b] + s)[2..] == s;
  }

  /** Replacing an escaped parenthesis never makes up another first character. */
  lemma ReplacePairHead(s: string, paren: char, other: char)
    requires paren != '\\' && other != '\\' && paren != other
    ensures s == "" <==> ReplacePair(s, '\\', paren, paren) == ""
    ensures s != "" ==> (ReplacePair(s, '\\', paren, paren)[0] == other <==> s[0] == other)
  {}

  /** An untouched first character passes through all three replacements. */
  lemma UnescapeContentSkips(x: char, s: string)
    requires x != '\\' || s == "" || !Special(s[0])
    ensures UnescapeContent([x] + s) == [x] + UnescapeContent(s)
  {
    var p := ReplacePair(s, '\\', '(', '(');
    var q := ReplacePair(p, '\\', ')', ')');
    ReplacePairSkips(x, s, '\\', '(', '(');
    if x == '\\' && s != "" {
      assert p[0] == s[0] && q[0] == s[0];
    }
    ReplacePairSkips(x, p, '\\', ')', ')');
    ReplacePairSkips(x, q, '\\', '\\', '\\');
  }

  lemma UnescapeContentTakes(x: char, s: string)
    requires Special(x)
    ensures UnescapeContent(['\\', x] + s) == [x] + UnescapeContent(s)
  {
    var p := ReplacePair(s, '\\', '(', '(');
    var q := ReplacePair(p, '\\', ')', ')');
    assert ['\\', x] + s == ['\\'] + ([x] + s);
    if x == '(' {
      ReplacePairTakes(s, '\\', '(', '(');
      ReplacePairSkips('(', p, '\\', ')', ')');
      ReplacePairSkips('(', q, '\\', '\\', '\\');
    } else if x == ')' {
      ReplacePairSkips('\\', [')'] + s, '\\', '(', '(');
      ReplacePairSkips(')', s, '\\', '(', '(');
      assert ['\\'] + ([')'] + p) == ['\\', ')'] + p;
      ReplacePairTakes(p, '\\', ')', ')');
      ReplacePairSkips(')', q, '\\', '\\', '\\');
    } else {
      UnescapeContentHalves(s);
    }
  }

  /** A doubled backslash is halved whatever follows it, although the first two passes may eat
      its second half together with a parenthesis. */
  lemma UnescapeContentHalves(s: string)
    ensures UnescapeContent(['\\', '\\'] + s) == ['\\'] + UnescapeContent(s)
  {
    var p := ReplacePair(s, '\\', '(', '(');
    var q := ReplacePair(p, '\\', ')', ')');
    ReplacePairHead(s, '(', ')');
    assert ['\\', '\\'] + s == ['\\'] + (['\\'] + s);
    ReplacePairSkips('\\', ['\\'] + s, '\\', '(', '(');
    if s != "" && s[0] == '(' {
      assert s == ['('] + s[1..] && ['\\'] + s == ['\\', '('] + s[1..];
      ReplacePairTakes(s[1..], '\\', '(', '(');
      ReplacePairSkips('(', s[1..], '\\', '(', '(');
      ReplacePairSkips('\\', p, '\\', ')', ')');
      ReplacePairSkips('\\', q, '\\', '\\', '\\');
    } else {
      ReplacePairSkips('\\', s, '\\', '(', '(');
      ReplacePairSkips('\\', ['\\'] + p, '\\', ')', ')');
      if s != "" && s[0] == ')' {
        assert p == [')'] + p[1..] && ['\\'] + p == ['\\', ')'] + p[1..];
        ReplacePairTakes(p[1..], '\\', ')', ')');
        ReplacePairSkips(')', p[1..], '\\', ')', ')');
        ReplacePairSkips('\\', q, '\\', '\\', '\\');
      } else {
        ReplacePairSkips('\\', p, '\\', ')', ')');
        assert ['\\'] + (['\\'] + q) == ['\\', '\\'] + q;
        ReplacePairTakes(q, '\\', '\\', '\\');
      }
    }
  }

  /** The three passes agree with one reading from the left, on every string. */
  lemma {:induction false} UnescapeContentReadsOnce(s: string)
    ensures UnescapeContent(s) == Unescape(s)
  {
    if |s| >= 2 {
      if s[0] == '\\' && Special(s[1]) {
        assert s == ['\\', s[1]] + s[2..];
        UnescapeContentTakes(s[1], s[2..]);
        UnescapeContentReadsOnce(s[2..]);
      } else {
        assert s == [s[0]] + s[1..];
        UnescapeContentSkips(s[0], s[1..]);
        UnescapeContentReadsOnce(s[1..]);
      }
    }
  }

  lemma UnescapeStep(x: char, s: string)
    ensures Special(x) ==> Unescape(['\\', x] + s) == [x] + Unescape(s)
    ensures x != '\\' || s == "" || !Special(s[0]) ==> Unescape([x] + s) == [x] + Unescape(s)
  {
    assert (['\\', x] + s)[2..] == s;
    assert ([x] + s)[1..] == s;
  }

  lemma Regroup(a: string, b: string, c: string)
    ensures (a + b) + c == a + (b + c)
  {}

  lemma {:induction false} UnescapeEscape(s: string, tail: string)
    requires tail == "" || !Special(tail[0])
    ensures Unescape(Escape(s) + tail) == s + Unescape(tail)
  {
    if s == "" {
      assert Escape(s) + tail == tail;
    } else {
      UnescapeEscape(s[1..], tail);
      var head := if Special(s[0]) then ['\\', s[0]] else [s[0]];
      assert Escape(s) == head + Escape(s[1..]);
      hide Unescape, Escape;
      UnescapeStep(s[0], Escape(s[1..]) + tail);
      Regroup(head, Escape(s[1..]), tail);
      Regroup([s[0]], s[1..], Unescape(tail));
      assert s == [s[0]] + s[1..];
    }
  }

  // ----- Finding the separator -----

  /** How many backslashes stand directly before `idx`. */
  function BackslashesBefore(s: string, idx: nat): nat
    requires idx <= |s|
  {
    if idx > 0 && s[idx - 1] == '\\' then 1 + BackslashesBefore(s, idx - 1) else 0
  }

  predicate IsSeparator(s: string, i: nat)
    requires i < |s|
  {
    s[i] == '(' && BackslashesBefore(s, i) % 2 == 0
  }

  method IsEscaped(s: string, idx: nat) returns (escaped: bool)
    requires idx <= |s|
    ensures escaped <==> BackslashesBefore(s, idx) % 2 == 1
  {
    var count: nat := 0;
    var i: int := idx - 1;
    while i >= 0 && s[i] == '\\'
      invariant -1 <= i < idx
      invariant count + BackslashesBefore(s, i + 1) == BackslashesBefore(s, idx)
    {
      count := count + 1;
      i := i - 1;
    }
    escaped := count % 2 == 1;
  }

  /** Where the first separator at or after `from` is, or -1. */
  function FirstSeparator(s: string, from: nat): (r: int)
    requires from <= |s|
    ensures r == -1 || from <= r < |s|
    decreases |s| - from
  {
    if from == |s| then -1 else if IsSeparator(s, from) then from else FirstSeparator(s, from + 1)
  }

  method FindUnescapedParen(s: string) returns (idx: int)
    ensures idx == FirstSeparator(s, 0)
    ensures idx == -1 ==> forall i :: 0 <= i < |s| ==> !IsSeparator(s, i)
    ensures idx != -1 ==> 0 <= idx < |s| && IsSeparator(s, idx) && forall i :: 0 <= i < idx ==> !IsSeparator(s, i)
  {
    var i := 0;
    while i < |s|
      invariant 0 <= i <= |s|
      invariant FirstSeparator(s, 0) == FirstSeparator(s, i)
      invariant forall k :: 0 <= k < i ==> !IsSeparator(s, k)
    {
      var escaped := IsEscaped(s, i);
      if s[i] == '(' && !escaped {
        return i;
      }
      i := i + 1;
    }
    return -1;
  }

  // ----- The parser -----

  /** White space and line ends of ECMAScript, which `trim` strips. */
  predicate Space(c: char) {
    var n := c as int;
    9 <= n <= 13 || n == 0x20 || n == 0xA0 || n == 0x1680 || 0x2000 <= n <= 0x200A
    || n == 0x2028 || n == 0x2029 || n == 0x202F || n == 0x205F || n == 0x3000 || n == 0xFEFF
  }

  function Trim(s: string): (r: string)
    ensures r == "" || (!Space(r[0]) && !Space(r[|r| - 1]))
    ensures |r| <= |s|
  {
    if s == "" then ""
    else if Space(s[0]) then Trim(s[1..])
    else if Space(s[|s| - 1]) then Trim(s[..|s| - 1])
    else s
  }

  const LEGACY_ALIASES: map<string, string> := map[
    "Task" := "task", "KillShell" := "task", "AgentOutputTool" := "task", "BashOutputTool" := "task",
    "FileRead" := "read_file", "FileWrite" := "write_file", "FileEdit" := "edit_file",
    "Grep" := "glob_search", "Glob" := "glob_search", "TodoWrite" := "write_file",
    "TaskCreate" := "task", "TaskGet" := "task", "TaskUpdate" := "task", "TaskList" := "task",
    "TaskStop" := "task", "TaskOutput" := "task"]

  function ResolveAlias(name: string): string {
    if name in LEGACY_ALIASES then LEGACY_ALIASES[name] else name
  }

  /** `s.slice(from, -1)` */
  function SliceToLast(s: string, from: nat): string {
    if from < |s| - 1 then s[from..|s| - 1] else ""
  }

  predicate EndsWith(s: string, suffix: string) {
    |suffix| <= |s| && s[|s| - |suffix|..] == suffix
  }

  /** The rule for a tool and its unescaped content. */
  function ContentRule(toolName: string, normalized: string, behavior: Behavior, source: Source): Rule {
    if normalized == "" || normalized == "*" then Rule(toolName, None, behavior, source, false)
    else
      var isWildcard := EndsWith(normalized, "*") || EndsWith(normalized, ":*");
      var content := if isWildcard then normalized[..|normalized| - 1] else normalized;
      Rule(toolName, if content == "" then None else Some(content), behavior, source, isWildcard)
  }

  /** The rule a raw string stands for, given where its separator is. */
  function RuleAt(raw: string, parenIdx: int, behavior: Behavior, source: Source): Rule
    requires -1 <= parenIdx < |raw|
  {
    if parenIdx == -1 then Rule(ResolveAlias(Trim(raw)), None, behavior, source, false)
    else ContentRule(ResolveAlias(Trim(raw[..parenIdx])), UnescapeContent(SliceToLast(raw, parenIdx + 1)), behavior, source)
  }

  function Parse(raw: string, behavior: Behavior, source: Source): Rule {
    RuleAt(raw, FirstSeparator(raw, 0), behavior, source)
  }

  method ParseRule(raw: string, behavior: Behavior, source: Source) returns (rule: Rule)
    ensures rule == Parse(raw, behavior, source)
  {
    hide Trim, ResolveAlias, UnescapeContent, SliceToLast, FirstSeparator;
    var parenIdx := FindUnescapedParen(raw);
    if parenIdx == -1 {
      return Rule(ResolveAlias(Trim(raw)), None, behavior, source, false);
    }
    var toolName := ResolveAlias(Trim(raw[..parenIdx]));
    var normalized := UnescapeContent(SliceToLast(raw, parenIdx + 1));
    if normalized == "" || normalized == "*" {
      return Rule(toolName, None, behavior, source, false);
    }
    var isWildcard := EndsWith(normalized, "*") || EndsWith(normalized, ":*");
    var content;
    if EndsWith(normalized, ":*") {
      content := normalized[..|normalized| - 1];
    } else if isWildcard {
      content := normalized[..|normalized| - 1];
    } else {
      content := normalized;
    }
    return Rule(toolName, if content == "" then None else Some(content), behavior, source, isWildcard);
  }

  // ----- Round trip -----

  predicate SeparatorFree(s: string) {
    forall i :: 0 <= i < |s| ==> !IsSeparator(s, i)
  }

  predicate PlainToolName(name: string) {
    Trim(name) == name && name !in LEGACY_ALIASES && SeparatorFree(name)
  }

  /** An even run of backslashes ends the string, so that a parenthesis behind it separates. */
  predicate EndsUnescaped(s: string) { BackslashesBefore(s, |s|) % 2 == 0 }

  predicate PlainContent(c: string, isWildcard: bool) { c != "" && (isWildcard || c[|c| - 1] != '*') }

  predicate NormalForm(r: Rule) {
    && PlainToolName(r.toolName)
    && match r.content
       case None => !r.isWildcard
       case Some(c) => EndsUnescaped(r.toolName) && PlainContent(c, r.isWildcard)
  }

  /** The raw string of a rule. */
  function PrintRule(r: Rule): string {
    match r.content
    case None => r.toolName
    case Some(c) => r.toolName + ("(" + (Escape(c) + (if r.isWildcard then "*" else "") + ")"))
  }

  /** The first separator is where it is said to be. */
  lemma {:induction false} FirstSeparatorMeans(s: string, from: nat)
    requires from <= |s|
    ensures var p := FirstSeparator(s, from);
      && (p != -1 ==> IsSeparator(s, p))
      && forall i :: from <= i < (if p == -1 then |s| else p) ==> !IsSeparator(s, i)
    decreases |s| - from
  {
    hide IsSeparator;
    if from < |s| { FirstSeparatorMeans(s, from + 1); }
  }

  lemma {:induction false} BackslashesInFront(a: string, b: string, i: nat)
    requires i <= |a|
    ensures BackslashesBefore(a + b, i) == BackslashesBefore(a, i)
  {
    if i > 0 { BackslashesInFront(a, b, i - 1); }
  }

  /** Whether a character separates depends only on what stands before it. */
  lemma SeparatorInFront(a: string, b: string)
    ensures forall i :: 0 <= i < |a| ==> (IsSeparator(a + b, i) <==> IsSeparator(a, i))
    ensures b != "" ==> (IsSeparator(a + b, |a|) <==> b[0] == '(' && EndsUnescaped(a))
  {
    forall i: nat | i <= |a| ensures BackslashesBefore(a + b, i) == BackslashesBefore(a, i) {
      BackslashesInFront(a, b, i);
    }
  }

  /** The first separator of a string with a parenthesis behind `name`. */
  lemma SeparatorAfterName(name: string, rest: string)
    ensures FirstSeparator(name + ("(" + rest), 0) == |name| <==> SeparatorFree(name) && EndsUnescaped(name)
  {
    var raw := name + ("(" + rest);
    FirstSeparatorMeans(raw, 0);
    SeparatorInFront(name, "(" + rest);
    hide IsSeparator, FirstSeparator, EndsUnescaped;
    if SeparatorFree(name) && EndsUnescaped(name) {
      assert IsSeparator(raw, |name|);
      assert forall i :: 0 <= i < |name| ==> !IsSeparator(raw, i);
    }
    if FirstSeparator(raw, 0) == |name| {
      assert forall i :: 0 <= i < |name| ==> (IsSeparator(raw, i) <==> IsSeparator(name, i));
    }
  }

  // ----- Counting parentheses -----

  function Parens(s: string): nat { if s == "" then 0 else (if s[0] == '(' then 1 else 0) + Parens(s[1..]) }

  lemma {:induction false} ParensConcat(a: string, b: string)
    ensures Parens(a + b) == Parens(a) + Parens(b)
  {
    if a == "" {
      assert a + b == b;
    } else {
      ParensConcat(a[1..], b);
      assert (a + b)[1..] == a[1..] + b;
    }
  }

  lemma {:induction false} TrimKeepsParens(s: string)
    ensures Parens(Trim(s)) == Parens(s)
  {
    if s != "" {
      if Space(s[0]) {
        TrimKeepsParens(s[1..]);
      } else if Space(s[|s| - 1]) {
        var front, last := s[..|s| - 1], s[|s| - 1];
        TrimKeepsParens(front);
        assert s == front + [last];
        ParensConcat(front, [last]);
        assert Parens([last]) == 0;
      }
    }
  }

  lemma {:induction false} LettersHaveNoParens(s: string)
    requires forall i :: 0 <= i < |s| ==> s[i] != '('
    ensures Parens(s) == 0
  {
    if s != "" { LettersHaveNoParens(s[1..]); }
  }

  lemma AliasKeysCapital()
    ensures forall k :: k in LEGACY_ALIASES ==> k != "" && 'A' <= k[0] <= 'Z'
  {}

  lemma AliasTargetsSmall()
    ensures forall k :: k in LEGACY_ALIASES ==>
      var v := LEGACY_ALIASES[k]; v != "" && 'a' <= v[0] <= 'z' && 'a' <= v[|v| - 1] <= 'z'
  {}

  predicate ParenFree(s: string) { forall i :: 0 <= i < |s| ==> s[i] != '(' }

  lemma AliasKeysPlain()
    ensures forall k :: k in LEGACY_ALIASES ==> ParenFree(k)
  {}

  lemma AliasTargetsPlain()
    ensures forall k :: k in LEGACY_ALIASES ==> ParenFree(LEGACY_ALIASES[k])
  {}

  /** Trimming and resolving a name keep its number of parentheses: aliases hold none. */
  lemma NameKeepsParens(s: string)
    ensures Parens(ResolveAlias(Trim(s))) == Parens(s)
  {
    TrimKeepsParens(s);
    var name := Trim(s);
    hide Trim;
    if name in LEGACY_ALIASES {
      AliasKeysPlain();
      AliasTargetsPlain();
      assert ParenFree(name) && ParenFree(LEGACY_ALIASES[name]);
      LettersHaveNoParens(name);
      LettersHaveNoParens(LEGACY_ALIASES[name]);
    }
  }

  lemma {:induction false} TrimFixes(s: string)
    requires s == "" || (!Space(s[0]) && !Space(s[|s| - 1]))
    ensures Trim(s) == s
  {}

  lemma TrimTwice(s: string)
    ensures Trim(Trim(s)) == Trim(s)
  {
    TrimFixes(Trim(s));
  }

  /** Aliases are resolved once and for all: no target is an alias or needs trimming. */
  lemma AliasesResolveOnce(name: string)
    requires Trim(name) == name
    ensures ResolveAlias(name) !in LEGACY_ALIASES
    ensures Trim(ResolveAlias(name)) == ResolveAlias(name)
  {
    AliasKeysCapital();
    AliasTargetsSmall();
    if name in LEGACY_ALIASES {
      hide Trim;
      TrimFixes(LEGACY_ALIASES[name]);
    }
  }

  lemma NameComesBack(name: string)
    ensures ResolveAlias(Trim(name)) == name <==> Trim(name) == name && name !in LEGACY_ALIASES
  {
    TrimTwice(name);
    AliasesResolveOnce(Trim(name));
    hide Trim;
  }

  // ----- Content -----

  lemma EndsWithStar(s: string)
    ensures EndsWith(s, "*") <==> s != "" && s[|s| - 1] == '*'
    ensures EndsWith(s, ":*") ==> EndsWith(s, "*")
  {
    if s != "" {
      assert s[|s| - 1..] == [s[|s| - 1]];
    }
    if EndsWith(s, ":*") {
      assert s[|s| - 2..][1] == '*';
    }
  }

  /** A content filter comes back from its unescaped text exactly if it is plain. */
  lemma ContentComesBack(toolName: string, c: string, behavior: Behavior, source: Source, isWildcard: bool)
    ensures ContentRule(toolName, c + (if isWildcard then "*" else ""), behavior, source)
              == Rule(toolName, Some(c), behavior, source, isWildcard)
            <==> PlainContent(c, isWildcard)
  {
    var normalized := c + (if isWildcard then "*" else "");
    EndsWithStar(normalized);
    assert normalized[..|c|] == c;
    if !isWildcard {
      assert normalized == c;
    }
  }

  lemma PrintedParts(name: string, body: string)
    ensures var raw := name + ("(" + (body + ")")); raw[..|name|] == name && SliceToLast(raw, |name| + 1) == body
  {}

  /** The unescaped text of a printed content is the content with its star. */
  lemma PrintedContent(c: string, isWildcard: bool)
    ensures var star := if isWildcard then "*" else ""; UnescapeContent(Escape(c) + star) == c + star
  {
    var star := if isWildcard then "*" else "";
    assert Unescape("*") == "*" && Unescape("") == "";
    hide Escape, Unescape, UnescapeContent;
    UnescapeContentReadsOnce(Escape(c) + star);
    UnescapeEscape(c, star);
  }

  // ----- Exactly which rules come back -----

  /** A printed rule without content. */
  lemma ToolLevelComesBack(name: string, behavior: Behavior, source: Source)
    ensures Parse(name, behavior, source) == Rule(name, None, behavior, source, false)
      <==> PlainToolName(name)
  {
    FirstSeparatorMeans(name, 0);
    NameComesBack(name);
    var p := FirstSeparator(name, 0);
    hide Trim, ResolveAlias, UnescapeContent, ContentRule, SliceToLast, FirstSeparator, BackslashesBefore;
    if p != -1 {
      CutBeforeParen(name, p);
      NameKeepsParens(name[..p]);
      ContentRuleName(ResolveAlias(Trim(name[..p])), UnescapeContent(SliceToLast(name, p + 1)), behavior, source);
      assert Parse(name, behavior, source).toolName != name;
      assert !SeparatorFree(name);
    }
  }

  /** A parenthesis is lost when a string is cut before it. */
  lemma CutBeforeParen(s: string, p: nat)
    requires p < |s| && s[p] == '('
    ensures Parens(s[..p]) < Parens(s)
  {
    assert s == s[..p] + s[p..];
    ParensConcat(s[..p], s[p..]);
  }

  lemma ContentRuleName(toolName: string, normalized: string, behavior: Behavior, source: Source)
    ensures ContentRule(toolName, normalized, behavior, source).toolName == toolName
  {}

  /** The parsed tool name is the printed one only if the separator found is the printed one. */
  lemma WrongSeparator(name: string, rest: string, p: nat)
    requires var raw := name + ("(" + rest); p < |raw| && p != |name| && raw[p] == '('
    ensures ResolveAlias(Trim((name + ("(" + rest))[..p])) != name
  {
    var raw := name + ("(" + rest);
    NameKeepsParens(raw[..p]);
    hide Trim, ResolveAlias;
    if p < |name| {
      assert raw[..p] == name[..p];
      CutBeforeParen(name, p);
    } else {
      var longer := raw[..p];
      assert longer[|name|] == '(' && longer[..|name|] == name;
      CutBeforeParen(longer, |name|);
    }
  }

  lemma ContentRuleComesBack(r: Rule)
    requires r.content.Some?
    ensures Parse(PrintRule(r), r.behavior, r.source) == r
      <==> NormalForm(r)
  {
    var name, c := r.toolName, r.content.value;
    var star := if r.isWildcard then "*" else "";
    var body := Escape(c) + star;
    var raw := PrintRule(r);
    assert raw == name + ("(" + (body + ")"));
    assert NormalForm(r) <==> PlainToolName(name) && EndsUnescaped(name) && PlainContent(c, r.isWildcard);
    assert PlainToolName(name) <==> Trim(name) == name && name !in LEGACY_ALIASES && SeparatorFree(name);
    var p := FirstSeparator(raw, 0);
    FirstSeparatorMeans(raw, 0);
    SeparatorAfterName(name, body + ")");
    hide *;
    if p == |name| {
      PrintedParts(name, body);
      PrintedContent(c, r.isWildcard);
      ParseAt(raw, name, c + star, r.behavior, r.source);
      NameComesBack(name);
      ContentComesBack(name, c, r.behavior, r.source, r.isWildcard);
      ContentRuleName(ResolveAlias(Trim(name)), c + star, r.behavior, r.source);
    } else {
      MisreadRule(r, raw, body + ")", p);
    }
  }

  lemma ParseAt(raw: string, name: string, normalized: string, behavior: Behavior, source: Source)
    requires FirstSeparator(raw, 0) == |name| < |raw| && raw[..|name|] == name
    requires UnescapeContent(SliceToLast(raw, |name| + 1)) == normalized
    ensures Parse(raw, behavior, source) == ContentRule(ResolveAlias(Trim(name)), normalized, behavior, source)
  {
    hide Trim, ResolveAlias, UnescapeContent, SliceToLast, FirstSeparator, ContentRule;
  }

  lemma MisreadRule(r: Rule, raw: string, rest: string, p: int)
    requires r.content.Some? && raw == r.toolName + ("(" + rest) && p == FirstSeparator(raw, 0) && p != |r.toolName|
    ensures Parse(raw, r.behavior, r.source) != r
    ensures !NormalForm(r)
  {
    SeparatorAfterName(r.toolName, rest);
    FirstSeparatorMeans(raw, 0);
    hide Trim, ResolveAlias, UnescapeContent, SliceToLast, FirstSeparator, BackslashesBefore, SeparatorFree, ContentRule, PlainContent;
    if p != -1 {
      WrongSeparator(r.toolName, rest, p);
      ContentRuleName(ResolveAlias(Trim(raw[..p])), UnescapeContent(SliceToLast(raw, p + 1)), r.behavior, r.source);
    }
  }

  /** Parsing the printed form of a rule gives the rule back exactly if it is in normal form. */
  lemma ParsePrint(r: Rule)
    ensures Parse(PrintRule(r), r.behavior, r.source) == r
      <==> NormalForm(r)
  {
    if r.content.None? {
      ToolLevelComesBack(r.toolName, r.behavior, r.source);
      hide Trim, SeparatorFree, FirstSeparator, BackslashesBefore, ContentRule, UnescapeContent, SliceToLast;
      if r.isWildcard {
        ToolLevelHasNoWildcard(r.toolName, r.behavior, r.source);
      }
    } else {
      hide *;
      ContentRuleComesBack(r);
    }
  }

  lemma ToolLevelHasNoWildcard(raw: string, behavior: Behavior, source: Source)
    ensures Parse(raw, behavior, source).content.None? ==> !Parse(raw, behavior, source).isWildcard
  {
    hide Trim, ResolveAlias, FirstSeparator, UnescapeContent, SliceToLast;
    var p := FirstSeparator(raw, 0);
    if p != -1 { EndsWithStar(UnescapeContent(SliceToLast(raw, p + 1))); }
  }

  // ----- What the parser returns -----

  lemma {:induction false} BackslashesBehindSpace(s: string, i: nat)
    requires s != "" && s[0] != '\\' && i < |s|
    ensures BackslashesBefore(s[1..], i) == BackslashesBefore(s, i + 1)
  {
    if i > 0 { BackslashesBehindSpace(s, i - 1); }
  }

  lemma {:induction false} TrimStaysSeparatorFree(s: string)
    requires SeparatorFree(s)
    ensures SeparatorFree(Trim(s))
  {
    if s != "" {
      if Space(s[0]) {
        forall i | 0 <= i < |s| - 1 ensures !IsSeparator(s[1..], i) {
          BackslashesBehindSpace(s, i);
          assert !IsSeparator(s, i + 1);
        }
        TrimStaysSeparatorFree(s[1..]);
      } else if Space(s[|s| - 1]) {
        var front := s[..|s| - 1];
        assert s == front + [s[|s| - 1]];
        SeparatorInFront(front, [s[|s| - 1]]);
        hide IsSeparator, Trim;
        TrimStaysSeparatorFree(front);
        assert Trim(s) == Trim(front) by { TrimmedBehind(s); }
      }
    }
  }

  lemma TrimmedBehind(s: string)
    requires s != "" && !Space(s[0]) && Space(s[|s| - 1])
    ensures Trim(s) == Trim(s[..|s| - 1])
  {}

  lemma ParsedNamePlain(head: string)
    requires SeparatorFree(head)
    ensures PlainToolName(ResolveAlias(Trim(head)))
  {
    TrimStaysSeparatorFree(head);
    TrimTwice(head);
    AliasesResolveOnce(Trim(head));
    AliasTargetsPlain();
    hide Trim, BackslashesBefore;
    if Trim(head) in LEGACY_ALIASES { assert ParenFree(LEGACY_ALIASES[Trim(head)]); }
  }

  lemma ContentRuleNormal(toolName: string, normalized: string, behavior: Behavior, source: Source)
    ensures var r := ContentRule(toolName, normalized, behavior, source);
      match r.content case None => !r.isWildcard case Some(c) => PlainContent(c, r.isWildcard)
  {
    EndsWithStar(normalized);
  }

  lemma CutBeforeSeparator(raw: string)
    ensures var p := FirstSeparator(raw, 0); SeparatorFree(if p == -1 then raw else raw[..p])
  {
    FirstSeparatorMeans(raw, 0);
    var p := FirstSeparator(raw, 0);
    if p != -1 {
      assert raw == raw[..p] + raw[p..];
      SeparatorInFront(raw[..p], raw[p..]);
    }
  }

  lemma ParsedNormalForm(raw: string, behavior: Behavior, source: Source)
    ensures var r := Parse(raw, behavior, source);
      NormalForm(r) <==> r.content.None? || EndsUnescaped(r.toolName)
  {
    CutBeforeSeparator(raw);
    var p := FirstSeparator(raw, 0);
    var head := if p == -1 then raw else raw[..p];
    hide Trim, ResolveAlias, UnescapeContent, ContentRule, SliceToLast, FirstSeparator, SeparatorFree, PlainToolName,
      EndsUnescaped, PlainContent;
    ParsedNamePlain(head);
    if p != -1 {
      ContentRuleName(ResolveAlias(Trim(head)), UnescapeContent(SliceToLast(raw, p + 1)), behavior, source);
      ContentRuleNormal(ResolveAlias(Trim(head)), UnescapeContent(SliceToLast(raw, p + 1)), behavior, source);
    }
  }

  /** What the parser returns comes back when it is printed and parsed again exactly if it has no
      content or its trimmed tool name ends unescaped: `a\ (c)` is the form that does not. */
  lemma ParseNormalizes(raw: string, behavior: Behavior, source: Source)
    ensures var r := Parse(raw, behavior, source);
      Parse(PrintRule(r), behavior, source) == r <==> r.content.None? || EndsUnescaped(r.toolName)
  {
    ParsedNormalForm(raw, behavior, source);
    ParsedKeeps(raw, behavior, source);
    hide Parse, NormalForm, EndsUnescaped, PrintRule;
    ParsePrint(Parse(raw, behavior, source));
  }

  lemma ParsedKeeps(raw: string, behavior: Behavior, source: Source)
    ensures Parse(raw, behavior, source).behavior == behavior && Parse(raw, behavior, source).source == source
  {
    hide Trim, ResolveAlias, UnescapeContent, SliceToLast, FirstSeparator;
  }

  lemma SmallIsNoAlias(name: string)
    requires name != "" && 'a' <= name[0] <= 'z'
    ensures name !in LEGACY_ALIASES
  {
    AliasKeysCapital();
  }

  /** A name with an escaped parenthesis comes back; one that ends in a backslash does not. */
  lemma EscapedNames(behavior: Behavior, source: Source)
    ensures NormalForm(Rule("a\\(b", Some("c"), behavior, source, false))
    ensures !NormalForm(Rule("a\\", Some("c"), behavior, source, false))
  {
    var name, cut := "a\\(b", "a\\";
    SmallIsNoAlias(name);
    assert BackslashesBefore(name, 2) == 1 + BackslashesBefore(name, 1) == 1;
    assert BackslashesBefore(cut, 2) == 1 + BackslashesBefore(cut, 1) == 1;
    assert BackslashesBefore(name, 4) == 0;
    TrimFixes(name);
    hide Trim, BackslashesBefore;
  }

  lemma SeparatorAtThree(raw: string)
    requires |raw| > 3 && raw[3] == '(' && raw[2] == ' ' && forall i :: 0 <= i < 3 ==> raw[i] != '('
    ensures FirstSeparator(raw, 0) == 3
  {
    FirstSeparatorMeans(raw, 0);
    assert BackslashesBefore(raw, 3) == 0 && IsSeparator(raw, 3);
    hide FirstSeparator;
  }

  lemma SpaceBehindName(s: string)
    requires |s| > 1 && !Space(s[0]) && !Space(s[|s| - 2]) && s[|s| - 1] == ' '
    ensures Trim(s) == s[..|s| - 1]
  {
    TrimmedBehind(s);
    TrimFixes(s[..|s| - 1]);
    hide Trim;
  }

  /** The raw rule `a\ (c)` is read as the tool `a\` with the content `c`. */
  lemma SpacedRuleParsed(behavior: Behavior, source: Source)
    ensures Parse("a\\ (c)", behavior, source) == Rule("a\\", Some("c"), behavior, source, false)
  {
    var raw, name := "a\\ (c)", "a\\";
    SeparatorAtThree(raw);
    SpaceBehindName(raw[..3]);
    SmallIsNoAlias(name);
    EndsWithStar("c");
    hide Trim, FirstSeparator, BackslashesBefore;
    assert UnescapeContent("c") == "c";
    assert SliceToLast(raw, 4) == "c";
    assert raw[..3][..2] == name;
  }

  /** Printed, that rule reads as the name of a tool with an escaped parenthesis, and its content
      is gone. */
  lemma BackslashNameIsLost(behavior: Behavior, source: Source)
    ensures var r := Parse("a\\ (c)", behavior, source);
      r.content.Some? && Parse(PrintRule(r), behavior, source) == Rule("a\\(c)", None, behavior, source, false)
  {
    SpacedRuleParsed(behavior, source);
    var r, printed := Rule("a\\", Some("c"), behavior, source, false), "a\\(c)";
    hide Parse;
    assert Escape("c") == "c";
    assert PrintRule(r) == printed;
    assert BackslashesBefore(printed, 2) == 1 + BackslashesBefore(printed, 1) == 1;
    assert SeparatorFree(printed);
    TrimFixes(printed);
    SmallIsNoAlias(printed);
    hide Trim, BackslashesBefore, SeparatorFree;
    ToolLevelComesBack(printed, behavior, source);
  }

  // ----- The names of the older tools -----

  /** What the tools of Claude Code are called here. */
  const OLDER_NAMES: seq<(string, string)> := [
    ("Task", "task"), ("KillShell", "task"), ("AgentOutputTool", "task"), ("BashOutputTool", "task"),
    ("FileRead", "read_file"), ("FileWrite", "write_file"), ("FileEdit", "edit_file"), ("TodoWrite", "write_file"),
    ("Grep", "glob_search"), ("Glob", "glob_search"), ("TaskCreate", "task"), ("TaskGet", "task"),
    ("TaskUpdate", "task"), ("TaskList", "task"), ("TaskStop", "task"), ("TaskOutput", "task")]

  lemma OlderNamesListed(i: nat)
    requires i < |OLDER_NAMES|
    ensures OLDER_NAMES[i].0 in LEGACY_ALIASES && LEGACY_ALIASES[OLDER_NAMES[i].0] == OLDER_NAMES[i].1
  {}

  lemma OlderNamesTrimmed(i: nat)
    requires i < |OLDER_NAMES|
    ensures var name := OLDER_NAMES[i].0; name != "" && 'A' <= name[0] <= 'Z' && 'a' <= name[|name| - 1] <= 'z'
  {}

  lemma LettersTrimmed(name: string)
    requires name != "" && 'A' <= name[0] <= 'Z' && 'a' <= name[|name| - 1] <= 'z'
    ensures Trim(name) == name
  {
    TrimFixes(name);
  }

  lemma AliasParsed(name: string, behavior: Behavior, source: Source)
    requires ParenFree(name) && Trim(name) == name
    ensures Parse(name, behavior, source) == Rule(ResolveAlias(name), None, behavior, source, false)
  {
    FirstSeparatorMeans(name, 0);
    hide Trim, FirstSeparator, BackslashesBefore, ResolveAlias;
  }

  /** A rule for an older tool is one for the tool that took its place. */
  lemma OlderToolParsed(i: nat, behavior: Behavior, source: Source)
    requires i < |OLDER_NAMES|
    ensures Parse(OLDER_NAMES[i].0, behavior, source) == Rule(OLDER_NAMES[i].1, None, behavior, source, false)
  {
    OlderNamesListed(i);
    OlderNamesTrimmed(i);
    AliasKeysPlain();
    var name, tool := OLDER_NAMES[i].0, OLDER_NAMES[i].1;
    hide OLDER_NAMES, Trim, Parse;
    LettersTrimmed(name);
    AliasParsed(name, behavior, source);
  }

  // ----- Trimming and the end of the text -----

  /** From `i` to `j` there is what is left when white space is taken from both ends. */
  ghost predicate StrippedTo(s: string, i: nat, j: nat) {
    && i <= j <= |s|
    && (forall k :: 0 <= k < i || j <= k < |s| ==> Space(s[k]))
    && (i < j ==> !Space(s[i]) && !Space(s[j - 1]))
  }

  lemma StripFirst(s: string, i: nat, j: nat)
    requires s != "" && Space(s[0]) && StrippedTo(s[1..], i, j)
    ensures StrippedTo(s, i + 1, j + 1) && s[1..][i..j] == s[i + 1..j + 1]
  {
    hide Space;
    forall k | 0 <= k < i + 1 || j + 1 <= k < |s| ensures Space(s[k]) {
      if k > 0 { assert s[k] == s[1..][k - 1]; }
    }
  }

  lemma StripLast(s: string, i: nat, j: nat)
    requires s != "" && Space(s[|s| - 1]) && StrippedTo(s[..|s| - 1], i, j)
    ensures StrippedTo(s, i, j) && s[..|s| - 1][i..j] == s[i..j]
  {
    hide Space;
    forall k | 0 <= k < i || j <= k < |s| ensures Space(s[k]) {
      if k < |s| - 1 { assert s[k] == s[..|s| - 1][k]; }
    }
  }

  /** Trimming takes white space from both ends and nothing else. */
  lemma {:induction false} TrimStrips(s: string) returns (i: nat, j: nat)
    ensures StrippedTo(s, i, j) && Trim(s) == s[i..j]
  {
    hide Space;
    if s == "" {
      i, j := 0, 0;
    } else if Space(s[0]) {
      i, j := TrimStrips(s[1..]);
      StripFirst(s, i, j);
      i, j := i + 1, j + 1;
    } else if Space(s[|s| - 1]) {
      i, j := TrimStrips(s[..|s| - 1]);
      StripLast(s, i, j);
    } else {
      i, j := 0, |s|;
    }
    hide StrippedTo;
  }

  /** White space: tab to carriage return, the space, the no-break spaces and the other spaces of
      Unicode, the separators of lines and of paragraphs. */
  lemma SpacesListed(c: char)
    ensures Space(c) <==> c as int in {0x09, 0x0A, 0x0B, 0x0C, 0x0D, 0x20, 0xA0, 0xFEFF, 0x1680, 0x2000, 0x2001, 0x2002, 0x2003,
      0x2004, 0x2005, 0x2006, 0x2007, 0x2008, 0x2009, 0x200A, 0x202F, 0x205F, 0x3000, 0x2028, 0x2029}
  {}

  /** The last character of a rule with content is dropped, be it a parenthesis or not. */
  lemma LastCharacterIgnored(name: string, body: string, c: char, behavior: Behavior, source: Source)
    requires SeparatorFree(name) && EndsUnescaped(name)
    ensures Parse(name + ("(" + (body + [c])), behavior, source) == Parse(name + ("(" + (body + ")")), behavior, source)
  {
    CutAtName(name, body, c);
    CutAtName(name, body, ')');
    hide FirstSeparator, SeparatorFree, EndsUnescaped, SliceToLast, ContentRule, UnescapeContent, Trim;
  }

  lemma CutAtName(name: string, body: string, c: char)
    requires SeparatorFree(name) && EndsUnescaped(name)
    ensures var raw := name + ("(" + (body + [c]));
      FirstSeparator(raw, 0) == |name| && raw[..|name|] == name && SliceToLast(raw, |name| + 1) == body
  {
    SeparatorAfterName(name, body + [c]);
    hide FirstSeparator, SeparatorFree, EndsUnescaped;
    var raw := name + ("(" + (body + [c]));
    assert raw[|name| + 1..|raw| - 1] == body;
  }
}
