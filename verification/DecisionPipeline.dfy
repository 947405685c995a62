/** The permission pipeline: deny rules, ask rules, safety check, mode, allow rules, default deny. */
module DecisionPipeline {
  import opened RuleParser
  import opened StableSort
  import opened Wrappers

  datatype Mode = Default | AcceptEdits | BypassPermissions
  datatype Step = AlwaysDeny | AlwaysAsk | SafetyCheck | ModeBypass | ModeAcceptEdits | AlwaysAllow | DefaultDeny

  /** A tool invocation: its JSON-printed arguments and what the safety check says of it. */
  datatype Call = Call(toolName: string, argsText: string, unsafe: bool)
  datatype Context = Context(mode: Mode, rules: seq<Rule>, call: Call)

  datatype Verdict = Verdict(allowed: bool, behavior: Behavior, decidedBy: Step)

  /** A verdict with the rule its reason quotes, if any. */
  datatype Decision = Decision(verdict: Verdict, cited: Option<Rule>)

  function Score(s: Source): nat {
    match s
    case UserSettings => 100
    case ProjectSettings => 90
    case LocalSettings => 80
    case FlagSettings => 70
    case PolicySettings => 60
    case CliArg => 50
    case Command => 40
    case Session => 30
  }

  predicate HigherFirst(a: Rule, b: Rule) { Score(a.source) >= Score(b.source) }

  predicate Includes(s: string, part: string) {
    exists i :: 0 <= i <= |s| && part <= s[i..]
  }

  predicate RuleMatches(r: Rule, call: Call) {
    && r.toolName == call.toolName
    && match r.content
       case None => true
       case Some(c) => c == "" || Includes(call.argsText, c)
  }

  predicate Applies(r: Rule, behavior: Behavior, call: Call) {
    r.behavior == behavior && RuleMatches(r, call)
  }

  /** A matching allow rule from a strictly higher source. */
  predicate Overridden(r: Rule, call: Call, rules: seq<Rule>) {
    exists i :: 0 <= i < |rules| && Applies(rules[i], Allow, call) && Score(rules[i].source) > Score(r.source)
  }

  predicate IsEditTool(toolName: string) { toolName == "write_file" || toolName == "edit_file" }

  // ----- The order-free specification -----

  /** The highest score among the rules of one behavior that match the call; -1 without any. */
  function Top(rules: seq<Rule>, behavior: Behavior, call: Call): int {
    if rules == [] then -1
    else
      var rest := Top(rules[1..], behavior, call);
      if Applies(rules[0], behavior, call) && Score(rules[0].source) > rest then Score(rules[0].source) else rest
  }

  function ClosedForm(c: Context): Verdict {
    var allow, deny, ask := Top(c.rules, Allow, c.call), Top(c.rules, Deny, c.call), Top(c.rules, Ask, c.call);
    if deny >= 0 && deny >= allow then Verdict(false, Deny, AlwaysDeny)
    else if ask >= 0 && ask >= allow then Verdict(false, Ask, AlwaysAsk)
    else if c.call.unsafe then Verdict(false, Ask, SafetyCheck)
    else if c.mode.BypassPermissions? then Verdict(true, Allow, ModeBypass)
    else if c.mode.AcceptEdits? && IsEditTool(c.call.toolName) then Verdict(true, Allow, ModeAcceptEdits)
    else if allow >= 0 then Verdict(true, Allow, AlwaysAllow)
    else Verdict(false, Deny, DefaultDeny)
  }

  /** The matching rules of a behavior and a score, and those of its highest score. */
  function AtScore(behavior: Behavior, call: Call, score: int): Rule -> bool {
    (r: Rule) => Applies(r, behavior, call) && Score(r.source) == score
  }

  function IsTop(rules: seq<Rule>, behavior: Behavior, call: Call): Rule -> bool {
    AtScore(behavior, call, Top(rules, behavior, call))
  }

  /** Whether the deciding step quotes a rule: then one of the behavior it decided on. */
  predicate QuotesRule(v: Verdict) { v.decidedBy in {AlwaysDeny, AlwaysAsk, AlwaysAllow} }

  /** The quoted rule: of the matching rules of the deciding behavior and of the highest score, the
      one that was added first. */
  function Cited(c: Context): Option<Rule> {
    var v := ClosedForm(c);
    if QuotesRule(v) then First(c.rules, IsTop(c.rules, v.behavior, c.call)) else None
  }

  lemma {:induction false} TopBounds(rules: seq<Rule>, behavior: Behavior, call: Call)
    ensures Top(rules, behavior, call) >= -1
    ensures forall r :: r in rules && Applies(r, behavior, call) ==> Score(r.source) <= Top(rules, behavior, call)
  {
    if rules != [] {
      TopBounds(rules[1..], behavior, call);
      forall r | r in rules && Applies(r, behavior, call) ensures Score(r.source) <= Top(rules, behavior, call) {
        assert r == rules[0] || r in rules[1..];
      }
    }
  }

  lemma {:induction false} TopAttained(rules: seq<Rule>, behavior: Behavior, call: Call) returns (r: Rule)
    requires Top(rules, behavior, call) != -1
    ensures r in rules && IsTop(rules, behavior, call)(r)
  {
    r := rules[0];
    if !(Applies(r, behavior, call) && Score(r.source) > Top(rules[1..], behavior, call)) {
      r := TopAttained(rules[1..], behavior, call);
    }
  }

  /** Only which rules there are matters, not their order or how often they occur. */
  lemma TopOrderFree(a: seq<Rule>, b: seq<Rule>, behavior: Behavior, call: Call)
    requires forall r :: r in a <==> r in b
    ensures Top(a, behavior, call) == Top(b, behavior, call)
  {
    TopBounds(a, behavior, call);
    TopBounds(b, behavior, call);
    if Top(a, behavior, call) != -1 {
      var r := TopAttained(a, behavior, call);
    }
    if Top(b, behavior, call) != -1 {
      var r := TopAttained(b, behavior, call);
    }
  }

  lemma OverriddenIffBelowTop(r: Rule, call: Call, rules: seq<Rule>)
    ensures Overridden(r, call, rules) <==> Top(rules, Allow, call) > Score(r.source)
  {
    TopBounds(rules, Allow, call);
    if Top(rules, Allow, call) > Score(r.source) {
      var a := TopAttained(rules, Allow, call);
    }
  }

  // ----- The decision by the text of the call -----

  /** A rule counts for a call of its tool, if it quotes a content only where that stands in the
      arguments. */
  ghost predicate Counts(r: Rule, call: Call) {
    && r.toolName == call.toolName
    && (r.content.None? || exists i, j :: StandsAt(r.content.value, call.argsText, i, j))
  }

  predicate StandsAt(content: string, text: string, i: int, j: int) {
    0 <= i <= j <= |text| && text[i..j] == content
  }

  /** From the strongest to the weakest. */
  const RANKING: seq<Source> := [UserSettings, ProjectSettings, LocalSettings, FlagSettings,
                                 PolicySettings, CliArg, Command, Session]

  ghost predicate Outranks(a: Source, b: Source) {
    exists i, j :: 0 <= i < j < |RANKING| && RANKING[i] == a && RANKING[j] == b
  }

  /** A rule of a behavior counts that no allow rule that counts outranks. */
  ghost predicate SomeStands(c: Context, behavior: Behavior) {
    exists r :: r in c.rules && r.behavior == behavior && Counts(r, c.call) && !SomeAllowOutranks(c, r.source)
  }

  ghost predicate SomeAllowOutranks(c: Context, source: Source) {
    exists a :: a in c.rules && a.behavior == Allow && Counts(a, c.call) && Outranks(a.source, source)
  }

  ghost function VerdictByText(c: Context): Verdict {
    if SomeStands(c, Deny) then Verdict(false, Deny, AlwaysDeny)
    else if SomeStands(c, Ask) then Verdict(false, Ask, AlwaysAsk)
    else if c.call.unsafe then Verdict(false, Ask, SafetyCheck)
    else if c.mode == BypassPermissions then Verdict(true, Allow, ModeBypass)
    else if c.mode == AcceptEdits && c.call.toolName in {"write_file", "edit_file"} then Verdict(true, Allow, ModeAcceptEdits)
    else if exists r :: r in c.rules && r.behavior == Allow && Counts(r, c.call) then Verdict(true, Allow, AlwaysAllow)
    else Verdict(false, Deny, DefaultDeny)
  }

  lemma IncludesExactly(text: string, part: string)
    ensures Includes(text, part) <==> exists i, j :: StandsAt(part, text, i, j)
  {
    if Includes(text, part) {
      var i :| 0 <= i <= |text| && part <= text[i..];
      assert text[i..][..|part|] == text[i..i + |part|];
      assert StandsAt(part, text, i, i + |part|);
    }
    if i, j :| StandsAt(part, text, i, j) {
      assert text[i..][..j - i] == text[i..j];
      assert part <= text[i..];
    }
  }

  lemma CountsExactly(r: Rule, call: Call)
    ensures RuleMatches(r, call) <==> Counts(r, call)
  {
    if r.content.Some? {
      IncludesExactly(call.argsText, r.content.value);
      if r.content.value == "" { assert StandsAt("", call.argsText, 0, 0); }
    }
  }

  function RankOf(s: Source): (i: nat)
    ensures i < |RANKING| && RANKING[i] == s
  {
    match s
    case UserSettings => 0
    case ProjectSettings => 1
    case LocalSettings => 2
    case FlagSettings => 3
    case PolicySettings => 4
    case CliArg => 5
    case Command => 6
    case Session => 7
  }

  lemma OutranksExactly(a: Source, b: Source)
    ensures Outranks(a, b) <==> Score(a) > Score(b)
  {
    forall k | 0 <= k < |RANKING| ensures Score(RANKING[k]) == (if k == 0 then 100 else 100 - 10 * k) {}
    assert RANKING[RankOf(a)] == a && RANKING[RankOf(b)] == b;
  }

  lemma OverriddenByText(r: Rule, c: Context)
    ensures Overridden(r, c.call, c.rules) <==> SomeAllowOutranks(c, r.source)
  {
    hide RuleMatches, Counts, Outranks, Score;
    forall a: Rule
      ensures RuleMatches(a, c.call) <==> Counts(a, c.call)
      ensures Outranks(a.source, r.source) <==> Score(a.source) > Score(r.source)
    {
      CountsExactly(a, c.call);
      OutranksExactly(a.source, r.source);
    }
    if Overridden(r, c.call, c.rules) {
      var i :| 0 <= i < |c.rules| && Applies(c.rules[i], Allow, c.call) && Score(c.rules[i].source) > Score(r.source);
      assert c.rules[i] in c.rules;
    }
  }

  lemma StandsExactly(c: Context, behavior: Behavior)
    ensures SomeStands(c, behavior) <==>
      Top(c.rules, behavior, c.call) >= 0 && Top(c.rules, behavior, c.call) >= Top(c.rules, Allow, c.call)
  {
    TopBounds(c.rules, behavior, c.call);
    hide RuleMatches, Counts, SomeAllowOutranks, Top, Overridden;
    forall r: Rule
      ensures RuleMatches(r, c.call) <==> Counts(r, c.call)
      ensures SomeAllowOutranks(c, r.source) <==> Top(c.rules, Allow, c.call) > Score(r.source)
    {
      CountsExactly(r, c.call);
      OverriddenByText(r, c);
      OverriddenIffBelowTop(r, c.call, c.rules);
    }
    if Top(c.rules, behavior, c.call) >= 0 {
      var r := TopAttained(c.rules, behavior, c.call);
    }
  }

  lemma AllowCountsExactly(c: Context)
    ensures Top(c.rules, Allow, c.call) >= 0 <==> exists r :: r in c.rules && r.behavior == Allow && Counts(r, c.call)
  {
    TopBounds(c.rules, Allow, c.call);
    hide RuleMatches, Counts, Top;
    forall r: Rule ensures RuleMatches(r, c.call) <==> Counts(r, c.call) {
      CountsExactly(r, c.call);
    }
    if Top(c.rules, Allow, c.call) >= 0 {
      var r := TopAttained(c.rules, Allow, c.call);
    }
  }

  /** The verdict, told from the texts of the rules and of the call alone. */
  lemma DecisionByText(c: Context)
    ensures ClosedForm(c) == VerdictByText(c)
  {
    StandsExactly(c, Deny);
    StandsExactly(c, Ask);
    AllowCountsExactly(c);
    hide Top, SomeStands, Counts;
  }

  /** So rules of other tools, and rules whose content stands nowhere in the arguments, might as well
      not be there. */
  lemma OnlyCountingRulesDecide(c: Context, rules: seq<Rule>)
    requires forall r :: r in rules <==> r in c.rules && Counts(r, c.call)
    ensures ClosedForm(c.(rules := rules)) == ClosedForm(c)
  {
    var d := c.(rules := rules);
    DecisionByText(c);
    DecisionByText(d);
    hide Counts, ClosedForm, Outranks;
    forall source ensures SomeAllowOutranks(d, source) <==> SomeAllowOutranks(c, source) {}
    forall behavior ensures SomeStands(d, behavior) <==> SomeStands(c, behavior) {}
  }

  // ----- The pipeline as it runs -----

  /** `checkDenyRules` and `checkAskRules`: the first rule of a behavior that matches and that no
      allow rule from a higher source overrides. On sorted rules that is the first rule of the top
      score, if that is not below the top score of the allow rules. */
  method CheckRules(call: Call, rules: seq<Rule>, behavior: Behavior) returns (hit: Option<Rule>)
    requires Sorted(HigherFirst, rules)
    ensures hit == if Top(rules, behavior, call) >= 0 && Top(rules, behavior, call) >= Top(rules, Allow, call)
                   then First(rules, IsTop(rules, behavior, call)) else None
    ensures hit.Some? <==> Top(rules, behavior, call) >= 0 && Top(rules, behavior, call) >= Top(rules, Allow, call)
  {
    hide First;
    TopBounds(rules, behavior, call);
    var i := 0;
    while i < |rules|
      invariant 0 <= i <= |rules|
      invariant forall k :: 0 <= k < i && Applies(rules[k], behavior, call) ==> Top(rules, Allow, call) > Score(rules[k].source)
    {
      var rule := rules[i];
      if rule.behavior == behavior && RuleMatches(rule, call) {
        OverriddenIffBelowTop(rule, call, rules);
        if !Overridden(rule, call, rules) {
          TopOfFirstStanding(call, rules, behavior, i);
          FirstIs(rules, IsTop(rules, behavior, call), i);
          return Some(rule);
        }
      }
      i := i + 1;
    }
    if Top(rules, behavior, call) >= 0 {
      var r := TopAttained(rules, behavior, call);
    }
    return None;
  }

  lemma TopOfFirstStanding(call: Call, rules: seq<Rule>, behavior: Behavior, i: nat)
    requires Sorted(HigherFirst, rules) && i < |rules|
    requires Applies(rules[i], behavior, call) && Top(rules, Allow, call) <= Score(rules[i].source)
    requires forall k :: 0 <= k < i && Applies(rules[k], behavior, call) ==> Top(rules, Allow, call) > Score(rules[k].source)
    ensures Top(rules, behavior, call) == Score(rules[i].source)
  {
    TopBounds(rules, behavior, call);
    var r := TopAttained(rules, behavior, call);
    var k :| 0 <= k < |rules| && rules[k] == r;
    assert Score(rules[k].source) >= Score(rules[i].source);
    assert i <= k;
    assert i == k || HigherFirst(rules[i], rules[k]);
  }

  lemma TopOfFirst(call: Call, rules: seq<Rule>, i: nat)
    requires Sorted(HigherFirst, rules) && i < |rules| && Applies(rules[i], Allow, call)
    requires forall k :: 0 <= k < i ==> !Applies(rules[k], Allow, call)
    ensures Top(rules, Allow, call) == Score(rules[i].source)
  {
    TopBounds(rules, Allow, call);
    var r := TopAttained(rules, Allow, call);
    var k :| 0 <= k < |rules| && rules[k] == r;
    assert i <= k;
    assert i == k || HigherFirst(rules[i], rules[k]);
  }

  /** The first matching allow rule of the list: on sorted rules the first of the top score. */
  method CheckAllowRules(call: Call, rules: seq<Rule>) returns (hit: Option<Rule>)
    ensures hit == First(rules, (r: Rule) => Applies(r, Allow, call))
    ensures hit.Some? <==> Top(rules, Allow, call) >= 0
    ensures hit.Some? && Sorted(HigherFirst, rules) ==> hit == First(rules, IsTop(rules, Allow, call))
  {
    TopBounds(rules, Allow, call);
    var p := (r: Rule) => Applies(r, Allow, call);
    var i := 0;
    while i < |rules|
      invariant 0 <= i <= |rules|
      invariant forall k :: 0 <= k < i ==> !Applies(rules[k], Allow, call)
    {
      if rules[i].behavior == Allow && RuleMatches(rules[i], call) {
        FirstIs(rules, p, i);
        if Sorted(HigherFirst, rules) {
          TopOfFirst(call, rules, i);
          FirstIs(rules, IsTop(rules, Allow, call), i);
        }
        return Some(rules[i]);
      }
      i := i + 1;
    }
    if Top(rules, Allow, call) >= 0 {
      var r := TopAttained(rules, Allow, call);
    }
    FilterNone(rules, p);
    return None;
  }

  /** The seven steps compute the closed form, and quote the rule that was added first among the
      highest-ranking rules that decide. */
  method Decide(c: Context) returns (d: Decision)
    ensures d == Decision(ClosedForm(c), Cited(c))
    ensures d.verdict == VerdictByText(c)
  {
    DecisionByText(c);
    hide VerdictByText;
    var rules := Sort(HigherFirst, c.rules);
    SortSorts(HigherFirst, c.rules);
    forall b: Behavior ensures Top(rules, b, c.call) == Top(c.rules, b, c.call)
      ensures First(rules, IsTop(rules, b, c.call)) == First(c.rules, IsTop(c.rules, b, c.call))
    {
      SortKeepsFirstTop(c.rules, b, c.call);
    }
    hide Sort, Top, First, IsTop, Sorted, Applies;
    var denied := CheckRules(c.call, rules, Deny);
    if denied.Some? {
      return Decision(Verdict(false, Deny, AlwaysDeny), denied);
    }
    var asked := CheckRules(c.call, rules, Ask);
    if asked.Some? {
      return Decision(Verdict(false, Ask, AlwaysAsk), asked);
    }
    if c.call.unsafe {
      return Decision(Verdict(false, Ask, SafetyCheck), None);
    }
    if c.mode == BypassPermissions {
      return Decision(Verdict(true, Allow, ModeBypass), None);
    }
    if c.mode == AcceptEdits && IsEditTool(c.call.toolName) {
      return Decision(Verdict(true, Allow, ModeAcceptEdits), None);
    }
    var allowed := CheckAllowRules(c.call, rules);
    if allowed.Some? {
      return Decision(Verdict(true, Allow, AlwaysAllow), allowed);
    }
    return Decision(Verdict(false, Deny, DefaultDeny), None);
  }

  /** Sorting is stable, so the first rule of the top score is the one that was added first. */
  lemma SortKeepsFirstTop(rules: seq<Rule>, behavior: Behavior, call: Call)
    ensures var sorted := Sort(HigherFirst, rules);
      && Top(sorted, behavior, call) == Top(rules, behavior, call)
      && First(sorted, IsTop(sorted, behavior, call)) == First(rules, IsTop(rules, behavior, call))
  {
    SortMembers(HigherFirst, rules);
    TopOrderFree(Sort(HigherFirst, rules), rules, behavior, call);
    SortStable(HigherFirst, rules, IsTop(rules, behavior, call));
  }

  // ----- Laws of the decision -----

  /** The verdict depends on the set of rules alone. */
  lemma DecisionOrderFree(c: Context, rules: seq<Rule>)
    requires forall r :: r in rules <==> r in c.rules
    ensures ClosedForm(c.(rules := rules)) == ClosedForm(c)
  {
    TopOrderFree(rules, c.rules, Allow, c.call);
    TopOrderFree(rules, c.rules, Deny, c.call);
    TopOrderFree(rules, c.rules, Ask, c.call);
  }

  /** The context with one more rule, wherever it is put. */
  function WithRule(c: Context, at: nat, r: Rule): Context
    requires at <= |c.rules|
  {
    c.(rules := c.rules[..at] + [r] + c.rules[at..])
  }

  lemma TopWithRule(c: Context, at: nat, r: Rule, behavior: Behavior)
    requires at <= |c.rules|
    ensures Top(WithRule(c, at, r).rules, behavior, c.call) ==
      if Applies(r, behavior, c.call) && Score(r.source) > Top(c.rules, behavior, c.call) then Score(r.source)
      else Top(c.rules, behavior, c.call)
  {
    var front := [r] + c.rules;
    assert front[1..] == c.rules;
    assert c.rules == c.rules[..at] + c.rules[at..];
    TopOrderFree(WithRule(c, at, r).rules, front, behavior, c.call);
  }

  /** One more allow rule never revokes a permission. */
  lemma AllowRuleNeverRevokes(c: Context, at: nat, r: Rule)
    requires at <= |c.rules| && r.behavior == Allow && ClosedForm(c).allowed
    ensures ClosedForm(WithRule(c, at, r)).allowed
  {
    TopWithRule(c, at, r, Allow);
    TopWithRule(c, at, r, Deny);
    TopWithRule(c, at, r, Ask);
  }

  /** One more deny or ask rule never grants one. */
  lemma RestrictingRuleNeverGrants(c: Context, at: nat, r: Rule)
    requires at <= |c.rules| && r.behavior != Allow && !ClosedForm(c).allowed
    ensures !ClosedForm(WithRule(c, at, r)).allowed
  {
    TopBounds(c.rules, Allow, c.call);
    TopWithRule(c, at, r, Allow);
    TopWithRule(c, at, r, Deny);
    TopWithRule(c, at, r, Ask);
  }

  predicate ModeAtMost(m: Mode, n: Mode) {
    m == n || m.Default? || n.BypassPermissions?
  }

  /** `default`, `acceptEdits`, `bypassPermissions` allow more and more. */
  lemma LaterModesAllowMore(c: Context, m: Mode)
    requires ModeAtMost(c.mode, m) && ClosedForm(c).allowed
    ensures ClosedForm(c.(mode := m)).allowed
  {}

  /** A call is allowed exactly when the safety check passes, allow rules outrank every matching
      deny and ask rule, and something grants it: the mode or an allow rule. */
  lemma AllowedExactlyWhen(c: Context)
    ensures ClosedForm(c).allowed <==>
      && !c.call.unsafe
      && (forall r :: r in c.rules && RuleMatches(r, c.call) && r.behavior != Allow ==> Overridden(r, c.call, c.rules))
      && (c.mode.BypassPermissions?
          || (c.mode.AcceptEdits? && IsEditTool(c.call.toolName))
          || exists r :: r in c.rules && Applies(r, Allow, c.call))
  {
    forall r: Rule ensures Overridden(r, c.call, c.rules) <==> Top(c.rules, Allow, c.call) > Score(r.source) {
      OverriddenIffBelowTop(r, c.call, c.rules);
    }
    TopBounds(c.rules, Allow, c.call);
    TopBounds(c.rules, Deny, c.call);
    TopBounds(c.rules, Ask, c.call);
    if Top(c.rules, Allow, c.call) >= 0 { var r := TopAttained(c.rules, Allow, c.call); }
    if Top(c.rules, Deny, c.call) >= 0 { var r := TopAttained(c.rules, Deny, c.call); }
    if Top(c.rules, Ask, c.call) >= 0 { var r := TopAttained(c.rules, Ask, c.call); }
  }

  /** Overriding a refusal takes an allow rule, so the decision then never falls to the default. */
  lemma OverriddenRefusalIsNotDefault(c: Context, r: Rule)
    requires r in c.rules && RuleMatches(r, c.call) && r.behavior != Allow
    ensures ClosedForm(c).decidedBy != DefaultDeny
  {
    TopBounds(c.rules, r.behavior, c.call);
  }

  // ----- The reason -----

  function SourceName(s: Source): string {
    match s
    case UserSettings => "userSettings"
    case ProjectSettings => "projectSettings"
    case LocalSettings => "localSettings"
    case FlagSettings => "flagSettings"
    case PolicySettings => "policySettings"
    case CliArg => "cliArg"
    case Command => "command"
    case Session => "session"
  }

  function BehaviorWord(b: Behavior): string {
    match b
    case Allow => "Allow"
    case Deny => "Deny"
    case Ask => "Ask"
  }

  function ContentText(r: Rule): string { if r.content.Some? then r.content.value else "" }

  function MatchText(content: string): string {
    if content == "" then "." else " matches \"" + (content + "\".")
  }

  /** The reason given for a rule: its source, and its content if it has any. */
  function Reason(r: Rule): string {
    BehaviorWord(r.behavior) + (" rule from \"" + (SourceName(r.source) + ("\"" + MatchText(ContentText(r)))))
  }

  function ReasonOf(c: Context): Option<string> {
    var r := Cited(c);
    if r.Some? then Some(Reason(r.value)) else None
  }

  lemma MatchTextInjective(a: string, b: string)
    requires MatchText(a) == MatchText(b)
    ensures a == b
  {
    if a != "" && b != "" {
      assert MatchText(a)[10..] == a + "\"." && MatchText(b)[10..] == b + "\".";
      assert (a + "\".")[..|a|] == a && (b + "\".")[..|b|] == b;
    }
  }

  lemma CutFront(front: string, a: string, b: string)
    requires front + a == front + b
    ensures a == b
  {
    assert (front + a)[|front|..] == a && (front + b)[|front|..] == b;
  }

  /** Of two rules of one behavior and source, the reason tells the contents apart. */
  lemma ReasonTellsContent(a: Rule, b: Rule)
    requires a.behavior == b.behavior && a.source == b.source
    ensures Reason(a) == Reason(b)
      <==> ContentText(a) == ContentText(b)
  {
    if Reason(a) == Reason(b) {
      var name := SourceName(a.source);
      hide MatchText, SourceName, BehaviorWord, ContentText;
      CutFront(BehaviorWord(a.behavior), " rule from \"" + (name + ("\"" + MatchText(ContentText(a)))),
               " rule from \"" + (name + ("\"" + MatchText(ContentText(b)))));
      CutFront(" rule from \"", name + ("\"" + MatchText(ContentText(a))), name + ("\"" + MatchText(ContentText(b))));
      CutFront(name, "\"" + MatchText(ContentText(a)), "\"" + MatchText(ContentText(b)));
      CutFront("\"", MatchText(ContentText(a)), MatchText(ContentText(b)));
      MatchTextInjective(ContentText(a), ContentText(b));
    }
  }

  lemma ScoreTellsSource(s: Source, t: Source)
    ensures Score(s) == Score(t) ==> s == t
  {}

  /** Two rules the reason might quote. */
  predicate BothMayDecide(c: Context, a: Rule, b: Rule) {
    var p := IsTop(c.rules, ClosedForm(c).behavior, c.call);
    a in c.rules && b in c.rules && p(a) && p(b)
  }

  ghost predicate ReasonFixed(c: Context) {
    forall rules :: multiset(rules) == multiset(c.rules) ==> ReasonOf(c.(rules := rules)) == ReasonOf(c)
  }

  ghost predicate ContentsAgree(c: Context) {
    QuotesRule(ClosedForm(c)) ==> forall a, b :: BothMayDecide(c, a, b) ==> ContentText(a) == ContentText(b)
  }

  lemma CitedMayDecide(c: Context)
    ensures QuotesRule(ClosedForm(c)) <==> Cited(c).Some?
    ensures Cited(c).Some? ==> BothMayDecide(c, Cited(c).value, Cited(c).value)
  {
    var v := ClosedForm(c);
    if QuotesRule(v) {
      TopBounds(c.rules, v.behavior, c.call);
      var r := TopAttained(c.rules, v.behavior, c.call);
      var p := IsTop(c.rules, v.behavior, c.call);
      assert r in Filter(c.rules, p);
      assert Filter(c.rules, p)[0] in Filter(c.rules, p);
    }
  }

  lemma SameMembers(rules: seq<Rule>, more: seq<Rule>)
    requires multiset(rules) == multiset(more)
    ensures forall r :: r in rules <==> r in more
  {
    forall r ensures r in rules <==> r in more {
      assert r in rules <==> r in multiset(rules);
      assert r in more <==> r in multiset(more);
    }
  }

  /** A rule that may decide is quoted if it is put first. */
  lemma PutFirstIsQuoted(c: Context, r: Rule) returns (rules: seq<Rule>)
    requires QuotesRule(ClosedForm(c)) && BothMayDecide(c, r, r)
    ensures multiset(rules) == multiset(c.rules)
    ensures ReasonOf(c.(rules := rules)) == Some(Reason(r))
  {
    var i :| 0 <= i < |c.rules| && c.rules[i] == r;
    rules := [r] + (c.rules[..i] + c.rules[i + 1..]);
    assert c.rules == c.rules[..i] + ([r] + c.rules[i + 1..]);
    SameMembers(rules, c.rules);
    var v := ClosedForm(c);
    DecisionOrderFree(c, rules);
    TopOrderFree(rules, c.rules, v.behavior, c.call);
    hide Reason, ClosedForm, Top, First;
    FirstIs(rules, IsTop(rules, v.behavior, c.call), 0);
  }

  lemma ReorderedReason(c: Context, rules: seq<Rule>)
    requires ContentsAgree(c) && multiset(rules) == multiset(c.rules)
    ensures ReasonOf(c.(rules := rules)) == ReasonOf(c)
  {
    var d := c.(rules := rules);
    SameMembers(rules, c.rules);
    DecisionOrderFree(c, rules);
    TopOrderFree(rules, c.rules, ClosedForm(c).behavior, c.call);
    CitedMayDecide(c);
    CitedMayDecide(d);
    hide Reason, ClosedForm, Top, Cited;
    if Cited(c).Some? {
      var a, b := Cited(c).value, Cited(d).value;
      assert BothMayDecide(c, a, b);
      ScoreTellsSource(a.source, b.source);
      ReasonTellsContent(a, b);
    }
  }

  /** The reason is the same for every order of the rules exactly if all rules of the deciding
      behavior and of the top score quote the same content. */
  lemma ReasonOrderFreeExactly(c: Context)
    ensures ReasonFixed(c) <==> ContentsAgree(c)
  {
    hide ReasonOf, ClosedForm, BothMayDecide;
    if ContentsAgree(c) {
      forall rules | multiset(rules) == multiset(c.rules) ensures ReasonOf(c.(rules := rules)) == ReasonOf(c) {
        ReorderedReason(c, rules);
      }
    }
    if ReasonFixed(c) && QuotesRule(ClosedForm(c)) {
      forall a, b | BothMayDecide(c, a, b) ensures ContentText(a) == ContentText(b) {
        FixedReasonAgrees(c, a, b);
      }
    }
  }

  lemma FixedReasonAgrees(c: Context, a: Rule, b: Rule)
    requires ReasonFixed(c) && QuotesRule(ClosedForm(c)) && BothMayDecide(c, a, b)
    ensures ContentText(a) == ContentText(b)
  {
    var first := PutFirstIsQuoted(c, a);
    var second := PutFirstIsQuoted(c, b);
    ScoreTellsSource(a.source, b.source);
    ReasonTellsContent(a, b);
    hide ReasonOf, Reason, ContentText, ClosedForm;
  }

  /** So two deny rules of one source that match with different contents are quoted in the order
      they were added. */
  lemma CitationDependsOnOrder(mode: Mode)
    ensures var call := Call("shell_exec", "{\"command\":\"ab\"}", false);
      var a := Rule("shell_exec", Some("a"), Deny, Session, false);
      var b := Rule("shell_exec", Some("b"), Deny, Session, false);
      && ReasonOf(Context(mode, [a, b], call)) == Some(Reason(a))
      && ReasonOf(Context(mode, [b, a], call)) == Some(Reason(b))
      && Reason(a) != Reason(b)
  {
    var text := "{\"command\":\"ab\"}";
    var call := Call("shell_exec", text, false);
    var a := Rule("shell_exec", Some("a"), Deny, Session, false);
    var b := Rule("shell_exec", Some("b"), Deny, Session, false);
    assert "a" <= text[12..] && "b" <= text[13..];
    assert Includes(text, "a") && Includes(text, "b");
    ReasonTellsContent(a, b);
    hide Reason, ReasonOf, Includes;
    assert ContentText(a) != ContentText(b);
    DenyPairQuoted(mode, call, a, b);
    DenyPairQuoted(mode, call, b, a);
  }

  lemma DenyPairQuoted(mode: Mode, call: Call, a: Rule, b: Rule)
    requires Applies(a, Deny, call) && Applies(b, Deny, call) && a.source == b.source
    ensures ReasonOf(Context(mode, [a, b], call)) == Some(Reason(a))
  {
    var rules := [a, b];
    forall behavior: Behavior ensures Top(rules, behavior, call) == if behavior == Deny then Score(a.source) else -1 {
      assert rules[1..] == [b] && [b][1..] == [];
      assert Top([], behavior, call) == -1;
      assert Top([b], behavior, call) == if behavior == Deny then Score(b.source) else -1;
    }
    hide Reason, First, Top;
    FirstIs(rules, IsTop(rules, Deny, call), 0);
  }
}
