/** The engine that holds the mode and the rule list the pipeline runs on. */
module PermissionEngine {
  import opened RuleParser
  import opened StableSort
  import opened DecisionPipeline

  function ParseAll(raws: seq<string>, behavior: Behavior, source: Source): (r: seq<Rule>)
    ensures |r| == |raws|
    ensures forall i :: 0 <= i < |raws| ==> r[i] == Parse(raws[i], behavior, source)
  {
    seq(|raws|, i requires 0 <= i < |raws| => Parse(raws[i], behavior, source))
  }

  /** The rule list after pushing some rules and sorting. */
  function Added(rules: seq<Rule>, more: seq<Rule>): seq<Rule> { Sort(HigherFirst, rules + more) }

  function Without(rules: seq<Rule>, source: Source): seq<Rule> {
    Filter(rules, (r: Rule) => r.source != source)
  }

  class Engine {
    var mode: Mode
    var rules: seq<Rule>

    constructor (mode: Mode, rules: seq<Rule>)
      ensures this.mode == mode && this.rules == rules
    {
      this.mode := mode;
      this.rules := rules;
    }

    method SetMode(mode: Mode)
      modifies `mode
      ensures this.mode == mode
    {
      this.mode := mode;
    }

    method AddRule(raw: string, behavior: Behavior, source: Source) returns (rule: Rule)
      modifies `rules
      ensures rule == Parse(raw, behavior, source)
      ensures rules == Added(old(rules), [rule])
    {
      rule := ParseRule(raw, behavior, source);
      AddParsedRule(rule);
    }

    method AddRules(raws: seq<string>, behavior: Behavior, source: Source) returns (more: seq<Rule>)
      modifies `rules
      ensures more == ParseAll(raws, behavior, source)
      ensures rules == Added(old(rules), more)
    {
      more := ParseAll(raws, behavior, source);
      rules := rules + more;
      SortRules();
    }

    method AddParsedRule(rule: Rule)
      modifies `rules
      ensures rules == Added(old(rules), [rule])
    {
      rules := rules + [rule];
      SortRules();
    }

    method RemoveRulesBySource(source: Source) returns (removed: nat)
      modifies `rules
      ensures rules == Without(old(rules), source)
      ensures removed == |old(rules)| - |rules|
    {
      var before := |rules|;
      rules := Without(rules, source);
      removed := before - |rules|;
    }

    method ClearRules()
      modifies `rules
      ensures rules == []
    {
      rules := [];
    }

    method Decide(call: Call) returns (d: Decision)
      ensures d == Decision(ClosedForm(Context(mode, rules, call)), Cited(Context(mode, rules, call)))
    {
      d := DecisionPipeline.Decide(Context(mode, rules, call));
    }

    method SortRules()
      modifies `rules
      ensures rules == Sort(HigherFirst, old(rules))
    {
      rules := Sort(HigherFirst, rules);
    }
  }

  lemma {:induction false} FilterKeepsAll<T(!new)>(s: seq<T>, p: T -> bool)
    requires forall x :: x in s ==> p(x)
    ensures Filter(s, p) == s
  {
    if s != [] {
      FilterKeepsAll(s[..|s| - 1], p);
      assert s == s[..|s| - 1] + [s[|s| - 1]];
    }
  }

  lemma {:induction false} FilterSkipsAdded(rules: seq<Rule>, more: seq<Rule>, p: Rule -> bool)
    requires forall r :: r in more ==> !p(r)
    ensures Filter(Added(rules, more), p) == Filter(Added(rules, []), p)
  {
    if more == [] {
      assert rules + more == rules + [];
    } else {
      var front, last := more[..|more| - 1], more[|more| - 1];
      assert (rules + more)[..|rules + more| - 1] == rules + front;
      assert last in more;
      FilterSkipsInsert(HigherFirst, Added(rules, front), last, p);
      FilterSkipsAdded(rules, front, p);
    }
  }

  /** Adding rules from a source that had none and removing that source again leaves the old
      rules, in sorted order, and with them every decision and the rule it quotes. */
  lemma AddThenRemoveRestores(c: Context, more: seq<Rule>, source: Source)
    requires forall r :: r in c.rules ==> r.source != source
    requires forall r :: r in more ==> r.source == source
    ensures Without(Added(c.rules, more), source) == Sort(HigherFirst, c.rules)
    ensures var d := c.(rules := Without(Added(c.rules, more), source)); ClosedForm(d) == ClosedForm(c) && Cited(d) == Cited(c)
  {
    var p := (r: Rule) => r.source != source;
    FilterSkipsAdded(c.rules, more, p);
    assert c.rules + [] == c.rules;
    SortMembers(HigherFirst, c.rules);
    FilterKeepsAll(Sort(HigherFirst, c.rules), p);
    DecisionOrderFree(c, Sort(HigherFirst, c.rules));
    SortKeepsFirstTop(c.rules, ClosedForm(c).behavior, c.call);
  }

  /** After any addition the list is sorted by source, whatever the constructor was given. */
  lemma AddedIsSorted(rules: seq<Rule>, more: seq<Rule>)
    ensures Sorted(HigherFirst, Added(rules, more))
    ensures multiset(Added(rules, more)) == multiset(rules) + multiset(more)
  {
    SortSorts(HigherFirst, rules + more);
    SortPermutes(HigherFirst, rules + more);
  }
}
