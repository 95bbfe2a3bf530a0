// robots.txt: directives, the groups they form, and which rule decides (sections 2.1 and 2.2 of RFC 9309).
module RobotsRules {
  import opened Prelude
  import opened RobotsWildcards
  import opened RobotsOctets

  datatype Directive = Directive(field: string, value: string)
  datatype Rule = Rule(allowed: bool, pattern: string)
  datatype Group = Group(agents: seq<string>, rules: seq<Rule>)

  /*** Rules against paths ***/

  predicate IsAnchored(pattern: string) {
    pattern != [] && pattern[|pattern| - 1] == '$'
  }

  function WithoutAnchor(pattern: string): string {
    if IsAnchored(pattern) then pattern[..|pattern| - 1] else pattern
  }

  // An empty pattern is no rule; any other is compared after normalization.
  ghost predicate Matches(rule: Rule, path: string) {
    rule.pattern != "" && Decided(Spell(Units(WithoutAnchor(rule.pattern))), Spell(Units(path)), IsAnchored(rule.pattern))
  }

  // The octets of the pattern other than '*'.
  function Specificity(rule: Rule): nat {
    OctetLength(WithoutStars(Spell(Units(WithoutAnchor(rule.pattern)))))
  }

  // Unless a bare '%' runs into hexadecimal digits, every unit of the pattern but '*' counts one.
  lemma SpecificityCountsOctets(rule: Rule)
    ensures var units := Significant(Units(WithoutAnchor(rule.pattern)));
            Specificity(rule) <= |units| && (Specificity(rule) == |units| <==> Unambiguous(units, IsUpperHex))
  {
    var units := Units(WithoutAnchor(rule.pattern));
    UnitsAreCanonical(WithoutAnchor(rule.pattern));
    StarsRemoved(units);
    SignificantIsCanonical(units);
    OctetLengthExactly(Significant(units));
  }

  method RobotsRuleMatches(pattern: string, path: string) returns (matches: bool)
    ensures matches <==> Decided(Spell(Units(WithoutAnchor(pattern))), Spell(Units(path)), IsAnchored(pattern))
  {
    var normalizedPattern := NormalizeRobotsOctets(WithoutAnchor(pattern));
    var normalizedPath := NormalizeRobotsOctets(path);
    matches := RobotsWildcardMatches(normalizedPattern, normalizedPath, IsAnchored(pattern));
  }

  /*** Which rule decides ***/

  // Every matching Disallow is met by a matching Allow at least as specific.
  ghost predicate Permitted(rules: set<Rule>, path: string) {
    forall d | d in rules :: !d.allowed && Matches(d, path) ==>
      exists a :: a in rules && a.allowed && Matches(a, path) && Specificity(a) >= Specificity(d)
  }

  predicate Names(group: Group, agent: string) {
    agent in group.agents
  }

  ghost function RulesOf(groups: seq<Group>, agent: string): set<Rule> {
    set g, r | g in groups && Names(g, agent) && r in g.rules :: r
  }

  ghost predicate Mentions(groups: seq<Group>, agent: string) {
    exists g :: g in groups && Names(g, agent)
  }

  // The rules of every group naming the crawler, or else those for any crawler.
  ghost function ApplicableRules(groups: seq<Group>, agent: string): set<Rule> {
    RulesOf(groups, if Mentions(groups, agent) then agent else "*")
  }

  // The same agents and the same rules, in any order.
  predicate Shuffled(g: Group, h: Group) {
    multiset(g.agents) == multiset(h.agents) && multiset(g.rules) == multiset(h.rules)
  }

  // Every group of one list is in the other, up to the order of its agents and rules.
  ghost predicate Reordered(a: seq<Group>, b: seq<Group>) {
    && (forall g :: g in a ==> exists h :: h in b && Shuffled(g, h))
    && (forall h :: h in b ==> exists g :: g in a && Shuffled(g, h))
  }

  lemma ShuffledHasSame(g: Group, h: Group, agent: string, rule: Rule)
    requires Shuffled(g, h)
    ensures Names(g, agent) <==> Names(h, agent)
    ensures rule in g.rules <==> rule in h.rules
  {
    assert agent in g.agents <==> agent in multiset(g.agents);
    assert agent in h.agents <==> agent in multiset(h.agents);
    assert rule in g.rules <==> rule in multiset(g.rules);
    assert rule in h.rules <==> rule in multiset(h.rules);
  }

  lemma ReorderedMentions(a: seq<Group>, b: seq<Group>, agent: string)
    requires Reordered(a, b)
    ensures Mentions(a, agent) ==> Mentions(b, agent)
  {
    hide Shuffled, Names;
    if Mentions(a, agent) {
      var g :| g in a && Names(g, agent);
      var h :| h in b && Shuffled(g, h);
      ShuffledHasSame(g, h, agent, Rule(true, ""));
    }
  }

  lemma ReorderedGives(a: seq<Group>, b: seq<Group>, agent: string, rule: Rule)
    requires Reordered(a, b) && rule in RulesOf(a, agent)
    ensures rule in RulesOf(b, agent)
  {
    hide Shuffled, Names;
    var g :| g in a && Names(g, agent) && rule in g.rules;
    var h :| h in b && Shuffled(g, h);
    ShuffledHasSame(g, h, agent, rule);
    assert h in b && Names(h, agent) && rule in h.rules;
  }

  lemma ShuffledBack(g: Group, h: Group)
    requires Shuffled(g, h)
    ensures Shuffled(h, g)
  {
  }

  lemma ReorderedBack(a: seq<Group>, b: seq<Group>)
    requires Reordered(a, b)
    ensures Reordered(b, a)
  {
    hide Shuffled;
    forall g, h | Shuffled(g, h)
      ensures Shuffled(h, g)
    {
      ShuffledBack(g, h);
    }
  }

  // Putting the groups in another order, and the agents and rules within them, changes no decision.
  lemma OrderDoesNotMatter(a: seq<Group>, b: seq<Group>, agent: string, path: string)
    requires Reordered(a, b)
    ensures Permitted(ApplicableRules(a, agent), path) == Permitted(ApplicableRules(b, agent), path)
  {
    hide Reordered, Mentions, RulesOf, Permitted;
    ReorderedBack(a, b);
    ReorderedMentions(a, b, agent);
    ReorderedMentions(b, a, agent);
    var named := if Mentions(a, agent) then agent else "*";
    forall rule
      ensures rule in RulesOf(a, named) <==> rule in RulesOf(b, named)
    {
      if rule in RulesOf(a, named) {
        ReorderedGives(a, b, named, rule);
      } else if rule in RulesOf(b, named) {
        ReorderedGives(b, a, named, rule);
      }
    }
    assert RulesOf(a, named) == RulesOf(b, named);
  }

  // Permitted in the words of the standard: nothing matches, or some matching Allow is at least as
  // specific as every matching Disallow.
  lemma MostSpecificRuleWins(rules: set<Rule>, path: string)
    ensures Permitted(rules, path) <==>
              || (forall r | r in rules :: !Matches(r, path))
              || (exists a :: a in rules && a.allowed && Matches(a, path)
                   && forall d | d in rules :: !d.allowed && Matches(d, path) ==> Specificity(a) >= Specificity(d))
  {
    hide Matches, Specificity;
    if Permitted(rules, path) && exists r :: r in rules && Matches(r, path) {
      var allows := set r | r in rules && r.allowed && Matches(r, path);
      var r :| r in rules && Matches(r, path);
      assert allows != {} by {
        if !r.allowed {
          var a :| a in rules && a.allowed && Matches(a, path) && Specificity(a) >= Specificity(r);
          assert a in allows;
        } else {
          assert r in allows;
        }
      }
      var top := MostSpecific(allows);
      forall d | d in rules && !d.allowed && Matches(d, path)
        ensures Specificity(top) >= Specificity(d)
      {
        var a :| a in rules && a.allowed && Matches(a, path) && Specificity(a) >= Specificity(d);
        assert a in allows;
      }
    }
  }

  lemma {:induction false} MostSpecific(rules: set<Rule>) returns (top: Rule)
    requires rules != {}
    ensures top in rules && forall r :: r in rules ==> Specificity(top) >= Specificity(r)
  {
    var r :| r in rules;
    var rest := rules - {r};
    if rest == {} {
      top := r;
      assert forall x :: x in rules ==> x == r || x in rest;
    } else {
      var t := MostSpecific(rest);
      top := if Specificity(t) >= Specificity(r) then t else r;
      assert forall x :: x in rules ==> x == r || x in rest;
    }
  }

  datatype Best = Best(allowed: bool, length: nat)

  // The best rule among those seen: the highest specificity, Allow winning a tie.
  ghost predicate IsBest(best: Option<Best>, seen: set<Rule>, path: string) {
    match best
    case None => forall r | r in seen :: !Matches(r, path)
    case Some(b) =>
      && (forall r | r in seen :: Matches(r, path) ==>
            Specificity(r) <= b.length && (Specificity(r) == b.length && r.allowed ==> b.allowed))
      && exists r :: r in seen && Matches(r, path) && Specificity(r) == b.length && r.allowed == b.allowed
  }

  lemma BestDecides(best: Option<Best>, rules: set<Rule>, path: string)
    requires IsBest(best, rules, path)
    ensures (best.Some? ==> best.value.allowed) <==> Permitted(rules, path)
  {
    hide Matches, Specificity;
    if best.Some? {
      var w :| w in rules && Matches(w, path) && Specificity(w) == best.value.length && w.allowed == best.value.allowed;
    }
  }

  method ApplicableGroups(groups: seq<Group>, agent: string) returns (applicable: seq<Group>)
    ensures forall g :: g in applicable <==> g in groups && Names(g, if Mentions(groups, agent) then agent else "*")
  {
    var specific := GroupsNaming(groups, agent);
    if |specific| > 0 {
      assert specific[0] in specific;
      applicable := specific;
    } else {
      applicable := GroupsNaming(groups, "*");
    }
  }

  method GroupsNaming(groups: seq<Group>, agent: string) returns (naming: seq<Group>)
    ensures forall g :: g in naming <==> g in groups && Names(g, agent)
  {
    naming := [];
    for i := 0 to |groups|
      invariant forall g :: g in naming <==> g in groups[..i] && Names(g, agent)
    {
      if Names(groups[i], agent) {
        naming := naming + [groups[i]];
      }
    }
    assert groups[..|groups|] == groups;
  }

  function AsSet(rules: seq<Rule>): set<Rule> {
    set r | r in rules
  }

  lemma OneMoreRule(rules: seq<Rule>, n: nat)
    requires n < |rules|
    ensures AsSet(rules[..n + 1]) == AsSet(rules[..n]) + {rules[n]}
  {
    assert rules[..n + 1] == rules[..n] + [rules[n]];
  }

  lemma UnmatchedIsPassed(best: Option<Best>, seen: set<Rule>, rule: Rule, path: string)
    requires IsBest(best, seen, path) && !Matches(rule, path)
    ensures IsBest(best, seen + {rule}, path)
  {
    hide Matches, Specificity;
  }

  lemma MatchedIsCompared(best: Option<Best>, seen: set<Rule>, rule: Rule, path: string)
    requires IsBest(best, seen, path) && Matches(rule, path)
    ensures var better := best.None? || Specificity(rule) > best.value.length
                          || (Specificity(rule) == best.value.length && rule.allowed && !best.value.allowed);
            IsBest(if better then Some(Best(rule.allowed, Specificity(rule))) else best, seen + {rule}, path)
  {
    hide Matches, Specificity;
    assert rule in seen + {rule};
    if best.Some? {
      var w :| w in seen && Matches(w, path) && Specificity(w) == best.value.length && w.allowed == best.value.allowed;
      assert w in seen + {rule};
    }
  }

  method DecideByRules(rules: seq<Rule>, path: string, best: Option<Best>, ghost seen: set<Rule>) returns (next: Option<Best>)
    requires IsBest(best, seen, path)
    ensures IsBest(next, seen + AsSet(rules), path)
  {
    next := best;
    assert seen + AsSet(rules[..0]) == seen;
    for i := 0 to |rules|
      invariant IsBest(next, seen + AsSet(rules[..i]), path)
    {
      var rule := rules[i];
      OneMoreRule(rules, i);
      assert seen + AsSet(rules[..i + 1]) == (seen + AsSet(rules[..i])) + {rule};
      var matches := false;
      if rule.pattern != "" {
        matches := RobotsRuleMatches(rule.pattern, path);
      }
      if !matches {
        UnmatchedIsPassed(next, seen + AsSet(rules[..i]), rule, path);
      } else {
        MatchedIsCompared(next, seen + AsSet(rules[..i]), rule, path);
        var specificity := Specificity(rule);
        if next.None? || specificity > next.value.length
           || (specificity == next.value.length && rule.allowed && !next.value.allowed) {
          next := Some(Best(rule.allowed, specificity));
        }
      }
    }
    assert rules[..|rules|] == rules;
  }

  ghost function AllRules(groups: seq<Group>): set<Rule> {
    set g, r | g in groups && r in g.rules :: r
  }

  lemma OneMoreGroup(groups: seq<Group>, n: nat)
    requires n < |groups|
    ensures AllRules(groups[..n + 1]) == AllRules(groups[..n]) + AsSet(groups[n].rules)
  {
    assert groups[..n + 1] == groups[..n] + [groups[n]];
  }

  method DecideByGroups(groups: seq<Group>, path: string, agent: string) returns (allowed: bool)
    ensures allowed <==> Permitted(ApplicableRules(groups, agent), path)
  {
    var applicable := ApplicableGroups(groups, agent);
    var best: Option<Best> := None;
    for i := 0 to |applicable|
      invariant IsBest(best, AllRules(applicable[..i]), path)
    {
      best := DecideByRules(applicable[i].rules, path, best, AllRules(applicable[..i]));
      OneMoreGroup(applicable, i);
    }
    assert applicable[..|applicable|] == applicable;
    assert AllRules(applicable) == ApplicableRules(groups, agent);
    BestDecides(best, ApplicableRules(groups, agent), path);
    allowed := best.None? || best.value.allowed;
  }
}
