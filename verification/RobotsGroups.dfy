// Reading robots.txt: which lines are directives, and which user agents each rule is for.
module RobotsGroups {
  import opened RobotsRules
  import opened Texts

  /*** Directives ***/

  const AGENT := "user-agent"

  predicate IsAgentLine(d: Directive) {
    d.field == AGENT
  }

  predicate IsRuleLine(d: Directive) {
    d.field == "allow" || d.field == "disallow"
  }

  function RuleOf(d: Directive): Rule {
    Rule(d.field == "allow", d.value)
  }

  /*** Meaning ***/

  // Line k names the agent.
  predicate NamesAgent(ds: seq<Directive>, k: nat, agent: string) {
    k < |ds| && IsAgentLine(ds[k]) && ds[k].value != "" && Lower(ds[k].value) == agent
  }

  // Between k and n no agent line follows a rule line: k still names an agent of the group open at n.
  ghost predicate StillOpen(ds: seq<Directive>, k: nat, n: nat)
    requires n <= |ds|
  {
    forall r, u | k < r < u < n :: !(IsRuleLine(ds[r]) && IsAgentLine(ds[u]))
  }

  // Line i is a rule of a group that names the agent.
  ghost predicate RuleFor(ds: seq<Directive>, i: nat, agent: string) {
    i < |ds| && IsRuleLine(ds[i]) && exists k :: 0 <= k < i && NamesAgent(ds, k, agent) && StillOpen(ds, k, i)
  }

  ghost function RulesFor(ds: seq<Directive>, agent: string): set<Rule> {
    set i | 0 <= i < |ds| && RuleFor(ds, i, agent) :: RuleOf(ds[i])
  }

  ghost predicate Mentioned(ds: seq<Directive>, agent: string) {
    exists k: nat :: NamesAgent(ds, k, agent)
  }

  // What the file says of a path, read line by line without forming groups.
  ghost predicate FilePermits(ds: seq<Directive>, agent: string, path: string) {
    Permitted(RulesFor(ds, if Mentioned(ds, agent) then agent else "*"), path)
  }

  /*** The parser's state ***/

  datatype State = State(groups: seq<Group>, agents: seq<string>, rules: seq<Rule>)

  function Flushed(st: State): State {
    State(if st.agents != [] then st.groups + [Group(st.agents, st.rules)] else st.groups, [], [])
  }

  function Read(st: State, d: Directive): State {
    if IsAgentLine(d) then
      var ready := if st.rules != [] then Flushed(st) else st;
      if d.value != "" then ready.(agents := ready.agents + [Lower(d.value)]) else ready
    else if IsRuleLine(d) && st.agents != [] then st.(rules := st.rules + [RuleOf(d)])
    else st
  }

  ghost predicate OpenAgents(ds: seq<Directive>, n: nat, agents: seq<string>)
    requires n <= |ds|
  {
    forall agent :: agent in agents <==> exists k :: 0 <= k < n && NamesAgent(ds, k, agent) && StillOpen(ds, k, n)
  }

  // There are open rules exactly when a rule line follows some open agent line.
  ghost predicate OpenRules(ds: seq<Directive>, n: nat, rules: seq<Rule>)
    requires n <= |ds|
  {
    rules != [] <==> exists k, r, agent :: 0 <= k < r < n && NamesAgent(ds, k, agent) && StillOpen(ds, k, n) && IsRuleLine(ds[r])
  }

  // The rules an agent has been given so far, in closed groups and in the open one.
  ghost predicate Given(st: State, agent: string, rule: Rule) {
    || (exists g :: g in st.groups && Names(g, agent) && rule in g.rules)
    || (agent in st.agents && rule in st.rules)
  }

  ghost predicate MentionedSoFar(st: State, agent: string) {
    Mentions(st.groups, agent) || agent in st.agents
  }

  ghost predicate RuledBefore(ds: seq<Directive>, n: nat, agent: string, rule: Rule)
    requires n <= |ds|
  {
    exists i :: 0 <= i < n && RuleFor(ds, i, agent) && RuleOf(ds[i]) == rule
  }

  ghost predicate MentionedBefore(ds: seq<Directive>, n: nat, agent: string) {
    exists k :: 0 <= k < n && NamesAgent(ds, k, agent)
  }

  lemma OneMoreLine(ds: seq<Directive>, n: nat, agent: string, rule: Rule)
    requires n < |ds|
    ensures RuledBefore(ds, n + 1, agent, rule) <==> RuledBefore(ds, n, agent, rule) || (RuleFor(ds, n, agent) && RuleOf(ds[n]) == rule)
    ensures MentionedBefore(ds, n + 1, agent) <==> MentionedBefore(ds, n, agent) || NamesAgent(ds, n, agent)
  {
  }

  // The rules and names after one more line, from those before it.
  lemma RulesAgreeAfter(ds: seq<Directive>, n: nat, st: State, next: State)
    requires n < |ds| && RulesAgree(ds, n, st)
    requires forall agent, rule :: Given(next, agent, rule) <==> Given(st, agent, rule) || (RuleFor(ds, n, agent) && RuleOf(ds[n]) == rule)
    requires forall agent :: MentionedSoFar(next, agent) <==> MentionedSoFar(st, agent) || NamesAgent(ds, n, agent)
    ensures RulesAgree(ds, n + 1, next)
  {
    hide Given, MentionedSoFar, RuledBefore, MentionedBefore, RuleFor, NamesAgent;
    forall agent, rule
      ensures Given(next, agent, rule) <==> RuledBefore(ds, n + 1, agent, rule)
    {
      OneMoreLine(ds, n, agent, rule);
    }
    forall agent
      ensures MentionedSoFar(next, agent) <==> MentionedBefore(ds, n + 1, agent)
    {
      OneMoreLine(ds, n, agent, Rule(true, ""));
    }
  }

  ghost predicate RulesAgree(ds: seq<Directive>, n: nat, st: State)
    requires n <= |ds|
  {
    && (forall agent, rule :: Given(st, agent, rule) <==> RuledBefore(ds, n, agent, rule))
    && (forall agent :: MentionedSoFar(st, agent) <==> MentionedBefore(ds, n, agent))
  }

  ghost predicate StateAgrees(ds: seq<Directive>, n: nat, st: State)
    requires n <= |ds|
  {
    OpenAgents(ds, n, st.agents) && OpenRules(ds, n, st.rules) && RulesAgree(ds, n, st)
  }

  // A line other than an agent line closes nothing.
  lemma StaysOpen(ds: seq<Directive>, k: nat, n: nat)
    requires n < |ds|
    ensures StillOpen(ds, k, n + 1) ==> StillOpen(ds, k, n)
    ensures !IsAgentLine(ds[n]) && StillOpen(ds, k, n) ==> StillOpen(ds, k, n + 1)
    ensures k == n ==> StillOpen(ds, k, n + 1)
  {
  }

  // An agent line closes every open group that has a rule, and no group that has none.
  lemma AgentLineCloses(ds: seq<Directive>, n: nat, st: State, k: nat, agent: string)
    requires n < |ds| && IsAgentLine(ds[n]) && OpenRules(ds, n, st.rules) && k < n && NamesAgent(ds, k, agent)
    ensures st.rules != [] ==> !StillOpen(ds, k, n + 1)
    ensures st.rules == [] ==> (StillOpen(ds, k, n) <==> StillOpen(ds, k, n + 1))
  {
    if st.rules != [] {
      var k', r, agent' :| 0 <= k' < r < n && NamesAgent(ds, k', agent') && StillOpen(ds, k', n) && IsRuleLine(ds[r]);
      if k < r {
        assert IsRuleLine(ds[r]) && IsAgentLine(ds[n]);
      }
    }
  }

  lemma StaysOpenExactly(ds: seq<Directive>, n: nat)
    requires n < |ds| && !IsAgentLine(ds[n])
    ensures forall k: nat :: StillOpen(ds, k, n) <==> StillOpen(ds, k, n + 1)
  {
    forall k: nat ensures StillOpen(ds, k, n) <==> StillOpen(ds, k, n + 1) {
      StaysOpen(ds, k, n);
    }
  }

  lemma OtherLineKeeps(ds: seq<Directive>, n: nat, st: State)
    requires n < |ds| && StateAgrees(ds, n, st)
    requires !IsAgentLine(ds[n]) && (!IsRuleLine(ds[n]) || st.agents == [])
    ensures StateAgrees(ds, n + 1, st)
  {
    StaysOpenExactly(ds, n);
    hide StillOpen;
    forall k, agent | 0 <= k < n && NamesAgent(ds, k, agent) && StillOpen(ds, k, n)
      ensures st.agents != []
    {
      assert agent in st.agents;
    }
    assert forall agent :: !RuleFor(ds, n, agent);
    assert OpenAgents(ds, n + 1, st.agents);
    assert OpenRules(ds, n + 1, st.rules);
    RulesAgreeAfter(ds, n, st, st);
  }

  lemma GivenOneMore(st: State, rule: Rule, agent: string, r: Rule)
    ensures Given(st.(rules := st.rules + [rule]), agent, r) <==> Given(st, agent, r) || (agent in st.agents && r == rule)
  {
  }

  lemma RuleLineKeeps(ds: seq<Directive>, n: nat, st: State)
    requires n < |ds| && StateAgrees(ds, n, st) && IsRuleLine(ds[n]) && st.agents != []
    ensures StateAgrees(ds, n + 1, st.(rules := st.rules + [RuleOf(ds[n])]))
  {
    var next := st.(rules := st.rules + [RuleOf(ds[n])]);
    StaysOpenExactly(ds, n);
    hide StillOpen;
    assert st.agents[0] in st.agents;
    var k :| 0 <= k < n && NamesAgent(ds, k, st.agents[0]) && StillOpen(ds, k, n);
    assert OpenRules(ds, n + 1, next.rules);
    assert OpenAgents(ds, n + 1, next.agents);
    forall agent, rule
      ensures Given(next, agent, rule) <==> Given(st, agent, rule) || (RuleFor(ds, n, agent) && RuleOf(ds[n]) == rule)
    {
      GivenOneMore(st, RuleOf(ds[n]), agent, rule);
      assert RuleFor(ds, n, agent) <==> agent in st.agents;
    }
    RulesAgreeAfter(ds, n, st, next);
  }

  // The agent of line n joins, if the line has one.
  function Joined(agents: seq<string>, d: Directive): seq<string> {
    if d.value != "" then agents + [Lower(d.value)] else agents
  }

  lemma JoinedAgents(ds: seq<Directive>, n: nat, agents: seq<string>, agent: string)
    requires n < |ds| && IsAgentLine(ds[n])
    ensures agent in Joined(agents, ds[n]) <==> agent in agents || NamesAgent(ds, n, agent)
  {
  }

  lemma AgentLineJoins(ds: seq<Directive>, n: nat, st: State)
    requires n < |ds| && StateAgrees(ds, n, st) && IsAgentLine(ds[n]) && st.rules == []
    ensures StateAgrees(ds, n + 1, st.(agents := Joined(st.agents, ds[n])))
  {
    var next := st.(agents := Joined(st.agents, ds[n]));
    forall agent
      ensures agent in next.agents <==> agent in st.agents || NamesAgent(ds, n, agent)
    {
      JoinedAgents(ds, n, st.agents, agent);
    }
    forall k, agent | 0 <= k < n && NamesAgent(ds, k, agent)
      ensures StillOpen(ds, k, n) <==> StillOpen(ds, k, n + 1)
    {
      AgentLineCloses(ds, n, st, k, agent);
    }
    StaysOpen(ds, n, n);
    assert OpenAgents(ds, n + 1, next.agents);
    assert OpenRules(ds, n + 1, next.rules);
    assert forall agent, rule :: Given(next, agent, rule) <==> Given(st, agent, rule);
    assert forall agent :: !RuleFor(ds, n, agent);
    RulesAgreeAfter(ds, n, st, next);
  }

  lemma AgentLineFlushes(ds: seq<Directive>, n: nat, st: State)
    requires n < |ds| && StateAgrees(ds, n, st) && IsAgentLine(ds[n]) && st.rules != []
    ensures StateAgrees(ds, n + 1, Flushed(st).(agents := Joined([], ds[n])))
  {
    var next := Flushed(st).(agents := Joined([], ds[n]));
    assert st.agents != [] by {
      var k, r, agent :| 0 <= k < r < n && NamesAgent(ds, k, agent) && StillOpen(ds, k, n) && IsRuleLine(ds[r]);
      assert agent in st.agents;
    }
    forall agent
      ensures agent in next.agents <==> NamesAgent(ds, n, agent)
    {
      JoinedAgents(ds, n, [], agent);
    }
    forall k, agent | 0 <= k < n && NamesAgent(ds, k, agent)
      ensures !StillOpen(ds, k, n + 1)
    {
      AgentLineCloses(ds, n, st, k, agent);
    }
    StaysOpen(ds, n, n);
    assert OpenAgents(ds, n + 1, next.agents);
    assert OpenRules(ds, n + 1, next.rules);
    FlushedGives(st, next);
    assert forall agent :: !RuleFor(ds, n, agent);
    RulesAgreeAfter(ds, n, st, next);
  }

  lemma FlushedGives(st: State, next: State)
    requires st.agents != [] && next.groups == Flushed(st).groups && next.rules == []
    ensures forall agent, rule :: Given(next, agent, rule) <==> Given(st, agent, rule)
    ensures forall agent :: Mentions(next.groups, agent) <==> MentionedSoFar(st, agent)
  {
    var group := Group(st.agents, st.rules);
    assert group in next.groups;
    assert forall g :: g in next.groups <==> g in st.groups || g == group;
  }

  lemma ReadKeeps(ds: seq<Directive>, n: nat, st: State)
    requires n < |ds| && StateAgrees(ds, n, st)
    ensures StateAgrees(ds, n + 1, Read(st, ds[n]))
  {
    if IsAgentLine(ds[n]) {
      if st.rules == [] {
        AgentLineJoins(ds, n, st);
      } else {
        AgentLineFlushes(ds, n, st);
      }
    } else if IsRuleLine(ds[n]) && st.agents != [] {
      RuleLineKeeps(ds, n, st);
    } else {
      OtherLineKeeps(ds, n, st);
    }
  }

  lemma NothingRead(ds: seq<Directive>)
    ensures StateAgrees(ds, 0, State([], [], []))
  {
  }

  method ParseRobotsGroups(ds: seq<Directive>) returns (groups: seq<Group>)
    ensures forall agent :: Mentions(groups, agent) <==> Mentioned(ds, agent)
    ensures forall agent :: RulesOf(groups, agent) == RulesFor(ds, agent)
  {
    hide StateAgrees;
    var st := State([], [], []);
    NothingRead(ds);
    for n := 0 to |ds|
      invariant StateAgrees(ds, n, st)
    {
      ReadKeeps(ds, n, st);
      var d := ds[n];
      if IsAgentLine(d) {
        if |st.rules| > 0 {
          st := Flushed(st);
        }
        if d.value != "" {
          st := st.(agents := st.agents + [Lower(d.value)]);
        }
      } else if IsRuleLine(d) && |st.agents| > 0 {
        st := st.(rules := st.rules + [RuleOf(d)]);
      }
    }
    ParsedGroups(ds, st);
    groups := Flushed(st).groups;
  }

  lemma ParsedGroups(ds: seq<Directive>, st: State)
    requires StateAgrees(ds, |ds|, st)
    ensures forall agent :: Mentions(Flushed(st).groups, agent) <==> Mentioned(ds, agent)
    ensures forall agent :: RulesOf(Flushed(st).groups, agent) == RulesFor(ds, agent)
  {
    var groups := Flushed(st).groups;
    if st.agents != [] {
      FlushedGives(st, Flushed(st));
    } else {
      assert forall agent :: agent !in st.agents;
    }
    forall agent
      ensures RulesOf(groups, agent) == RulesFor(ds, agent)
      ensures Mentions(groups, agent) <==> Mentioned(ds, agent)
    {
      forall rule
        ensures rule in RulesOf(groups, agent) <==> rule in RulesFor(ds, agent)
      {
        assert rule in RulesOf(groups, agent) <==> Given(st, agent, rule);
      }
      assert MentionedSoFar(st, agent) <==> MentionedBefore(ds, |ds|, agent);
    }
  }

  /*** Small files ***/

  function LineOf(rule: Rule): Directive {
    Directive(if rule.allowed then "allow" else "disallow", rule.pattern)
  }

  function AgentLine(name: string): Directive {
    Directive("user-agent", name)
  }

  lemma StarIsItsOwnLowerCase(name: string)
    ensures Lower(name) == "*" <==> name == "*"
    ensures Lower("*") == "*" && Lower("") == ""
  {
    if Lower(name) == "*" {
      assert Lower(name)[0] == LowerChar(name[0]);
      assert name == [name[0]];
    }
  }

  // A group of one rule binds the crawlers it names, and all of them if it names the star.
  lemma OneRuleFile(name: string, rule: Rule, token: string, path: string)
    ensures var binding := name == "*" || (name != "" && Lower(name) == token);
            FilePermits([AgentLine(name), LineOf(rule)], token, path) <==> rule.allowed || !binding || !Matches(rule, path)
  {
    hide Matches, Lower;
    StarIsItsOwnLowerCase(name);
    var ds := [AgentLine(name), LineOf(rule)];
    assert RuleOf(ds[1]) == rule;
    forall agent: string
      ensures Mentioned(ds, agent) <==> name != "" && Lower(name) == agent
      ensures RulesFor(ds, agent) == if name != "" && Lower(name) == agent then {rule} else {}
    {
      assert NamesAgent(ds, 0, agent) <==> name != "" && Lower(name) == agent;
      assert !NamesAgent(ds, 1, agent);
      assert RuleFor(ds, 1, agent) <==> NamesAgent(ds, 0, agent);
      assert !RuleFor(ds, 0, agent);
    }
  }

  lemma RulesOfTwoGroups(general: Rule, name: string, own: Rule, agent: string)
    requires name != "" && name != "*"
    ensures var ds := [AgentLine("*"), LineOf(general), AgentLine(name), LineOf(own)];
            && (Mentioned(ds, agent) <==> agent == "*" || agent == Lower(name))
            && RulesFor(ds, agent) == if agent == Lower(name) then {own} else if agent == "*" then {general} else {}
  {
    hide Lower;
    StarIsItsOwnLowerCase(name);
    var ds := [AgentLine("*"), LineOf(general), AgentLine(name), LineOf(own)];
    assert NamesAgent(ds, 0, agent) <==> agent == "*";
    assert NamesAgent(ds, 2, agent) <==> agent == Lower(name);
    assert !NamesAgent(ds, 1, agent) && !NamesAgent(ds, 3, agent);
    assert IsRuleLine(ds[1]) && IsAgentLine(ds[2]);
    assert RuleFor(ds, 1, agent) <==> NamesAgent(ds, 0, agent);
    assert RuleFor(ds, 3, agent) <==> NamesAgent(ds, 2, agent);
    assert RuleOf(ds[1]) == general && RuleOf(ds[3]) == own;
  }

  // A crawler with a group of its own is bound by that group alone; all others by the star's.
  lemma OwnGroupWins(general: Rule, name: string, own: Rule, token: string, path: string)
    requires name != "" && name != "*"
    ensures var rule := if token == Lower(name) then own else general;
            FilePermits([AgentLine("*"), LineOf(general), AgentLine(name), LineOf(own)], token, path) <==>
              rule.allowed || !Matches(rule, path)
  {
    hide Matches, Lower, RulesFor, Mentioned;
    StarIsItsOwnLowerCase(name);
    RulesOfTwoGroups(general, name, own, token);
    RulesOfTwoGroups(general, name, own, "*");
  }

  // A path that is disallowed is permitted all the same by a rule at least as specific that allows it.
  lemma AllowedAgain(disallowed: Rule, allowed: Rule, token: string, path: string)
    requires !disallowed.allowed && allowed.allowed
    ensures FilePermits([AgentLine("*"), LineOf(disallowed), LineOf(allowed)], token, path) <==>
              !Matches(disallowed, path) || (Matches(allowed, path) && Specificity(allowed) >= Specificity(disallowed))
  {
    hide Matches, Specificity, Lower;
    StarIsItsOwnLowerCase("*");
    var ds := [AgentLine("*"), LineOf(disallowed), LineOf(allowed)];
    assert RuleOf(ds[1]) == disallowed && RuleOf(ds[2]) == allowed;
    assert NamesAgent(ds, 0, "*");
    forall agent: string
      ensures Mentioned(ds, agent) <==> agent == "*"
    {
      assert !NamesAgent(ds, 1, agent) && !NamesAgent(ds, 2, agent);
    }
    assert RuleFor(ds, 1, "*") && RuleFor(ds, 2, "*") && !RuleFor(ds, 0, "*");
    assert RulesFor(ds, "*") == {disallowed, allowed};
  }
}
