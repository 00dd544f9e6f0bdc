/** Templates of client configurations: their groups, their rules, and what makes them legal. */
module GeneratorTemplates {
  import opened GeneratorNames
  import DepthFirst

  datatype GroupKind = Select | UrlTest | OtherKind

  datatype Group = Group(id: string, name: string, kind: GroupKind, members: seq<string>, probe: string)

  datatype RuleKind = Domain | Match | OtherRule

  // `legal` says that the value fits the type of the rule.
  datatype Rule = Rule(kind: RuleKind, value: string, legal: bool, target: string)

  datatype Template = Template(groups: seq<Group>, rules: seq<Rule>)

  const AUTHORIZED := "$authorizedProxies"
  const GROUP := "group:"

  predicate HasPrefix(s: string, prefix: string) { prefix <= s }

  function TrimPrefix(s: string, prefix: string): string {
    if prefix <= s then s[|prefix|..] else s
  }

  // A letter, and up to 31 letters, digits or underscores.
  predicate Letter(c: char) { 'A' <= c <= 'Z' || 'a' <= c <= 'z' }

  predicate NamePattern(s: string) {
    0 < |s| <= 32 && Letter(s[0]) && forall i :: 1 <= i < |s| ==> Letter(s[i]) || '0' <= s[i] <= '9' || s[i] == '_'
  }

  predicate OneLine(s: string) { forall i :: 0 <= i < |s| ==> s[i] !in {'\r', '\n', '\0'} }

  // ---- Groups ----

  const RESERVED := {"DIRECT", "REJECT", "direct"}

  predicate AllowedProbe(probe: string) { probe in {"", "default", "cloudflare", "google"} }

  predicate GoodIdentity(g: Group) {
    && g.name !in RESERVED
    && NamePattern(g.id) && g.name != "" && Bytes(g.name) <= 128 && OneLine(g.name)
    && g.kind in {Select, UrlTest} && (g.kind == UrlTest ==> AllowedProbe(g.probe))
    && 0 < |g.members| <= 256
  }

  predicate GoodMember(ids: set<string>, member: string) {
    member == AUTHORIZED || member == "DIRECT" || (HasPrefix(member, GROUP) && TrimPrefix(member, GROUP) in ids)
  }

  predicate DistinctGroups(groups: seq<Group>) {
    forall i, j :: 0 <= i < j < |groups| ==> groups[i].id != groups[j].id && groups[i].name != groups[j].name
  }

  function Ids(groups: seq<Group>): set<string> { set i | 0 <= i < |groups| :: groups[i].id }

  // The groups that a member list names.
  function Referenced(members: seq<string>): seq<string> {
    if members == [] then []
    else
      var last := members[|members| - 1];
      Referenced(members[..|members| - 1]) + if HasPrefix(last, GROUP) then [TrimPrefix(last, GROUP)] else []
  }

  function ReferenceGraph(groups: seq<Group>): map<string, seq<string>> {
    if groups == [] then map[]
    else
      var last := groups[|groups| - 1];
      ReferenceGraph(groups[..|groups| - 1])[last.id := Referenced(last.members)]
  }

  ghost predicate GoodGroups(groups: seq<Group>) {
    && |groups| <= 32
    && (forall i :: 0 <= i < |groups| ==> GoodIdentity(groups[i]))
    && DistinctGroups(groups)
    && (forall i, j :: 0 <= i < |groups| && 0 <= j < |groups[i].members| ==> GoodMember(Ids(groups), groups[i].members[j]))
    && !DepthFirst.Cyclic(ReferenceGraph(groups))
  }

  // Legal groups are named once, name one another, and never in a cycle.
  method ValidateGroups(groups: seq<Group>) returns (ok: bool)
    ensures ok <==> GoodGroups(groups)
  {
    if |groups| > 32 { return false; }
    var ids: set<string>, names: set<string> := {}, {};
    var i := 0;
    while i < |groups|
      invariant i <= |groups| && forall j :: 0 <= j < i ==> GoodIdentity(groups[j])
      invariant DistinctGroups(groups[..i])
      invariant ids == Ids(groups[..i]) && names == set j | 0 <= j < i :: groups[j].name
    {
      var g := groups[i];
      if !GoodIdentity(g) { return false; }
      if g.id in ids || g.name in names { return false; }
      IdsAppend(groups, i);
      ids := ids + {g.id};
      names := names + {g.name};
      i := i + 1;
    }
    assert groups[..i] == groups;
    i := 0;
    while i < |groups|
      invariant i <= |groups|
      invariant forall x, y :: 0 <= x < i && 0 <= y < |groups[x].members| ==> GoodMember(ids, groups[x].members[y])
    {
      var j := 0;
      while j < |groups[i].members|
        invariant j <= |groups[i].members|
        invariant forall y :: 0 <= y < j ==> GoodMember(ids, groups[i].members[y])
      {
        if !GoodMember(ids, groups[i].members[j]) { return false; }
        j := j + 1;
      }
      i := i + 1;
    }
    ok := DepthFirst.IsAcyclic(ReferenceGraph(groups));
  }

  lemma IdsAppend(groups: seq<Group>, i: nat)
    requires i < |groups|
    ensures Ids(groups[..i + 1]) == Ids(groups[..i]) + {groups[i].id}
  {
    var more := groups[..i + 1];
    assert forall j :: 0 <= j < i ==> more[j] == groups[..i][j];
    assert more[i] == groups[i];
    forall x ensures x in Ids(more) <==> x in Ids(groups[..i]) + {groups[i].id} {
      if x in Ids(groups[..i]) {
        var j :| 0 <= j < i && groups[..i][j].id == x;
        assert more[j].id == x;
      }
    }
  }

  lemma {:induction false} GraphOf(groups: seq<Group>, i: nat)
    requires DistinctGroups(groups) && i < |groups|
    ensures groups[i].id in ReferenceGraph(groups) && ReferenceGraph(groups)[groups[i].id] == Referenced(groups[i].members)
  {
    if i < |groups| - 1 {
      GraphOf(groups[..|groups| - 1], i);
    }
  }

  lemma {:induction false} ReferencedBy(members: seq<string>, id: string)
    ensures GROUP + id in members ==> id in Referenced(members)
  {
    if members != [] {
      var last := members[|members| - 1];
      ReferencedBy(members[..|members| - 1], id);
      assert members == members[..|members| - 1] + [last];
      assert last == GROUP + id ==> TrimPrefix(last, GROUP) == id;
    }
  }

  // ---- Rules ----

  predicate ValidRuleTarget(target: string, ids: set<string>) {
    target == "DIRECT" || target == "REJECT" || (HasPrefix(target, GROUP) && TrimPrefix(target, GROUP) in ids)
  }

  // At most one rule matches everything, and it comes last.
  predicate GoodRules(rules: seq<Rule>, groups: seq<Group>) {
    && |rules| <= 1000
    && forall i :: 0 <= i < |rules| ==>
         && rules[i].kind != OtherRule
         && (rules[i].kind == Domain ==> rules[i].value != "" && rules[i].legal)
         && (rules[i].kind == Match ==> rules[i].value == "" && i == |rules| - 1)
         && ValidRuleTarget(rules[i].target, Ids(groups))
  }

  method ValidateRules(rules: seq<Rule>, groups: seq<Group>) returns (ok: bool)
    ensures ok <==> GoodRules(rules, groups)
  {
    if |rules| > 1000 { return false; }
    var ids := Ids(groups);
    var matchCount := 0;
    var i := 0;
    while i < |rules|
      invariant i <= |rules| && 0 <= matchCount <= 1 && (matchCount == 1 ==> i == |rules|)
      invariant forall j :: 0 <= j < i ==>
        && rules[j].kind != OtherRule
        && (rules[j].kind == Domain ==> rules[j].value != "" && rules[j].legal)
        && (rules[j].kind == Match ==> rules[j].value == "" && j == |rules| - 1)
        && ValidRuleTarget(rules[j].target, ids)
    {
      var rule := rules[i];
      match rule.kind {
        case Domain => if rule.value == "" || !rule.legal { return false; }
        case Match =>
          if rule.value != "" || i != |rules| - 1 { return false; }
          matchCount := matchCount + 1;
        case OtherRule => return false;
      }
      if !ValidRuleTarget(rule.target, ids) { return false; }
      i := i + 1;
    }
    return matchCount <= 1;
  }

  // What the parser accepts.
  ghost predicate GoodTemplate(t: Template) { GoodGroups(t.groups) && GoodRules(t.rules, t.groups) }

  method ParseTemplate(t: Template) returns (ok: bool)
    ensures ok <==> GoodTemplate(t)
  {
    ok := ValidateGroups(t.groups);
    if ok {
      ok := ValidateRules(t.rules, t.groups);
    }
  }
}
