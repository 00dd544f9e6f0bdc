/** Client configurations from proxies and a template: unique tags and closed references. */
module Generator {
  import opened Common
  import opened GeneratorNames
  import opened GeneratorTemplates
  import DepthFirst

  // How a proxy renders for the client: fully, not at all because it has no credential, or not because it is unsupported.
  datatype Rendering = Included | Omitted | Unsupported

  // The proxies come in their display order.
  datatype Proxy = Proxy(name: string, node: int, inbound: int, group: string, rendering: Rendering)

  datatype Item = Item(name: string, group: string)

  datatype Format = SingBox | Mihomo

  datatype Selector = Selector(tag: string, members: seq<string>)

  // What a rule of the client matches, and where it sends that; without a target it rejects.
  datatype Route = Route(kind: RuleKind, value: string, target: Option<string>)

  // `final` catches what no rule does.
  datatype Document = Document(proxies: seq<string>, groups: seq<Selector>, builtIn: seq<string>, rules: seq<Route>, final: string)

  function DirectTag(format: Format): string { if format == SingBox then "direct" else "DIRECT" }

  // Targets that the client provides itself.
  predicate BuiltIn(format: Format, tag: string) { tag == DirectTag(format) || (format == Mihomo && tag == "REJECT") }

  // ---- Proxies ----

  function Rendered(proxies: seq<Proxy>): seq<Proxy> {
    if proxies == [] then []
    else
      var last := proxies[|proxies| - 1];
      Rendered(proxies[..|proxies| - 1]) + if last.rendering == Included then [last] else []
  }

  ghost predicate DistinctNames(items: seq<Item>) {
    forall i, j :: 0 <= i < j < |items| ==> items[i].name != items[j].name
  }

  // The name is the first candidate of the proxy that is not in use.
  ghost predicate FirstFree(p: Proxy, name: string, used: set<string>) {
    exists k: nat :: IsFirst(p, name, used, k)
  }

  ghost predicate IsFirst(p: Proxy, name: string, used: set<string>, k: nat) {
    && name == Candidate(Shorten(p.name), p.node, p.inbound, k) && name !in used
    && forall j :: 0 <= j < k ==> Candidate(Shorten(p.name), p.node, p.inbound, j) in used
  }

  ghost function NamesBefore(items: seq<Item>, i: int): set<string> { set j | 0 <= j < |items| && j < i :: items[j].name }

  // One item for every included proxy, in order, under the first of its names that is neither reserved nor taken before.
  ghost predicate ItemsOf(items: seq<Item>, proxies: seq<Proxy>, reserved: set<string>) {
    && |items| == |Rendered(proxies)|
    && forall i :: 0 <= i < |items| ==> ItemOf(items, i, Rendered(proxies)[i], reserved)
  }

  ghost predicate ItemOf(items: seq<Item>, i: nat, p: Proxy, reserved: set<string>)
    requires i < |items|
  {
    items[i].group == p.group && FirstFree(p, items[i].name, reserved + NamesBefore(items, i))
  }

  // The names that are in use are the reserved ones and those of the items, and no item has a reserved name.
  ghost predicate InUse(items: seq<Item>, reserved: set<string>, seen: set<string>) {
    && DistinctNames(items) && seen == reserved + (set j | 0 <= j < |items| :: items[j].name)
    && forall j :: 0 <= j < |items| ==> items[j].name !in reserved
  }

  // Each included proxy becomes one item, in order, under a name of its own that is not reserved.
  method RenderItems(proxies: seq<Proxy>, reserved: set<string>) returns (r: Option<seq<Item>>)
    ensures r.Some? <==> forall i :: 0 <= i < |proxies| ==> proxies[i].rendering != Unsupported
    ensures r.Some? ==> DistinctNames(r.value) && forall i :: 0 <= i < |r.value| ==> r.value[i].name !in reserved
    ensures r.Some? ==> ItemsOf(r.value, proxies, reserved)
  {
    var items: seq<Item> := [];
    var seen := reserved;
    var i := 0;
    while i < |proxies|
      invariant i <= |proxies| && forall j :: 0 <= j < i ==> proxies[j].rendering != Unsupported
      invariant InUse(items, reserved, seen) && ItemsOf(items, proxies[..i], reserved)
    {
      if proxies[i].rendering == Unsupported { return None; }
      items, seen := RenderItem(items, seen, proxies, i, reserved);
      i := i + 1;
    }
    assert proxies[..i] == proxies;
    return Some(items);
  }

  method RenderItem(before: seq<Item>, used: set<string>, proxies: seq<Proxy>, i: nat, ghost reserved: set<string>) returns (items: seq<Item>, seen: set<string>)
    requires i < |proxies| && InUse(before, reserved, used) && ItemsOf(before, proxies[..i], reserved)
    ensures InUse(items, reserved, seen) && ItemsOf(items, proxies[..i + 1], reserved)
  {
    items, seen := before, used;
    var proxy := proxies[i];
    if proxy.rendering == Included {
      var name, k := UniqueProxyName(proxy.name, proxy.node, proxy.inbound, seen);
      SeenGrows(items, reserved, seen, Item(name, proxy.group));
      assert seen == reserved + NamesBefore(items, |items|);
      assert IsFirst(proxy, name, seen, k);
      OneMoreItem(items, proxies, i, Item(name, proxy.group), reserved);
      items := items + [Item(name, proxy.group)];
      seen := seen + {name};
    } else {
      OneLessItem(items, proxies, i, reserved);
    }
  }

  lemma OneMoreItem(items: seq<Item>, proxies: seq<Proxy>, i: nat, item: Item, reserved: set<string>)
    requires i < |proxies| && ItemsOf(items, proxies[..i], reserved) && proxies[i].rendering == Included && item.group == proxies[i].group
    requires FirstFree(proxies[i], item.name, reserved + NamesBefore(items, |items|))
    ensures ItemsOf(items + [item], proxies[..i + 1], reserved)
  {
    assert proxies[..i + 1][..i] == proxies[..i];
    var more, rendered := items + [item], Rendered(proxies[..i + 1]);
    assert rendered == Rendered(proxies[..i]) + [proxies[i]];
    forall j | 0 <= j < |more| ensures ItemOf(more, j, rendered[j], reserved) {
      NamesBeforeLast(items, item, j);
      assert j < |items| ==> ItemOf(items, j, rendered[j], reserved);
    }
  }

  lemma NamesBeforeLast(items: seq<Item>, item: Item, j: nat)
    requires j <= |items|
    ensures NamesBefore(items + [item], j) == NamesBefore(items, j)
  {
    var more := items + [item];
    forall name ensures name in NamesBefore(more, j) <==> name in NamesBefore(items, j) {
      assert forall x :: 0 <= x < j ==> more[x] == items[x];
    }
  }

  lemma OneLessItem(items: seq<Item>, proxies: seq<Proxy>, i: nat, reserved: set<string>)
    requires i < |proxies| && ItemsOf(items, proxies[..i], reserved) && proxies[i].rendering != Included
    ensures ItemsOf(items, proxies[..i + 1], reserved)
  {
    assert proxies[..i + 1][..i] == proxies[..i];
  }

  lemma SeenGrows(before: seq<Item>, reserved: set<string>, seen: set<string>, item: Item)
    requires InUse(before, reserved, seen) && item.name !in seen
    ensures InUse(before + [item], reserved, seen + {item.name})
  {
    var items := before + [item];
    assert items[|before|] == item;
    forall j | 0 <= j < |before| ensures items[j] == before[j] && before[j].name in seen {}
    forall x ensures x in seen + {item.name} <==> x in reserved + (set j | 0 <= j < |items| :: items[j].name) {
      if x in seen && x !in reserved {
        var j :| 0 <= j < |before| && before[j].name == x;
        assert items[j].name == x;
      }
    }
  }

  // ---- Members of a group ----

  predicate Authorized(item: Item, g: Group) {
    item.group == "" || TrimPrefix(item.group, GROUP) == g.id
  }

  // The names of the proxies that a group may use.
  function Usable(items: seq<Item>, g: Group): seq<string> {
    if items == [] then []
    else
      var last := items[|items| - 1];
      Usable(items[..|items| - 1], g) + if Authorized(last, g) then [last.name] else []
  }

  // What one entry of a member list stands for.
  function StandIns(format: Format, g: Group, entry: string, items: seq<Item>, names: map<string, string>): seq<string> {
    if entry == AUTHORIZED then Usable(items, g)
    else if HasPrefix(entry, GROUP) then [if TrimPrefix(entry, GROUP) in names then names[TrimPrefix(entry, GROUP)] else ""]
    else [DirectTag(format)]
  }

  // What the entries stand for, in order.
  function Listing(format: Format, g: Group, entries: seq<string>, items: seq<Item>, names: map<string, string>): seq<string> {
    if entries == [] then []
    else
      var k := |entries| - 1;
      Listing(format, g, entries[..k], items, names) + StandIns(format, g, entries[k], items, names)
  }

  // The proxy is of no group, or of this one, with or without the prefix.
  ghost predicate MayUse(item: Item, g: Group) {
    item.group == "" || item.group == GROUP + g.id || (item.group == g.id && !(GROUP <= item.group))
  }

  lemma MayUseExactly(item: Item, g: Group)
    ensures Authorized(item, g) <==> MayUse(item, g)
  {
    assert GROUP <= item.group ==> item.group == GROUP + item.group[|GROUP|..];
  }

  // An entry stands for a member.
  ghost predicate StandsFor(format: Format, g: Group, entry: string, items: seq<Item>, names: map<string, string>, m: string) {
    if entry == AUTHORIZED then exists i :: 0 <= i < |items| && MayUse(items[i], g) && items[i].name == m
    else if HasPrefix(entry, GROUP) then TrimPrefix(entry, GROUP) in names && m == names[TrimPrefix(entry, GROUP)]
    else m == DirectTag(format)
  }

  ghost predicate MemberOf(format: Format, g: Group, items: seq<Item>, names: map<string, string>, m: string) {
    exists j :: 0 <= j < |g.members| && StandsFor(format, g, g.members[j], items, names, m)
  }

  // A group lists what its entries stand for, in order; an empty one connects directly.
  method Members(format: Format, g: Group, items: seq<Item>, names: map<string, string>) returns (members: seq<string>)
    requires forall j :: 0 <= j < |g.members| ==> GoodMember(names.Keys, g.members[j])
    ensures |members| > 0
    ensures members == Filled(format, Listing(format, g, g.members, items, names))
    ensures (exists m :: MemberOf(format, g, items, names, m)) ==> forall m :: m in members <==> MemberOf(format, g, items, names, m)
    ensures !(exists m :: MemberOf(format, g, items, names, m)) ==> members == [DirectTag(format)]
  {
    members := Listed(format, g, items, names);
    ListsMembers(format, g, items, names);
    if |members| == 0 {
      members := [DirectTag(format)];
    }
  }

  method Listed(format: Format, g: Group, items: seq<Item>, names: map<string, string>) returns (members: seq<string>)
    requires forall j :: 0 <= j < |g.members| ==> GoodMember(names.Keys, g.members[j])
    ensures members == Listing(format, g, g.members, items, names)
  {
    members := [];
    var j := 0;
    while j < |g.members|
      invariant j <= |g.members| && members == Listing(format, g, g.members[..j], items, names)
    {
      var entry := g.members[j];
      var more: seq<string> := [];
      if entry == AUTHORIZED {
        more := AuthorizedNames(items, g);
      } else if HasPrefix(entry, GROUP) {
        NotDirect(entry);
        more := [names[TrimPrefix(entry, GROUP)]];
      } else {
        more := [DirectTag(format)];
      }
      assert g.members[..j + 1][..j] == g.members[..j];
      members := members + more;
      j := j + 1;
    }
    assert g.members[..j] == g.members;
  }

  lemma NotDirect(entry: string)
    requires HasPrefix(entry, GROUP)
    ensures entry != "DIRECT" && entry != "REJECT"
  {
    assert entry[0] == GROUP[0] == 'g';
  }

  lemma {:induction false} UsableNames(items: seq<Item>, g: Group, m: string)
    ensures m in Usable(items, g) <==> exists i :: 0 <= i < |items| && MayUse(items[i], g) && items[i].name == m
  {
    if items != [] {
      var k := |items| - 1;
      UsableNames(items[..k], g, m);
      MayUseExactly(items[k], g);
      if exists i :: 0 <= i < |items| && MayUse(items[i], g) && items[i].name == m {
        var i :| 0 <= i < |items| && MayUse(items[i], g) && items[i].name == m;
        assert i < k ==> items[..k][i] == items[i];
      }
    }
  }

  lemma {:induction false} ListingNames(format: Format, g: Group, entries: seq<string>, items: seq<Item>, names: map<string, string>, m: string)
    requires forall j :: 0 <= j < |entries| ==> GoodMember(names.Keys, entries[j])
    ensures m in Listing(format, g, entries, items, names) <==> exists j :: 0 <= j < |entries| && StandsFor(format, g, entries[j], items, names, m)
  {
    if entries != [] {
      var k := |entries| - 1;
      ListingNames(format, g, entries[..k], items, names, m);
      UsableNames(items, g, m);
      if HasPrefix(entries[k], GROUP) { NotDirect(entries[k]); }
      assert m in StandIns(format, g, entries[k], items, names) <==> StandsFor(format, g, entries[k], items, names, m);
      if exists j :: 0 <= j < |entries| && StandsFor(format, g, entries[j], items, names, m) {
        var j :| 0 <= j < |entries| && StandsFor(format, g, entries[j], items, names, m);
        assert j < k ==> entries[..k][j] == entries[j];
      }
    }
  }

  // The listing of entries after entries is that of the latter after that of the former.
  lemma {:induction false} ListingConcat(format: Format, g: Group, entries: seq<string>, more: seq<string>, items: seq<Item>, names: map<string, string>)
    ensures Listing(format, g, entries + more, items, names) == Listing(format, g, entries, items, names) + Listing(format, g, more, items, names)
    decreases |more|
  {
    if more == [] {
      assert entries + more == entries;
    } else {
      var front, last := more[..|more| - 1], more[|more| - 1];
      ListingConcat(format, g, entries, front, items, names);
      ListingStep(format, g, entries, front, last, items, names);
      assert more == front + [last];
    }
  }

  lemma ListingStep(format: Format, g: Group, entries: seq<string>, front: seq<string>, last: string, items: seq<Item>, names: map<string, string>)
    requires Listing(format, g, entries + front, items, names) == Listing(format, g, entries, items, names) + Listing(format, g, front, items, names)
    ensures Listing(format, g, entries + (front + [last]), items, names)
         == Listing(format, g, entries, items, names) + Listing(format, g, front + [last], items, names)
  {
    assert entries + (front + [last]) == (entries + front) + [last];
    ListingAppend(format, g, entries + front, last, items, names);
    ListingAppend(format, g, front, last, items, names);
    Associate(Listing(format, g, entries, items, names), Listing(format, g, front, items, names), StandIns(format, g, last, items, names));
  }

  lemma {:induction false} RenderedConcat(proxies: seq<Proxy>, more: seq<Proxy>)
    ensures Rendered(proxies + more) == Rendered(proxies) + Rendered(more)
    decreases |more|
  {
    if more == [] {
      assert proxies + more == proxies;
    } else {
      var k := |more| - 1;
      RenderedConcat(proxies, more[..k]);
      assert (proxies + more)[..|proxies| + k] == proxies + more[..k];
    }
  }

  // The proxies that a client gets are the included ones, in the order of all proxies.
  lemma OrderIsKept(proxies: seq<Proxy>, p: Proxy, more: seq<Proxy>)
    ensures Rendered(proxies + [p] + more) == Rendered(proxies) + (if p.rendering == Included then [p] else []) + Rendered(more)
  {
    RenderedConcat(proxies + [p], more);
    RenderedConcat(proxies, [p]);
    assert [p][..0] == [];
  }

  lemma {:induction false} UsableConcat(items: seq<Item>, more: seq<Item>, g: Group)
    ensures Usable(items + more, g) == Usable(items, g) + Usable(more, g)
    decreases |more|
  {
    if more == [] {
      assert items + more == items;
    } else {
      var k := |more| - 1;
      UsableConcat(items, more[..k], g);
      assert (items + more)[..|items| + k] == items + more[..k];
    }
  }

  // Those that a group may use come in the order of all items.
  lemma UsableOrderIsKept(items: seq<Item>, item: Item, more: seq<Item>, g: Group)
    ensures Usable(items + [item] + more, g) == Usable(items, g) + (if MayUse(item, g) then [item.name] else []) + Usable(more, g)
  {
    UsableConcat(items + [item], more, g);
    UsableConcat(items, [item], g);
    MayUseExactly(item, g);
    assert [item][..0] == [];
  }

  lemma Associate(x: seq<string>, y: seq<string>, z: seq<string>)
    ensures (x + y) + z == x + (y + z)
  {
  }

  lemma ListingAppend(format: Format, g: Group, entries: seq<string>, entry: string, items: seq<Item>, names: map<string, string>)
    ensures Listing(format, g, entries + [entry], items, names) == Listing(format, g, entries, items, names) + StandIns(format, g, entry, items, names)
  {
    assert (entries + [entry])[..|entries|] == entries;
  }

  lemma ListsMembers(format: Format, g: Group, items: seq<Item>, names: map<string, string>)
    requires forall j :: 0 <= j < |g.members| ==> GoodMember(names.Keys, g.members[j])
    ensures forall m :: m in Listing(format, g, g.members, items, names) <==> MemberOf(format, g, items, names, m)
    ensures Listing(format, g, g.members, items, names) != [] <==> exists m :: MemberOf(format, g, items, names, m)
  {
    var listing := Listing(format, g, g.members, items, names);
    forall m ensures m in listing <==> MemberOf(format, g, items, names, m) {
      ListingNames(format, g, g.members, items, names, m);
    }
    if listing != [] {
      assert listing[0] in listing;
    }
  }

  method AuthorizedNames(items: seq<Item>, g: Group) returns (names: seq<string>)
    ensures names == Usable(items, g)
  {
    names := [];
    var i := 0;
    while i < |items|
      invariant i <= |items| && names == Usable(items[..i], g)
    {
      assert items[..i + 1][..i] == items[..i];
      if Authorized(items[i], g) {
        names := names + [items[i].name];
      }
      i := i + 1;
    }
    assert items[..i] == items;
  }

  // ---- The document ----

  function NamesOf(groups: seq<Group>): map<string, string> {
    if groups == [] then map[]
    else
      var last := groups[|groups| - 1];
      NamesOf(groups[..|groups| - 1])[last.id := last.name]
  }

  lemma {:induction false} NameOfGroup(groups: seq<Group>, i: nat)
    requires DistinctGroups(groups) && i < |groups|
    ensures groups[i].id in NamesOf(groups) && NamesOf(groups)[groups[i].id] == groups[i].name
  {
    if i < |groups| - 1 {
      NameOfGroup(groups[..|groups| - 1], i);
    }
  }

  lemma {:induction false} GroupOfName(groups: seq<Group>, id: string) returns (i: nat)
    requires id in NamesOf(groups)
    ensures i < |groups| && groups[i].id == id && groups[i].name == NamesOf(groups)[id]
  {
    var k := |groups| - 1;
    if id == groups[k].id {
      i := k;
    } else {
      i := GroupOfName(groups[..k], id);
    }
  }

  lemma NamesAgree(groups: seq<Group>)
    requires DistinctGroups(groups)
    ensures NamesOf(groups).Keys == Ids(groups)
  {
    forall id ensures id in NamesOf(groups) <==> id in Ids(groups) {
      if id in NamesOf(groups) {
        var i := GroupOfName(groups, id);
      }
      if id in Ids(groups) {
        var i :| 0 <= i < |groups| && groups[i].id == id;
        NameOfGroup(groups, i);
      }
    }
  }

  // What a group lists; an empty one connects directly.
  function Filled(format: Format, listing: seq<string>): seq<string> {
    if listing == [] then [DirectTag(format)] else listing
  }

  // The group of the template, rendered.
  ghost predicate IsSelector(format: Format, g: Group, items: seq<Item>, names: map<string, string>, s: Selector) {
    s.tag == g.name && s.members == Filled(format, Listing(format, g, g.members, items, names))
  }

  lemma SelectorLists(format: Format, groups: seq<Group>, i: nat, items: seq<Item>, s: Selector)
    requires GoodGroups(groups) && i < |groups| && IsSelector(format, groups[i], items, NamesOf(groups), s)
    ensures if exists m :: MemberOf(format, groups[i], items, NamesOf(groups), m)
            then forall m :: m in s.members <==> MemberOf(format, groups[i], items, NamesOf(groups), m)
            else s.members == [DirectTag(format)]
  {
    NamesAgree(groups);
    ListsMembers(format, groups[i], items, NamesOf(groups));
  }

  ghost function ItemNames(items: seq<Item>): seq<string> {
    seq(|items|, i requires 0 <= i < |items| => items[i].name)
  }

  method SelectorOf(format: Format, g: Group, items: seq<Item>, names: map<string, string>) returns (selector: Selector)
    requires forall j :: 0 <= j < |g.members| ==> GoodMember(names.Keys, g.members[j])
    ensures IsSelector(format, g, items, names, selector)
  {
    var members := Members(format, g, items, names);
    return Selector(g.name, members);
  }

  method Selectors(format: Format, groups: seq<Group>, items: seq<Item>, subName: string) returns (selectors: seq<Selector>)
    requires GoodGroups(groups)
    ensures groups == [] ==> selectors == [Selector(subName, Filled(format, ItemNames(items)))]
    ensures groups != [] ==> |selectors| == |groups| && forall i :: 0 <= i < |groups| ==> IsSelector(format, groups[i], items, NamesOf(groups), selectors[i])
  {
    if |groups| == 0 {
      var members := AllNames(items);
      assert members == ItemNames(items);
      if |members| == 0 { members := [DirectTag(format)]; }
      return [Selector(subName, members)];
    }
    NamesAgree(groups);
    selectors := GroupSelectors(format, groups, items, NamesOf(groups));
  }

  method GroupSelectors(format: Format, groups: seq<Group>, items: seq<Item>, names: map<string, string>) returns (selectors: seq<Selector>)
    requires forall i, j :: 0 <= i < |groups| && 0 <= j < |groups[i].members| ==> GoodMember(names.Keys, groups[i].members[j])
    ensures |selectors| == |groups| && forall i :: 0 <= i < |groups| ==> IsSelector(format, groups[i], items, names, selectors[i])
  {
    selectors := [];
    var i := 0;
    while i < |groups|
      invariant i <= |groups| && |selectors| == i
      invariant forall j :: 0 <= j < i ==> IsSelector(format, groups[j], items, names, selectors[j])
    {
      var selector := SelectorOf(format, groups[i], items, names);
      selectors := selectors + [selector];
      i := i + 1;
    }
  }

  method AllNames(items: seq<Item>) returns (names: seq<string>)
    ensures |names| == |items| && forall i :: 0 <= i < |items| ==> names[i] == items[i].name
  {
    names := [];
    var i := 0;
    while i < |items|
      invariant i <= |items| && |names| == i && forall j :: 0 <= j < i ==> names[j] == items[j].name
    {
      names := names + [items[i].name];
      i := i + 1;
    }
  }

  // Where a rule sends its traffic: a group's tag, direct, or nowhere.
  function TargetOf(format: Format, target: string, names: map<string, string>): Option<string> {
    if HasPrefix(target, GROUP) then Some(if TrimPrefix(target, GROUP) in names then names[TrimPrefix(target, GROUP)] else "")
    else if target == "DIRECT" then Some(DirectTag(format))
    else if format == SingBox then None
    else Some(target)
  }

  // What a rule of the template becomes. A rule that matches everything has no value.
  function RouteOf(format: Format, rule: Rule, names: map<string, string>): Route {
    Route(rule.kind, if rule.kind == Match then "" else rule.value, TargetOf(format, rule.target, names))
  }

  method Routes(format: Format, rules: seq<Rule>, names: map<string, string>) returns (routes: seq<Route>)
    ensures |routes| == |rules| && forall i :: 0 <= i < |rules| ==> routes[i] == RouteOf(format, rules[i], names)
  {
    routes := [];
    var i := 0;
    while i < |rules|
      invariant i <= |rules| && |routes| == i && forall j :: 0 <= j < i ==> routes[j] == RouteOf(format, rules[j], names)
    {
      routes := routes + [RouteOf(format, rules[i], names)];
      i := i + 1;
    }
  }

  function GroupNames(groups: seq<Group>): set<string> { set i | 0 <= i < |groups| :: groups[i].name }

  // All tags of a document, and the built-in ones.
  function Tags(d: Document): seq<string> { d.proxies + TagsOf(d.groups) + d.builtIn }

  function TagsOf(groups: seq<Selector>): seq<string> {
    if groups == [] then [] else TagsOf(groups[..|groups| - 1]) + [groups[|groups| - 1].tag]
  }

  // Every member of a group, every target of a rule and the final tag name a tag of the document or a built-in one.
  ghost predicate Closed(format: Format, d: Document) {
    && (forall i, m :: 0 <= i < |d.groups| && m in d.groups[i].members ==> m in Tags(d) || BuiltIn(format, m))
    && (forall i :: 0 <= i < |d.rules| && d.rules[i].target.Some? ==> d.rules[i].target.value in Tags(d) || BuiltIn(format, d.rules[i].target.value))
    && d.final in Tags(d)
  }

  function GroupGraph(groups: seq<Selector>): map<string, seq<string>> {
    if groups == [] then map[]
    else GroupGraph(groups[..|groups| - 1])[groups[|groups| - 1].tag := groups[|groups| - 1].members]
  }

  // The document of a format: sing-box lists its direct outbound itself, and Mihomo sends what is left to its first group.
  ghost predicate IsDocument(format: Format, t: Template, items: seq<Item>, subName: string, d: Document) {
    && (|d.proxies| == |items| && forall i :: 0 <= i < |items| ==> d.proxies[i] == items[i].name)
    && d.builtIn == (if format == SingBox then ["direct"] else [])
    && (t.groups == [] ==> d.groups == [Selector(subName, Filled(format, ItemNames(items)))])
    && (t.groups != [] ==> |d.groups| == |t.groups| && forall i :: 0 <= i < |t.groups| ==> IsSelector(format, t.groups[i], items, NamesOf(t.groups), d.groups[i]))
    && |d.groups| > 0 && d.final == d.groups[0].tag
    && (if t.rules == [] && format == Mihomo then d.rules == [Route(Match, "", Some(d.final))]
        else |d.rules| == |t.rules| && forall i :: 0 <= i < |t.rules| ==> d.rules[i] == RouteOf(format, t.rules[i], NamesOf(t.groups)))
  }

  // The names that no proxy gets.
  function Reserved(format: Format, subName: string, groups: seq<Group>): set<string> {
    (if format == SingBox then {"direct"} else {"DIRECT", "REJECT"}) + {subName} + GroupNames(groups)
  }

  method Generate(format: Format, proxies: seq<Proxy>, subName: string, t: Template) returns (r: Option<Document>, ghost items: seq<Item>)
    requires GoodTemplate(t)
    ensures r.Some? <==> forall i :: 0 <= i < |proxies| ==> proxies[i].rendering != Unsupported
    ensures r.Some? ==> IsDocument(format, t, items, subName, r.value)
    ensures r.Some? ==> DistinctNames(items) && ItemsOf(items, proxies, Reserved(format, subName, t.groups))
    ensures r.Some? ==> forall i :: 0 <= i < |items| ==>
      items[i].name !in GroupNames(t.groups) && items[i].name != subName && !BuiltIn(format, items[i].name)
  {
    var rendered := RenderItems(proxies, Reserved(format, subName, t.groups));
    items := [];
    if rendered.None? { return None, items; }
    items := rendered.value;
    var names := AllNames(rendered.value);
    var selectors := Selectors(format, t.groups, rendered.value, subName);
    var routes := Routes(format, t.rules, NamesOf(t.groups));
    if format == Mihomo && |routes| == 0 {
      routes := [Route(Match, "", Some(selectors[0].tag))];
    }
    var final := if |t.groups| > 0 then t.groups[0].name else subName;
    return Some(Document(names, selectors, if format == SingBox then ["direct"] else [], routes, final)), items;
  }

  // ---- What a document promises ----

  ghost predicate Separate(format: Format, t: Template, items: seq<Item>, subName: string) {
    && DistinctNames(items)
    && forall i :: 0 <= i < |items| ==> items[i].name !in GroupNames(t.groups) && items[i].name != subName && !BuiltIn(format, items[i].name)
  }

  lemma {:induction false} TagAt(groups: seq<Selector>)
    ensures |TagsOf(groups)| == |groups| && forall i :: 0 <= i < |groups| ==> TagsOf(groups)[i] == groups[i].tag
  {
    if groups != [] {
      TagAt(groups[..|groups| - 1]);
    }
  }

  // All tags are different exactly when the name of the subscription does not clash with the direct outbound.
  lemma TagsAreDistinct(format: Format, t: Template, items: seq<Item>, subName: string, d: Document)
    requires GoodTemplate(t) && IsDocument(format, t, items, subName, d) && Separate(format, t, items, subName)
    ensures Distinct(Tags(d)) <==> t.groups != [] || format == Mihomo || subName != "direct"
  {
    TagAt(d.groups);
    var tags := Tags(d);
    var n, k := |d.proxies|, |d.groups|;
    if t.groups == [] && format == SingBox && subName == "direct" {
      assert tags[n] == "direct" && tags[n + 1] == "direct";
    } else {
      forall i, j | 0 <= i < j < |tags| ensures tags[i] != tags[j] {
        TagsDiffer(format, t, items, subName, d, i, j);
      }
    }
  }

  lemma TagsDiffer(format: Format, t: Template, items: seq<Item>, subName: string, d: Document, i: nat, j: nat)
    requires GoodTemplate(t) && IsDocument(format, t, items, subName, d) && Separate(format, t, items, subName)
    requires t.groups != [] || format == Mihomo || subName != "direct"
    requires i < j < |Tags(d)|
    ensures Tags(d)[i] != Tags(d)[j]
  {
    TagAt(d.groups);
    var n, k := |d.proxies|, |d.groups|;
    if j >= n {
      DocumentTagged(format, t, items, subName, d);
      TagAfter(format, t, subName, d, j);
      if i >= n {
        assert t.groups != [] ==> IsSelector(format, t.groups[i - n], items, NamesOf(t.groups), d.groups[i - n]);
        assert t.groups != [] ==> GoodIdentity(t.groups[i - n]);
      }
    }
  }

  // The tags of the document: those of its groups are the names of the template's groups, or the subscription's.
  ghost predicate Tagged(format: Format, t: Template, subName: string, d: Document) {
    && d.builtIn == (if format == SingBox then ["direct"] else [])
    && if t.groups == [] then |d.groups| == 1 && d.groups[0].tag == subName
       else |d.groups| == |t.groups| && forall i :: 0 <= i < |t.groups| ==> d.groups[i].tag == t.groups[i].name
  }

  lemma DocumentTagged(format: Format, t: Template, items: seq<Item>, subName: string, d: Document)
    requires IsDocument(format, t, items, subName, d)
    ensures Tagged(format, t, subName, d)
  {
    forall i | t.groups != [] && 0 <= i < |t.groups| ensures d.groups[i].tag == t.groups[i].name {
      assert IsSelector(format, t.groups[i], items, NamesOf(t.groups), d.groups[i]);
    }
  }

  // A tag after the proxies is the name of a group, the name of the subscription, or direct.
  lemma TagAfter(format: Format, t: Template, subName: string, d: Document, j: nat)
    requires Tagged(format, t, subName, d) && |d.proxies| <= j < |Tags(d)|
    ensures var x := j - |d.proxies|;
            if x < |d.groups| then
              Tags(d)[j] == d.groups[x].tag && (if t.groups == [] then x == 0 && Tags(d)[j] == subName else Tags(d)[j] == t.groups[x].name && Tags(d)[j] in GroupNames(t.groups))
            else format == SingBox && x == |d.groups| && Tags(d)[j] == "direct"
  {
    TagAt(d.groups);
  }

  // ---- References are closed ----

  ghost predicate Known(format: Format, d: Document, tag: string) { tag in Tags(d) || BuiltIn(format, tag) }

  lemma GroupTagKnown(d: Document, i: nat)
    requires i < |d.groups|
    ensures d.groups[i].tag in Tags(d)
  {
    TagAt(d.groups);
    assert Tags(d)[|d.proxies| + i] == d.groups[i].tag;
  }

  lemma ProxyKnown(d: Document, i: nat)
    requires i < |d.proxies|
    ensures d.proxies[i] in Tags(d)
  {
    assert Tags(d)[i] == d.proxies[i];
  }

  lemma TemplateNameKnown(format: Format, t: Template, items: seq<Item>, subName: string, d: Document, id: string)
    requires GoodTemplate(t) && IsDocument(format, t, items, subName, d) && id in NamesOf(t.groups)
    ensures NamesOf(t.groups)[id] in Tags(d)
  {
    var i := GroupOfName(t.groups, id);
    assert IsSelector(format, t.groups[i], items, NamesOf(t.groups), d.groups[i]);
    GroupTagKnown(d, i);
  }

  lemma StandInKnown(format: Format, t: Template, items: seq<Item>, subName: string, d: Document, g: Group, entry: string, m: string)
    requires GoodTemplate(t) && IsDocument(format, t, items, subName, d)
    requires StandsFor(format, g, entry, items, NamesOf(t.groups), m)
    ensures Known(format, d, m)
  {
    if entry == AUTHORIZED {
      var i :| 0 <= i < |items| && MayUse(items[i], g) && items[i].name == m;
      ProxyKnown(d, i);
    } else if HasPrefix(entry, GROUP) {
      TemplateNameKnown(format, t, items, subName, d, TrimPrefix(entry, GROUP));
    }
  }

  lemma MembersKnown(format: Format, t: Template, items: seq<Item>, subName: string, d: Document, i: nat, m: string)
    requires GoodTemplate(t) && IsDocument(format, t, items, subName, d) && i < |d.groups| && m in d.groups[i].members
    ensures Known(format, d, m)
  {
    if t.groups == [] {
      if exists k :: 0 <= k < |items| && items[k].name == m {
        var k :| 0 <= k < |items| && items[k].name == m;
        ProxyKnown(d, k);
      }
    } else {
      var g := t.groups[i];
      assert IsSelector(format, g, items, NamesOf(t.groups), d.groups[i]);
      SelectorLists(format, t.groups, i, items, d.groups[i]);
      if MemberOf(format, g, items, NamesOf(t.groups), m) {
        var j :| 0 <= j < |g.members| && StandsFor(format, g, g.members[j], items, NamesOf(t.groups), m);
        StandInKnown(format, t, items, subName, d, g, g.members[j], m);
      }
    }
  }

  lemma RuleKnown(format: Format, t: Template, items: seq<Item>, subName: string, d: Document, i: nat)
    requires GoodTemplate(t) && IsDocument(format, t, items, subName, d) && i < |d.rules| && d.rules[i].target.Some?
    ensures Known(format, d, d.rules[i].target.value)
  {
    GroupTagKnown(d, 0);
    if i < |t.rules| {
      NamesAgree(t.groups);
      var target := t.rules[i].target;
      assert ValidRuleTarget(target, Ids(t.groups));
      if HasPrefix(target, GROUP) {
        NotDirect(target);
        TemplateNameKnown(format, t, items, subName, d, TrimPrefix(target, GROUP));
      }
    }
  }

  // Every member, every target and the final tag name an outbound of the document or one that the client provides.
  lemma ReferencesAreClosed(format: Format, t: Template, items: seq<Item>, subName: string, d: Document)
    requires GoodTemplate(t) && IsDocument(format, t, items, subName, d)
    ensures Closed(format, d)
  {
    forall i, m | 0 <= i < |d.groups| && m in d.groups[i].members ensures m in Tags(d) || BuiltIn(format, m) {
      MembersKnown(format, t, items, subName, d, i, m);
    }
    forall i | 0 <= i < |d.rules| && d.rules[i].target.Some?
      ensures d.rules[i].target.value in Tags(d) || BuiltIn(format, d.rules[i].target.value)
    {
      RuleKnown(format, t, items, subName, d, i);
    }
    GroupTagKnown(d, 0);
  }

  // ---- Groups never refer to one another in a cycle ----

  lemma {:induction false} GraphHas(groups: seq<Selector>, tag: string) returns (i: nat)
    requires tag in GroupGraph(groups)
    ensures i < |groups| && groups[i].tag == tag && GroupGraph(groups)[tag] == groups[i].members
  {
    var k := |groups| - 1;
    if tag == groups[k].tag {
      i := k;
    } else {
      i := GraphHas(groups[..k], tag);
    }
  }

  // The position of a group's identity for a tag of the document.
  lemma GroupAt(format: Format, t: Template, items: seq<Item>, subName: string, d: Document, tag: string) returns (i: nat)
    requires GoodTemplate(t) && IsDocument(format, t, items, subName, d) && t.groups != [] && tag in GroupGraph(d.groups)
    ensures i < |t.groups| && t.groups[i].name == tag && GroupGraph(d.groups)[tag] == d.groups[i].members
    ensures IsSelector(format, t.groups[i], items, NamesOf(t.groups), d.groups[i])
  {
    i := GraphHas(d.groups, tag);
    assert IsSelector(format, t.groups[i], items, NamesOf(t.groups), d.groups[i]);
  }

  lemma SameGroup(groups: seq<Group>, i: nat, j: nat)
    requires DistinctGroups(groups) && i < |groups| && j < |groups| && groups[i].name == groups[j].name
    ensures i == j
  {
  }

  lemma ListedMember(format: Format, t: Template, items: seq<Item>, subName: string, d: Document, i: nat, m: string)
    requires GoodTemplate(t) && IsDocument(format, t, items, subName, d) && i < |t.groups|
    requires m in d.groups[i].members && m != DirectTag(format)
    ensures MemberOf(format, t.groups[i], items, NamesOf(t.groups), m)
  {
    assert IsSelector(format, t.groups[i], items, NamesOf(t.groups), d.groups[i]);
    SelectorLists(format, t.groups, i, items, d.groups[i]);
  }

  // An entry that stands for a group is a reference to it.
  lemma EntryRefers(format: Format, groups: seq<Group>, items: seq<Item>, i: nat, j: nat, entry: string)
    requires DistinctGroups(groups) && i < |groups| && j < |groups| && entry in groups[i].members
    requires StandsFor(format, groups[i], entry, items, NamesOf(groups), groups[j].name) && entry != AUTHORIZED && groups[j].name != DirectTag(format)
    ensures DepthFirst.Edge(ReferenceGraph(groups), groups[i].id, groups[j].id)
  {
    var id := TrimPrefix(entry, GROUP);
    var x := GroupOfName(groups, id);
    SameGroup(groups, x, j);
    EntryEdge(groups, i, j, entry);
  }

  lemma EntryEdge(groups: seq<Group>, i: nat, j: nat, entry: string)
    requires DistinctGroups(groups) && i < |groups| && j < |groups| && entry in groups[i].members
    requires HasPrefix(entry, GROUP) && TrimPrefix(entry, GROUP) == groups[j].id
    ensures DepthFirst.Edge(ReferenceGraph(groups), groups[i].id, groups[j].id)
  {
    assert entry == GROUP + groups[j].id;
    ReferencedBy(groups[i].members, groups[j].id);
    GraphOf(groups, i);
    GraphOf(groups, j);
  }

  // When a group lists another group, the template says so.
  lemma ListedGroup(format: Format, t: Template, items: seq<Item>, subName: string, d: Document, i: nat, j: nat)
    requires GoodTemplate(t) && IsDocument(format, t, items, subName, d) && Separate(format, t, items, subName)
    requires i < |t.groups| && j < |t.groups| && t.groups[j].name in d.groups[i].members
    ensures DepthFirst.Edge(ReferenceGraph(t.groups), t.groups[i].id, t.groups[j].id)
  {
    var g, m := t.groups[i], t.groups[j].name;
    assert GoodIdentity(t.groups[j]) && m in GroupNames(t.groups);
    ListedMember(format, t, items, subName, d, i, m);
    var k :| 0 <= k < |g.members| && StandsFor(format, g, g.members[k], items, NamesOf(t.groups), m);
    EntryRefers(format, t.groups, items, i, j, g.members[k]);
  }

  // The identity of the group with this name.
  ghost function IdOf(groups: seq<Group>, name: string): string {
    if groups == [] then "" else if groups[|groups| - 1].name == name then groups[|groups| - 1].id else IdOf(groups[..|groups| - 1], name)
  }

  lemma {:induction false} IdOfGroup(groups: seq<Group>, i: nat)
    requires DistinctGroups(groups) && i < |groups|
    ensures IdOf(groups, groups[i].name) == groups[i].id
  {
    if i < |groups| - 1 {
      IdOfGroup(groups[..|groups| - 1], i);
    }
  }

  // A reference between tags is one between identities.
  lemma EdgeOfIds(format: Format, t: Template, items: seq<Item>, subName: string, d: Document, a: string, b: string)
    requires GoodTemplate(t) && IsDocument(format, t, items, subName, d) && Separate(format, t, items, subName) && t.groups != []
    requires DepthFirst.Edge(GroupGraph(d.groups), a, b)
    ensures DepthFirst.Edge(ReferenceGraph(t.groups), IdOf(t.groups, a), IdOf(t.groups, b))
  {
    var i := GroupAt(format, t, items, subName, d, a);
    var j := GroupAt(format, t, items, subName, d, b);
    ListedGroup(format, t, items, subName, d, i, j);
    IdOfGroup(t.groups, i);
    IdOfGroup(t.groups, j);
  }

  lemma CycleOfIds(format: Format, t: Template, items: seq<Item>, subName: string, d: Document, p: seq<string>)
    requires GoodTemplate(t) && IsDocument(format, t, items, subName, d) && Separate(format, t, items, subName) && t.groups != []
    requires DepthFirst.Cycle(GroupGraph(d.groups), p)
    ensures DepthFirst.Cyclic(ReferenceGraph(t.groups))
  {
    var q := seq(|p|, i requires 0 <= i < |p| => IdOf(t.groups, p[i]));
    forall i | 0 <= i < |q| - 1 ensures DepthFirst.Edge(ReferenceGraph(t.groups), q[i], q[i + 1]) {
      assert DepthFirst.Edge(GroupGraph(d.groups), p[i], p[i + 1]);
      EdgeOfIds(format, t, items, subName, d, p[i], p[i + 1]);
    }
    assert DepthFirst.Cycle(ReferenceGraph(t.groups), q);
  }

  // The groups of a document refer to one another in no cycle, because those of an accepted template do not. Without
  // groups there is the group of the subscription alone, which lists proxies or connects directly.
  lemma GroupsAreAcyclic(format: Format, t: Template, items: seq<Item>, subName: string, d: Document)
    requires GoodTemplate(t) && IsDocument(format, t, items, subName, d) && Separate(format, t, items, subName)
    requires t.groups != [] || subName != DirectTag(format)
    ensures !DepthFirst.Cyclic(GroupGraph(d.groups))
  {
    if DepthFirst.Cyclic(GroupGraph(d.groups)) {
      var p :| DepthFirst.Cycle(GroupGraph(d.groups), p);
      if t.groups == [] {
        LonelyGroup(format, t, items, subName, d, p);
      } else {
        CycleOfIds(format, t, items, subName, d, p);
      }
      assert false;
    }
  }

  lemma LonelyGroup(format: Format, t: Template, items: seq<Item>, subName: string, d: Document, p: seq<string>)
    requires IsDocument(format, t, items, subName, d) && Separate(format, t, items, subName) && t.groups == []
    requires DepthFirst.Cycle(GroupGraph(d.groups), p)
    ensures subName == DirectTag(format)
  {
    assert DepthFirst.Edge(GroupGraph(d.groups), p[0], p[1]);
    var i := GraphHas(d.groups, p[0]);
    var j := GraphHas(d.groups, p[1]);
    assert subName in d.groups[0].members;
  }

  // ---- What becomes of the template's rules and groups ----

  // The rule rejects in the client.
  predicate Rejects(format: Format, route: Route) {
    route.target == if format == SingBox then None else Some("REJECT")
  }

  // A rule matches what the template's rule matches; it rejects exactly what that rejects, connects directly exactly what
  // that does, and sends everything else to the group that the template names.
  ghost predicate Follows(format: Format, groups: seq<Group>, rule: Rule, route: Route) {
    && route.kind == rule.kind && (rule.kind != Match ==> route.value == rule.value)
    && (Rejects(format, route) <==> rule.target == "REJECT")
    && (route.target == Some(DirectTag(format)) <==> rule.target == "DIRECT")
    && (rule.target !in {"REJECT", "DIRECT"} ==>
          exists i :: 0 <= i < |groups| && rule.target == GROUP + groups[i].id && route.target == Some(groups[i].name))
  }

  // The client's rules are those of the template in order; an empty list becomes one rule for Mihomo, to the final tag. The
  // final tag is that of the first group, or of the subscription when there is none.
  ghost predicate Ruled(format: Format, t: Template, subName: string, d: Document) {
    && d.final == (if t.groups == [] then subName else t.groups[0].name)
    && if t.rules == [] && format == Mihomo then |d.rules| == 1 && d.rules[0].kind == Match && d.rules[0].target == Some(d.final)
       else |d.rules| == |t.rules| && forall i :: 0 <= i < |t.rules| ==> Follows(format, t.groups, t.rules[i], d.rules[i])
  }

  lemma RuleFollows(format: Format, groups: seq<Group>, rule: Rule)
    requires GoodGroups(groups) && ValidRuleTarget(rule.target, Ids(groups))
    ensures Follows(format, groups, rule, RouteOf(format, rule, NamesOf(groups)))
  {
    NamesAgree(groups);
    if HasPrefix(rule.target, GROUP) {
      NotDirect(rule.target);
      var id := TrimPrefix(rule.target, GROUP);
      var i := GroupOfName(groups, id);
      assert rule.target == GROUP + groups[i].id && GoodIdentity(groups[i]);
    }
  }

  lemma DocumentRuled(format: Format, t: Template, items: seq<Item>, subName: string, d: Document)
    requires GoodTemplate(t) && IsDocument(format, t, items, subName, d)
    ensures Ruled(format, t, subName, d)
  {
    assert t.groups != [] ==> IsSelector(format, t.groups[0], items, NamesOf(t.groups), d.groups[0]);
    forall i | 0 <= i < |t.rules| && |d.rules| == |t.rules| && d.rules[i] == RouteOf(format, t.rules[i], NamesOf(t.groups))
      ensures Follows(format, t.groups, t.rules[i], d.rules[i])
    {
      RuleFollows(format, t.groups, t.rules[i]);
    }
  }

  // The proxies of the document, with the groups that they were given.
  ghost function ItemsIn(d: Document, proxies: seq<Proxy>): seq<Item> {
    seq(|d.proxies|, i requires 0 <= i < |d.proxies| => Item(d.proxies[i], if i < |Rendered(proxies)| then Rendered(proxies)[i].group else ""))
  }

  // The client's proxies are the included ones in order, each under the first of its names that is free; its groups are
  // those of the template in order, each with what its entries stand for; without groups there is one with all proxies.
  ghost predicate Laid(format: Format, t: Template, proxies: seq<Proxy>, subName: string, d: Document) {
    var items := ItemsIn(d, proxies);
    && ItemsOf(items, proxies, Reserved(format, subName, t.groups))
    && (t.groups != [] ==> |d.groups| == |t.groups| && forall i :: 0 <= i < |t.groups| ==>
          && d.groups[i].tag == t.groups[i].name
          && d.groups[i].members == Filled(format, Listing(format, t.groups[i], t.groups[i].members, items, NamesOf(t.groups))))
    && (t.groups == [] ==> d.groups == [Selector(subName, Filled(format, d.proxies))])
  }

  lemma DocumentLaid(format: Format, t: Template, items: seq<Item>, proxies: seq<Proxy>, subName: string, d: Document)
    requires IsDocument(format, t, items, subName, d) && ItemsOf(items, proxies, Reserved(format, subName, t.groups))
    ensures Laid(format, t, proxies, subName, d)
  {
    var listed := ItemsIn(d, proxies);
    assert |listed| == |items|;
    forall i | 0 <= i < |items| ensures listed[i] == items[i] {
      assert ItemOf(items, i, Rendered(proxies)[i], Reserved(format, subName, t.groups));
    }
    assert listed == items;
    forall i | 0 <= i < |t.groups| ensures IsSelector(format, t.groups[i], items, NamesOf(t.groups), d.groups[i]) {}
    if t.groups == [] {
      assert ItemNames(items) == d.proxies;
      assert d.groups == [d.groups[0]];
    }
  }

  // ---- The two formats ----

  // The template is optional for sing-box.
  function Given(template: Option<Template>): Template {
    if template.Some? then template.value else Template([], [])
  }

  method GenerateSingBox(proxies: seq<Proxy>, subName: string, template: Option<Template>) returns (r: Option<Document>)
    ensures r.Some? <==>
      && (template.Some? ==> GoodTemplate(template.value))
      && forall i :: 0 <= i < |proxies| ==> proxies[i].rendering != Unsupported
    ensures r.Some? ==> Closed(SingBox, r.value) && |r.value.proxies| == |Rendered(proxies)|
    ensures r.Some? ==> Ruled(SingBox, Given(template), subName, r.value) && Laid(SingBox, Given(template), proxies, subName, r.value)
    ensures r.Some? ==> (Distinct(Tags(r.value)) <==> (template.Some? && template.value.groups != []) || subName != "direct")
    ensures r.Some? && ((template.Some? && template.value.groups != []) || subName != "direct") ==>
      !DepthFirst.Cyclic(GroupGraph(r.value.groups))
  {
    var t := Given(template);
    if template.Some? {
      var ok := ParseTemplate(t);
      if !ok { return None; }
    } else {
      NoTemplateIsGood();
    }
    ghost var items;
    r, items := Generate(SingBox, proxies, subName, t);
    if r.Some? {
      assert Separate(SingBox, t, items, subName);
      ReferencesAreClosed(SingBox, t, items, subName, r.value);
      DocumentRuled(SingBox, t, items, subName, r.value);
      DocumentLaid(SingBox, t, items, proxies, subName, r.value);
      TagsAreDistinct(SingBox, t, items, subName, r.value);
      if t.groups != [] || subName != "direct" {
        GroupsAreAcyclic(SingBox, t, items, subName, r.value);
      }
    }
  }

  lemma NoTemplateIsGood()
    ensures GoodTemplate(Template([], []))
  {
    forall p: seq<string> ensures !DepthFirst.Cycle(ReferenceGraph([]), p) {
      assert |p| >= 2 && DepthFirst.Path(ReferenceGraph([]), p) ==> DepthFirst.Edge(ReferenceGraph([]), p[0], p[1]);
    }
  }

  method GenerateMihomoWithTemplate(proxies: seq<Proxy>, subName: string, t: Template) returns (r: Option<Document>)
    ensures r.Some? <==> GoodTemplate(t) && forall i :: 0 <= i < |proxies| ==> proxies[i].rendering != Unsupported
    ensures r.Some? ==> Closed(Mihomo, r.value) && |r.value.proxies| == |Rendered(proxies)| && Distinct(Tags(r.value))
    ensures r.Some? ==> Ruled(Mihomo, t, subName, r.value) && Laid(Mihomo, t, proxies, subName, r.value)
    ensures r.Some? && (t.groups != [] || subName != "DIRECT") ==> !DepthFirst.Cyclic(GroupGraph(r.value.groups))
    ensures r.Some? && subName !in {"DIRECT", "REJECT"} ==> forall i :: 0 <= i < |Tags(r.value)| ==> !BuiltIn(Mihomo, Tags(r.value)[i])
  {
    var ok := ParseTemplate(t);
    if !ok { return None; }
    ghost var items;
    r, items := Generate(Mihomo, proxies, subName, t);
    if r.Some? {
      assert Separate(Mihomo, t, items, subName);
      ReferencesAreClosed(Mihomo, t, items, subName, r.value);
      DocumentRuled(Mihomo, t, items, subName, r.value);
      DocumentLaid(Mihomo, t, items, proxies, subName, r.value);
      TagsAreDistinct(Mihomo, t, items, subName, r.value);
      if t.groups != [] || subName != "DIRECT" {
        GroupsAreAcyclic(Mihomo, t, items, subName, r.value);
      }
      if subName !in {"DIRECT", "REJECT"} {
        NoBuiltIn(t, items, subName, r.value);
      }
    }
  }

  // No tag of a Mihomo document hides one that the client provides.
  lemma NoBuiltIn(t: Template, items: seq<Item>, subName: string, d: Document)
    requires GoodTemplate(t) && IsDocument(Mihomo, t, items, subName, d) && Separate(Mihomo, t, items, subName)
    requires subName !in {"DIRECT", "REJECT"}
    ensures forall i :: 0 <= i < |Tags(d)| ==> !BuiltIn(Mihomo, Tags(d)[i])
  {
    forall i | 0 <= i < |Tags(d)| ensures !BuiltIn(Mihomo, Tags(d)[i]) {
      if i < |d.proxies| {
        assert Tags(d)[i] == items[i].name;
      } else {
        DocumentTagged(Mihomo, t, items, subName, d);
        TagAfter(Mihomo, t, subName, d, i);
        assert t.groups != [] ==> GoodIdentity(t.groups[i - |d.proxies|]);
      }
    }
  }
}
