/** What every action of the workspace does: to the chain that it edits, to the inbounds, and to everything else. */
module WorkspaceActions {
  import opened Common
  import opened Workspace
  import opened WorkspaceRuns

  // ---- Positions ----

  // A hop knows its place in the chain.
  ghost predicate InPlace(chain: seq<Hop>) {
    forall k :: 0 <= k < |chain| ==> chain[k].position == k
  }

  ghost predicate Placed(p: Proxy) {
    InPlace(p.chain) && (p.published.Some? ==> InPlace(p.published.value.chain))
  }

  ghost predicate AllPlaced(s: State) {
    forall k :: 0 <= k < |s.proxies| ==> Placed(s.proxies[k])
  }

  // ---- What an edit does to its chain ----

  ghost predicate SameText(p: Proxy, q: Proxy) { q.name == p.name && q.egress == p.egress }

  // The hop at the position is replaced, and the others stay.
  ghost predicate HopReplaced(p: Proxy, q: Proxy, position: int, hop: Hop) {
    && SameText(p, q) && |q.chain| == |p.chain|
    && forall k :: 0 <= k < |p.chain| ==> q.chain[k] == if k == position then hop else p.chain[k]
  }

  ghost predicate Renamed(p: Proxy, q: Proxy, name: string) {
    && q.chain == p.chain && q.egress == p.egress
    && q.name <= name && (|name| <= 80 ==> q.name == name) && (|name| > 80 ==> |q.name| == 80)
  }

  ghost predicate HopAppended(p: Proxy, q: Proxy) {
    SameText(p, q) && q.chain == p.chain + [Hop(|p.chain|, "", None, false)]
  }

  // The hop at the position is gone, and those after it move up; the only hop of a chain stays.
  ghost predicate HopRemoved(p: Proxy, q: Proxy, position: int) {
    && SameText(p, q)
    && if |p.chain| < 2 || !(0 <= position < |p.chain|) then q.chain == p.chain else ClosedUp(p.chain, q.chain, position)
  }

  ghost predicate ClosedUp(before: seq<Hop>, after: seq<Hop>, position: int) {
    && |after| == |before| - 1
    && (forall k :: 0 <= k < |after| && k < position ==> after[k] == before[k])
    && (forall k :: 0 <= k < |after| && k >= position ==> after[k] == before[k + 1].(position := k))
  }

  // The two hops are exchanged, and the others stay.
  ghost predicate HopsExchanged(p: Proxy, q: Proxy, i: int, j: int) {
    && SameText(p, q) && |q.chain| == |p.chain|
    && if !(0 <= i < |p.chain|) || !(0 <= j < |p.chain|) then q.chain == p.chain
       else
         && q.chain[i] == p.chain[j].(position := i) && q.chain[j] == p.chain[i].(position := j)
         && forall k :: 0 <= k < |p.chain| && k != i && k != j ==> q.chain[k] == p.chain[k]
  }

  // A hop that moves to another server loses its inbound.
  ghost predicate ServerChosen(p: Proxy, q: Proxy, position: int, server: string) {
    if 0 <= position < |p.chain| && p.chain[position].server != server then HopReplaced(p, q, position, Hop(position, server, None, false))
    else SameText(p, q) && q.chain == p.chain
  }

  // What the action is for; positions mean something in a chain whose hops are in place.
  ghost predicate EditDone(action: Action, p: Proxy, q: Proxy) {
    match action
    case Rename(_, name) => Renamed(p, q, name)
    case AppendHop(_) => HopAppended(p, q)
    case RemoveHop(_, position) => InPlace(p.chain) ==> HopRemoved(p, q, position)
    case MoveHop(_, position, direction) => InPlace(p.chain) ==> HopsExchanged(p, q, position, position + direction)
    case SelectServer(_, position, server) => InPlace(p.chain) ==> ServerChosen(p, q, position, server)
    case SetEgress(_, name, egress) => q.chain == p.chain && q.name == name && q.egress == egress
    case _ => true
  }

  // A chain that was edited is a draft; what is published of it stays.
  ghost predicate Redrafted(p: Proxy, q: Proxy) {
    q.id == p.id && q.published == p.published && q.status == Draft && q.dirty && !q.failure
  }

  ghost predicate Undisturbed(p: Proxy, q: Proxy) {
    q == p.(status := Draft, dirty := true, failure := false)
  }

  // ---- What a state says, in its own terms ----

  // The chain has a hop of the inbound, in its draft or in its snapshot.
  ghost predicate Mentions(p: Proxy, inbound: string) {
    || (exists h :: h in p.chain && h.inbound == Some(inbound))
    || (p.published.Some? && exists h :: h in p.published.value.chain && h.inbound == Some(inbound))
  }

  // The inbound listens on the port, as drafted or as published.
  ghost predicate Occupies(i: Inbound, port: int) {
    port == i.config.port || (i.published.Some? && port == i.published.value.port)
  }

  // Every hop has its inbound on its server, and what is drafted is what is published.
  ghost predicate AsPublished(chain: seq<Hop>, inbounds: seq<Inbound>) {
    forall k :: 0 <= k < |chain| ==> HopAsPublished(chain[k], inbounds)
  }

  ghost predicate HopAsPublished(hop: Hop, inbounds: seq<Inbound>) {
    exists i :: i in inbounds && hop.inbound == Some(i.id) && i.server == hop.server && i.published == Some(i.config)
  }

  lemma HopAsPublishedExactly(hop: Hop, inbounds: seq<Inbound>)
    requires UniqueInbounds(inbounds)
    ensures HopPublished(hop, inbounds) <==> HopAsPublished(hop, inbounds)
  {
    if HopAsPublished(hop, inbounds) {
      var i :| i in inbounds && hop.inbound == Some(i.id) && i.server == hop.server && i.published == Some(i.config);
      SameInbound(inbounds, i, GetInbound(inbounds, hop).value);
    }
  }

  lemma {:induction false} UsesExactly(chain: seq<Hop>, inbound: string)
    ensures Uses(chain, inbound) <==> exists h :: h in chain && h.inbound == Some(inbound)
  {
    if h :| h in chain && h.inbound == Some(inbound) {
      var k :| 0 <= k < |chain| && chain[k] == h;
    }
  }

  lemma MentionsExactly(p: Proxy, inbound: string)
    ensures Refers(p, inbound) <==> Mentions(p, inbound)
  {
    UsesExactly(p.chain, inbound);
    if p.published.Some? { UsesExactly(p.published.value.chain, inbound); }
  }

  lemma AsPublishedExactly(chain: seq<Hop>, inbounds: seq<Inbound>)
    requires UniqueInbounds(inbounds)
    ensures InboundsPublished(chain, inbounds) <==> AsPublished(chain, inbounds)
  {
    forall k | 0 <= k < |chain| ensures HopPublished(chain[k], inbounds) <==> HopAsPublished(chain[k], inbounds) {
      HopAsPublishedExactly(chain[k], inbounds);
    }
  }

  // ---- What an edit needs ----

  ghost predicate Reusable(s: State, p: Proxy, position: int, inbound: Inbound) {
    && 0 <= position < |p.chain| && inbound.server == p.chain[position].server
    && (position == 0 ==> inbound.config.exposure == Subscription)
    && forall k :: 0 <= k < |p.chain| && p.chain[k].position != position ==> p.chain[k].inbound != Some(inbound.id)
  }

  ghost predicate Choosable(s: State, position: int, server: string) {
    var found := FindServer(s.servers, server);
    found.Some? && found.value.status == Online && found.value.known && (position > 0 ==> found.value.chainTarget)
  }

  // Whether an inbound may be saved: the hop has a usable server; an inbound that exists is the hop's own and keeps its
  // protocol once published; a new one has room on the server; and no other inbound of the server holds the port.
  ghost predicate Savable(s: State, hop: Hop, config: Config, resource: string) {
    var server, existing := FindServer(s.servers, hop.server), FindInbound(s.inbounds, resource);
    && server.Some? && server.value.status == Online && server.value.known
    && (existing.Some? ==>
          && hop.inbound == Some(resource) && existing.value.server == hop.server
          && (existing.value.published.Some? ==> existing.value.config.protocol == config.protocol))
    && (existing.None? && server.value.maxProxies > 0 ==> |set i | i in s.inbounds && i.server == hop.server| < server.value.maxProxies)
    && forall i :: i in s.inbounds && i.server == hop.server && i.id != resource ==> !Occupies(i, config.port)
  }

  // ---- What an apply needs ----

  // A server in use runs the inbound's protocol, its fields are filled in, and no other inbound there holds its port.
  ghost predicate InboundServable(s: State, i: Inbound) {
    var server := FindServer(s.servers, i.server);
    && server.Some? && server.value.status == Online && server.value.known && i.config.protocol in server.value.protocols
    && i.config.protocol in {"vless-reality", "shadowsocks", "hysteria2"} && 1 <= i.config.port <= 65535 && i.config.complete
    && forall j :: j in s.inbounds && j.id != i.id && j.server == i.server ==> !Occupies(j, i.config.port)
  }

  // The hop is saved and in place. Its inbound is on its server and can be served; the first one is for subscriptions, and
  // the servers of the others can be targets of a chain.
  ghost predicate HopServable(s: State, hop: Hop, k: nat) {
    && hop.position == k && !hop.unsaved
    && (exists i :: i in s.inbounds && hop.inbound == Some(i.id) && hop.server == i.server && InboundServable(s, i)
                    && (k == 0 ==> i.config.exposure == Subscription))
    && (k > 0 ==> FindServer(s.servers, hop.server).value.chainTarget)
  }

  ghost predicate ChainServable(s: State, p: Proxy) {
    && (exists k :: 0 <= k < |p.name| && p.name[k] !in {' ', '\t', '\n', '\r'}) && |p.chain| > 0 && p.egress.Direct?
    && (forall k :: 0 <= k < |p.chain| ==> HopServable(s, p.chain[k], k))
    && forall i, j :: 0 <= i < j < |p.chain| ==> p.chain[i].inbound != p.chain[j].inbound
  }

  // A changed inbound of the chain is used by chains of the apply only.
  ghost predicate SharedWithin(s: State, ids: seq<string>, p: Proxy) {
    forall i, h, q :: i in s.inbounds && i.published != Some(i.config) && h in p.chain && h.inbound == Some(i.id) && q in s.proxies && Mentions(q, i.id) ==>
      q.id in ids
  }

  ghost predicate CanApply(s: State, ids: seq<string>, id: string) {
    exists p :: p in s.proxies && p.id == id && ChainServable(s, p) && SharedWithin(s, ids, p)
  }

  ghost predicate Applicable(s: State, ids: seq<string>) {
    && |ids| > 0
    && forall k :: 0 <= k < |ids| ==> CanApply(s, ids, ids[k])
  }

  // ---- What an action does to the state ----

  // Only this chain is edited, and an operation that had ended is forgotten.
  ghost predicate OnlyEdits(s: State, t: State, id: string, action: Action) {
    && t.inbounds == s.inbounds && t.servers == s.servers && t.operation == None && |t.proxies| == |s.proxies|
    && forall k :: 0 <= k < |s.proxies| ==>
         if s.proxies[k].id == id then Redrafted(s.proxies[k], t.proxies[k]) && EditDone(action, s.proxies[k], t.proxies[k])
         else t.proxies[k] == s.proxies[k]
  }

  // The inbound is saved with what was published of it; the hop points to it; and every chain that refers to it is a draft.
  ghost predicate InboundSaved(s: State, t: State, id: string, position: int, hop: Hop, config: Config, resource: string) {
    var existing := FindInbound(s.inbounds, resource);
    var saved := Inbound(resource, hop.server, config, if existing.Some? then existing.value.published else None);
    && t.servers == s.servers && t.operation == None && |t.proxies| == |s.proxies|
    && (forall i :: i in t.inbounds <==> i == saved || (i in s.inbounds && i.id != resource))
    && forall k :: 0 <= k < |s.proxies| ==> ChainOfSaved(s.proxies[k], t.proxies[k], id, position, hop.server, resource)
  }

  ghost predicate ChainOfSaved(p: Proxy, q: Proxy, id: string, position: int, server: string, resource: string) {
    if p.id == id then Redrafted(p, q) && (InPlace(p.chain) ==> HopReplaced(p, q, position, Hop(position, server, Some(resource), false)))
    else if Mentions(p, resource) then Undisturbed(p, q)
    else q == p
  }

  // The draft is the snapshot again. It is clean exactly if every hop has its inbound and that is published as drafted.
  ghost predicate RevertedTo(s: State, p: Proxy, q: Proxy) {
    && q.id == p.id && q.published == p.published && !q.failure
    && (p.published.Some? ==>
          && Snapshot(q.name, q.chain, q.egress) == p.published.value
          && (!q.dirty <==> AsPublished(q.chain, s.inbounds)) && q.status == if q.dirty then Draft else Active)
  }

  ghost predicate Reverts(s: State, t: State, id: string) {
    && t.inbounds == s.inbounds && t.servers == s.servers && t.operation == None && |t.proxies| == |s.proxies|
    && forall k :: 0 <= k < |s.proxies| ==>
         if s.proxies[k].id == id && s.proxies[k].published.Some? then RevertedTo(s, s.proxies[k], t.proxies[k])
         else t.proxies[k] == s.proxies[k]
  }

  // A server goes into maintenance and remembers what it was, or comes back to it.
  ghost predicate Switched(x: Server, y: Server) {
    && y == x.(status := y.status, resume := y.resume)
    && if x.status == Maintenance then y.resume == None && (if x.resume.Some? then x.resume == Some(y.status) else y.status == Offline)
       else y.status == Maintenance && y.resume == Some(x.status)
  }

  ghost predicate Switches(s: State, t: State, id: string) {
    && t == s.(servers := t.servers) && |t.servers| == |s.servers|
    && forall k :: 0 <= k < |s.servers| ==>
         if s.servers[k].id == id then Switched(s.servers[k], t.servers[k]) else t.servers[k] == s.servers[k]
  }

  // A new chain is added as a draft, if it has hops, a new identity, and servers that can be used.
  ghost predicate Addable(s: State, proxy: Proxy) {
    && |proxy.chain| > 0 && (forall p :: p in s.proxies ==> p.id != proxy.id)
    && forall h :: h in proxy.chain && h.server != "" ==> exists x :: x in s.servers && x.id == h.server && x.status == Online && x.known
  }

  ghost predicate Adds(s: State, t: State, proxy: Proxy) {
    && t.inbounds == s.inbounds && t.servers == s.servers && t.operation == None
    && |t.proxies| == |s.proxies| + 1 && t.proxies[..|s.proxies|] == s.proxies
    && var q := t.proxies[|s.proxies|];
       && Redrafted(proxy, q) && SameText(proxy, q) && |q.chain| == |proxy.chain|
       && forall k :: 0 <= k < |q.chain| ==> q.chain[k] == proxy.chain[k].(position := k)
  }

  // An unpublished chain goes; all others stay, in order.
  ghost predicate Removes(s: State, t: State, id: string) {
    && t.inbounds == s.inbounds && t.servers == s.servers && t.operation == None
    && if exists k :: IsDraftOf(s.proxies, id, k) then exists k :: IsDraftOf(s.proxies, id, k) && t.proxies == s.proxies[..k] + s.proxies[k + 1..]
       else t.proxies == s.proxies
  }

  ghost predicate IsDraftOf(proxies: seq<Proxy>, id: string, k: int) {
    0 <= k < |proxies| && proxies[k].id == id && proxies[k].published.None?
  }

  // ---- Operations ----

  // The operation and its chains have got to a phase; nothing else has changed.
  ghost predicate Progressed(s: State, t: State, ids: seq<string>, phase: Status, fail: bool, dirty: bool) {
    && t.operation == Some(Operation(ids, phase, fail)) && t.inbounds == s.inbounds && t.servers == s.servers && |t.proxies| == |s.proxies|
    && forall k :: 0 <= k < |s.proxies| ==>
         var p, q := s.proxies[k], t.proxies[k];
         if p.id in ids then q == p.(status := phase, dirty := dirty || p.dirty, failure := phase == Failed) else q == p
  }

  // An applied chain is active, clean, and published as it is drafted.
  ghost predicate ChainPublished(p: Proxy, q: Proxy) {
    q == p.(status := Active, dirty := false, failure := false, published := Some(Snapshot(p.name, p.chain, p.egress)))
  }

  ghost predicate UsedByApplied(s: State, ids: seq<string>, inbound: string) {
    exists p, h :: p in s.proxies && p.id in ids && 0 <= h < |p.chain| && p.chain[h].inbound == Some(inbound)
  }

  // The apply has published its chains, with every inbound that they use, and nothing else.
  ghost predicate AllPublished(s: State, t: State, ids: seq<string>) {
    && t.operation == Some(Operation(ids, Active, false)) && t.servers == s.servers
    && |t.inbounds| == |s.inbounds| && |t.proxies| == |s.proxies|
    && (forall k :: 0 <= k < |s.inbounds| ==>
          var i := s.inbounds[k];
          t.inbounds[k] == if UsedByApplied(s, ids, i.id) then i.(published := Some(i.config)) else i)
    && (forall k :: 0 <= k < |s.proxies| ==>
          if s.proxies[k].id in ids then ChainPublished(s.proxies[k], t.proxies[k]) else t.proxies[k] == s.proxies[k])
    && forall p :: p in t.proxies && p.id in ids ==> AsPublished(p.chain, t.inbounds)
  }

  ghost predicate AdvanceDone(s: State, t: State) {
    if !Busy(s) then t == s
    else
      var operation := s.operation.value;
      if operation.phase == Preparing then Progressed(s, t, operation.ids, Applying, operation.fail, true)
      else if operation.fail then Progressed(s, t, operation.ids, Failed, true, true)
      else AllPublished(s, t, operation.ids)
  }

  // ---- Every action ----

  ghost predicate Done(s: State, action: Action, t: State, servers: seq<Server>) {
    if Busy(s) && action != Advance then t == s
    else
      match action
      case ServerToggle(id) => Switches(s, t, id)
      case Add(proxy) => if Addable(s, proxy) then Adds(s, t, proxy) else t == s
      case Remove(id) => Removes(s, t, id)
      case Rename(id, _) => OnlyEdits(s, t, id, action)
      case AppendHop(id) => OnlyEdits(s, t, id, action)
      case RemoveHop(id, _) => OnlyEdits(s, t, id, action)
      case MoveHop(id, _, _) => OnlyEdits(s, t, id, action)
      case SelectServer(id, position, server) => if Choosable(s, position, server) then OnlyEdits(s, t, id, action) else t == s
      case SetEgress(id, _, egress) => if egress.Direct? then OnlyEdits(s, t, id, action) else t == s
      case SaveHop(id, position, config, resource) => SaveDone(s, t, id, position, config, resource)
      case ReuseHop(id, position, inbound) => ReuseDone(s, t, id, position, inbound)
      case RevertChain(id) => Reverts(s, t, id)
      case Start(ids, fail) => if Applicable(s, ids) then Progressed(s, t, ids, Preparing, fail, false) else t == s
      case Advance => AdvanceDone(s, t)
      case Reset => t == State(servers, [], [], None)
  }

  ghost predicate SaveDone(s: State, t: State, id: string, position: int, config: Config, resource: string) {
    var p := FindProxy(s.proxies, id);
    if p.Some? && 0 <= position < |p.value.chain| && Savable(s, p.value.chain[position], config, resource)
    then InboundSaved(s, t, id, position, p.value.chain[position], config, resource)
    else t == s
  }

  ghost predicate ReuseDone(s: State, t: State, id: string, position: int, inbound: string) {
    var p, i := FindProxy(s.proxies, id), FindInbound(s.inbounds, inbound);
    if p.Some? && i.Some? && Reusable(s, p.value, position, i.value) then
      && t.inbounds == s.inbounds && t.servers == s.servers && t.operation == None && |t.proxies| == |s.proxies|
      && forall k :: 0 <= k < |s.proxies| ==>
           if s.proxies[k].id == id
           then
             && Redrafted(s.proxies[k], t.proxies[k])
             && (InPlace(s.proxies[k].chain) ==> HopReplaced(s.proxies[k], t.proxies[k], position, Hop(position, i.value.server, Some(inbound), false)))
           else t.proxies[k] == s.proxies[k]
    else t == s
  }

  // ---- Proofs ----

  lemma {:induction false} WithoutPositionIs(chain: seq<Hop>, position: int, first: int)
    requires forall k :: 0 <= k < |chain| ==> chain[k].position == first + k
    ensures WithoutPosition(chain, position)
         == if first <= position < first + |chain| then chain[..position - first] + chain[position - first + 1..] else chain
  {
    if chain != [] {
      var rest := chain[1..];
      WithoutPositionIs(rest, position, first + 1);
      assert chain == [chain[0]] + rest;
      if first < position < first + |chain| {
        var k := position - first;
        assert chain[..k] == [chain[0]] + rest[..k - 1] && chain[k + 1..] == rest[k..];
      }
    }
  }

  lemma OrderedWithout(chain: seq<Hop>, position: int)
    requires InPlace(chain)
    ensures var rest := Ordered(WithoutPosition(chain, position));
            if 0 <= position < |chain| then ClosedUp(chain, rest, position) else rest == chain
  {
    WithoutPositionIs(chain, position, 0);
    if !(0 <= position < |chain|) {
      assert Ordered(chain) == chain;
    }
  }

  lemma RemoveEdits(p: Proxy, position: int)
    requires InPlace(p.chain)
    ensures var q := AsDraft(if |p.chain| <= 1 then p else p.(chain := Ordered(WithoutPosition(p.chain, position))));
            HopRemoved(p, q, position)
  {
    OrderedWithout(p.chain, position);
  }

  lemma MoveEdits(p: Proxy, i: int, j: int)
    requires InPlace(p.chain)
    ensures var q := AsDraft(Swapped(p, i, j)); HopsExchanged(p, q, i, j)
  {
  }

  lemma SelectEdits(p: Proxy, position: int, server: string)
    requires InPlace(p.chain)
    ensures var q := AsDraft(OnServerFrom(p, position, server)); ServerChosen(p, q, position, server)
  {
    var q := OnServerFrom(p, position, server);
    if !(0 <= position < |p.chain| && p.chain[position].server != server) {
      assert q.chain == p.chain;
    }
  }

  lemma PointEdits(p: Proxy, position: int, hop: Hop)
    requires InPlace(p.chain) && 0 <= position < |p.chain| && hop.position == position
    ensures var q := AsDraft(Pointed(p, position, hop)); HopReplaced(p, q, position, hop)
  {
  }

  predicate IsEdit(action: Action) {
    action.Rename? || action.AppendHop? || action.RemoveHop? || action.MoveHop? || action.SetEgress? || action.SelectServer?
  }

  // The chain that an edit makes of a chain.
  function EditOf(action: Action, p: Proxy): Proxy
    requires IsEdit(action)
  {
    match action
    case Rename(_, name) => p.(name := if |name| > 80 then name[..80] else name)
    case AppendHop(_) => p.(chain := p.chain + [Hop(|p.chain|, "", None, false)])
    case RemoveHop(_, position) => if |p.chain| <= 1 then p else p.(chain := Ordered(WithoutPosition(p.chain, position)))
    case MoveHop(_, position, direction) => Swapped(p, position, position + direction)
    case SelectServer(_, position, server) => OnServerFrom(p, position, server)
    case SetEgress(_, name, egress) => p.(name := name, egress := egress)
  }

  lemma EditOfDone(action: Action, p: Proxy)
    requires IsEdit(action)
    ensures Redrafted(p, AsDraft(EditOf(action, p))) && EditDone(action, p, AsDraft(EditOf(action, p)))
  {
    if InPlace(p.chain) {
      match action
      case RemoveHop(id, position) => RemoveEdits(p, position);
      case MoveHop(id, position, direction) => MoveEdits(p, position, position + direction);
      case SelectServer(id, position, server) => SelectEdits(p, position, server);
      case _ =>
    }
  }

  predicate Accepted(s: State, action: Action)
    requires IsEdit(action)
  {
    match action
    case SetEgress(_, _, egress) => egress.Direct?
    case SelectServer(_, position, server) =>
      var found := FindServer(s.servers, server);
      found.Some? && found.value.status == Online && found.value.known && (position > 0 ==> found.value.chainTarget)
    case _ => true
  }

  lemma ReduceEdits(s: State, action: Action, servers: seq<Server>)
    requires !Busy(s) && IsEdit(action)
    ensures var t := Reduce(s, action, servers);
            if Accepted(s, action) then
              && t.inbounds == s.inbounds && t.servers == s.servers && t.operation == None && |t.proxies| == |s.proxies|
              && forall k :: 0 <= k < |s.proxies| ==>
                   t.proxies[k] == if s.proxies[k].id == action.id then AsDraft(EditOf(action, s.proxies[k])) else s.proxies[k]
            else t == s
  {
  }

  lemma EditingDone(s: State, action: Action, servers: seq<Server>)
    requires !Busy(s) && IsEdit(action)
    ensures Done(s, action, Reduce(s, action, servers), servers)
  {
    var t := Reduce(s, action, servers);
    ReduceEdits(s, action, servers);
    if Accepted(s, action) {
      forall k | 0 <= k < |s.proxies| && s.proxies[k].id == action.id
        ensures Redrafted(s.proxies[k], t.proxies[k]) && EditDone(action, s.proxies[k], t.proxies[k])
      {
        EditOfDone(action, s.proxies[k]);
      }
      assert OnlyEdits(s, t, action.id, action);
    }
  }

  lemma PointingDone(s: State, id: string, position: int, p: Proxy, hop: Hop, k: nat)
    requires UniqueProxies(s.proxies) && p in s.proxies && p.id == id && 0 <= position < |p.chain| && hop.position == position
    requires k < |s.proxies| && s.proxies[k].id == id
    ensures s.proxies[k] == p
    ensures InPlace(p.chain) ==> HopReplaced(p, AsDraft(Pointed(p, position, hop)), position, hop)
  {
    var n :| 0 <= n < |s.proxies| && s.proxies[n] == p;
    SameProxyIndex(s.proxies, n, k);
    if InPlace(p.chain) {
      PointEdits(p, position, hop);
    }
  }

  lemma ReusingDone(s: State, id: string, position: int, inbound: string)
    requires Coherent(s)
    ensures ReuseDone(s, HopReused(s, id, position, inbound), id, position, inbound)
  {
    var t := HopReused(s, id, position, inbound);
    var p, i := FindProxy(s.proxies, id), FindInbound(s.inbounds, inbound);
    if p.Some? && i.Some? && Reusable(s, p.value, position, i.value) {
      var hop := Hop(position, i.value.server, Some(inbound), false);
      forall k | 0 <= k < |s.proxies| && s.proxies[k].id == id
        ensures Redrafted(s.proxies[k], t.proxies[k])
        ensures InPlace(s.proxies[k].chain) ==> HopReplaced(s.proxies[k], t.proxies[k], position, hop)
      {
        PointingDone(s, id, position, p.value, hop, k);
      }
    }
  }

  lemma {:induction false} OnServerCounts(inbounds: seq<Inbound>, server: string)
    requires UniqueInbounds(inbounds)
    ensures OnServer(inbounds, server) == |set i | i in inbounds && i.server == server|
  {
    if inbounds != [] {
      var first, rest := inbounds[0], inbounds[1..];
      assert forall k :: 0 <= k < |rest| ==> rest[k] == inbounds[k + 1];
      OnServerCounts(rest, server);
      assert first !in rest;
      var here, there := set i | i in inbounds && i.server == server, set i | i in rest && i.server == server;
      assert here == if first.server == server then there + {first} else there;
    }
  }

  lemma SavableIs(s: State, hop: Hop, config: Config, resource: string)
    requires UniqueInbounds(s.inbounds)
    ensures var server, existing := FindServer(s.servers, hop.server), FindInbound(s.inbounds, resource);
            Savable(s, hop, config, resource) <==>
              && server.Some? && server.value.status == Online && server.value.known
              && !(existing.Some? && (hop.inbound != Some(existing.value.id) || existing.value.server != hop.server))
              && !(existing.Some? && existing.value.published.Some? && existing.value.config.protocol != config.protocol)
              && !(existing.None? && server.value.maxProxies > 0 && OnServer(s.inbounds, server.value.id) >= server.value.maxProxies)
              && !PortConflict(s.inbounds, hop.server, config.port, if existing.Some? then Some(resource) else None)
  {
    var existing := FindInbound(s.inbounds, resource);
    OnServerCounts(s.inbounds, hop.server);
    var except := if existing.Some? then Some(resource) else None;
    if PortConflict(s.inbounds, hop.server, config.port, except) {
      var k :| 0 <= k < |s.inbounds| && Some(s.inbounds[k].id) != except && s.inbounds[k].server == hop.server && HoldsPort(s.inbounds[k], config.port);
      assert s.inbounds[k] in s.inbounds;
    } else {
      forall i | i in s.inbounds && i.server == hop.server && i.id != resource ensures !Occupies(i, config.port) {
        var k :| 0 <= k < |s.inbounds| && s.inbounds[k] == i;
      }
    }
  }

  lemma SavingDone(s: State, id: string, position: int, config: Config, resource: string)
    requires Coherent(s)
    ensures SaveDone(s, HopSaved(s, id, position, config, resource), id, position, config, resource)
  {
    var t := HopSaved(s, id, position, config, resource);
    var p := FindProxy(s.proxies, id);
    if p.Some? && 0 <= position < |p.value.chain| {
      var hop := p.value.chain[position];
      SavableIs(s, hop, config, resource);
      if Savable(s, hop, config, resource) {
        WithoutInboundIs(s.inbounds, resource);
        forall k | 0 <= k < |s.proxies| ensures ChainOfSaved(s.proxies[k], t.proxies[k], id, position, hop.server, resource) {
          MentionsExactly(s.proxies[k], resource);
          if s.proxies[k].id == id {
            PointingDone(s, id, position, p.value, Hop(position, hop.server, Some(resource), false), k);
          }
        }
      }
    }
  }

  lemma DirtyIs(chain: seq<Hop>, inbounds: seq<Inbound>)
    ensures ChainDirty(chain, inbounds) <==> !InboundsPublished(chain, inbounds)
  {
    if !InboundsPublished(chain, inbounds) {
      var k :| 0 <= k < |chain| && !HopPublished(chain[k], inbounds);
      assert GetInbound(inbounds, chain[k]).None? || Dirty(GetInbound(inbounds, chain[k]).value);
    }
    if ChainDirty(chain, inbounds) {
      var k :| 0 <= k < |chain| && (GetInbound(inbounds, chain[k]).None? || Dirty(GetInbound(inbounds, chain[k]).value));
      assert !HopPublished(chain[k], inbounds);
    }
  }

  lemma RevertingDone(s: State, id: string)
    requires !Busy(s) && UniqueInbounds(s.inbounds)
    ensures Reverts(s, Reduce(s, RevertChain(id), []), id)
  {
    forall k | 0 <= k < |s.proxies| && s.proxies[k].id == id && s.proxies[k].published.Some?
      ensures RevertedTo(s, s.proxies[k], Reverted(s.proxies[k], id, s.inbounds))
    {
      DirtyIs(s.proxies[k].published.value.chain, s.inbounds);
      AsPublishedExactly(s.proxies[k].published.value.chain, s.inbounds);
    }
  }

  lemma {:induction false} NothingRemoved(proxies: seq<Proxy>, id: string)
    requires forall k :: !IsDraftOf(proxies, id, k)
    ensures WithoutProxy(proxies, id) == proxies
  {
    if proxies != [] {
      assert !IsDraftOf(proxies, id, 0);
      forall k ensures !IsDraftOf(proxies[1..], id, k) {
        assert !IsDraftOf(proxies, id, k + 1);
      }
      NothingRemoved(proxies[1..], id);
      assert proxies == [proxies[0]] + proxies[1..];
    }
  }

  lemma Splice<T>(s: seq<T>, k: nat)
    requires 0 < k < |s|
    ensures s[..k] + s[k + 1..] == [s[0]] + (s[1..][..k - 1] + s[1..][k..])
  {
  }

  lemma {:induction false} OneRemoved(proxies: seq<Proxy>, id: string, k: nat)
    requires UniqueProxies(proxies) && IsDraftOf(proxies, id, k)
    ensures WithoutProxy(proxies, id) == proxies[..k] + proxies[k + 1..]
  {
    var rest := proxies[1..];
    if k == 0 {
      forall j ensures !IsDraftOf(rest, id, j) {
        assert 0 <= j < |rest| ==> rest[j] == proxies[j + 1];
      }
      NothingRemoved(rest, id);
      assert [] + rest == rest && proxies[..0] + rest == rest;
    } else {
      assert rest[k - 1] == proxies[k];
      OneRemoved(rest, id, k - 1);
      assert WithoutProxy(proxies, id) == [proxies[0]] + WithoutProxy(rest, id);
      Splice(proxies, k);
    }
  }

  lemma RemovingDone(s: State, id: string)
    requires UniqueProxies(s.proxies)
    ensures Removes(s, s.(operation := None, proxies := WithoutProxy(s.proxies, id)), id)
  {
    if exists k :: IsDraftOf(s.proxies, id, k) {
      var k :| IsDraftOf(s.proxies, id, k);
      OneRemoved(s.proxies, id, k);
    } else {
      NothingRemoved(s.proxies, id);
    }
  }

  lemma AddableIs(s: State, proxy: Proxy)
    ensures Addable(s, proxy) <==>
      && proxy.chain != [] && FindProxy(s.proxies, proxy.id).None?
      && !exists k :: 0 <= k < |proxy.chain| && proxy.chain[k].server != "" && !UsableServer(s.servers, proxy.chain[k].server)
  {
    forall h | h in proxy.chain
      ensures UsableServer(s.servers, h.server) <==> exists x :: x in s.servers && x.id == h.server && x.status == Online && x.known
    {
      if x :| x in s.servers && x.id == h.server && x.status == Online && x.known {
        var k :| 0 <= k < |s.servers| && s.servers[k] == x;
      }
    }
    if FindProxy(s.proxies, proxy.id).Some? {
      assert FindProxy(s.proxies, proxy.id).value in s.proxies;
    }
    if exists k :: 0 <= k < |proxy.chain| && proxy.chain[k].server != "" && !UsableServer(s.servers, proxy.chain[k].server) {
      var k :| 0 <= k < |proxy.chain| && proxy.chain[k].server != "" && !UsableServer(s.servers, proxy.chain[k].server);
      assert proxy.chain[k] in proxy.chain;
    }
  }

  lemma AddingDone(s: State, proxy: Proxy)
    ensures if Addable(s, proxy) then Adds(s, Added(s, proxy), proxy) else Added(s, proxy) == s
  {
    AddableIs(s, proxy);
  }

  lemma AppliesIs(s: State, ids: seq<string>, inbound: string)
    ensures Applies(s, ids, inbound) <==> UsedByApplied(s, ids, inbound)
  {
    if Applies(s, ids, inbound) {
      var k :| 0 <= k < |s.proxies| && s.proxies[k].id in ids && Uses(s.proxies[k].chain, inbound);
      var h :| 0 <= h < |s.proxies[k].chain| && s.proxies[k].chain[h].inbound == Some(inbound);
      assert s.proxies[k] in s.proxies;
    }
    if UsedByApplied(s, ids, inbound) {
      var p, h :| p in s.proxies && p.id in ids && 0 <= h < |p.chain| && p.chain[h].inbound == Some(inbound);
      var k :| 0 <= k < |s.proxies| && s.proxies[k] == p;
      assert Uses(s.proxies[k].chain, inbound);
    }
  }

  lemma PublishingDone(s: State)
    requires Coherent(s) && Busy(s) && s.operation.value.phase == Applying && !s.operation.value.fail
    ensures AllPublished(s, Advanced(s), s.operation.value.ids)
  {
    var ids := s.operation.value.ids;
    var t := Advanced(s);
    forall k | 0 <= k < |s.inbounds|
      ensures t.inbounds[k] == if UsedByApplied(s, ids, s.inbounds[k].id) then s.inbounds[k].(published := Some(s.inbounds[k].config)) else s.inbounds[k]
    {
      AppliesIs(s, ids, s.inbounds[k].id);
    }
    PublishCoherent(s);
    forall p | p in t.proxies && p.id in ids ensures AsPublished(p.chain, t.inbounds) {
      assert CleanIsPublished(p, t.inbounds);
      AsPublishedExactly(p.chain, t.inbounds);
    }
  }

  // Every action does what it is for, and nothing else.
  lemma ActionDone(s: State, action: Action, servers: seq<Server>)
    requires Coherent(s)
    ensures Done(s, action, Reduce(s, action, servers), servers)
  {
    if !Busy(s) || action == Advance {
      match action
      case Add(proxy) => AddingDone(s, proxy);
      case Remove(id) => RemovingDone(s, id);
      case SaveHop(id, position, config, resource) => SavingDone(s, id, position, config, resource);
      case ReuseHop(id, position, inbound) => ReusingDone(s, id, position, inbound);
      case RevertChain(id) => RevertingDone(s, id);
      case Start(ids, fail) => ConfirmedExactly(s, ids);
      case Advance => if Completes(s, action) { PublishingDone(s); }
      case ServerToggle(id) =>
      case Reset =>
      case _ => EditingDone(s, action, servers);
    }
  }

  // ---- Runs ----

  // A chain that is added brings no snapshot, or one whose hops are in place.
  ghost predicate Sound(action: Action) {
    action.Add? && action.proxy.published.Some? ==> InPlace(action.proxy.published.value.chain)
  }

  lemma OneStaysPlaced(action: Action, p: Proxy, q: Proxy)
    requires Placed(p) && Redrafted(p, q) && EditDone(action, p, q)
    requires IsEdit(action)
    ensures Placed(q)
  {
    assert InPlace(p.chain);
    match action
    case RemoveHop(_, position) => RemovedInPlace(p, q, position);
    case MoveHop(_, position, direction) => ExchangedInPlace(p, q, position, position + direction);
    case SelectServer(_, position, server) => ChosenInPlace(p, q, position, server);
    case _ =>
  }

  lemma ClosedUpInPlace(before: seq<Hop>, after: seq<Hop>, position: int)
    requires InPlace(before) && ClosedUp(before, after, position)
    ensures InPlace(after)
  {
    forall k | 0 <= k < |after| ensures after[k].position == k {
      if k < position {
        assert after[k] == before[k];
      } else {
        assert after[k] == before[k + 1].(position := k);
      }
    }
  }

  lemma RemovedInPlace(p: Proxy, q: Proxy, position: int)
    requires InPlace(p.chain) && HopRemoved(p, q, position)
    ensures InPlace(q.chain)
  {
    if 2 <= |p.chain| && 0 <= position < |p.chain| {
      ClosedUpInPlace(p.chain, q.chain, position);
    }
  }

  lemma ExchangedInPlace(p: Proxy, q: Proxy, i: int, j: int)
    requires InPlace(p.chain) && HopsExchanged(p, q, i, j)
    ensures InPlace(q.chain)
  {
    forall k | 0 <= k < |q.chain| ensures q.chain[k].position == k {
      assert p.chain[k].position == k;
    }
  }

  lemma ChosenInPlace(p: Proxy, q: Proxy, position: int, server: string)
    requires InPlace(p.chain) && ServerChosen(p, q, position, server)
    ensures InPlace(q.chain)
  {
  }

  lemma EditStaysPlaced(s: State, t: State, id: string, action: Action)
    requires AllPlaced(s) && OnlyEdits(s, t, id, action)
    requires IsEdit(action)
    ensures AllPlaced(t)
  {
    forall k | 0 <= k < |t.proxies| ensures Placed(t.proxies[k]) {
      assert Placed(s.proxies[k]);
      if s.proxies[k].id == id {
        OneStaysPlaced(action, s.proxies[k], t.proxies[k]);
      }
    }
  }

  lemma AdvanceStaysPlaced(s: State, t: State)
    requires AllPlaced(s) && AdvanceDone(s, t)
    ensures AllPlaced(t)
  {
    forall k | 0 <= k < |t.proxies| ensures Placed(t.proxies[k]) {
      assert Placed(s.proxies[k]);
    }
  }

  lemma SaveStaysPlaced(s: State, t: State, id: string, position: int, config: Config, resource: string)
    requires AllPlaced(s) && SaveDone(s, t, id, position, config, resource)
    ensures AllPlaced(t)
  {
    if t != s {
      var hop := FindProxy(s.proxies, id).value.chain[position];
      forall k | 0 <= k < |t.proxies| ensures Placed(t.proxies[k]) {
        assert Placed(s.proxies[k]) && ChainOfSaved(s.proxies[k], t.proxies[k], id, position, hop.server, resource);
      }
    }
  }

  lemma RestStaysPlaced(s: State, action: Action, t: State, servers: seq<Server>)
    requires AllPlaced(s) && Done(s, action, t, servers) && !Busy(s) && Sound(action)
    requires action.ServerToggle? || action.Add? || action.Remove? || action.ReuseHop? || action.RevertChain? || action.Start? || action.Reset?
    ensures AllPlaced(t)
  {
    forall k | 0 <= k < |t.proxies| ensures Placed(t.proxies[k]) {
      match action
      case Remove(id) =>
        if exists n :: IsDraftOf(s.proxies, id, n) {
          var n :| IsDraftOf(s.proxies, id, n) && t.proxies == s.proxies[..n] + s.proxies[n + 1..];
          assert t.proxies[k] == if k < n then s.proxies[k] else s.proxies[k + 1];
        }
      case Add(proxy) => if t != s && k < |s.proxies| { assert t.proxies[k] == t.proxies[..|s.proxies|][k]; }
      case _ => assert k < |s.proxies| ==> Placed(s.proxies[k]);
    }
  }

  lemma ActionStaysPlaced(s: State, action: Action, t: State, servers: seq<Server>)
    requires AllPlaced(s) && Done(s, action, t, servers) && Sound(action)
    ensures AllPlaced(t)
  {
    if !Busy(s) || action == Advance {
      match action
      case Advance => AdvanceStaysPlaced(s, t);
      case SaveHop(id, position, config, resource) => SaveStaysPlaced(s, t, id, position, config, resource);
      case Rename(id, _) => EditStaysPlaced(s, t, id, action);
      case AppendHop(id) => EditStaysPlaced(s, t, id, action);
      case RemoveHop(id, _) => EditStaysPlaced(s, t, id, action);
      case MoveHop(id, _, _) => EditStaysPlaced(s, t, id, action);
      case SelectServer(id, position, server) => if Choosable(s, position, server) { EditStaysPlaced(s, t, id, action); }
      case SetEgress(id, _, egress) => if egress.Direct? { EditStaysPlaced(s, t, id, action); }
      case _ => RestStaysPlaced(s, action, t, servers);
    }
  }

  // In every run every action does what it is for; and if no chain is added with a snapshot out of order, every hop of
  // every chain knows its place.
  lemma {:induction false} EveryActionDone(servers: seq<Server>, actions: seq<Action>, action: Action)
    ensures Done(Execute(servers, actions), action, Execute(servers, actions + [action]), servers)
    ensures (forall k :: 0 <= k < |actions| ==> Sound(actions[k])) ==> AllPlaced(Execute(servers, actions))
  {
    RunCoherent(servers, actions);
    assert (actions + [action])[..|actions|] == actions;
    ActionDone(Execute(servers, actions), action, servers);
    if actions != [] {
      var front, last := actions[..|actions| - 1], actions[|actions| - 1];
      assert front + [last] == actions;
      EveryActionDone(servers, front, last);
      if forall k :: 0 <= k < |actions| ==> Sound(actions[k]) {
        ActionStaysPlaced(Execute(servers, front), last, Execute(servers, actions), servers);
      }
    }
  }

  // ---- A whole apply ----

  // Progress before the last step: the chains are the same but for how far they have got.
  ghost predicate Underway(s: State, t: State, ids: seq<string>, phase: Status, fail: bool) {
    && t.operation == Some(Operation(ids, phase, fail)) && t.inbounds == s.inbounds && t.servers == s.servers && |t.proxies| == |s.proxies|
    && forall k :: 0 <= k < |s.proxies| ==> OneUnderway(s.proxies[k], t.proxies[k], ids)
  }

  ghost predicate OneUnderway(p: Proxy, q: Proxy, ids: seq<string>) {
    if p.id in ids then q == p.(status := q.status, dirty := q.dirty, failure := q.failure) else q == p
  }

  lemma StartsUnderway(s: State, ids: seq<string>, fail: bool, servers: seq<Server>)
    requires Coherent(s) && !Busy(s) && Confirmed(s, ids)
    ensures var a := Reduce(s, Start(ids, fail), servers); Coherent(a) && Underway(s, a, ids, Preparing, fail)
  {
    ReduceCoherent(s, Start(ids, fail), servers);
  }

  lemma StaysUnderway(s: State, a: State, ids: seq<string>, fail: bool, servers: seq<Server>)
    requires Coherent(a) && Underway(s, a, ids, Preparing, fail)
    ensures var b := Reduce(a, Advance, servers); Coherent(b) && Underway(s, b, ids, Applying, fail)
  {
    ReduceCoherent(a, Advance, servers);
    var b := Reduce(a, Advance, servers);
    forall k | 0 <= k < |s.proxies| ensures OneUnderway(s.proxies[k], b.proxies[k], ids) {
      assert OneUnderway(s.proxies[k], a.proxies[k], ids);
    }
  }

  lemma UnderwayFails(s: State, b: State, ids: seq<string>, servers: seq<Server>)
    requires Coherent(b) && Underway(s, b, ids, Applying, true)
    ensures Progressed(s, Reduce(b, Advance, servers), ids, Failed, true, true)
  {
    forall k | 0 <= k < |s.proxies| ensures OneUnderway(s.proxies[k], b.proxies[k], ids) {
    }
  }

  lemma UnderwayPublishes(s: State, b: State, ids: seq<string>, servers: seq<Server>)
    requires Coherent(b) && Underway(s, b, ids, Applying, false)
    ensures AllPublished(s, Reduce(b, Advance, servers), ids)
  {
    var t := Reduce(b, Advance, servers);
    PublishingDone(b);
    forall k | 0 <= k < |s.inbounds| ensures UsedByApplied(b, ids, s.inbounds[k].id) <==> UsedByApplied(s, ids, s.inbounds[k].id) {
      SameUses(s, b, ids, s.inbounds[k].id);
      SameUses(b, s, ids, s.inbounds[k].id);
    }
    forall k | 0 <= k < |s.proxies|
      ensures if s.proxies[k].id in ids then ChainPublished(s.proxies[k], t.proxies[k]) else t.proxies[k] == s.proxies[k]
    {
      assert OneUnderway(s.proxies[k], b.proxies[k], ids);
    }
  }

  // What was confirmed is published by starting the operation and advancing it twice, or fails and publishes nothing;
  // either way the drafts are as they were.
  lemma ApplyRuns(s: State, ids: seq<string>, fail: bool, servers: seq<Server>)
    requires Coherent(s) && !Busy(s) && Applicable(s, ids)
    ensures var t := Reduce(Reduce(Reduce(s, Start(ids, fail), servers), Advance, servers), Advance, servers);
            if fail then Progressed(s, t, ids, Failed, true, true) else AllPublished(s, t, ids)
  {
    var a := Reduce(s, Start(ids, fail), servers);
    var b := Reduce(a, Advance, servers);
    ConfirmedExactly(s, ids);
    StartsUnderway(s, ids, fail, servers);
    StaysUnderway(s, a, ids, fail, servers);
    if fail {
      UnderwayFails(s, b, ids, servers);
    } else {
      UnderwayPublishes(s, b, ids, servers);
    }
  }

  lemma SameUses(s: State, t: State, ids: seq<string>, inbound: string)
    requires |t.proxies| == |s.proxies|
    requires forall k :: 0 <= k < |s.proxies| ==> t.proxies[k].id == s.proxies[k].id && t.proxies[k].chain == s.proxies[k].chain
    ensures UsedByApplied(s, ids, inbound) ==> UsedByApplied(t, ids, inbound)
  {
    if UsedByApplied(s, ids, inbound) {
      var p, h :| p in s.proxies && p.id in ids && 0 <= h < |p.chain| && p.chain[h].inbound == Some(inbound);
      var k :| 0 <= k < |s.proxies| && s.proxies[k] == p;
      assert t.proxies[k] in t.proxies;
    }
  }

  // ---- What is applied can be served ----

  lemma ConflictExactly(s: State, i: Inbound)
    ensures PortConflict(s.inbounds, i.server, i.config.port, Some(i.id)) <==>
              exists j :: j in s.inbounds && j.id != i.id && j.server == i.server && Occupies(j, i.config.port)
  {
    if j :| j in s.inbounds && j.id != i.id && j.server == i.server && Occupies(j, i.config.port) {
      var k :| 0 <= k < |s.inbounds| && s.inbounds[k] == j;
    }
    if PortConflict(s.inbounds, i.server, i.config.port, Some(i.id)) {
      var k :| 0 <= k < |s.inbounds| && s.inbounds[k].id != i.id && s.inbounds[k].server == i.server && HoldsPort(s.inbounds[k], i.config.port);
      assert s.inbounds[k] in s.inbounds;
    }
  }

  lemma HopExactly(s: State, hop: Hop, k: nat)
    requires UniqueInbounds(s.inbounds)
    ensures HopReady(hop, k, s.inbounds, s.servers) <==> HopServable(s, hop, k)
  {
    var inbound := GetInbound(s.inbounds, hop);
    if inbound.Some? {
      ConflictExactly(s, inbound.value);
      forall i | i in s.inbounds && hop.inbound == Some(i.id) ensures i == inbound.value {
        SameInbound(s.inbounds, i, inbound.value);
      }
    }
  }

  // A chain is ready exactly if it can be served.
  lemma ReadyExactly(s: State, p: Proxy)
    requires UniqueInbounds(s.inbounds)
    ensures Ready(p, s.inbounds, s.servers) <==> ChainServable(s, p)
  {
    forall k | 0 <= k < |p.chain| ensures HopReady(p.chain[k], k, s.inbounds, s.servers) <==> HopServable(s, p.chain[k], k) {
      HopExactly(s, p.chain[k], k);
    }
  }

  lemma SharesExactly(s: State, ids: seq<string>, p: Proxy)
    requires UniqueInbounds(s.inbounds) && Ready(p, s.inbounds, s.servers)
    ensures SharesOnlyWith(s, ids, p) <==> SharedWithin(s, ids, p)
  {
    forall q: Proxy, i: Inbound ensures Refers(q, i.id) <==> Mentions(q, i.id) {
      MentionsExactly(q, i.id);
    }
    if SharesOnlyWith(s, ids, p) {
      forall i, h, q | i in s.inbounds && i.published != Some(i.config) && h in p.chain && h.inbound == Some(i.id) && q in s.proxies && Mentions(q, i.id)
        ensures q.id in ids
      {
        var k :| 0 <= k < |p.chain| && p.chain[k] == h;
        HopIsThis(s, p.chain, k, i);
      }
    }
    if SharedWithin(s, ids, p) {
      forall j | 0 <= j < |p.chain| && GetInbound(s.inbounds, p.chain[j]).Some?
        ensures var i := GetInbound(s.inbounds, p.chain[j]).value;
                Dirty(i) ==> forall q :: q in s.proxies && Refers(q, i.id) ==> q.id in ids
      {
        assert p.chain[j] in p.chain;
      }
    }
  }

  lemma OneConfirmed(s: State, ids: seq<string>, id: string)
    requires UniqueProxies(s.proxies) && UniqueInbounds(s.inbounds)
    ensures var p := FindProxy(s.proxies, id);
            CanApply(s, ids, id) <==> p.Some? && Ready(p.value, s.inbounds, s.servers) && SharesOnlyWith(s, ids, p.value)
  {
    var found := FindProxy(s.proxies, id);
    if found.Some? {
      ReadyExactly(s, found.value);
      if Ready(found.value, s.inbounds, s.servers) { SharesExactly(s, ids, found.value); }
    }
    if CanApply(s, ids, id) {
      var p :| p in s.proxies && p.id == id && ChainServable(s, p) && SharedWithin(s, ids, p);
      FoundAgain(s.proxies, p);
    }
  }

  lemma ConfirmedExactly(s: State, ids: seq<string>)
    requires UniqueProxies(s.proxies) && UniqueInbounds(s.inbounds)
    ensures Confirmed(s, ids) <==> Applicable(s, ids)
  {
    forall k | 0 <= k < |ids|
      ensures var p := FindProxy(s.proxies, ids[k]);
              CanApply(s, ids, ids[k]) <==> p.Some? && Ready(p.value, s.inbounds, s.servers) && SharesOnlyWith(s, ids, p.value)
    {
      OneConfirmed(s, ids, ids[k]);
    }
  }

  // In every run, a chain that is being applied can be served, and every changed inbound that it uses is used by applied
  // chains only.
  lemma AppliedIsServable(servers: seq<Server>, actions: seq<Action>, p: Proxy)
    requires Busy(Execute(servers, actions)) && p in Execute(servers, actions).proxies
    requires p.id in Execute(servers, actions).operation.value.ids
    ensures var s := Execute(servers, actions); ChainServable(s, p) && SharedWithin(s, s.operation.value.ids, p)
  {
    RunCoherent(servers, actions);
    var s := Execute(servers, actions);
    var ids := s.operation.value.ids;
    ConfirmedExactly(s, ids);
    var m :| 0 <= m < |ids| && ids[m] == p.id;
    var q :| q in s.proxies && q.id == ids[m] && ChainServable(s, q) && SharedWithin(s, ids, q);
    FoundAgain(s.proxies, p);
    FoundAgain(s.proxies, q);
  }
}
