/**
  The prototype workspace: proxy chains over shared inbounds, edited as drafts and applied together.
  The reducer is a function from a state and an action to the next state.
*/
module Workspace {
  import opened Common

  datatype Exposure = Subscription | Internal

  // `complete` says that the fields of the protocol are filled in as its server demands.
  datatype Config = Config(protocol: string, exposure: Exposure, port: int, complete: bool, details: string)

  datatype Inbound = Inbound(id: string, server: string, config: Config, published: Option<Config>)

  datatype ServerStatus = Online | Offline | Maintenance

  datatype Server = Server(
    id: string, status: ServerStatus, resume: Option<ServerStatus>, known: bool, protocols: set<string>, chainTarget: bool, maxProxies: int)

  datatype Egress = Direct(details: string) | External(details: string)

  datatype Hop = Hop(position: int, server: string, inbound: Option<string>, unsaved: bool)

  datatype Snapshot = Snapshot(name: string, chain: seq<Hop>, egress: Egress)

  datatype Status = Draft | Preparing | Applying | Active | Failed

  datatype Proxy = Proxy(id: string, name: string, chain: seq<Hop>, egress: Egress, published: Option<Snapshot>, status: Status, dirty: bool, failure: bool)

  datatype Operation = Operation(ids: seq<string>, phase: Status, fail: bool)

  datatype State = State(servers: seq<Server>, proxies: seq<Proxy>, inbounds: seq<Inbound>, operation: Option<Operation>)

  datatype Action =
    | ServerToggle(id: string)
    | Add(proxy: Proxy)
    | Remove(id: string)
    | Rename(id: string, name: string)
    | AppendHop(id: string)
    | RemoveHop(id: string, position: int)
    | MoveHop(id: string, position: int, direction: int)
    | SelectServer(id: string, position: int, server: string)
    | SaveHop(id: string, position: int, config: Config, resource: string)
    | ReuseHop(id: string, position: int, inbound: string)
    | SetEgress(id: string, name: string, egress: Egress)
    | RevertChain(id: string)
    | Start(ids: seq<string>, fail: bool)
    | Advance
    | Reset

  // ---- Looking things up ----

  function FindProxy(proxies: seq<Proxy>, id: string): (r: Option<Proxy>)
    ensures r.Some? ==> r.value in proxies && r.value.id == id
    ensures r.None? ==> forall p :: p in proxies ==> p.id != id
  {
    if proxies == [] then None else if proxies[0].id == id then Some(proxies[0]) else FindProxy(proxies[1..], id)
  }

  function FindServer(servers: seq<Server>, id: string): (r: Option<Server>)
    ensures r.Some? ==> r.value in servers && r.value.id == id
  {
    if servers == [] then None else if servers[0].id == id then Some(servers[0]) else FindServer(servers[1..], id)
  }

  function FindInbound(inbounds: seq<Inbound>, id: string): (r: Option<Inbound>)
    ensures r.Some? ==> r.value in inbounds && r.value.id == id
    ensures r.None? ==> forall i :: i in inbounds ==> i.id != id
  {
    if inbounds == [] then None else if inbounds[0].id == id then Some(inbounds[0]) else FindInbound(inbounds[1..], id)
  }

  // The inbound of a hop, on the server of the hop.
  function GetInbound(inbounds: seq<Inbound>, hop: Hop): (r: Option<Inbound>)
    ensures r.Some? ==> r.value in inbounds && hop.inbound == Some(r.value.id) && r.value.server == hop.server
    ensures r.None? ==> forall i :: i in inbounds ==> hop.inbound != Some(i.id) || i.server != hop.server
  {
    if inbounds == [] then None
    else if hop.inbound == Some(inbounds[0].id) && inbounds[0].server == hop.server then Some(inbounds[0])
    else GetInbound(inbounds[1..], hop)
  }

  function HopAt(chain: seq<Hop>, position: int): Option<Hop> {
    if 0 <= position < |chain| then Some(chain[position]) else None
  }

  predicate Uses(chain: seq<Hop>, inbound: string) {
    exists k :: 0 <= k < |chain| && chain[k].inbound == Some(inbound)
  }

  // A chain refers to an inbound by its draft or by its published snapshot.
  predicate Refers(p: Proxy, inbound: string) {
    Uses(p.chain, inbound) || (p.published.Some? && Uses(p.published.value.chain, inbound))
  }

  predicate Dirty(i: Inbound) { i.published != Some(i.config) }

  // The ports that an inbound holds: that of its draft and that of its published configuration.
  predicate HoldsPort(i: Inbound, port: int) {
    i.config.port == port || (i.published.Some? && i.published.value.port == port)
  }

  predicate PortConflict(inbounds: seq<Inbound>, server: string, port: int, except: Option<string>) {
    exists k :: 0 <= k < |inbounds| && Some(inbounds[k].id) != except && inbounds[k].server == server && HoldsPort(inbounds[k], port)
  }

  // ---- When a chain may be applied ----

  predicate Blank(name: string) { forall k :: 0 <= k < |name| ==> name[k] in {' ', '\t', '\n', '\r'} }

  predicate InboundReady(i: Inbound, servers: seq<Server>) {
    var server := FindServer(servers, i.server);
    && i.config.protocol in {"vless-reality", "shadowsocks", "hysteria2"}
    && server.Some? && server.value.status == Online && server.value.known && i.config.protocol in server.value.protocols
    && 1 <= i.config.port <= 65535 && i.config.complete
  }

  predicate HopReady(hop: Hop, position: int, inbounds: seq<Inbound>, servers: seq<Server>) {
    var inbound := GetInbound(inbounds, hop);
    var server := FindServer(servers, hop.server);
    && hop.position == position && !hop.unsaved && inbound.Some?
    && (position == 0 ==> inbound.value.config.exposure == Subscription)
    && server.Some? && (position > 0 ==> server.value.chainTarget)
    && InboundReady(inbound.value, servers)
    && !PortConflict(inbounds, hop.server, inbound.value.config.port, Some(inbound.value.id))
  }

  ghost predicate NoInboundTwice(chain: seq<Hop>) {
    forall i, j :: 0 <= i < j < |chain| && chain[i].inbound.Some? ==> chain[i].inbound != chain[j].inbound
  }

  ghost predicate Ready(p: Proxy, inbounds: seq<Inbound>, servers: seq<Server>) {
    && !Blank(p.name) && |p.chain| > 0 && p.egress.Direct?
    && (forall k :: 0 <= k < |p.chain| ==> HopReady(p.chain[k], k, inbounds, servers))
    && NoInboundTwice(p.chain)
  }

  ghost predicate Passed(chain: seq<Hop>, k: nat, seen: set<string>) {
    k <= |chain| && forall x :: x in seen <==> exists j :: 0 <= j < k && chain[j].inbound == Some(x)
  }

  // The inbounds that were passed are collected on the way.
  method ChainReadiness(p: Proxy, inbounds: seq<Inbound>, servers: seq<Server>) returns (ready: bool)
    ensures ready <==> Ready(p, inbounds, servers)
  {
    if Blank(p.name) || |p.chain| == 0 || !p.egress.Direct? { return false; }
    var seen: set<string> := {};
    var k := 0;
    while k < |p.chain|
      invariant k <= |p.chain| && forall j :: 0 <= j < k ==> HopReady(p.chain[j], j, inbounds, servers)
      invariant NoInboundTwice(p.chain[..k]) && Passed(p.chain, k, seen)
    {
      var hop := p.chain[k];
      var inbound := GetInbound(inbounds, hop);
      if inbound.None? { return false; }
      PassOne(p.chain, k, seen, inbound.value.id);
      if inbound.value.id in seen { return false; }
      if !HopReady(hop, k, inbounds, servers) { return false; }
      seen := seen + {inbound.value.id};
      k := k + 1;
    }
    assert p.chain[..k] == p.chain;
    return true;
  }

  lemma PassOne(chain: seq<Hop>, k: nat, seen: set<string>, inbound: string)
    requires k < |chain| && chain[k].inbound == Some(inbound) && NoInboundTwice(chain[..k]) && Passed(chain, k, seen)
    ensures inbound in seen ==> !NoInboundTwice(chain)
    ensures inbound !in seen ==> NoInboundTwice(chain[..k + 1])
    ensures Passed(chain, k + 1, seen + {inbound})
  {
    if inbound !in seen {
      forall i, j | 0 <= i < j < k + 1 && chain[i].inbound.Some? ensures chain[i].inbound != chain[j].inbound {
        if j < k {
          assert chain[..k][i] == chain[i] && chain[..k][j] == chain[j];
        }
      }
    }
  }

  // A changed inbound that is shared is applied together with every chain that refers to it.
  ghost predicate Confirmed(s: State, ids: seq<string>) {
    && |ids| > 0
    && forall k :: 0 <= k < |ids| ==>
         var p := FindProxy(s.proxies, ids[k]);
         p.Some? && Ready(p.value, s.inbounds, s.servers) && SharesOnlyWith(s, ids, p.value)
  }

  ghost predicate SharesOnlyWith(s: State, ids: seq<string>, p: Proxy) {
    forall j :: 0 <= j < |p.chain| ==>
      var i := GetInbound(s.inbounds, p.chain[j]);
      i.Some? && Dirty(i.value) ==> forall q :: q in s.proxies && Refers(q, i.value.id) ==> q.id in ids
  }

  // ---- The reducer ----

  function AsDraft(p: Proxy): Proxy { p.(status := Draft, dirty := true, failure := false) }

  function Ordered(chain: seq<Hop>): (r: seq<Hop>)
    ensures |r| == |chain| && forall k :: 0 <= k < |chain| ==> r[k] == chain[k].(position := k)
  {
    seq(|chain|, k requires 0 <= k < |chain| => chain[k].(position := k))
  }

  function Busy(s: State): bool { s.operation.Some? && s.operation.value.phase in {Preparing, Applying} }

  function Mapped<T>(s: seq<T>, f: T -> T): (r: seq<T>)
    ensures |r| == |s| && forall k :: 0 <= k < |s| ==> r[k] == f(s[k])
  {
    seq(|s|, k requires 0 <= k < |s| => f(s[k]))
  }

  function UpdateProxy(s: State, id: string, update: Proxy -> Proxy): (r: State)
    ensures r.inbounds == s.inbounds && r.servers == s.servers && r.operation.None? && |r.proxies| == |s.proxies|
    ensures forall k :: 0 <= k < |s.proxies| ==>
      r.proxies[k] == if s.proxies[k].id == id then AsDraft(update(s.proxies[k])) else s.proxies[k]
  {
    s.(operation := None, proxies := Mapped(s.proxies, (p: Proxy) => if p.id == id then AsDraft(update(p)) else p))
  }

  function WithoutPosition(chain: seq<Hop>, position: int): seq<Hop> {
    if chain == [] then [] else (if chain[0].position == position then [] else [chain[0]]) + WithoutPosition(chain[1..], position)
  }

  function WithoutProxy(proxies: seq<Proxy>, id: string): seq<Proxy> {
    if proxies == [] then []
    else (if proxies[0].id == id && proxies[0].published.None? then [] else [proxies[0]]) + WithoutProxy(proxies[1..], id)
  }

  function WithoutInbound(inbounds: seq<Inbound>, id: string): seq<Inbound> {
    if inbounds == [] then [] else (if inbounds[0].id == id then [] else [inbounds[0]]) + WithoutInbound(inbounds[1..], id)
  }

  function OnServer(inbounds: seq<Inbound>, server: string): nat {
    if inbounds == [] then 0 else (if inbounds[0].server == server then 1 else 0) + OnServer(inbounds[1..], server)
  }

  // Hops at this position are replaced.
  function Replaced(chain: seq<Hop>, position: int, hop: Hop): (r: seq<Hop>) {
    seq(|chain|, k requires 0 <= k < |chain| => if chain[k].position == position then hop.(position := chain[k].position) else chain[k])
  }

  function Swapped(p: Proxy, position: int, target: int): (r: Proxy)
    ensures r.id == p.id && |r.chain| == |p.chain|
  {
    if HopAt(p.chain, position).None? || HopAt(p.chain, target).None? then p
    else p.(chain := Ordered(p.chain[position := p.chain[target]][target := p.chain[position]]))
  }

  function Toggled(server: Server): Server {
    if server.status == Maintenance then server.(status := if server.resume.Some? then server.resume.value else Offline, resume := None)
    else server.(status := Maintenance, resume := Some(server.status))
  }

  function Added(s: State, proxy: Proxy): State {
    if proxy.chain == [] || FindProxy(s.proxies, proxy.id).Some? then s
    else if exists k :: 0 <= k < |proxy.chain| && proxy.chain[k].server != "" && !UsableServer(s.servers, proxy.chain[k].server) then s
    else s.(operation := None, proxies := s.proxies + [AsDraft(proxy.(chain := Ordered(proxy.chain)))])
  }

  predicate UsableServer(servers: seq<Server>, id: string) {
    exists k :: 0 <= k < |servers| && servers[k].id == id && servers[k].status == Online && servers[k].known
  }

  // A hop that moves to another server loses its inbound.
  function OnServerFrom(p: Proxy, position: int, server: string): (r: Proxy)
    ensures r.id == p.id && |r.chain| == |p.chain|
  {
    p.(chain := seq(|p.chain|, k requires 0 <= k < |p.chain| =>
      if p.chain[k].position == position && p.chain[k].server != server then Hop(p.chain[k].position, server, None, false) else p.chain[k]))
  }

  function Pointed(p: Proxy, position: int, hop: Hop): (r: Proxy)
    ensures r.id == p.id
  {
    p.(chain := Replaced(p.chain, position, hop))
  }

  function ServerSelected(s: State, id: string, position: int, serverId: string): State {
    var server := FindServer(s.servers, serverId);
    if server.None? || server.value.status != Online || !server.value.known || (position > 0 && !server.value.chainTarget) then s
    else
      UpdateProxy(s, id, (p: Proxy) => OnServerFrom(p, position, serverId))
  }

  // Saving an inbound makes every chain that refers to it a draft again.
  function HopSaved(s: State, id: string, position: int, config: Config, resource: string): State {
    var proxy := FindProxy(s.proxies, id);
    if proxy.None? || HopAt(proxy.value.chain, position).None? then s
    else
      var hop := HopAt(proxy.value.chain, position).value;
      var server := FindServer(s.servers, hop.server);
      var existing := FindInbound(s.inbounds, resource);
      if server.None? || server.value.status != Online || !server.value.known then s
      else if existing.Some? && (hop.inbound != Some(existing.value.id) || existing.value.server != hop.server) then s
      else if existing.Some? && existing.value.published.Some? && existing.value.config.protocol != config.protocol then s
      else if existing.None? && server.value.maxProxies > 0 && OnServer(s.inbounds, server.value.id) >= server.value.maxProxies then s
      else if PortConflict(s.inbounds, hop.server, config.port, if existing.Some? then Some(resource) else None) then s
      else
        var saved := Inbound(resource, hop.server, config, if existing.Some? then existing.value.published else None);
        var point := Hop(position, hop.server, Some(resource), false);
        s.(operation := None,
           inbounds := WithoutInbound(s.inbounds, resource) + [saved],
           proxies := Mapped(s.proxies, (p: Proxy) => Repointed(p, id, position, point, resource)))
  }

  function Repointed(p: Proxy, id: string, position: int, point: Hop, resource: string): Proxy {
    if p.id == id then AsDraft(Pointed(p, position, point))
    else if Refers(p, resource) then AsDraft(p)
    else p
  }

  function HopReused(s: State, id: string, position: int, inboundId: string): State {
    var proxy := FindProxy(s.proxies, id);
    var inbound := FindInbound(s.inbounds, inboundId);
    if proxy.None? || HopAt(proxy.value.chain, position).None? || inbound.None? then s
    else if inbound.value.server != HopAt(proxy.value.chain, position).value.server then s
    else if position == 0 && inbound.value.config.exposure != Subscription then s
    else if exists k :: 0 <= k < |proxy.value.chain| && proxy.value.chain[k].position != position && proxy.value.chain[k].inbound == Some(inboundId) then s
    else UpdateProxy(s, id, (p: Proxy) => Pointed(p, position, Hop(position, inbound.value.server, Some(inboundId), false)))
  }

  predicate ChainDirty(chain: seq<Hop>, inbounds: seq<Inbound>) {
    exists k :: 0 <= k < |chain| && (GetInbound(inbounds, chain[k]).None? || Dirty(GetInbound(inbounds, chain[k]).value))
  }

  // The draft goes back to the snapshot; it stays dirty while its inbounds have changes of their own.
  function Reverted(p: Proxy, id: string, inbounds: seq<Inbound>): Proxy {
    if p.id != id || p.published.None? then p
    else
      var snapshot := p.published.value;
      var dirty := ChainDirty(snapshot.chain, inbounds);
      p.(name := snapshot.name, chain := snapshot.chain, egress := snapshot.egress, dirty := dirty, status := if dirty then Draft else Active, failure := false)
  }

  // What an apply publishes: the inbounds of the applied chains.
  predicate Applies(s: State, ids: seq<string>, inbound: string) {
    exists k :: 0 <= k < |s.proxies| && s.proxies[k].id in ids && Uses(s.proxies[k].chain, inbound)
  }

  function Published(i: Inbound): Inbound { i.(published := Some(i.config)) }

  function Applied(p: Proxy, ids: seq<string>, phase: Status): Proxy {
    if p.id in ids then
      p.(status := phase, dirty := phase != Active,
         published := if phase == Active then Some(Snapshot(p.name, p.chain, p.egress)) else p.published,
         failure := phase == Failed)
    else p
  }

  function Advanced(s: State): State {
    if !Busy(s) then s
    else
      var operation := s.operation.value;
      var phase := if operation.phase == Preparing then Applying else if operation.fail then Failed else Active;
      s.(operation := Some(operation.(phase := phase)),
         inbounds := if phase == Active then Mapped(s.inbounds, (i: Inbound) => if Applies(s, operation.ids, i.id) then Published(i) else i) else s.inbounds,
         proxies := Mapped(s.proxies, (p: Proxy) => Applied(p, operation.ids, phase)))
  }

  ghost function Started(s: State, ids: seq<string>, fail: bool): State {
    if !Confirmed(s, ids) then s
    else s.(operation := Some(Operation(ids, Preparing, fail)),
            proxies := Mapped(s.proxies, (p: Proxy) => if p.id in ids then p.(status := Preparing, failure := false) else p))
  }

  function Initial(servers: seq<Server>): State { State(servers, [], [], None) }

  // While an operation runs, only its own progress is accepted.
  ghost function Reduce(s: State, action: Action, servers: seq<Server>): State {
    if Busy(s) && action != Advance then s
    else
      match action
      case ServerToggle(id) => s.(servers := seq(|s.servers|, k requires 0 <= k < |s.servers| => if s.servers[k].id == id then Toggled(s.servers[k]) else s.servers[k]))
      case Add(proxy) => Added(s, proxy)
      case Remove(id) => s.(operation := None, proxies := WithoutProxy(s.proxies, id))
      case Rename(id, name) => UpdateProxy(s, id, (p: Proxy) => p.(name := if |name| > 80 then name[..80] else name))
      case AppendHop(id) => UpdateProxy(s, id, (p: Proxy) => p.(chain := p.chain + [Hop(|p.chain|, "", None, false)]))
      case RemoveHop(id, position) => UpdateProxy(s, id, (p: Proxy) => if |p.chain| <= 1 then p else p.(chain := Ordered(WithoutPosition(p.chain, position))))
      case MoveHop(id, position, direction) => UpdateProxy(s, id, (p: Proxy) => Swapped(p, position, position + direction))
      case SelectServer(id, position, server) => ServerSelected(s, id, position, server)
      case SaveHop(id, position, config, resource) => HopSaved(s, id, position, config, resource)
      case ReuseHop(id, position, inbound) => HopReused(s, id, position, inbound)
      case SetEgress(id, name, egress) => if egress.External? then s else UpdateProxy(s, id, (p: Proxy) => p.(name := name, egress := egress))
      case RevertChain(id) => s.(operation := None, proxies := Mapped(s.proxies, (p: Proxy) => Reverted(p, id, s.inbounds)))
      case Start(ids, fail) => Started(s, ids, fail)
      case Advance => Advanced(s)
      case Reset => Initial(servers)
  }

  // ---- A free port ----

  // The first port from 443 on that no inbound of the server holds.
  method DefaultPort(inbounds: seq<Inbound>, server: string) returns (port: int)
    ensures port >= 443 && !PortConflict(inbounds, server, port, None)
    ensures forall p :: 443 <= p < port ==> PortConflict(inbounds, server, p, None)
  {
    port := 443;
    ghost var highest := HighestPort(inbounds);
    while PortConflict(inbounds, server, port, None)
      invariant port >= 443 && forall p :: 443 <= p < port ==> PortConflict(inbounds, server, p, None)
      decreases highest - port
    {
      HeldBelow(inbounds, server, port);
      port := port + 1;
    }
  }

  ghost function HighestPort(inbounds: seq<Inbound>): int {
    if inbounds == [] then 0
    else
      var rest := HighestPort(inbounds[1..]);
      var i := inbounds[0];
      var own := if i.published.Some? && i.published.value.port > i.config.port then i.published.value.port else i.config.port;
      if own > rest then own else rest
  }

  lemma {:induction false} HeldBelow(inbounds: seq<Inbound>, server: string, port: int)
    requires PortConflict(inbounds, server, port, None)
    ensures port <= HighestPort(inbounds)
  {
    var k :| 0 <= k < |inbounds| && inbounds[k].server == server && HoldsPort(inbounds[k], port);
    if k > 0 {
      assert inbounds[1..][k - 1] == inbounds[k];
      HeldBelow(inbounds[1..], server, port);
    }
  }
}
