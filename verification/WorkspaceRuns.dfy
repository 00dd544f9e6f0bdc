/** What every run of the workspace reducer keeps: ports, clean chains, and the isolation of an apply. */
module WorkspaceRuns {
  import opened Common
  import opened Workspace

  // ---- The pieces ----

  ghost predicate UniqueProxies(proxies: seq<Proxy>) {
    forall i, j :: 0 <= i < j < |proxies| ==> proxies[i].id != proxies[j].id
  }

  ghost predicate UniqueInbounds(inbounds: seq<Inbound>) {
    forall i, j :: 0 <= i < j < |inbounds| ==> inbounds[i].id != inbounds[j].id
  }

  // Two inbounds of a server have no port in common, neither in their drafts nor in what is published.
  ghost predicate Apart(i: Inbound, j: Inbound) {
    i.id != j.id && i.server == j.server ==> forall port :: HoldsPort(i, port) ==> !HoldsPort(j, port)
  }

  ghost predicate PortsApart(inbounds: seq<Inbound>) {
    forall i, j :: i in inbounds && j in inbounds ==> Apart(i, j)
  }

  // Every hop has its inbound, and the inbound is published as it is drafted.
  ghost predicate InboundsPublished(chain: seq<Hop>, inbounds: seq<Inbound>) {
    forall k :: 0 <= k < |chain| ==> HopPublished(chain[k], inbounds)
  }

  ghost predicate HopPublished(hop: Hop, inbounds: seq<Inbound>) {
    GetInbound(inbounds, hop).Some? && !Dirty(GetInbound(inbounds, hop).value)
  }

  ghost predicate CleanIsPublished(p: Proxy, inbounds: seq<Inbound>) {
    !p.dirty ==> p.published == Some(Snapshot(p.name, p.chain, p.egress)) && InboundsPublished(p.chain, inbounds)
  }

  ghost predicate AllClean(s: State) {
    forall p :: p in s.proxies ==> CleanIsPublished(p, s.inbounds)
  }

  // What was confirmed when an operation started still holds while it runs.
  ghost predicate StillConfirmed(s: State) {
    Busy(s) ==> Confirmed(s, s.operation.value.ids)
  }

  ghost predicate Coherent(s: State) {
    UniqueProxies(s.proxies) && UniqueInbounds(s.inbounds) && PortsApart(s.inbounds) && AllClean(s) && StillConfirmed(s)
  }

  // ---- Editing chains ----

  // Chains that keep their identity, and are either as before or drafts.
  ghost predicate Edited(before: seq<Proxy>, after: seq<Proxy>) {
    |after| == |before| && forall k :: 0 <= k < |before| ==> after[k].id == before[k].id && (after[k] == before[k] || after[k].dirty)
  }

  lemma EditCoherent(s: State, t: State)
    requires Coherent(s) && t.inbounds == s.inbounds && Edited(s.proxies, t.proxies) && !Busy(t)
    ensures Coherent(t)
  {
    forall p | p in t.proxies ensures CleanIsPublished(p, t.inbounds) {
      var k :| 0 <= k < |t.proxies| && t.proxies[k] == p;
      assert CleanIsPublished(s.proxies[k], s.inbounds);
    }
  }

  lemma {:induction false} WithoutProxyIn(proxies: seq<Proxy>, id: string)
    ensures forall p :: p in WithoutProxy(proxies, id) ==> p in proxies
  {
    if proxies != [] {
      WithoutProxyIn(proxies[1..], id);
    }
  }

  lemma UniqueFirst(p: Proxy, rest: seq<Proxy>)
    requires UniqueProxies(rest) && forall j :: 0 <= j < |rest| ==> rest[j].id != p.id
    ensures UniqueProxies([p] + rest)
  {
  }

  lemma UniqueFirstInbound(i: Inbound, rest: seq<Inbound>)
    requires UniqueInbounds(rest) && forall j :: 0 <= j < |rest| ==> rest[j].id != i.id
    ensures UniqueInbounds([i] + rest) && UniqueInbounds(rest + [i])
  {
  }

  lemma {:induction false} WithoutProxyUnique(proxies: seq<Proxy>, id: string)
    requires UniqueProxies(proxies)
    ensures UniqueProxies(WithoutProxy(proxies, id))
  {
    if proxies != [] {
      assert forall i :: 0 <= i < |proxies[1..]| ==> proxies[1..][i] == proxies[i + 1];
      WithoutProxyUnique(proxies[1..], id);
      WithoutProxyIn(proxies[1..], id);
      var rest := WithoutProxy(proxies[1..], id);
      forall j | 0 <= j < |rest| ensures rest[j].id != proxies[0].id {
        assert rest[j] in proxies[1..];
        var k :| 0 <= k < |proxies[1..]| && proxies[1..][k] == rest[j];
        assert proxies[k + 1] == rest[j];
      }
      UniqueFirst(proxies[0], rest);
      assert WithoutProxy(proxies, id) == [proxies[0]] + rest || WithoutProxy(proxies, id) == rest;
    }
  }

  lemma RemoveCoherent(s: State, id: string)
    requires Coherent(s)
    ensures Coherent(s.(operation := None, proxies := WithoutProxy(s.proxies, id)))
  {
    WithoutProxyIn(s.proxies, id);
    WithoutProxyUnique(s.proxies, id);
  }

  lemma AddCoherent(s: State, proxy: Proxy)
    requires Coherent(s)
    ensures Coherent(Added(s, proxy)) || Added(s, proxy) == s
  {
    var t := Added(s, proxy);
    if t != s {
      forall i, j | 0 <= i < j < |t.proxies| ensures t.proxies[i].id != t.proxies[j].id {
        if j == |s.proxies| { assert s.proxies[i] in s.proxies; }
      }
      forall p | p in t.proxies ensures CleanIsPublished(p, t.inbounds) {
        assert p in s.proxies ==> CleanIsPublished(p, s.inbounds);
      }
    }
  }

  lemma RevertCoherent(s: State, id: string)
    requires Coherent(s)
    ensures Coherent(s.(operation := None, proxies := Mapped(s.proxies, (p: Proxy) => Reverted(p, id, s.inbounds))))
  {
    var t := s.(operation := None, proxies := Mapped(s.proxies, (p: Proxy) => Reverted(p, id, s.inbounds)));
    forall p | p in t.proxies ensures CleanIsPublished(p, t.inbounds) {
      var k :| 0 <= k < |t.proxies| && t.proxies[k] == p;
      assert CleanIsPublished(s.proxies[k], s.inbounds);
      RevertedClean(s.proxies[k], id, s.inbounds);
    }
  }

  lemma RevertedClean(p: Proxy, id: string, inbounds: seq<Inbound>)
    requires CleanIsPublished(p, inbounds)
    ensures CleanIsPublished(Reverted(p, id, inbounds), inbounds)
  {
  }

  // ---- Saving an inbound ----

  lemma {:induction false} WithoutInboundIs(inbounds: seq<Inbound>, id: string)
    ensures forall i :: i in WithoutInbound(inbounds, id) <==> i in inbounds && i.id != id
  {
    if inbounds != [] {
      WithoutInboundIs(inbounds[1..], id);
    }
  }

  lemma {:induction false} WithoutInboundUnique(inbounds: seq<Inbound>, id: string)
    requires UniqueInbounds(inbounds)
    ensures UniqueInbounds(WithoutInbound(inbounds, id))
  {
    if inbounds != [] {
      assert forall i :: 0 <= i < |inbounds[1..]| ==> inbounds[1..][i] == inbounds[i + 1];
      WithoutInboundUnique(inbounds[1..], id);
      WithoutInboundIs(inbounds[1..], id);
      var rest := WithoutInbound(inbounds[1..], id);
      forall j | 0 <= j < |rest| ensures rest[j].id != inbounds[0].id {
        assert rest[j] in inbounds[1..];
        var k :| 0 <= k < |inbounds[1..]| && inbounds[1..][k] == rest[j];
        assert inbounds[k + 1] == rest[j];
      }
      UniqueFirstInbound(inbounds[0], rest);
      assert WithoutInbound(inbounds, id) == [inbounds[0]] + rest || WithoutInbound(inbounds, id) == rest;
    }
  }

  lemma SameIndex(inbounds: seq<Inbound>, i: nat, j: nat)
    requires UniqueInbounds(inbounds) && i < |inbounds| && j < |inbounds| && inbounds[i].id == inbounds[j].id
    ensures i == j
  {
  }

  // Hops of other inbounds find the same inbound before and after a save.
  lemma {:induction false} GetSame(before: seq<Inbound>, after: seq<Inbound>, hop: Hop)
    requires UniqueInbounds(before) && UniqueInbounds(after)
    requires forall i: Inbound :: hop.inbound == Some(i.id) ==> (i in before <==> i in after)
    ensures GetInbound(before, hop) == GetInbound(after, hop)
  {
    var x, y := GetInbound(before, hop), GetInbound(after, hop);
    if x.Some? && y.Some? {
      var i :| 0 <= i < |before| && before[i] == x.value;
      var j :| 0 <= j < |before| && before[j] == y.value;
      SameIndex(before, i, j);
    }
  }

  ghost predicate Saved(s: State, t: State, resource: string, saved: Inbound) {
    && saved.id == resource && t.inbounds == WithoutInbound(s.inbounds, resource) + [saved]
    && |t.proxies| == |s.proxies| && !Busy(t)
    && forall k :: 0 <= k < |s.proxies| ==>
         && t.proxies[k].id == s.proxies[k].id
         && (t.proxies[k].dirty || (t.proxies[k] == s.proxies[k] && !Refers(s.proxies[k], resource)))
  }

  lemma SavedUnique(s: State, t: State, resource: string, saved: Inbound)
    requires UniqueInbounds(s.inbounds) && Saved(s, t, resource, saved)
    ensures UniqueInbounds(t.inbounds)
  {
    WithoutInboundUnique(s.inbounds, resource);
    WithoutInboundIs(s.inbounds, resource);
    var rest := WithoutInbound(s.inbounds, resource);
    forall i | 0 <= i < |rest| ensures rest[i].id != resource {
      assert rest[i] in rest;
    }
    UniqueFirstInbound(saved, rest);
  }

  lemma SavedClean(s: State, t: State, resource: string, saved: Inbound)
    requires UniqueInbounds(s.inbounds) && UniqueInbounds(t.inbounds) && AllClean(s) && Saved(s, t, resource, saved)
    ensures AllClean(t)
  {
    WithoutInboundIs(s.inbounds, resource);
    forall p | p in t.proxies ensures CleanIsPublished(p, t.inbounds) {
      var k :| 0 <= k < |t.proxies| && t.proxies[k] == p;
      assert CleanIsPublished(s.proxies[k], s.inbounds);
      if !p.dirty {
        forall h | 0 <= h < |p.chain| ensures HopPublished(p.chain[h], t.inbounds) {
          assert HopPublished(p.chain[h], s.inbounds);
          assert p.chain[h].inbound != Some(resource);
          GetSame(s.inbounds, t.inbounds, p.chain[h]);
        }
      }
    }
  }

  lemma SavedPorts(s: State, t: State, resource: string, saved: Inbound)
    requires PortsApart(s.inbounds) && Saved(s, t, resource, saved)
    requires var existing := FindInbound(s.inbounds, resource);
             && (existing.Some? ==> existing.value.server == saved.server && saved.published == existing.value.published)
             && (existing.None? ==> saved.published.None?)
             && !PortConflict(s.inbounds, saved.server, saved.config.port, if existing.Some? then Some(resource) else None)
    ensures PortsApart(t.inbounds)
  {
    WithoutInboundIs(s.inbounds, resource);
    forall i, j | i in t.inbounds && j in t.inbounds ensures Apart(i, j) {
      if i != saved && j != saved {
        assert Apart(i, j);
      } else if i != saved {
        SavedApart(s, resource, saved, i);
      } else if j != saved {
        SavedApart(s, resource, saved, j);
      }
    }
  }

  lemma SavedApart(s: State, resource: string, saved: Inbound, i: Inbound)
    requires PortsApart(s.inbounds) && i in s.inbounds && i.id != resource && saved.id == resource
    requires var existing := FindInbound(s.inbounds, resource);
             && (existing.Some? ==> existing.value.server == saved.server && saved.published == existing.value.published)
             && (existing.None? ==> saved.published.None?)
             && !PortConflict(s.inbounds, saved.server, saved.config.port, if existing.Some? then Some(resource) else None)
    ensures Apart(i, saved) && Apart(saved, i)
  {
    var existing := FindInbound(s.inbounds, resource);
    assert existing.Some? ==> Apart(i, existing.value) && Apart(existing.value, i);
    var k :| 0 <= k < |s.inbounds| && s.inbounds[k] == i;
    assert i.server == saved.server ==> !HoldsPort(s.inbounds[k], saved.config.port);
    if i.server == saved.server && saved.published.Some? {
      assert HoldsPort(existing.value, saved.published.value.port);
    }
  }

  lemma SaveCoherent(s: State, id: string, position: int, config: Config, resource: string)
    requires Coherent(s)
    ensures Coherent(HopSaved(s, id, position, config, resource)) || HopSaved(s, id, position, config, resource) == s
  {
    var t := HopSaved(s, id, position, config, resource);
    if t != s {
      var saved := t.inbounds[|t.inbounds| - 1];
      assert Saved(s, t, resource, saved);
      SavedUnique(s, t, resource, saved);
      SavedClean(s, t, resource, saved);
      SavedPorts(s, t, resource, saved);
    }
  }

  // ---- Operations ----

  // Chains that differ in their progress only.
  ghost predicate SameChain(p: Proxy, q: Proxy) {
    q.id == p.id && q.name == p.name && q.chain == p.chain && q.egress == p.egress && q.published == p.published
  }

  ghost predicate SameChains(before: seq<Proxy>, after: seq<Proxy>) {
    |after| == |before| && forall k :: 0 <= k < |before| ==> SameChain(before[k], after[k])
  }

  lemma {:induction false} FindSame(before: seq<Proxy>, after: seq<Proxy>, id: string)
    requires SameChains(before, after)
    ensures FindProxy(before, id).Some? <==> FindProxy(after, id).Some?
    ensures FindProxy(before, id).Some? ==> SameChain(FindProxy(before, id).value, FindProxy(after, id).value)
  {
    if before != [] {
      assert SameChain(before[0], after[0]);
      forall k | 0 <= k < |before[1..]| ensures SameChain(before[1..][k], after[1..][k]) {
        assert SameChain(before[k + 1], after[k + 1]);
      }
      FindSame(before[1..], after[1..], id);
    }
  }

  lemma SharesSame(s: State, t: State, ids: seq<string>, p: Proxy, q: Proxy)
    requires SameChains(s.proxies, t.proxies) && t.inbounds == s.inbounds && SameChain(p, q) && SharesOnlyWith(s, ids, p)
    ensures SharesOnlyWith(t, ids, q)
  {
    forall j, r | 0 <= j < |q.chain| && GetInbound(t.inbounds, q.chain[j]).Some? && Dirty(GetInbound(t.inbounds, q.chain[j]).value)
                  && r in t.proxies && Refers(r, GetInbound(t.inbounds, q.chain[j]).value.id)
      ensures r.id in ids
    {
      var k :| 0 <= k < |t.proxies| && t.proxies[k] == r;
      assert SameChain(s.proxies[k], r);
      assert Refers(s.proxies[k], GetInbound(s.inbounds, p.chain[j]).value.id);
    }
  }

  lemma ConfirmedSame(s: State, t: State, ids: seq<string>)
    requires Confirmed(s, ids) && SameChains(s.proxies, t.proxies) && t.inbounds == s.inbounds && t.servers == s.servers
    ensures Confirmed(t, ids)
  {
    forall k | 0 <= k < |ids|
      ensures var p := FindProxy(t.proxies, ids[k]);
              p.Some? && Ready(p.value, t.inbounds, t.servers) && SharesOnlyWith(t, ids, p.value)
    {
      FindSame(s.proxies, t.proxies, ids[k]);
      SharesSame(s, t, ids, FindProxy(s.proxies, ids[k]).value, FindProxy(t.proxies, ids[k]).value);
    }
  }

  // Progress that marks no chain as clean.
  lemma ProgressCoherent(s: State, t: State)
    requires Coherent(s) && t.inbounds == s.inbounds && SameChains(s.proxies, t.proxies) && StillConfirmed(t)
    requires forall k :: 0 <= k < |s.proxies| ==> (t.proxies[k].dirty || t.proxies[k].dirty == s.proxies[k].dirty)
    ensures Coherent(t)
  {
    forall i, j | 0 <= i < j < |t.proxies| ensures t.proxies[i].id != t.proxies[j].id {
      assert SameChain(s.proxies[i], t.proxies[i]) && SameChain(s.proxies[j], t.proxies[j]);
    }
    forall p | p in t.proxies ensures CleanIsPublished(p, t.inbounds) {
      var k :| 0 <= k < |t.proxies| && t.proxies[k] == p;
      assert SameChain(s.proxies[k], p) && CleanIsPublished(s.proxies[k], s.inbounds);
    }
  }

  lemma StartCoherent(s: State, ids: seq<string>, fail: bool)
    requires Coherent(s)
    ensures Coherent(Started(s, ids, fail))
  {
    var t := Started(s, ids, fail);
    if Confirmed(s, ids) {
      ConfirmedSame(s, t, ids);
      ProgressCoherent(s, t);
    }
  }

  // ---- Publishing ----

  ghost predicate KeepsIdentity(f: Inbound -> Inbound) {
    forall i :: f(i).id == i.id && f(i).server == i.server && f(i).config == i.config
  }

  lemma {:induction false} GetMapped(inbounds: seq<Inbound>, f: Inbound -> Inbound, hop: Hop)
    requires KeepsIdentity(f)
    ensures var x, y := GetInbound(inbounds, hop), GetInbound(Mapped(inbounds, f), hop);
            (x.Some? <==> y.Some?) && (x.Some? ==> y.value == f(x.value))
  {
    if inbounds != [] {
      assert Mapped(inbounds, f)[1..] == Mapped(inbounds[1..], f);
      GetMapped(inbounds[1..], f, hop);
    }
  }

  ghost function Publishing(s: State, ids: seq<string>): Inbound -> Inbound {
    (i: Inbound) => if Applies(s, ids, i.id) then Published(i) else i
  }

  // The draft of an applied chain has all its inbounds, and they are published now.
  lemma AppliedClean(s: State, ids: seq<string>, p: Proxy)
    requires UniqueProxies(s.proxies) && Confirmed(s, ids) && p in s.proxies && p.id in ids
    ensures InboundsPublished(p.chain, Mapped(s.inbounds, Publishing(s, ids)))
  {
    var k :| 0 <= k < |ids| && ids[k] == p.id;
    FoundAgain(s.proxies, p);
    forall h | 0 <= h < |p.chain| ensures HopPublished(p.chain[h], Mapped(s.inbounds, Publishing(s, ids))) {
      assert HopReady(p.chain[h], h, s.inbounds, s.servers);
      GetMapped(s.inbounds, Publishing(s, ids), p.chain[h]);
      assert Uses(p.chain, GetInbound(s.inbounds, p.chain[h]).value.id);
      var n :| 0 <= n < |s.proxies| && s.proxies[n] == p;
    }
  }

  lemma FoundAgain(proxies: seq<Proxy>, p: Proxy)
    requires UniqueProxies(proxies) && p in proxies
    ensures FindProxy(proxies, p.id) == Some(p)
  {
    var found := FindProxy(proxies, p.id);
    assert found.Some?;
    var i :| 0 <= i < |proxies| && proxies[i] == p;
    var j :| 0 <= j < |proxies| && proxies[j] == found.value;
    SameProxyIndex(proxies, i, j);
  }

  lemma SameProxyIndex(proxies: seq<Proxy>, i: nat, j: nat)
    requires UniqueProxies(proxies) && i < |proxies| && j < |proxies| && proxies[i].id == proxies[j].id
    ensures i == j
  {
  }

  lemma StaysPublished(s: State, ids: seq<string>, chain: seq<Hop>)
    requires InboundsPublished(chain, s.inbounds)
    ensures InboundsPublished(chain, Mapped(s.inbounds, Publishing(s, ids)))
  {
    forall h | 0 <= h < |chain| ensures HopPublished(chain[h], Mapped(s.inbounds, Publishing(s, ids))) {
      assert HopPublished(chain[h], s.inbounds);
      GetMapped(s.inbounds, Publishing(s, ids), chain[h]);
    }
  }

  lemma PublishedPorts(inbounds: seq<Inbound>, f: Inbound -> Inbound)
    requires PortsApart(inbounds) && forall i :: f(i) == i || f(i) == Published(i)
    ensures PortsApart(Mapped(inbounds, f))
  {
    var after := Mapped(inbounds, f);
    forall i, j | i in after && j in after ensures Apart(i, j) {
      var m :| 0 <= m < |after| && after[m] == i;
      var n :| 0 <= n < |after| && after[n] == j;
      assert Apart(inbounds[m], inbounds[n]);
      assert forall port :: HoldsPort(i, port) ==> HoldsPort(inbounds[m], port);
      assert forall port :: HoldsPort(j, port) ==> HoldsPort(inbounds[n], port);
    }
  }

  lemma PublishCoherent(s: State)
    requires Coherent(s) && Busy(s) && s.operation.value.phase == Applying && !s.operation.value.fail
    ensures Coherent(Advanced(s))
  {
    var ids := s.operation.value.ids;
    var t := Advanced(s);
    assert t.inbounds == Mapped(s.inbounds, Publishing(s, ids));
    PublishedPorts(s.inbounds, Publishing(s, ids));
    forall p | p in t.proxies ensures CleanIsPublished(p, t.inbounds) {
      var k :| 0 <= k < |t.proxies| && t.proxies[k] == p;
      assert s.proxies[k] in s.proxies && CleanIsPublished(s.proxies[k], s.inbounds);
      if p.id in ids {
        AppliedClean(s, ids, s.proxies[k]);
      } else if !p.dirty {
        StaysPublished(s, ids, p.chain);
      }
    }
  }

  lemma AdvanceCoherent(s: State)
    requires Coherent(s)
    ensures Coherent(Advanced(s))
  {
    if Busy(s) {
      var operation := s.operation.value;
      if operation.phase == Applying && !operation.fail {
        PublishCoherent(s);
      } else {
        var t := Advanced(s);
        if operation.phase == Preparing {
          ConfirmedSame(s, t, operation.ids);
        }
        ProgressCoherent(s, t);
      }
    }
  }

  // ---- Runs ----

  lemma EditsCoherent(s: State, action: Action, servers: seq<Server>)
    requires Coherent(s) && !Busy(s)
    requires action.Rename? || action.AppendHop? || action.RemoveHop? || action.MoveHop? || action.SelectServer? || action.ReuseHop? || action.SetEgress?
    ensures Coherent(Reduce(s, action, servers))
  {
    var t := Reduce(s, action, servers);
    if t != s {
      forall k | 0 <= k < |s.proxies|
        ensures |t.proxies| == |s.proxies| && t.proxies[k].id == s.proxies[k].id && (t.proxies[k] == s.proxies[k] || t.proxies[k].dirty)
      {
        EditsOne(s, action, servers, k);
      }
      assert |t.proxies| == |s.proxies| by {
        LengthKept(s, action, servers);
      }
      EditCoherent(s, t);
    }
  }

  lemma LengthKept(s: State, action: Action, servers: seq<Server>)
    requires !Busy(s)
    requires action.Rename? || action.AppendHop? || action.RemoveHop? || action.MoveHop? || action.SelectServer? || action.ReuseHop? || action.SetEgress?
    ensures |Reduce(s, action, servers).proxies| == |s.proxies|
  {
  }

  lemma EditsOne(s: State, action: Action, servers: seq<Server>, k: nat)
    requires !Busy(s) && k < |s.proxies|
    requires action.Rename? || action.AppendHop? || action.RemoveHop? || action.MoveHop? || action.SelectServer? || action.ReuseHop? || action.SetEgress?
    ensures var t := Reduce(s, action, servers);
            |t.proxies| == |s.proxies| && t.proxies[k].id == s.proxies[k].id && (t.proxies[k] == s.proxies[k] || t.proxies[k].dirty)
  {
    match action
    case ReuseHop(id, position, inbound) =>
    case SelectServer(id, position, server) =>
    case _ =>
  }

  lemma ToggleCoherent(s: State, id: string, servers: seq<Server>)
    requires Coherent(s) && !Busy(s)
    ensures Coherent(Reduce(s, ServerToggle(id), servers))
  {
  }

  lemma ReduceCoherent(s: State, action: Action, servers: seq<Server>)
    requires Coherent(s)
    ensures Coherent(Reduce(s, action, servers))
  {
    if !Busy(s) || action == Advance {
      match action
      case ServerToggle(id) => ToggleCoherent(s, id, servers);
      case Add(proxy) => AddCoherent(s, proxy);
      case Remove(id) => RemoveCoherent(s, id);
      case SaveHop(id, position, config, resource) => SaveCoherent(s, id, position, config, resource);
      case RevertChain(id) => RevertCoherent(s, id);
      case Start(ids, fail) => StartCoherent(s, ids, fail);
      case Advance => AdvanceCoherent(s);
      case Reset =>
      case _ => EditsCoherent(s, action, servers);
    }
  }

  ghost function Execute(servers: seq<Server>, actions: seq<Action>): State {
    if actions == [] then Initial(servers) else Reduce(Execute(servers, actions[..|actions| - 1]), actions[|actions| - 1], servers)
  }

  lemma {:induction false} RunCoherent(servers: seq<Server>, actions: seq<Action>)
    ensures Coherent(Execute(servers, actions))
  {
    if actions != [] {
      RunCoherent(servers, actions[..|actions| - 1]);
      ReduceCoherent(Execute(servers, actions[..|actions| - 1]), actions[|actions| - 1], servers);
    }
  }

  // ---- The promises of the workspace ----

  // Two inbounds of one server never have a port in common, drafted or published.
  lemma PortsNeverShared(servers: seq<Server>, actions: seq<Action>, i: Inbound, j: Inbound, port: int)
    requires i in Execute(servers, actions).inbounds && j in Execute(servers, actions).inbounds
    requires i.server == j.server && HoldsPort(i, port) && HoldsPort(j, port)
    ensures i.id == j.id
  {
    RunCoherent(servers, actions);
    assert Apart(i, j);
  }

  // A clean chain is its published snapshot, and each of its hops has an inbound that is published as it is drafted.
  lemma CleanChainsArePublished(servers: seq<Server>, actions: seq<Action>, p: Proxy, k: nat)
    requires p in Execute(servers, actions).proxies && !p.dirty
    ensures p.published == Some(Snapshot(p.name, p.chain, p.egress))
    ensures k < |p.chain| ==>
      var i := GetInbound(Execute(servers, actions).inbounds, p.chain[k]);
      i.Some? && i.value.published == Some(i.value.config)
  {
    RunCoherent(servers, actions);
    assert CleanIsPublished(p, Execute(servers, actions).inbounds);
    assert k < |p.chain| ==> HopPublished(p.chain[k], Execute(servers, actions).inbounds);
  }

  // An apply changes no published inbound that a chain outside the applied ones refers to, in its draft or its snapshot.
  lemma ApplyIsIsolated(servers: seq<Server>, actions: seq<Action>, k: nat, q: Proxy)
    requires Busy(Execute(servers, actions)) && k < |Execute(servers, actions).inbounds|
    requires q in Execute(servers, actions).proxies && q.id !in Execute(servers, actions).operation.value.ids
    requires Refers(q, Execute(servers, actions).inbounds[k].id)
    ensures var s, t := Execute(servers, actions), Advanced(Execute(servers, actions));
            |t.inbounds| == |s.inbounds| && t.inbounds[k] == s.inbounds[k]
  {
    RunCoherent(servers, actions);
    var s := Execute(servers, actions);
    var i, ids := s.inbounds[k], s.operation.value.ids;
    if Applies(s, ids, i.id) {
      AppliedIsUnchanged(s, ids, i, q);
    }
  }

  lemma AppliedIsUnchanged(s: State, ids: seq<string>, i: Inbound, q: Proxy)
    requires Coherent(s) && Confirmed(s, ids) && i in s.inbounds && Applies(s, ids, i.id)
    requires q in s.proxies && q.id !in ids && Refers(q, i.id)
    ensures !Dirty(i)
  {
    var n :| 0 <= n < |s.proxies| && s.proxies[n].id in ids && Uses(s.proxies[n].chain, i.id);
    var p := s.proxies[n];
    FoundAgain(s.proxies, p);
    var m :| 0 <= m < |ids| && ids[m] == p.id;
    var h :| 0 <= h < |p.chain| && p.chain[h].inbound == Some(i.id);
    HopIsThis(s, p.chain, h, i);
    assert SharesOnlyWith(s, ids, p);
  }

  lemma HopIsThis(s: State, chain: seq<Hop>, h: nat, i: Inbound)
    requires UniqueInbounds(s.inbounds) && i in s.inbounds && h < |chain| && chain[h].inbound == Some(i.id)
    requires HopReady(chain[h], h, s.inbounds, s.servers)
    ensures GetInbound(s.inbounds, chain[h]) == Some(i)
  {
    SameInbound(s.inbounds, GetInbound(s.inbounds, chain[h]).value, i);
  }

  // The last step of an apply that does not fail.
  predicate Completes(s: State, action: Action) {
    action.Advance? && Busy(s) && s.operation.value.phase == Applying && !s.operation.value.fail
  }

  // Nothing but the last step of a successful apply, and a reset, changes what is published of an inbound.
  lemma OnlyAppliesPublish(s: State, action: Action, servers: seq<Server>, i: Inbound)
    requires Coherent(s) && i in s.inbounds && !Completes(s, action) && !action.Reset?
    ensures var after := FindInbound(Reduce(s, action, servers).inbounds, i.id);
            after.Some? && after.value.published == i.published
  {
    var t := Reduce(s, action, servers);
    OneOfId(s.inbounds, i);
    if t.inbounds != s.inbounds {
      assert action.SaveHop?;
      WithoutInboundIs(s.inbounds, action.resource);
      var saved := t.inbounds[|t.inbounds| - 1];
      assert i.id == action.resource || i in t.inbounds;
      var after := FindInbound(t.inbounds, i.id);
      assert saved in t.inbounds;
      if i.id != action.resource {
        assert after.value in WithoutInbound(s.inbounds, action.resource);
        SameInbound(s.inbounds, after.value, i);
      }
    }
  }

  ghost predicate KeepsSnapshots(before: seq<Proxy>, after: seq<Proxy>) {
    && |after| >= |before|
    && forall k :: 0 <= k < |before| ==> after[k].id == before[k].id && after[k].published == before[k].published
  }

  lemma ActionKeepsSnapshots(s: State, action: Action, servers: seq<Server>)
    requires !Completes(s, action) && !action.Reset? && !action.Remove?
    ensures KeepsSnapshots(s.proxies, Reduce(s, action, servers).proxies)
  {
  }

  lemma {:induction false} RemovedOnlyDrafts(proxies: seq<Proxy>, id: string, other: string)
    ensures var after := FindProxy(WithoutProxy(proxies, id), other);
            var before := FindProxy(proxies, other);
            (other == id && before.Some? && before.value.published.None?) || after == before
  {
    if proxies != [] {
      RemovedOnlyDrafts(proxies[1..], id, other);
      var rest := WithoutProxy(proxies[1..], id);
      assert ([proxies[0]] + rest)[1..] == rest && [] + rest == rest;
    }
  }

  // Nothing but the last step of a successful apply, and a reset, changes the snapshot of a chain; a chain that has one
  // cannot be removed.
  lemma OnlyAppliesSnapshot(s: State, action: Action, servers: seq<Server>, p: Proxy)
    requires Coherent(s) && p in s.proxies && !Completes(s, action) && !action.Reset?
    ensures var after := FindProxy(Reduce(s, action, servers).proxies, p.id);
            if after.Some? then after.value.published == p.published else action == Remove(p.id) && p.published.None?
  {
    var t := Reduce(s, action, servers);
    FoundAgain(s.proxies, p);
    if action.Remove? {
      RemovedOnlyDrafts(s.proxies, action.id, p.id);
      var after := FindProxy(t.proxies, p.id);
      WithoutProxyIn(s.proxies, action.id);
      if after.Some? {
        FoundAgain(s.proxies, after.value);
      }
    } else {
      ActionKeepsSnapshots(s, action, servers);
      ReduceCoherent(s, action, servers);
      var k :| 0 <= k < |s.proxies| && s.proxies[k] == p;
      FoundAgain(t.proxies, t.proxies[k]);
    }
  }

  lemma OneOfId(inbounds: seq<Inbound>, i: Inbound)
    requires UniqueInbounds(inbounds) && i in inbounds
    ensures FindInbound(inbounds, i.id) == Some(i)
  {
    var found := FindInbound(inbounds, i.id);
    assert found.Some?;
    SameInbound(inbounds, found.value, i);
  }

  lemma SameInbound(inbounds: seq<Inbound>, x: Inbound, y: Inbound)
    requires UniqueInbounds(inbounds) && x in inbounds && y in inbounds && x.id == y.id
    ensures x == y
  {
    var a :| 0 <= a < |inbounds| && inbounds[a] == x;
    var b :| 0 <= b < |inbounds| && inbounds[b] == y;
    SameIndex(inbounds, a, b);
  }
}
