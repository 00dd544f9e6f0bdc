/** Cycle detection by a depth-first search in three colours: unvisited, in progress, and finished. */
module DepthFirst {
  import opened Common

  // Successors that are not vertices themselves are skipped.
  ghost predicate Edge<K(!new)>(graph: map<K, seq<K>>, u: K, v: K) {
    u in graph && v in graph && v in graph[u]
  }

  ghost predicate Path<K(!new)>(graph: map<K, seq<K>>, p: seq<K>) {
    forall i :: 0 <= i < |p| - 1 ==> Edge(graph, p[i], p[i + 1])
  }

  ghost predicate Cycle<K(!new)>(graph: map<K, seq<K>>, p: seq<K>) {
    |p| >= 2 && p[0] == p[|p| - 1] && Path(graph, p)
  }

  ghost predicate Cyclic<K(!new)>(graph: map<K, seq<K>>) {
    exists p :: Cycle(graph, p)
  }

  datatype Color = InProgress | Done

  class Search<K(==, !new)> {
    const graph: map<K, seq<K>>
    var colors: map<K, Color>
    // The finished vertices in the order in which they were finished.
    ghost var finished: seq<K>

    constructor (graph: map<K, seq<K>>)
      ensures this.graph == graph && colors == map[] && finished == [] && Ordered()
    {
      this.graph, colors, finished := graph, map[], [];
    }

    // All successors of a finished vertex were finished before it.
    ghost predicate Ordered()
      reads this
    {
      && colors.Keys <= graph.Keys
      && (forall v :: v in colors && colors[v] == Done <==> v in finished)
      && (forall i :: 0 <= i < |finished| ==> Finished(graph, finished, i))
    }

    // The vertices in progress are the ones on the stack, which is a path.
    ghost predicate Stacked(stack: seq<K>)
      reads this
    {
      (forall v :: v in colors && colors[v] == InProgress <==> v in stack) && Path(graph, stack)
    }

    method Visit(v: K, ghost stack: seq<K>) returns (ok: bool)
      requires v in graph && Ordered() && Stacked(stack) && Path(graph, stack + [v])
      modifies this
      ensures ok ==> Ordered() && Stacked(stack) && v in finished
      ensures ok ==> Later(old(colors.Keys), old(finished))
      ensures !ok ==> Cyclic(graph)
      decreases |graph.Keys - colors.Keys|, 0
    {
      if v in colors {
        if colors[v] == InProgress {
          BackEdge(graph, stack, v);
          return false;
        }
        return true;
      }
      FewerLeft(graph.Keys, colors.Keys, v);
      Enter(v, stack);
      ok := VisitAll(v, stack + [v]);
      if !ok { return; }
      Leave(v, stack);
    }

    // What was visited stays visited.
    ghost predicate Later(keys: set<K>, done: seq<K>)
      reads this
    {
      keys <= colors.Keys && forall u :: u in done ==> u in finished
    }

    method Enter(v: K, ghost stack: seq<K>)
      requires v in graph && v !in colors && Ordered() && Stacked(stack) && Path(graph, stack + [v])
      modifies this`colors
      ensures Ordered() && Stacked(stack + [v]) && colors.Keys == old(colors.Keys) + {v}
    {
      colors := colors[v := InProgress];
      assert forall u :: u in stack + [v] <==> u in stack || u == v;
    }

    method VisitAll(v: K, ghost stack: seq<K>) returns (ok: bool)
      requires v in graph && |stack| > 0 && stack[|stack| - 1] == v && Ordered() && Stacked(stack)
      modifies this
      ensures ok ==> Ordered() && Stacked(stack) && Covered(graph, graph[v], finished)
      ensures ok ==> Later(old(colors.Keys), old(finished))
      ensures !ok ==> Cyclic(graph)
      decreases |graph.Keys - colors.Keys|, 1
    {
      var i := 0;
      while i < |graph[v]|
        invariant i <= |graph[v]| && Ordered() && Stacked(stack)
        invariant Later(old(colors.Keys), old(finished))
        invariant Covered(graph, graph[v][..i], finished)
      {
        var w := graph[v][i];
        ghost var earlier := finished;
        if w in graph {
          Extend(graph, stack, w);
          NoMore(graph.Keys, old(colors.Keys), colors.Keys);
          ok := Visit(w, stack);
          if !ok { return; }
        }
        CoverNext(graph, graph[v], i, earlier, finished);
        i := i + 1;
      }
      assert graph[v][..i] == graph[v];
      ok := true;
    }

    method Leave(v: K, ghost stack: seq<K>)
      requires v in graph && v !in stack && Ordered() && Stacked(stack + [v]) && Covered(graph, graph[v], finished)
      modifies this
      ensures Ordered() && Stacked(stack) && v in finished && Later(old(colors.Keys), old(finished))
    {
      assert forall u :: u in stack + [v] <==> u in stack || u == v;
      colors := colors[v := Done];
      FinishLast(graph, finished, v);
      finished := finished + [v];
      PrefixPath(graph, stack, v);
    }
  }

  ghost predicate Finished<K(!new)>(graph: map<K, seq<K>>, finished: seq<K>, i: nat)
    requires i < |finished|
  {
    forall w :: Edge(graph, finished[i], w) ==> w in finished[..i]
  }

  ghost predicate Covered<K(!new)>(graph: map<K, seq<K>>, targets: seq<K>, finished: seq<K>) {
    forall w :: w in targets && w in graph ==> w in finished
  }

  lemma CoverNext<K(!new)>(graph: map<K, seq<K>>, targets: seq<K>, i: nat, earlier: seq<K>, finished: seq<K>)
    requires i < |targets| && Covered(graph, targets[..i], earlier) && forall u :: u in earlier ==> u in finished
    requires targets[i] in graph ==> targets[i] in finished
    ensures Covered(graph, targets[..i + 1], finished)
  {
    assert targets[..i + 1] == targets[..i] + [targets[i]];
  }

  lemma FinishLast<K(!new)>(graph: map<K, seq<K>>, finished: seq<K>, v: K)
    requires v in graph && forall i :: 0 <= i < |finished| ==> Finished(graph, finished, i)
    requires Covered(graph, graph[v], finished)
    ensures forall i :: 0 <= i < |finished| + 1 ==> Finished(graph, finished + [v], i)
  {
    var more := finished + [v];
    forall i | 0 <= i < |more| ensures Finished(graph, more, i) {
      if i < |finished| {
        assert Finished(graph, finished, i);
        assert more[..i] == finished[..i];
      } else {
        assert more[..i] == finished;
      }
    }
  }

  lemma Extend<K(!new)>(graph: map<K, seq<K>>, p: seq<K>, w: K)
    requires |p| > 0 && Path(graph, p) && Edge(graph, p[|p| - 1], w)
    ensures Path(graph, p + [w])
  {
  }

  lemma PrefixPath<K(!new)>(graph: map<K, seq<K>>, p: seq<K>, v: K)
    requires Path(graph, p + [v])
    ensures Path(graph, p)
  {
    forall i | 0 <= i < |p| - 1 ensures Edge(graph, p[i], p[i + 1]) {
      assert Edge(graph, (p + [v])[i], (p + [v])[i + 1]);
    }
  }

  lemma NoMore<K>(vertices: set<K>, before: set<K>, after: set<K>)
    requires before <= after
    ensures |vertices - after| <= |vertices - before|
  {
    Smaller(vertices - after, vertices - before);
  }

  // Meeting a vertex that is in progress closes a cycle.
  lemma BackEdge<K(!new)>(graph: map<K, seq<K>>, stack: seq<K>, v: K)
    requires v in stack && Path(graph, stack + [v])
    ensures Cyclic(graph)
  {
    var i :| 0 <= i < |stack| && stack[i] == v;
    var all := stack + [v];
    var p := all[i..];
    forall k | 0 <= k < |p| - 1 ensures Edge(graph, p[k], p[k + 1]) {
      assert Edge(graph, all[i + k], all[i + k + 1]);
    }
    assert Cycle(graph, p);
  }

  // ---- No cycle in an order in which successors come first ----

  lemma {:induction false} IndexOf<K(!new)>(s: seq<K>, x: K) returns (i: nat)
    requires x in s
    ensures i < |s| && s[i] == x && x !in s[..i]
  {
    if s[0] == x {
      i := 0;
    } else {
      i := IndexOf(s[1..], x);
      i := i + 1;
      assert s[..i] == [s[0]] + s[1..][..i - 1];
    }
  }

  lemma {:induction false} PathFalls<K(!new)>(graph: map<K, seq<K>>, finished: seq<K>, p: seq<K>, k: nat)
    requires graph.Keys <= (set v | v in finished) && forall i :: 0 <= i < |finished| ==> Finished(graph, finished, i)
    requires Path(graph, p) && 0 < k < |p|
    ensures forall i :: 0 <= i < |finished| && finished[i] == p[0] ==> p[k] in finished[..i]
  {
    forall i | 0 <= i < |finished| && finished[i] == p[0] ensures p[k] in finished[..i] {
      assert Edge(graph, p[0], p[1]);
      assert Finished(graph, finished, i);
      assert p[1] in finished[..i];
      if k > 1 {
        var j :| 0 <= j < i && finished[j] == p[1];
        var rest := p[1..];
        forall x | 0 <= x < |rest| - 1 ensures Edge(graph, rest[x], rest[x + 1]) {
          assert Edge(graph, p[x + 1], p[x + 2]);
        }
        PathFalls(graph, finished, rest, k - 1);
        assert rest[k - 1] in finished[..j];
        assert p[k] in finished[..i];
      }
    }
  }

  lemma OrderedIsAcyclic<K(!new)>(graph: map<K, seq<K>>, finished: seq<K>)
    requires graph.Keys <= (set v | v in finished) && forall i :: 0 <= i < |finished| ==> Finished(graph, finished, i)
    ensures !Cyclic(graph)
  {
    if Cyclic(graph) {
      var p :| Cycle(graph, p);
      assert Edge(graph, p[0], p[1]);
      var i := IndexOf(finished, p[0]);
      PathFalls(graph, finished, p, |p| - 1);
      assert false;
    }
  }

  // The search over all vertices succeeds exactly on the graphs without a cycle.
  method IsAcyclic<K(==, !new)>(graph: map<K, seq<K>>) returns (ok: bool)
    ensures ok <==> !Cyclic(graph)
  {
    var search := new Search(graph);
    var left := graph.Keys;
    while left != {}
      invariant left <= graph.Keys && search.graph == graph && search.Ordered() && search.Stacked([])
      invariant forall v :: v in graph && v !in left ==> v in search.finished
      decreases |left|
    {
      var v := Pick(left);
      ok := search.Visit(v, []);
      if !ok { return; }
      left := left - {v};
    }
    OrderedIsAcyclic(graph, search.finished);
    ok := true;
  }
}
