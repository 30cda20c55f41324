// Which predecessors the search can leave behind. A distance is written only when it
// becomes smaller, so of all routers a shortest route may come from, the first one popped
// stays recorded; and routers at different distances are not popped in any other order.
module Ties {
  import opened Graphs
  import opened Dijkstra

  // ---------- The first one popped stays recorded ----------

  ghost predicate Tight(g: Graph, st: Search, u: int, v: int) {
    u in g && u in st.dist && v in st.dist && Link(v, st.dist[v] - st.dist[u]) in g[u]
  }

  // If v could hang from the i-th done router, it hangs from that one or an earlier one.
  ghost predicate FirstAt(g: Graph, st: Search, v: int, i: int) {
    v in st.pred && 0 <= i < |st.done| && Tight(g, st, st.done[i], v) ==>
      st.pred[v] in st.done[..i + 1] && st.pred[v] in st.dist && st.dist[st.pred[v]] <= st.dist[st.done[i]]
  }

  ghost predicate FirstParents(g: Graph, st: Search) {
    forall v, i {:trigger FirstAt(g, st, v, i)} :: FirstAt(g, st, v, i)
  }

  lemma PopFirst(g: Graph, s: int, st: Search, i: nat)
    requires Sound(g) && Inv(g, s, st) && IsTop(st.queue, i) && st.queue[i].1 !in st.done && FirstParents(g, st)
    ensures FirstParents(g, Pop(st, i))
  {
    var u, st' := st.queue[i].1, Pop(st, i);
    TopIsNext(g, s, st, i);
    NextKey(g, st, i);
    assert st'.done == st.done + [u];
    forall v, j ensures FirstAt(g, st', v, j) {
      assert FirstAt(g, st, v, j);
      if v in st.pred && 0 <= j < |st'.done| {
        assert ParentOk(g, st, v);
        if j < |st.done| {
          assert st'.done[..j + 1] == st.done[..j + 1];
        } else {
          assert st'.done[..j + 1] == st.done + [u];
        }
      }
    }
  }

  // A better way to v beats every earlier router: those have offered theirs already.
  lemma NotTightAfter(g: Graph, s: int, st: Search, u: int, n: nat, w: int)
    requires Sound(g) && Scanning(g, s, st, u, n) && n < |g[u]| && g[u][n].to in g
    requires st.dist[u] + g[u][n].cost < st.dist[g[u][n].to] && w in st.done && w != u
    ensures !Tight(g, Relax(st, u, g[u][n]), w, g[u][n].to)
  {
    DoneUnimproved(g, s, st, u, n);
    assert RelaxedUpTo(g, st, w, |g[w]|);
  }

  lemma RelaxFirst(g: Graph, s: int, st: Search, u: int, n: nat)
    requires Sound(g) && Scanning(g, s, st, u, n) && n < |g[u]| && FirstParents(g, st)
    requires st.done[|st.done| - 1] == u
    ensures FirstParents(g, Relax(st, u, g[u][n]))
  {
    assert g[u][n] in g[u];
    var l, st' := g[u][n], Relax(st, u, g[u][n]);
    if st.dist[u] + l.cost < st.dist[l.to] {
      DoneUnimproved(g, s, st, u, n);
      forall v, i ensures FirstAt(g, st', v, i) {
        assert FirstAt(g, st, v, i);
        if v in st'.pred && 0 <= i < |st.done| {
          assert st.done[i] in st.done;
          if v != l.to {
            assert ParentOk(g, st, v);
          } else if i < |st.done| - 1 {
            NotTightAfter(g, s, st, u, n, st.done[i]);
          } else {
            assert st.done[..i + 1] == st.done;
          }
        }
      }
    }
  }

  lemma {:induction false} ScanFirst(g: Graph, s: int, u: int, mid: seq<Search>, k: nat)
    requires Sound(g) && k < |mid| && u in g && IsScan(u, g[u], mid) && Scanning(g, s, mid[0], u, 0)
    requires FirstParents(g, mid[0]) && mid[0].done[|mid[0].done| - 1] == u
    ensures FirstParents(g, mid[k])
    decreases k
  {
    if k > 0 {
      ScanFirst(g, s, u, mid, k - 1);
      ScanKeeps(g, s, u, mid, k - 1);
      assert ScanAt(u, g[u], mid, k - 1);
      RelaxFirst(g, s, mid[k - 1], u, k - 1);
    }
  }

  lemma StaleFirst(g: Graph, st: Search, i: nat)
    requires FirstParents(g, st) && i < |st.queue| && st.queue[i].1 in st.done
    ensures FirstParents(g, Pop(st, i))
  {
    forall v, j ensures FirstAt(g, Pop(st, i), v, j) {
      assert FirstAt(g, st, v, j);
    }
  }

  lemma StepFirst(g: Graph, s: int, st: Search, i: nat, st': Search)
    requires Sound(g) && Inv(g, s, st) && IsStep(g, st, i, st') && FirstParents(g, st)
    ensures FirstParents(g, st')
  {
    var u := st.queue[i].1;
    if u in st.done {
      StaleStep(g, s, st, i, st');
      StaleFirst(g, st, i);
    } else {
      var mid :| IsScan(u, g[u], mid) && |mid| == |g[u]| + 1 && mid[0] == Pop(st, i) && mid[|mid| - 1] == st';
      FirstPop(g, s, st, i);
      PopFirst(g, s, st, i);
      ScanFirst(g, s, u, mid, |mid| - 1);
    }
  }

  lemma {:induction false} RunFirst(g: Graph, s: int, run: seq<Search>, choice: seq<nat>, k: nat)
    requires Sound(g) && s in g && IsRun(g, s, run, choice) && k < |run|
    ensures FirstParents(g, run[k])
    decreases k
  {
    if k > 0 {
      RunFirst(g, s, run, choice, k - 1);
      RunInv(g, s, run, choice, k - 1);
      assert IsRunAt(g, run, choice, k - 1);
      StepFirst(g, s, run[k - 1], choice[k - 1], run[k]);
    }
  }

  lemma ReachableFirst(g: Graph, s: int, st: Search)
    requires Sound(g) && s in g && Reachable(g, s, st)
    ensures FirstParents(g, st)
  {
    var run, choice :| IsRun(g, s, run, choice) && run[|choice|] == st;
    RunFirst(g, s, run, choice, |choice|);
  }

  // In the end every possible parent has been popped, and counts as one.
  lemma ParentDone(g: Graph, s: int, st: Search, v: int, u: int)
    requires Sound(g) && s in g && Inv(g, s, st) && st.queue == [] && v in g && CanBeParent(g, s, v, u)
    ensures u in st.done && Tight(g, st, u, v)
  {
    FinalDistances(g, s, st, u);
    FinalDistances(g, s, st, v);
    assert Pending(st, u);
  }

  // None of the routers v could hang from is nearer than h.
  ghost predicate Nearest(g: Graph, s: int, v: int, h: int) {
    forall u | CanBeParent(g, s, v, u) :: Distance(g, s, h) <= Distance(g, s, u)
  }

  // No run records any but a nearest one.
  lemma RecordedNearest(g: Graph, s: int, tree: map<int, int>, v: int)
    requires Sound(g) && s in g && Recorded(g, s, tree) && v in tree
    ensures CanBeParent(g, s, v, tree[v]) && Nearest(g, s, v, tree[v])
  {
    var st :| Reachable(g, s, st) && st.queue == [] && st.pred == tree;
    ReachableInv(g, s, st);
    ReachableFirst(g, s, st);
    FinalTree(g, s, st);
    assert BranchOk(g, s, tree, v);
    forall u | CanBeParent(g, s, v, u) ensures Distance(g, s, tree[v]) <= Distance(g, s, u) {
      ParentDone(g, s, st, v, u);
      var i :| 0 <= i < |st.done| && st.done[i] == u;
      assert FirstAt(g, st, v, i);
      FinalDistances(g, s, st, u);
      FinalDistances(g, s, st, tree[v]);
    }
  }

  // ---------- Any nearest one is recorded by some run ----------

  lemma RouteSplits(g: Graph, s: int, p: Route)
    requires IsRoute(g, s, p) && p != []
    ensures var front, l := p[..|p| - 1], p[|p| - 1];
            IsRoute(g, s, front) && End(s, front) in g && l in g[End(s, front)] &&
            l.to == End(s, p) && Cost(p) == Cost(front) + l.cost
  {
  }

  lemma LastLink(g: Graph, s: int, u: int, l: Link, d: int)
    requires Sound(g) && u in g && l in g[u] && Distance(g, s, u) <= d && l.cost + d == Distance(g, s, l.to) < INFINITY
    ensures CanBeParent(g, s, l.to, u)
  {
    LinkDistance(g, u, l);
    Triangle(g, s, u, l.to);
  }

  lemma ParentExists(g: Graph, s: int, v: int) returns (u: int)
    requires Sound(g) && v != s && Distance(g, s, v) < INFINITY
    ensures CanBeParent(g, s, v, u)
  {
    var p :| IsRoute(g, s, p) && End(s, p) == v && Cost(p) == Distance(g, s, v);
    RouteSplits(g, s, p);
    var front, l := p[..|p| - 1], p[|p| - 1];
    u := End(s, front);
    DistanceAtMost(g, s, front);
    LastLink(g, s, u, l, Cost(front));
  }

  // A distance is never below the true one.
  lemma NotBelow(g: Graph, s: int, st: Search, v: int)
    requires Sound(g) && Inv(g, s, st) && v in g
    ensures Distance(g, s, v) <= st.dist[v]
  {
    if v == s {
      SelfDistance(g, s);
    } else if st.dist[v] < INFINITY {
      assert ParentOk(g, st, v);
      var u := st.pred[v];
      var j :| 0 <= j < |st.done| && st.done[j] == u;
      RouteFound(g, s, st, j);
      ExtendReach(g, s, u, st.dist[u], Link(v, st.dist[v] - st.dist[u]));
      var p :| IsRoute(g, s, p) && End(s, p) == v && Cost(p) == st.dist[v];
      DistanceAtMost(g, s, p);
    }
  }

  // Up to the lowest distance queued, distances are the true ones.
  lemma {:induction false} NearExact(g: Graph, s: int, st: Search, d: nat, v: int)
    requires Sound(g) && Positive(g) && Inv(g, s, st) && (forall q | q in st.queue :: d <= -q.0)
    requires v in g && Distance(g, s, v) <= d && Distance(g, s, v) < INFINITY
    ensures st.dist[v] == Distance(g, s, v)
    decreases Distance(g, s, v)
  {
    NotBelow(g, s, st, v);
    if v != s {
      var u := ParentExists(g, s, v);
      NearExact(g, s, st, d, u);
      assert Pending(st, u);
      assert RelaxedUpTo(g, st, u, |g[u]|);
      var k :| 0 <= k < |g[u]| && g[u][k] == Link(v, Distance(g, s, v) - Distance(g, s, u));
    }
  }

  // Among equal keys h goes first.
  lemma Prefer(g: Graph, s: int, h: int, st: Search) returns (i: nat)
    requires Sound(g) && Positive(g) && Inv(g, s, st) && h in g && Distance(g, s, h) < INFINITY && st.queue != []
    ensures IsTop(st.queue, i)
    ensures h !in st.done && Distance(g, s, h) <= -st.queue[i].0 ==> st.queue[i].1 == h
  {
    i := TopExists(st.queue);
    var d := -st.queue[i].0;
    NextKey(g, st, i);
    if h !in st.done && Distance(g, s, h) <= d {
      forall q | q in st.queue ensures d <= -q.0 {
        var j :| 0 <= j < |st.queue| && st.queue[j] == q;
      }
      NearExact(g, s, st, d, h);
      assert Pending(st, h);
      i :| 0 <= i < |st.queue| && st.queue[i] == (-st.dist[h], h);
    }
  }

  // Routers done before h are nearer than h.
  ghost predicate Preferred(g: Graph, s: int, h: int, done: seq<int>) {
    forall j {:trigger PreferredAt(g, s, h, done, j)} | 0 <= j < |done| :: PreferredAt(g, s, h, done, j)
  }

  ghost predicate PreferredAt(g: Graph, s: int, h: int, done: seq<int>, j: nat)
    requires j < |done|
  {
    h in done[..j + 1] || Distance(g, s, done[j]) < Distance(g, s, h)
  }

  lemma PreferredGrows(g: Graph, s: int, h: int, done: seq<int>, u: int)
    requires Preferred(g, s, h, done) && (h in done + [u] || Distance(g, s, u) < Distance(g, s, h))
    ensures Preferred(g, s, h, done + [u])
  {
    forall j | 0 <= j < |done + [u]| ensures PreferredAt(g, s, h, done + [u], j) {
      if j < |done| {
        assert PreferredAt(g, s, h, done, j);
        assert (done + [u])[..j + 1] == done[..j + 1];
      } else {
        assert (done + [u])[..j + 1] == done + [u];
      }
    }
  }

  lemma StepPrefers(g: Graph, s: int, h: int, st: Search, i: nat, st': Search)
    requires Sound(g) && Inv(g, s, st) && IsStep(g, st, i, st') && Preferred(g, s, h, st.done)
    requires h !in st.done && Distance(g, s, h) <= -st.queue[i].0 ==> st.queue[i].1 == h
    ensures Preferred(g, s, h, st'.done)
  {
    var u := st.queue[i].1;
    if u in st.done {
      StaleStep(g, s, st, i, st');
    } else {
      FirstStep(g, s, st, i, st');
      NotBelow(g, s, st, u);
      assert h in st.done || h == u ==> h in st.done + [u];
      PreferredGrows(g, s, h, st.done, u);
    }
  }

  // The search can be completed with h preferred to its equals.
  lemma {:induction false} Finish(g: Graph, s: int, h: int, st: Search) returns (st': Search)
    requires Sound(g) && Positive(g) && s in g && h in g && Distance(g, s, h) < INFINITY
    requires Reachable(g, s, st) && Preferred(g, s, h, st.done)
    ensures Reachable(g, s, st') && Preferred(g, s, h, st'.done) && st'.queue == []
    decreases 1 + AllLinks(g) - |st.pops|
  {
    st' := st;
    if st.queue != [] {
      ReachableInv(g, s, st);
      ReachableMeasure(g, s, st);
      var i := Prefer(g, s, h, st);
      assert st.queue[i] in st.queue;
      var next := StepExists(g, st, i);
      StepKeeps(g, s, st, i, next);
      ReachableStep(g, s, st, i, next);
      StepPrefers(g, s, h, st, i, next);
      st' := Finish(g, s, h, next);
    }
  }

  lemma CompleteRun(g: Graph, s: int, h: int) returns (st: Search)
    requires Sound(g) && Positive(g) && s in g && h in g && Distance(g, s, h) < INFINITY
    ensures Reachable(g, s, st) && Preferred(g, s, h, st.done) && st.queue == []
  {
    ReachableStart(g, s);
    st := Finish(g, s, h, Start(g, s));
  }

  // With h preferred, v hangs from h.
  lemma PreferredParent(g: Graph, s: int, h: int, v: int, st: Search)
    requires Sound(g) && s in g && v in g && v != s && CanBeParent(g, s, v, h) && Nearest(g, s, v, h)
    requires Reachable(g, s, st) && Preferred(g, s, h, st.done) && st.queue == []
    ensures v in st.pred && st.pred[v] == h
  {
    ReachableInv(g, s, st);
    ReachableFirst(g, s, st);
    ParentDone(g, s, st, v, h);
    FinalTree(g, s, st);
    FinalDistances(g, s, st, v);
    assert BranchOk(g, s, st.pred, v);
    var i :| 0 <= i < |st.done| && st.done[i] == h;
    assert FirstAt(g, st, v, i);
    var j :| 0 <= j < i + 1 && st.done[j] == st.pred[v];
    assert PreferredAt(g, s, h, st.done, j);
  }

  // Exactly the nearest of the routers a shortest route to v may come from can be
  // recorded as its predecessor; which of them is up to the breaking of ties.
  lemma RecordedIff(g: Graph, s: int, v: int, h: int)
    requires Sound(g) && Positive(g) && s in g && v in g && v != s
    ensures (exists tree :: Recorded(g, s, tree) && v in tree && tree[v] == h) <==>
            CanBeParent(g, s, v, h) && Nearest(g, s, v, h)
  {
    if tree :| Recorded(g, s, tree) && v in tree && tree[v] == h {
      RecordedNearest(g, s, tree, v);
    }
    if CanBeParent(g, s, v, h) && Nearest(g, s, v, h) {
      var st := CompleteRun(g, s, h);
      PreferredParent(g, s, h, v, st);
      assert Recorded(g, s, st.pred);
    }
  }
}
