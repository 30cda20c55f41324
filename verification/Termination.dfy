// On which networks the search ends, whatever the costs: routers accept any, and below
// zero a router may come back to the queue again and again with a smaller distance.
module Termination {
  import opened Collections
  import opened Graphs
  import opened Dijkstra
  import opened Topology

  // A route the search can follow: nowhere along it has it cost INFINITY or more.
  ghost predicate IsLow(g: Graph, s: int, p: Route) {
    IsRoute(g, s, p) && forall k {:trigger LowAt(p, k)} | 0 <= k <= |p| :: LowAt(p, k)
  }

  ghost predicate LowAt(p: Route, k: nat)
    requires k <= |p|
  {
    Cost(p[..k]) < INFINITY
  }

  // After p the route q leads back to where it began, at a gain.
  ghost predicate NegativeTrip(g: Graph, s: int, p: Route, q: Route) {
    IsLow(g, s, p + q) && End(s, p + q) == End(s, p) && Cost(p + q) < Cost(p)
  }

  ghost predicate NegativeLoop(g: Graph, s: int) {
    exists p, q :: NegativeTrip(g, s, p, q)
  }

  // ---------- What every search keeps, whatever the costs ----------

  ghost predicate LowReaches(g: Graph, s: int, t: int, d: int) {
    exists p :: IsLow(g, s, p) && End(s, p) == t && Cost(p) == d
  }

  ghost predicate Shape(g: Graph, s: int, st: Search) {
    s in g && st.dist.Keys == g.Keys && st.dist[s] <= 0 &&
    (forall v | v in g :: st.dist[v] <= INFINITY) &&
    (forall q | q in st.queue :: q.1 in g && st.dist[q.1] < INFINITY) &&
    |st.pops| + |st.queue| == st.pushes
  }

  // A distance written is the cost of a low route, and v is queued with it or has had its
  // first n links examined.
  ghost predicate Settled(g: Graph, s: int, st: Search, v: int, n: nat)
    requires st.dist.Keys == g.Keys && v in g && n <= |g[v]|
  {
    st.dist[v] < INFINITY ==>
      LowReaches(g, s, v, st.dist[v]) && ((-st.dist[v], v) in st.queue || RelaxedUpTo(g, st, v, n))
  }

  ghost predicate Lazy(g: Graph, s: int, st: Search) {
    Shape(g, s, st) && forall v {:trigger Settled(g, s, st, v, |g[v]|)} | v in g :: Settled(g, s, st, v, |g[v]|)
  }

  ghost predicate LazyScan(g: Graph, s: int, st: Search, u: int, n: nat) {
    Shape(g, s, st) && u in g && n <= |g[u]| && st.dist[u] < INFINITY && Settled(g, s, st, u, n) &&
    forall v {:trigger Settled(g, s, st, v, |g[v]|)} | v in g && v != u :: Settled(g, s, st, v, |g[v]|)
  }

  lemma StartLazy(g: Graph, s: int)
    requires s in g
    ensures Lazy(g, s, Start(g, s))
  {
    var st := Start(g, s);
    assert (0, s) in st.queue;
    assert IsRoute(g, s, []) && LowAt([], 0) && IsLow(g, s, []);
    assert LowReaches(g, s, s, 0);
    forall v | v in g ensures Settled(g, s, st, v, |g[v]|) {
    }
  }

  lemma PopLazy(g: Graph, s: int, st: Search, i: nat)
    requires Lazy(g, s, st) && i < |st.queue|
    ensures st.queue[i].1 in g && LazyScan(g, s, Pop(st, i), st.queue[i].1, 0)
  {
    var u, st' := st.queue[i].1, Pop(st, i);
    assert st.queue[i] in st.queue;
    RemoveAtMembers(st.queue, i);
    assert Settled(g, s, st, u, |g[u]|);
    forall v | v in g && v != u ensures Settled(g, s, st', v, |g[v]|) {
      assert Settled(g, s, st, v, |g[v]|);
    }
  }

  lemma LowLonger(g: Graph, s: int, p: Route, l: Link)
    requires IsLow(g, s, p) && l in g[End(s, p)] && l.to in g && Cost(p) + l.cost < INFINITY
    ensures IsLow(g, s, p + [l]) && End(s, p + [l]) == l.to && Cost(p + [l]) == Cost(p) + l.cost
  {
    var p' := p + [l];
    assert p'[..|p|] == p;
    forall k | 0 <= k <= |p'| ensures LowAt(p', k) {
      if k <= |p| {
        assert LowAt(p, k) && p'[..k] == p[..k];
      } else {
        assert p'[..k] == p';
      }
    }
  }

  lemma ReachLonger(g: Graph, s: int, u: int, d: int, l: Link)
    requires LowReaches(g, s, u, d) && u in g && l in g[u] && l.to in g && d + l.cost < INFINITY
    ensures LowReaches(g, s, l.to, d + l.cost)
  {
    var p :| IsLow(g, s, p) && End(s, p) == u && Cost(p) == d;
    LowLonger(g, s, p, l);
  }

  lemma RelaxLazy(g: Graph, s: int, st: Search, u: int, n: nat)
    requires Closed(g) && LazyScan(g, s, st, u, n) && n < |g[u]|
    ensures g[u][n].to in g && LazyScan(g, s, Relax(st, u, g[u][n]), u, n + 1)
  {
    var l := g[u][n];
    assert l in g[u];
    var st' := Relax(st, u, l);
    if st.dist[u] + l.cost < st.dist[l.to] {
      ReachLonger(g, s, u, st.dist[u], l);
      RelaxQueue(st, u, l);
      forall v | v in g ensures Settled(g, s, st', v, if v == u then n + 1 else |g[v]|) {
        assert Settled(g, s, st, v, if v == u then n else |g[v]|);
        if v != l.to && st.dist[v] < INFINITY {
          StillSettled(g, s, st, st', u, n, v);
        }
      }
    }
  }

  lemma RelaxQueue(st: Search, u: int, l: Link)
    requires u in st.dist && l.to in st.dist && st.dist[u] + l.cost < st.dist[l.to]
    ensures var st' := Relax(st, u, l);
            (-st'.dist[l.to], l.to) in st'.queue && (forall q | q in st.queue :: q in st'.queue) &&
            forall q | q in st'.queue :: q in st.queue || q.1 == l.to
  {
    var st' := Relax(st, u, l);
    assert st'.queue[|st.queue|] == (-st'.dist[l.to], l.to);
  }

  // The others keep their distance, and their links have become no more attractive.
  lemma StillSettled(g: Graph, s: int, st: Search, st': Search, u: int, n: nat, v: int)
    requires st.dist.Keys == g.Keys && u in g && n < |g[u]| && g[u][n].to in g && v in g && v != g[u][n].to
    requires st' == Relax(st, u, g[u][n]) && st.dist[u] + g[u][n].cost < st.dist[g[u][n].to]
    requires Settled(g, s, st, v, if v == u then n else |g[v]|) && st.dist[v] < INFINITY
    ensures Settled(g, s, st', v, if v == u then n + 1 else |g[v]|)
  {
    RelaxQueue(st, u, g[u][n]);
    if (-st.dist[v], v) !in st.queue {
      assert RelaxedUpTo(g, st, v, if v == u then n else |g[v]|);
      assert RelaxedUpTo(g, st', v, if v == u then n + 1 else |g[v]|);
    }
  }

  lemma {:induction false} ScanLazy(g: Graph, s: int, u: int, mid: seq<Search>, k: nat)
    requires Closed(g) && k < |mid| && u in g && IsScan(u, g[u], mid) && LazyScan(g, s, mid[0], u, 0)
    ensures LazyScan(g, s, mid[k], u, k) && mid[k].pops == mid[0].pops
    decreases k
  {
    if k > 0 {
      ScanLazy(g, s, u, mid, k - 1);
      assert ScanAt(u, g[u], mid, k - 1);
      RelaxLazy(g, s, mid[k - 1], u, k - 1);
    }
  }

  lemma StepLazy(g: Graph, s: int, st: Search, i: nat, st': Search)
    requires Closed(g) && Lazy(g, s, st) && IsStep(g, st, i, st')
    ensures Lazy(g, s, st') && |st'.pops| == |st.pops| + 1
  {
    var u := st.queue[i].1;
    var mid :| IsScan(u, g[u], mid) && |mid| == |g[u]| + 1 && mid[0] == Pop(st, i) && mid[|mid| - 1] == st';
    PopLazy(g, s, st, i);
    ScanLazy(g, s, u, mid, |mid| - 1);
  }

  lemma {:induction false} RunLazy(g: Graph, s: int, run: seq<Search>, choice: seq<nat>, k: nat)
    requires Closed(g) && s in g && IsRun(g, s, run, choice) && k < |run|
    ensures Lazy(g, s, run[k]) && |run[k].pops| == k
    decreases k
  {
    if k == 0 {
      StartLazy(g, s);
    } else {
      RunLazy(g, s, run, choice, k - 1);
      assert IsRunAt(g, run, choice, k - 1);
      StepLazy(g, s, run[k - 1], choice[k - 1], run[k]);
    }
  }

  // ---------- A negative loop keeps the search going ----------

  lemma {:induction false} RoutePrefix(g: Graph, s: int, p: Route, k: nat)
    requires IsRoute(g, s, p) && k <= |p|
    ensures IsRoute(g, s, p[..k])
    decreases |p|
  {
    if k < |p| {
      RoutePrefix(g, s, p[..|p| - 1], k);
      assert p[..|p| - 1][..k] == p[..k];
    } else {
      assert p[..k] == p;
    }
  }

  // The k-th link of a route, taken from its own start.
  lemma LinkAt(g: Graph, s: int, p: Route, k: nat)
    requires IsRoute(g, s, p) && k < |p|
    ensures End(s, p[..k]) in g && p[k] in g[End(s, p[..k])] && p[k].to in g
    ensures End(s, p[..k + 1]) == p[k].to && Cost(p[..k + 1]) == Cost(p[..k]) + p[k].cost
  {
    RoutePrefix(g, s, p, k + 1);
    assert p[..k + 1][..k] == p[..k];
  }

  lemma LinkUsed(g: Graph, s: int, st: Search, p: Route, k: nat)
    requires Closed(g) && Lazy(g, s, st) && st.queue == [] && IsRoute(g, s, p) && k < |p|
    requires End(s, p[..k]) in g && st.dist[End(s, p[..k])] < INFINITY
    ensures End(s, p[..k + 1]) in g
    ensures st.dist[End(s, p[..k + 1])] <= st.dist[End(s, p[..k])] + p[k].cost
  {
    LinkAt(g, s, p, k);
    var u := End(s, p[..k]);
    assert Settled(g, s, st, u, |g[u]|);
    var i :| 0 <= i < |g[u]| && g[u][i] == p[k];
  }

  // With an empty queue no distance is above the cost of a low route.
  lemma {:induction false} NotAboveLow(g: Graph, s: int, st: Search, p: Route, k: nat)
    requires Closed(g) && Lazy(g, s, st) && st.queue == [] && IsLow(g, s, p) && k <= |p|
    ensures End(s, p[..k]) in g && st.dist[End(s, p[..k])] <= Cost(p[..k]) < INFINITY
    decreases k
  {
    assert LowAt(p, k);
    if k > 0 {
      NotAboveLow(g, s, st, p, k - 1);
      LinkUsed(g, s, st, p, k - 1);
      LinkAt(g, s, p, k - 1);
    }
  }

  // Along a low route distances rise by no more than the cost.
  lemma {:induction false} Rises(g: Graph, s: int, st: Search, p: Route, j: nat, k: nat)
    requires Closed(g) && Lazy(g, s, st) && st.queue == [] && IsLow(g, s, p) && j <= k <= |p|
    ensures End(s, p[..j]) in g && End(s, p[..k]) in g
    ensures st.dist[End(s, p[..k])] - Cost(p[..k]) <= st.dist[End(s, p[..j])] - Cost(p[..j])
    decreases k
  {
    NotAboveLow(g, s, st, p, k);
    if j < k {
      Rises(g, s, st, p, j, k - 1);
      NotAboveLow(g, s, st, p, k - 1);
      LinkUsed(g, s, st, p, k - 1);
      LinkAt(g, s, p, k - 1);
    }
  }

  lemma NoTripLeft(g: Graph, s: int, st: Search, p: Route, q: Route)
    requires Closed(g) && Lazy(g, s, st) && st.queue == []
    ensures !NegativeTrip(g, s, p, q)
  {
    if IsLow(g, s, p + q) && End(s, p + q) == End(s, p) {
      assert (p + q)[..|p|] == p && (p + q)[..|p + q|] == p + q;
      Rises(g, s, st, p + q, |p|, |p + q|);
    }
  }

  // No run ever empties the queue.
  lemma NeverEmpty(g: Graph, s: int, run: seq<Search>, choice: seq<nat>, k: nat)
    requires Closed(g) && s in g && NegativeLoop(g, s) && IsRun(g, s, run, choice) && k < |run|
    ensures run[k].queue != []
  {
    RunLazy(g, s, run, choice, k);
    var p, q :| NegativeTrip(g, s, p, q);
    if run[k].queue == [] {
      NoTripLeft(g, s, run[k], p, q);
    }
  }

  lemma {:induction false} LongRun(g: Graph, s: int, n: nat) returns (run: seq<Search>, choice: seq<nat>)
    requires Closed(g) && s in g && NegativeLoop(g, s)
    ensures IsRun(g, s, run, choice) && |choice| == n
    decreases n
  {
    if n == 0 {
      run, choice := [Start(g, s)], [];
    } else {
      run, choice := LongRun(g, s, n - 1);
      var st := run[|choice|];
      RunLazy(g, s, run, choice, |choice|);
      NeverEmpty(g, s, run, choice, |choice|);
      var i := TopExists(st.queue);
      assert st.queue[i] in st.queue;
      var st' := StepExists(g, st, i);
      RunExtends(g, s, run, choice, i, st');
      run, choice := run + [st'], choice + [i];
    }
  }

  // ---------- Without one, low routes cannot cost too little ----------

  lemma {:induction false} CostSum(p: Route, q: Route)
    ensures Cost(p + q) == Cost(p) + Cost(q)
    decreases |q|
  {
    if q == [] {
      assert p + q == p;
    } else {
      CostSum(p, q[..|q| - 1]);
      assert (p + q)[..|p + q| - 1] == p + q[..|q| - 1];
    }
  }

  lemma {:induction false} RouteSuffix(g: Graph, s: int, p: Route, j: nat)
    requires IsRoute(g, s, p) && j <= |p|
    ensures IsRoute(g, End(s, p[..j]), p[j..]) && End(End(s, p[..j]), p[j..]) == End(s, p)
    decreases |p|
  {
    if j == |p| {
      assert p[..j] == p;
    } else {
      var front := p[..|p| - 1];
      RouteSuffix(g, s, front, j);
      assert front[..j] == p[..j] && p[j..][..|p[j..]| - 1] == front[j..];
    }
  }

  lemma CutAt(p: Route, i: nat, j: nat, m: nat)
    requires i < j <= j + m <= |p| && Cost(p[..i]) <= Cost(p[..j])
    ensures (p[..i] + p[j..])[..i + m] == p[..i] + p[j..j + m]
    ensures Cost(p[..i] + p[j..j + m]) <= Cost(p[..j + m])
  {
    assert p[..j + m] == p[..j] + p[j..j + m];
    CostSum(p[..i], p[j..j + m]);
    CostSum(p[..j], p[j..j + m]);
  }

  lemma CutStaysLow(p: Route, i: nat, j: nat, k: nat)
    requires i < j <= |p| && Cost(p[..i]) <= Cost(p[..j]) && k <= i + |p| - j
    requires forall n {:trigger LowAt(p, n)} | 0 <= n <= |p| :: LowAt(p, n)
    ensures LowAt(p[..i] + p[j..], k)
  {
    if k <= i {
      assert LowAt(p, k) && (p[..i] + p[j..])[..k] == p[..k];
    } else {
      assert LowAt(p, j + (k - i));
      CutAt(p, i, j, k - i);
    }
  }

  // The part between two visits to the same router is left out.
  lemma CutLow(g: Graph, s: int, p: Route, i: nat, j: nat)
    requires IsLow(g, s, p) && i < j <= |p| && End(s, p[..i]) == End(s, p[..j]) && Cost(p[..i]) <= Cost(p[..j])
    ensures IsLow(g, s, p[..i] + p[j..])
  {
    var p' := p[..i] + p[j..];
    RoutePrefix(g, s, p, i);
    RouteSuffix(g, s, p, j);
    Concat(g, s, p[..i], p[j..]);
    forall k | 0 <= k <= |p'| ensures LowAt(p', k) {
      CutStaysLow(p, i, j, k);
    }
  }

  lemma CutCheaper(p: Route, i: nat, j: nat)
    requires i < j <= |p| && Cost(p[..i]) <= Cost(p[..j])
    ensures Cost(p[..i] + p[j..]) <= Cost(p)
  {
    assert p == p[..j] + p[j..];
    CostSum(p[..i], p[j..]);
    CostSum(p[..j], p[j..]);
  }

  // The routers a route visits.
  ghost function Stops(s: int, p: Route): seq<int> {
    seq(|p| + 1, k requires 0 <= k <= |p| => End(s, p[..k]))
  }

  lemma DistinctShort(g: Graph, s: int, p: Route)
    requires IsRoute(g, s, p) && AllDifferent(Stops(s, p))
    ensures |p| < |g|
  {
    var stops := Stops(s, p);
    forall k | 0 <= k < |stops| ensures stops[k] in g.Keys {
      RoutePrefix(g, s, p, k);
    }
    ElementsSize(stops);
    SubsetSize(Elements(stops), g.Keys);
    assert |g.Keys| == |g|;
  }

  lemma {:induction false} CostPerLink(g: Graph, s: int, p: Route, least: int)
    requires IsRoute(g, s, p) && CostsFrom(g, least) && least <= 0
    ensures Cost(p) >= least * |p|
    decreases |p|
  {
    if p != [] {
      CostPerLink(g, s, p[..|p| - 1], least);
      assert least * |p| == least * (|p| - 1) + least;
    }
  }

  lemma Fewer(least: int, m: nat, n: nat)
    requires least <= 0 && m <= n
    ensures least * n <= least * m
  {
  }

  lemma NoTripIn(g: Graph, s: int, p: Route, i: nat, j: nat)
    requires !NegativeLoop(g, s) && IsLow(g, s, p) && i < j <= |p| && End(s, p[..i]) == End(s, p[..j])
    ensures Cost(p[..i]) <= Cost(p[..j])
  {
    var front := p[..j];
    RoutePrefix(g, s, p, j);
    forall k | 0 <= k <= j ensures LowAt(front, k) {
      assert LowAt(p, k) && front[..k] == p[..k];
    }
    assert front == p[..i] + p[i..j];
    assert !NegativeTrip(g, s, p[..i], p[i..j]);
  }

  lemma {:induction false} LowBound(g: Graph, s: int, p: Route, least: int)
    requires !NegativeLoop(g, s) && IsLow(g, s, p) && CostsFrom(g, least) && least <= 0
    ensures Cost(p) >= least * |g|
    decreases |p|
  {
    if AllDifferent(Stops(s, p)) {
      DistinctShort(g, s, p);
      CostPerLink(g, s, p, least);
      Fewer(least, |p|, |g|);
    } else {
      var i, j :| 0 <= i < j < |Stops(s, p)| && Stops(s, p)[i] == Stops(s, p)[j];
      NoTripIn(g, s, p, i, j);
      CutLow(g, s, p, i, j);
      CutCheaper(p, i, j);
      LowBound(g, s, p[..i] + p[j..], least);
    }
  }

  // ---------- So only so many distances can be written ----------

  // How far all distances together are above a lower bound.
  ghost function Slack(dist: map<int, int>, low: int): int
    decreases |dist|
  {
    if dist.Keys == {} then 0
    else
      var v := Member(dist.Keys);
      dist[v] - low + Slack(dist - {v}, low)
  }

  lemma {:induction false} SlackWithout(dist: map<int, int>, low: int, v: int)
    requires v in dist
    ensures Slack(dist, low) == dist[v] - low + Slack(dist - {v}, low)
    decreases |dist|
  {
    var u := Member(dist.Keys);
    if u != v {
      assert Slack(dist, low) == dist[u] - low + Slack(dist - {u}, low);
      SlackWithout(dist - {u}, low, v);
      assert v in dist - {u};
      SlackWithout(dist - {v}, low, u);
      assert dist - {u} - {v} == dist - {v} - {u};
    }
  }

  lemma SlackUpdate(dist: map<int, int>, low: int, v: int, d: int)
    requires v in dist
    ensures Slack(dist[v := d], low) == Slack(dist, low) - dist[v] + d
  {
    SlackWithout(dist, low, v);
    SlackWithout(dist[v := d], low, v);
    assert dist[v := d] - {v} == dist - {v};
  }

  lemma {:induction false} SlackNonNegative(dist: map<int, int>, low: int)
    requires forall v | v in dist :: dist[v] >= low
    ensures Slack(dist, low) >= 0
    decreases |dist|
  {
    if dist.Keys != {} {
      SlackNonNegative(dist - {Member(dist.Keys)}, low);
    }
  }

  // Every push is paid for by a smaller distance.
  lemma {:induction false} ScanPays(u: int, links: seq<Link>, mid: seq<Search>, low: int, k: nat)
    requires IsScan(u, links, mid) && k < |mid|
    ensures mid[k].pushes + Slack(mid[k].dist, low) <= mid[0].pushes + Slack(mid[0].dist, low)
    decreases k
  {
    if k > 0 {
      ScanPays(u, links, mid, low, k - 1);
      assert ScanAt(u, links, mid, k - 1);
      var st, l := mid[k - 1], links[k - 1];
      SlackUpdate(st.dist, low, l.to, st.dist[u] + l.cost);
    }
  }

  lemma {:induction false} RunPays(g: Graph, s: int, run: seq<Search>, choice: seq<nat>, low: int, k: nat)
    requires IsRun(g, s, run, choice) && k < |run|
    ensures run[k].pushes + Slack(run[k].dist, low) <= 1 + Slack(Start(g, s).dist, low)
    decreases k
  {
    if k > 0 {
      RunPays(g, s, run, choice, low, k - 1);
      assert IsRunAt(g, run, choice, k - 1);
      var st, st', i := run[k - 1], run[k], choice[k - 1];
      var u := st.queue[i].1;
      var mid :| IsScan(u, g[u], mid) && |mid| == |g[u]| + 1 && mid[0] == Pop(st, i) && mid[|mid| - 1] == st';
      ScanPays(u, g[u], mid, low, |mid| - 1);
    }
  }

  // The longest a run can be.
  ghost function Budget(g: Graph, s: int, least: int): int {
    1 + Slack(Start(g, s).dist, least * |g|)
  }

  lemma RunBounded(g: Graph, s: int, run: seq<Search>, choice: seq<nat>, least: int)
    requires Closed(g) && s in g && !NegativeLoop(g, s) && CostsFrom(g, least) && least <= 0
    requires IsRun(g, s, run, choice)
    ensures |choice| <= Budget(g, s, least)
  {
    var st, low := run[|choice|], least * |g|;
    RunLazy(g, s, run, choice, |choice|);
    RunPays(g, s, run, choice, low, |choice|);
    Fewer(least, 0, |g|);
    forall v | v in st.dist ensures st.dist[v] >= low {
      assert Settled(g, s, st, v, |g[v]|);
      if st.dist[v] < INFINITY {
        var p :| IsLow(g, s, p) && End(s, p) == v && Cost(p) == st.dist[v];
        LowBound(g, s, p, least);
      }
    }
    SlackNonNegative(st.dist, low);
  }

  ghost function LeastCost(links: seq<Link>): (c: int)
    ensures c <= 0 && forall l | l in links :: l.cost >= c
    decreases |links|
  {
    if links == [] then 0
    else
      var last, front := links[|links| - 1], links[..|links| - 1];
      var c := LeastCost(front);
      assert forall l | l in links :: l in front || l == last;
      if last.cost < c then last.cost else c
  }

  ghost function Least(g: Graph): (c: int)
    ensures c <= 0 && CostsFrom(g, c)
    decreases |g|
  {
    if g.Keys == {} then 0
    else
      var u := Member(g.Keys);
      var c, d := Least(g - {u}), LeastCost(g[u]);
      assert forall v | v in g && v != u :: v in g - {u};
      if c < d then c else d
  }

  // ---------- When the search ends ----------

  // However ties are broken, the queue is empty after so many pops.
  ghost predicate Ends(g: Graph, s: int) {
    exists n: int {:trigger NoLonger(g, s, n)} :: NoLonger(g, s, n)
  }

  ghost predicate NoLonger(g: Graph, s: int, n: int) {
    forall run, choice | IsRun(g, s, run, choice) :: |choice| <= n
  }

  // The search of s ends if and only if it cannot follow a negative loop.
  lemma EndsIff(g: Graph, s: int)
    requires Closed(g) && s in g
    ensures Ends(g, s) <==> !NegativeLoop(g, s)
  {
    if NegativeLoop(g, s) {
      forall n: int ensures !NoLonger(g, s, n) {
        var run, choice := LongRun(g, s, if n < 0 then 0 else n + 1);
      }
    } else {
      forall run, choice | IsRun(g, s, run, choice) ensures |choice| <= Budget(g, s, Least(g)) {
        RunBounded(g, s, run, choice, Least(g));
      }
      assert NoLonger(g, s, Budget(g, s, Least(g)));
    }
  }

  // The smallest case: two routers whose links cost less than nothing together.
  lemma TwoRouters(a: int, b: int)
    requires a < INFINITY && a + b < 0
    ensures var g := map[1 := [Link(2, a)], 2 := [Link(1, b)]];
            NegativeLoop(g, 1) && !Ends(g, 1)
  {
    var g: Graph := map[1 := [Link(2, a)], 2 := [Link(1, b)]];
    assert IsRoute(g, 1, []) && LowAt([], 0) && IsLow(g, 1, []);
    LowLonger(g, 1, [], Link(2, a));
    LowLonger(g, 1, [] + [Link(2, a)], Link(1, b));
    var q: Route := [] + [Link(2, a)] + [Link(1, b)];
    assert [] + q == q;
    assert NegativeTrip(g, 1, [], q);
    EndsIff(g, 1);
  }

  // With costs of zero and above there is no such loop.
  lemma NonNegativeEnds(g: Graph, s: int)
    requires Sound(g) && s in g
    ensures Ends(g, s)
  {
    forall p, q ensures !NegativeTrip(g, s, p, q) {
      if IsLow(g, s, p + q) {
        assert (p + q)[..|p|] == p && (p + q)[|p|..] == q;
        RouteSuffix(g, s, p + q, |p|);
        RouteCost(g, End(s, p), q);
        CostSum(p, q);
      }
    }
    EndsIff(g, s);
  }
}
