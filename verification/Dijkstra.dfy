// The search at the heart of updateRoutingTable, one pop of the lazy priority
// queue at a time: there is no visited set, and an entry made stale by a later
// improvement stays in the queue.
module Dijkstra {
  import opened Collections
  import opened Graphs

  // dist, pred and queue are the program's own variables (a key of the queue is
  // the negated distance at the time of the push). The rest is history: `done`
  // lists the routers in the order of their first pop, `pops` the distance every
  // pop came with, and `pushes` counts insertions.
  datatype Search = Search(dist: map<int, int>, pred: map<int, int>,
                           queue: seq<(int, int)>,
                           done: seq<int>, pops: seq<int>, pushes: nat)

  function Start(g: Graph, s: int): Search {
    Search(map v | v in g :: if v == s then 0 else INFINITY,
           map[], [(0, s)], [], [], 1)
  }

  // Ties between equal keys may be broken in any way.
  ghost predicate IsTop(q: seq<(int, int)>, i: nat) {
    i < |q| && forall j | 0 <= j < |q| :: q[j].0 <= q[i].0
  }

  function Pop(st: Search, i: nat): Search
    requires i < |st.queue|
  {
    var (key, v) := st.queue[i];
    st.(queue := RemoveAt(st.queue, i),
        done := if v in st.done then st.done else st.done + [v],
        pops := st.pops + [-key])
  }

  function Relax(st: Search, u: int, l: Link): Search
    requires u in st.dist && l.to in st.dist
  {
    var d := st.dist[u] + l.cost;
    if d < st.dist[l.to] then
      st.(dist := st.dist[l.to := d], pred := st.pred[l.to := u],
          queue := st.queue + [(-d, l.to)], pushes := st.pushes + 1)
    else
      st
  }

  // The links of u are examined one after the other; mid lists the states the
  // search goes through.
  ghost predicate IsScan(u: int, links: seq<Link>, mid: seq<Search>) {
    0 < |mid| <= |links| + 1 &&
    forall k {:trigger ScanAt(u, links, mid, k)} | 0 <= k < |mid| - 1 :: ScanAt(u, links, mid, k)
  }

  ghost predicate ScanAt(u: int, links: seq<Link>, mid: seq<Search>, k: nat)
    requires k + 1 < |mid| <= |links| + 1
  {
    u in mid[k].dist && links[k].to in mid[k].dist && mid[k + 1] == Relax(mid[k], u, links[k])
  }

  // One iteration of the outer loop: a pop, then a scan of all the router's links.
  ghost predicate IsStep(g: Graph, st: Search, i: nat, st': Search) {
    IsTop(st.queue, i) && st.queue[i].1 in g &&
    exists mid ::
      IsScan(st.queue[i].1, g[st.queue[i].1], mid) && |mid| == |g[st.queue[i].1]| + 1 &&
      mid[0] == Pop(st, i) && mid[|mid| - 1] == st'
  }

  ghost function LinkCount(g: Graph, vs: seq<int>): nat
    decreases |vs|
  {
    if vs == [] then 0
    else
      var v := vs[|vs| - 1];
      LinkCount(g, vs[..|vs| - 1]) + if v in g then |g[v]| else 0
  }

  ghost function Level(st: Search): int {
    if st.pops == [] then 0 else st.pops[|st.pops| - 1]
  }

  // ---------- The invariant ----------

  ghost predicate DistOk(g: Graph, s: int, st: Search) {
    s in g && st.dist.Keys == g.Keys && st.dist[s] == 0 &&
    forall v | v in g :: 0 <= st.dist[v] <= INFINITY
  }

  ghost predicate DoneOk(g: Graph, st: Search)
    requires st.dist.Keys == g.Keys
  {
    (forall i, j | 0 <= i < j < |st.done| :: st.done[i] != st.done[j]) &&
    forall v | v in st.done :: v in g && st.dist[v] < INFINITY && st.dist[v] <= Level(st)
  }

  // Every predecessor is done, and the link from it is tight.
  ghost predicate PredOk(g: Graph, s: int, st: Search)
    requires st.dist.Keys == g.Keys
  {
    (forall v :: v in st.pred <==> v in g && v != s && st.dist[v] < INFINITY) &&
    forall v {:trigger ParentOk(g, st, v)} | v in st.pred :: ParentOk(g, st, v)
  }

  ghost predicate ParentOk(g: Graph, st: Search, v: int)
    requires st.dist.Keys == g.Keys && v in st.pred && v in g
  {
    var u := st.pred[v];
    u in st.done && u in g && Link(v, st.dist[v] - st.dist[u]) in g[u]
  }

  // A done router's predecessor was done before it: no cycle can arise, not
  // even along links of cost zero.
  ghost predicate Ranked(s: int, order: seq<int>, pred: map<int, int>) {
    forall j {:trigger RankedAt(s, order, pred, j)} | 0 <= j < |order| :: RankedAt(s, order, pred, j)
  }

  ghost predicate RankedAt(s: int, order: seq<int>, pred: map<int, int>, j: nat)
    requires j < |order|
  {
    order[j] != s ==> order[j] in pred && pred[order[j]] in order[..j]
  }

  ghost predicate QueueOk(g: Graph, st: Search)
    requires st.dist.Keys == g.Keys
  {
    (forall q | q in st.queue ::
       q.1 in g && st.dist[q.1] <= -q.0 && st.dist[q.1] < INFINITY && Level(st) <= -q.0) &&
    forall v {:trigger Pending(st, v)} | v in g :: Pending(st, v)
  }

  // A router reached but not done waits in the queue under its present distance.
  ghost predicate Pending(st: Search, v: int)
    requires v in st.dist
  {
    st.dist[v] < INFINITY && v !in st.done ==> (-st.dist[v], v) in st.queue
  }

  ghost predicate HistoryOk(g: Graph, st: Search, credit: nat) {
    (forall i, j | 0 <= i < j < |st.pops| :: st.pops[i] <= st.pops[j]) &&
    Level(st) >= 0 &&
    |st.pops| + |st.queue| == st.pushes &&
    st.pushes + credit <= 1 + LinkCount(g, st.done)
  }

  ghost predicate RelaxedUpTo(g: Graph, st: Search, v: int, n: nat)
    requires st.dist.Keys == g.Keys && v in g && n <= |g[v]|
  {
    forall k | 0 <= k < n ::
      g[v][k].to in g && st.dist[g[v][k].to] <= st.dist[v] + g[v][k].cost
  }

  ghost predicate Core(g: Graph, s: int, st: Search, credit: nat) {
    DistOk(g, s, st) && DoneOk(g, st) && PredOk(g, s, st) &&
    Ranked(s, st.done, st.pred) && QueueOk(g, st) && HistoryOk(g, st, credit)
  }

  ghost predicate Inv(g: Graph, s: int, st: Search) {
    Core(g, s, st, 0) &&
    forall v | v in st.done :: RelaxedUpTo(g, st, v, |g[v]|)
  }

  // Between pops: `u`, the router on top of the pop order, has had its first n
  // links examined.
  ghost predicate Scanning(g: Graph, s: int, st: Search, u: int, n: nat) {
    u in g && n <= |g[u]| && u in st.done &&
    Core(g, s, st, |g[u]| - n) && Level(st) == st.dist[u] &&
    RelaxedUpTo(g, st, u, n) &&
    forall v | v in st.done && v != u :: RelaxedUpTo(g, st, v, |g[v]|)
  }

  // ---------- Preservation ----------

  lemma StartInv(g: Graph, s: int)
    requires Sound(g) && s in g
    ensures Inv(g, s, Start(g, s))
  {
    assert (0, s) in Start(g, s).queue;
  }

  lemma RemoveAtMembers<T>(q: seq<T>, i: nat)
    requires i < |q|
    ensures forall x :: x in RemoveAt(q, i) ==> x in q
    ensures forall x :: x in q && x != q[i] ==> x in RemoveAt(q, i)
    ensures |RemoveAt(q, i)| == |q| - 1
  {
    forall x | x in q && x != q[i] ensures x in RemoveAt(q, i) {
      var j :| 0 <= j < |q| && q[j] == x;
      assert RemoveAt(q, i)[if j < i then j else j - 1] == x;
    }
  }

  lemma TopIsNext(g: Graph, s: int, st: Search, i: nat)
    requires Core(g, s, st, 0) && IsTop(st.queue, i)
    requires st.queue[i].1 !in st.done
    ensures st.queue[i].1 in g && -st.queue[i].0 == st.dist[st.queue[i].1] < INFINITY
  {
    var v := st.queue[i].1;
    assert st.queue[i] in st.queue;
    assert Pending(st, v);
  }

  lemma PopQueue(g: Graph, st: Search, i: nat)
    requires st.dist.Keys == g.Keys && QueueOk(g, st) && IsTop(st.queue, i)
    ensures QueueOk(g, Pop(st, i))
  {
    var st' := Pop(st, i);
    assert st.queue[i] in st.queue;
    RemoveAtMembers(st.queue, i);
    assert Level(st') == -st.queue[i].0;
    forall q | q in st'.queue
      ensures q.1 in g && st'.dist[q.1] <= -q.0 && st'.dist[q.1] < INFINITY && Level(st') <= -q.0
    {
      assert q in st.queue;
      var j :| 0 <= j < |st.queue| && st.queue[j] == q;
    }
    assert st.queue[i].1 in st'.done;
    forall v | v in g ensures Pending(st', v) {
      assert Pending(st, v);
      assert v in st.done ==> v in st'.done;
    }
  }

  lemma PopHistory(g: Graph, st: Search, i: nat)
    requires st.dist.Keys == g.Keys && QueueOk(g, st) && HistoryOk(g, st, 0) && IsTop(st.queue, i)
    requires st.queue[i].1 in g
    ensures HistoryOk(g, Pop(st, i), if st.queue[i].1 in st.done then 0 else |g[st.queue[i].1]|)
    ensures Level(st) <= -st.queue[i].0 == Level(Pop(st, i))
  {
    assert st.queue[i] in st.queue;
    assert Pop(st, i).done[..|st.done|] == st.done;
  }

  lemma PopDone(g: Graph, st: Search, i: nat)
    requires st.dist.Keys == g.Keys && i < |st.queue| && DoneOk(g, st) && Level(st) <= -st.queue[i].0
    requires st.queue[i].1 !in st.done
    requires st.queue[i].1 in g && -st.queue[i].0 == st.dist[st.queue[i].1] < INFINITY
    ensures DoneOk(g, Pop(st, i))
    ensures forall x :: x in Pop(st, i).done <==> x in st.done || x == st.queue[i].1
  {
    var st' := Pop(st, i);
    assert st'.done == st.done + [st.queue[i].1];
    assert Level(st') == -st.queue[i].0;
  }

  lemma RankedGrows(s: int, order: seq<int>, pred: map<int, int>, v: int)
    requires Ranked(s, order, pred)
    requires v == s || (v in pred && pred[v] in order)
    ensures Ranked(s, order + [v], pred)
  {
    var longer := order + [v];
    forall j | 0 <= j < |longer|
      ensures RankedAt(s, longer, pred, j)
    {
      if j < |order| {
        assert RankedAt(s, order, pred, j);
        assert longer[..j] == order[..j];
      } else {
        assert longer[..j] == order;
      }
    }
  }

  lemma PredLater(g: Graph, s: int, st: Search, st': Search)
    requires st.dist.Keys == g.Keys && PredOk(g, s, st)
    requires st'.dist == st.dist && st'.pred == st.pred && forall v | v in st.done :: v in st'.done
    ensures PredOk(g, s, st')
  {
    forall v | v in st'.pred ensures ParentOk(g, st', v) {
      assert ParentOk(g, st, v);
    }
  }

  // The first pop of a router comes with its final distance.
  lemma FirstPop(g: Graph, s: int, st: Search, i: nat)
    requires Sound(g) && Inv(g, s, st) && IsTop(st.queue, i)
    requires st.queue[i].1 !in st.done
    ensures -st.queue[i].0 == st.dist[st.queue[i].1]
    ensures Scanning(g, s, Pop(st, i), st.queue[i].1, 0)
  {
    var v := st.queue[i].1;
    var st' := Pop(st, i);
    TopIsNext(g, s, st, i);
    PopQueue(g, st, i);
    PopHistory(g, st, i);
    if v != s {
      assert ParentOk(g, st, v);
    }
    RankedGrows(s, st.done, st.pred, v);
    PopDone(g, st, i);
    PredLater(g, s, st, st');
    assert QueueOk(g, st') && HistoryOk(g, st', |g[v]|) && DistOk(g, s, st');
    assert Ranked(s, st'.done, st'.pred);
    assert forall x | x in st'.done && x != v :: x in st.done && RelaxedUpTo(g, st', x, |g[x]|) by {
      forall x | x in st'.done && x != v ensures x in st.done && RelaxedUpTo(g, st', x, |g[x]|) {
        assert RelaxedUpTo(g, st, x, |g[x]|);
      }
    }
  }

  // A stale entry: the router was done already.
  lemma StalePop(g: Graph, s: int, st: Search, i: nat)
    requires Sound(g) && Inv(g, s, st) && IsTop(st.queue, i)
    requires st.queue[i].1 in st.done
    ensures Inv(g, s, Pop(st, i))
  {
    PopQueue(g, st, i);
    PopHistory(g, st, i);
    var st' := Pop(st, i);
    PredLater(g, s, st, st');
    forall x | x in st'.done ensures RelaxedUpTo(g, st', x, |g[x]|) {
      assert RelaxedUpTo(g, st, x, |g[x]|);
    }
  }

  // A link into a done router is never worth taking.
  lemma DoneUnimproved(g: Graph, s: int, st: Search, u: int, n: nat)
    requires Sound(g) && Scanning(g, s, st, u, n) && n < |g[u]|
    requires g[u][n].to in g && st.dist[u] + g[u][n].cost < st.dist[g[u][n].to]
    ensures g[u][n].to !in st.done && g[u][n].to != s
  {
    assert g[u][n] in g[u];
  }

  lemma ImproveQueue(g: Graph, st: Search, u: int, l: Link)
    requires st.dist.Keys == g.Keys && QueueOk(g, st) && u in g && l.to in g
    requires Level(st) <= st.dist[u] + l.cost < st.dist[l.to] <= INFINITY
    ensures QueueOk(g, Relax(st, u, l))
  {
    var st' := Relax(st, u, l);
    var new' := (-st'.dist[l.to], l.to);
    assert st'.queue == st.queue + [new'];
    assert forall q | q in st'.queue :: q in st.queue || q == new';
    assert forall q | q in st.queue :: q in st'.queue;
    assert new' in st'.queue;
    forall v | v in g ensures Pending(st', v) {
      assert Pending(st, v);
    }
  }

  lemma ImprovePred(g: Graph, s: int, st: Search, u: int, l: Link)
    requires st.dist.Keys == g.Keys && PredOk(g, s, st)
    requires u in g && u in st.done && l in g[u] && l.to in g && l.to !in st.done && l.to != s
    requires st.dist[u] + l.cost < st.dist[l.to] <= INFINITY
    ensures PredOk(g, s, Relax(st, u, l))
  {
    var st' := Relax(st, u, l);
    forall v | v in st'.pred ensures ParentOk(g, st', v) {
      if v == l.to {
        assert l == Link(v, st'.dist[v] - st'.dist[u]);
      } else {
        assert ParentOk(g, st, v);
      }
    }
  }

  lemma RankedElsewhere(s: int, order: seq<int>, pred: map<int, int>, v: int, u: int)
    requires Ranked(s, order, pred) && v !in order
    ensures Ranked(s, order, pred[v := u])
  {
    var pred' := pred[v := u];
    forall j | 0 <= j < |order|
      ensures RankedAt(s, order, pred', j)
    {
      assert RankedAt(s, order, pred, j) && order[j] in order;
    }
  }

  lemma ImproveKeeps(g: Graph, s: int, st: Search, u: int, n: nat)
    requires Sound(g) && Scanning(g, s, st, u, n) && n < |g[u]|
    requires g[u][n] in g[u] && g[u][n].to in g && st.dist[u] + g[u][n].cost < st.dist[g[u][n].to]
    ensures Scanning(g, s, Relax(st, u, g[u][n]), u, n + 1)
  {
    var l := g[u][n];
    DoneUnimproved(g, s, st, u, n);
    ImproveQueue(g, st, u, l);
    ImprovePred(g, s, st, u, l);
    RankedElsewhere(s, st.done, st.pred, l.to, u);
    ImproveRest(g, s, st, u, n);
  }

  lemma RelaxKeeps(g: Graph, s: int, st: Search, u: int, n: nat)
    requires Sound(g) && Scanning(g, s, st, u, n) && n < |g[u]|
    ensures g[u][n].to in g
    ensures Scanning(g, s, Relax(st, u, g[u][n]), u, n + 1)
    ensures forall v | v in st.done :: Relax(st, u, g[u][n]).dist[v] == st.dist[v]
  {
    assert g[u][n] in g[u];
    if st.dist[u] + g[u][n].cost < st.dist[g[u][n].to] {
      DoneUnimproved(g, s, st, u, n);
      ImproveKeeps(g, s, st, u, n);
    } else {
      assert HistoryOk(g, st, |g[u]| - n - 1);
    }
  }

  lemma ImproveRest(g: Graph, s: int, st: Search, u: int, n: nat)
    requires Sound(g) && Scanning(g, s, st, u, n) && n < |g[u]| && g[u][n].to in g
    requires g[u][n].to !in st.done && g[u][n].to != s
    requires 0 <= st.dist[u] + g[u][n].cost < st.dist[g[u][n].to]
    ensures var st' := Relax(st, u, g[u][n]);
            DistOk(g, s, st') && DoneOk(g, st') && HistoryOk(g, st', |g[u]| - n - 1) &&
            RelaxedUpTo(g, st', u, n + 1) &&
            forall x | x in st'.done && x != u :: RelaxedUpTo(g, st', x, |g[x]|)
  {
    var st' := Relax(st, u, g[u][n]);
    assert st'.done == st.done && st'.pops == st.pops;
    assert u in st'.done && st'.dist[u] == st.dist[u];
    forall x | x in st'.done && x != u ensures RelaxedUpTo(g, st', x, |g[x]|) {
      assert RelaxedUpTo(g, st, x, |g[x]|);
      assert st'.dist[x] == st.dist[x];
    }
  }

  lemma ScanExtends(u: int, links: seq<Link>, mid: seq<Search>)
    requires IsScan(u, links, mid) && |mid| <= |links|
    requires u in mid[|mid| - 1].dist && links[|mid| - 1].to in mid[|mid| - 1].dist
    ensures IsScan(u, links, mid + [Relax(mid[|mid| - 1], u, links[|mid| - 1])])
  {
    var longer := mid + [Relax(mid[|mid| - 1], u, links[|mid| - 1])];
    forall k | 0 <= k < |longer| - 1 ensures ScanAt(u, links, longer, k) {
      if k < |mid| - 1 {
        assert ScanAt(u, links, mid, k);
      }
    }
  }

  lemma {:induction false} ScanKeeps(g: Graph, s: int, u: int, mid: seq<Search>, k: nat)
    requires Sound(g) && k < |mid| && u in g && IsScan(u, g[u], mid) && Scanning(g, s, mid[0], u, 0)
    ensures Scanning(g, s, mid[k], u, k)
    ensures mid[k].done == mid[0].done && mid[k].pops == mid[0].pops
    ensures forall v | v in mid[0].done :: mid[k].dist[v] == mid[0].dist[v]
    decreases k
  {
    if k > 0 {
      ScanKeeps(g, s, u, mid, k - 1);
      assert ScanAt(u, g[u], mid, k - 1);
      RelaxKeeps(g, s, mid[k - 1], u, k - 1);
    }
  }

  lemma {:induction false} ScanIdle(g: Graph, u: int, mid: seq<Search>, k: nat)
    requires k < |mid| && u in g && IsScan(u, g[u], mid) && mid[0].dist.Keys == g.Keys
    requires RelaxedUpTo(g, mid[0], u, |g[u]|)
    ensures mid[k] == mid[0]
    decreases k
  {
    if k > 0 {
      ScanIdle(g, u, mid, k - 1);
      assert ScanAt(u, g[u], mid, k - 1);
    }
  }

  // A second pop of a router does no more than leave the queue.
  lemma StaleStep(g: Graph, s: int, st: Search, i: nat, st': Search)
    requires Sound(g) && Inv(g, s, st) && IsStep(g, st, i, st') && st.queue[i].1 in st.done
    ensures st' == Pop(st, i) && Inv(g, s, st')
  {
    var v := st.queue[i].1;
    var mid :| IsScan(v, g[v], mid) && |mid| == |g[v]| + 1 && mid[0] == Pop(st, i) && mid[|mid| - 1] == st';
    StalePop(g, s, st, i);
    ScanIdle(g, v, mid, |mid| - 1);
  }

  // The first pop of a router brings its final distance and settles it.
  lemma FirstStep(g: Graph, s: int, st: Search, i: nat, st': Search)
    requires Sound(g) && Inv(g, s, st) && IsStep(g, st, i, st') && st.queue[i].1 !in st.done
    ensures Inv(g, s, st')
    ensures st'.done == st.done + [st.queue[i].1] && st'.pops == st.pops + [-st.queue[i].0]
    ensures forall v | v in st'.done :: st'.dist[v] == st.dist[v]
    ensures st.dist[st.queue[i].1] == -st.queue[i].0
  {
    var v := st.queue[i].1;
    var mid :| IsScan(v, g[v], mid) && |mid| == |g[v]| + 1 && mid[0] == Pop(st, i) && mid[|mid| - 1] == st';
    FirstPop(g, s, st, i);
    ScanKeeps(g, s, v, mid, |mid| - 1);
  }

  lemma NextKey(g: Graph, st: Search, i: nat)
    requires st.dist.Keys == g.Keys && QueueOk(g, st) && i < |st.queue|
    ensures Level(st) <= -st.queue[i].0
  {
    assert st.queue[i] in st.queue;
  }

  // One pop, whichever way ties are broken: the invariant holds again, nothing
  // done changes its distance, and the popped key is no smaller than those before.
  lemma StepKeeps(g: Graph, s: int, st: Search, i: nat, st': Search)
    requires Sound(g) && Inv(g, s, st) && IsStep(g, st, i, st')
    ensures Inv(g, s, st')
    ensures st'.pops == st.pops + [-st.queue[i].0] && Level(st) <= -st.queue[i].0
    ensures forall v | v in st.done :: v in st'.done && st'.dist[v] == st.dist[v]
  {
    NextKey(g, st, i);
    if st.queue[i].1 in st.done {
      StaleStep(g, s, st, i, st');
    } else {
      FirstStep(g, s, st, i, st');
    }
  }

  // ---------- Whole runs ----------

  ghost predicate IsRun(g: Graph, s: int, run: seq<Search>, choice: seq<nat>) {
    |run| == |choice| + 1 && run[0] == Start(g, s) &&
    forall k {:trigger IsRunAt(g, run, choice, k)} | 0 <= k < |choice| :: IsRunAt(g, run, choice, k)
  }

  ghost predicate IsRunAt(g: Graph, run: seq<Search>, choice: seq<nat>, k: nat)
    requires |run| == |choice| + 1 && k < |choice|
  {
    IsStep(g, run[k], choice[k], run[k + 1])
  }

  lemma {:induction false} RunInv(g: Graph, s: int, run: seq<Search>, choice: seq<nat>, k: nat)
    requires Sound(g) && s in g && IsRun(g, s, run, choice) && k < |run|
    ensures Inv(g, s, run[k])
    ensures |run[k].pops| == k
    decreases k
  {
    if k == 0 {
      StartInv(g, s);
    } else {
      RunInv(g, s, run, choice, k - 1);
      assert IsRunAt(g, run, choice, k - 1);
      StepKeeps(g, s, run[k - 1], choice[k - 1], run[k]);
    }
  }

  // A state some run leads to.
  ghost predicate Reachable(g: Graph, s: int, st: Search) {
    exists run, choice :: IsRun(g, s, run, choice) && run[|choice|] == st
  }

  lemma ReachableStart(g: Graph, s: int)
    ensures Reachable(g, s, Start(g, s))
  {
    assert IsRun(g, s, [Start(g, s)], []);
  }

  lemma ReachableInv(g: Graph, s: int, st: Search)
    requires Sound(g) && s in g && Reachable(g, s, st)
    ensures Inv(g, s, st)
  {
    var run, choice :| IsRun(g, s, run, choice) && run[|choice|] == st;
    RunInv(g, s, run, choice, |choice|);
  }

  lemma RunExtends(g: Graph, s: int, run: seq<Search>, choice: seq<nat>, i: nat, st': Search)
    requires IsRun(g, s, run, choice) && IsStep(g, run[|choice|], i, st')
    ensures IsRun(g, s, run + [st'], choice + [i])
  {
    var run', choice' := run + [st'], choice + [i];
    forall k | 0 <= k < |choice'| ensures IsRunAt(g, run', choice', k) {
      if k < |choice| {
        assert IsRunAt(g, run, choice, k);
      }
    }
  }

  lemma ReachableStep(g: Graph, s: int, st: Search, i: nat, st': Search)
    requires Reachable(g, s, st) && IsStep(g, st, i, st')
    ensures Reachable(g, s, st')
  {
    var run, choice :| IsRun(g, s, run, choice) && run[|choice|] == st;
    RunExtends(g, s, run, choice, i, st');
    assert (run + [st'])[|choice + [i]|] == st';
  }

  // As long as something is queued the search can go on.
  lemma {:induction false} TopExists(q: seq<(int, int)>) returns (i: nat)
    requires q != []
    ensures IsTop(q, i)
    decreases |q|
  {
    var n := |q| - 1;
    i := n;
    if n > 0 {
      var k := TopExists(q[..n]);
      if q[k].0 > q[n].0 {
        i := k;
      }
      assert forall j | 0 <= j < n :: q[..n][j] == q[j];
    }
  }

  lemma {:induction false} ScanExists(g: Graph, u: int, st: Search, n: nat) returns (mid: seq<Search>)
    requires Closed(g) && u in g && st.dist.Keys == g.Keys && n <= |g[u]|
    ensures IsScan(u, g[u], mid) && |mid| == n + 1 && mid[0] == st && mid[n].dist.Keys == g.Keys
    decreases n
  {
    if n == 0 {
      mid := [st];
    } else {
      mid := ScanExists(g, u, st, n - 1);
      assert g[u][n - 1] in g[u];
      ScanExtends(u, g[u], mid);
      mid := mid + [Relax(mid[n - 1], u, g[u][n - 1])];
    }
  }

  lemma StepExists(g: Graph, st: Search, i: nat) returns (st': Search)
    requires Closed(g) && st.dist.Keys == g.Keys && IsTop(st.queue, i) && st.queue[i].1 in g
    ensures IsStep(g, st, i, st')
  {
    var u := st.queue[i].1;
    var mid := ScanExists(g, u, Pop(st, i), |g[u]|);
    st' := mid[|mid| - 1];
  }

  // How much longer the search can go on.
  lemma ReachableMeasure(g: Graph, s: int, st: Search)
    requires Sound(g) && s in g && Reachable(g, s, st) && st.queue != []
    ensures |st.pops| < 1 + AllLinks(g)
  {
    ReachableInv(g, s, st);
    LinkCountBound(g, st.done);
  }

  // From the first pop of a router on, its distance stays as it was.
  lemma {:induction false} SettledForGood(g: Graph, s: int, run: seq<Search>, choice: seq<nat>,
                                          j: nat, k: nat, v: int)
    requires Sound(g) && s in g && IsRun(g, s, run, choice) && j <= k < |run|
    requires v in run[j].done
    ensures v in run[k].done && v in run[j].dist && v in run[k].dist
    ensures run[k].dist[v] == run[j].dist[v]
    decreases k
  {
    if j == k {
      RunInv(g, s, run, choice, k);
    } else {
      SettledForGood(g, s, run, choice, j, k - 1, v);
      RunSettles(g, s, run, choice, k - 1, v);
    }
  }

  lemma RunSettles(g: Graph, s: int, run: seq<Search>, choice: seq<nat>, k: nat, v: int)
    requires Sound(g) && s in g && IsRun(g, s, run, choice) && k < |choice|
    requires v in run[k].done
    ensures v in run[k + 1].done && v in run[k].dist && v in run[k + 1].dist
    ensures run[k + 1].dist[v] == run[k].dist[v]
  {
    RunInv(g, s, run, choice, k);
    assert IsRunAt(g, run, choice, k);
    StepKeeps(g, s, run[k], choice[k], run[k + 1]);
  }

  ghost function AllLinks(g: Graph): nat
    decreases |g|
  {
    if g.Keys == {} then 0
    else
      var u := Member(g.Keys);
      |g[u]| + AllLinks(g - {u})
  }

  lemma {:induction false} AllLinksWithout(g: Graph, v: int)
    requires v in g
    ensures AllLinks(g) == |g[v]| + AllLinks(g - {v})
    decreases |g|
  {
    var u := Member(g.Keys);
    if u != v {
      AllLinksWithout(g - {u}, v);
      assert v in g - {u};
      AllLinksWithout(g - {v}, u);
      assert g - {u} - {v} == g - {v} - {u};
    }
  }

  lemma {:induction false} LinkCountBound(g: Graph, vs: seq<int>)
    requires forall i, j | 0 <= i < j < |vs| :: vs[i] != vs[j]
    ensures LinkCount(g, vs) <= AllLinks(g)
    decreases |vs|
  {
    if vs != [] {
      var v, rest := vs[|vs| - 1], vs[..|vs| - 1];
      if v in g {
        LinkCountBound(g - {v}, rest);
        LinkCountElsewhere(g, v, rest);
        AllLinksWithout(g, v);
      } else {
        LinkCountBound(g, rest);
      }
    }
  }

  lemma {:induction false} LinkCountElsewhere(g: Graph, v: int, vs: seq<int>)
    requires v !in vs
    ensures LinkCount(g - {v}, vs) == LinkCount(g, vs)
    decreases |vs|
  {
    if vs != [] {
      LinkCountElsewhere(g, v, vs[..|vs| - 1]);
      assert vs[|vs| - 1] in vs;
    }
  }

  // The queue takes at most one entry for every link, and one to begin with, so
  // no run is longer than that.
  lemma PushBound(g: Graph, s: int, run: seq<Search>, choice: seq<nat>, k: nat)
    requires Sound(g) && s in g && IsRun(g, s, run, choice) && k < |run|
    ensures run[k].pushes <= 1 + AllLinks(g)
    ensures |choice| <= 1 + AllLinks(g)
  {
    RunInv(g, s, run, choice, k);
    LinkCountBound(g, run[k].done);
    RunInv(g, s, run, choice, |choice|);
    LinkCountBound(g, run[|choice|].done);
  }

  // Keys leave the queue in order.
  lemma PopsInOrder(g: Graph, s: int, run: seq<Search>, choice: seq<nat>, j: nat, k: nat)
    requires Sound(g) && s in g && IsRun(g, s, run, choice) && j < k < |choice|
    ensures IsRunAt(g, run, choice, j) && IsRunAt(g, run, choice, k)
    ensures run[j].queue[choice[j]].0 >= run[k].queue[choice[k]].0
  {
    RunInv(g, s, run, choice, k + 1);
    RunPops(g, s, run, choice, j, k + 1);
    RunPops(g, s, run, choice, k, k + 1);
  }

  lemma {:induction false} RunPops(g: Graph, s: int, run: seq<Search>, choice: seq<nat>, j: nat, k: nat)
    requires Sound(g) && s in g && IsRun(g, s, run, choice) && j < k < |run|
    ensures IsRunAt(g, run, choice, j)
    ensures |run[k].pops| == k && run[k].pops[j] == -run[j].queue[choice[j]].0
    decreases k
  {
    RunInv(g, s, run, choice, k);
    RunInv(g, s, run, choice, k - 1);
    assert IsRunAt(g, run, choice, k - 1);
    StepKeeps(g, s, run[k - 1], choice[k - 1], run[k]);
    if j < k - 1 {
      RunPops(g, s, run, choice, j, k - 1);
    }
  }

  // ---------- When the queue has run empty ----------

  lemma {:induction false} NotAboveRoute(g: Graph, s: int, st: Search, p: Route)
    requires Sound(g) && Inv(g, s, st) && st.queue == [] && IsRoute(g, s, p)
    ensures st.dist[End(s, p)] <= Cost(p)
    decreases |p|
  {
    if p != [] {
      var front, l := p[..|p| - 1], p[|p| - 1];
      NotAboveRoute(g, s, st, front);
      var u := End(s, front);
      if st.dist[u] < INFINITY {
        assert Pending(st, u);
        assert RelaxedUpTo(g, st, u, |g[u]|);
      }
    }
  }

  lemma ExtendReach(g: Graph, s: int, u: int, d: int, l: Link)
    requires Reaches(g, s, u, d) && u in g && l in g[u] && l.to in g
    ensures Reaches(g, s, l.to, d + l.cost)
  {
    var p :| IsRoute(g, s, p) && End(s, p) == u && Cost(p) == d;
    assert (p + [l])[..|p + [l]| - 1] == p;
    assert IsRoute(g, s, p + [l]);
  }

  lemma {:induction false} RouteFound(g: Graph, s: int, st: Search, j: nat)
    requires Sound(g) && Inv(g, s, st) && j < |st.done|
    ensures Reaches(g, s, st.done[j], st.dist[st.done[j]])
    decreases j
  {
    var v := st.done[j];
    assert v in st.done;
    if v == s {
      assert IsRoute(g, s, []) && End(s, []) == s && Cost([]) == 0;
    } else {
      assert RankedAt(s, st.done, st.pred, j) && ParentOk(g, st, v);
      var i :| 0 <= i < j && st.done[i] == st.pred[v];
      RouteFound(g, s, st, i);
      ExtendReach(g, s, st.pred[v], st.dist[st.pred[v]], Link(v, st.dist[v] - st.dist[st.pred[v]]));
    }
  }

  // The distances are the shortest distances.
  lemma FinalDistances(g: Graph, s: int, st: Search, v: int)
    requires Sound(g) && Inv(g, s, st) && st.queue == [] && v in g
    ensures st.dist[v] == Distance(g, s, v)
  {
    if st.dist[v] < INFINITY {
      assert Pending(st, v);
      var j :| 0 <= j < |st.done| && st.done[j] == v;
      RouteFound(g, s, st, j);
    }
    forall p | IsRoute(g, s, p) && End(s, p) == v ensures st.dist[v] <= Cost(p) {
      NotAboveRoute(g, s, st, p);
    }
    DistanceIs(g, s, v, st.dist[v]);
  }

  // A shortest-path tree rooted at s. `order` rules out cycles: it lists every
  // router of the tree after its parent.
  ghost predicate IsTreeBy(g: Graph, s: int, tree: map<int, int>, order: seq<int>) {
    s in g &&
    (forall v :: v in tree <==> v in g && v != s && Distance(g, s, v) < INFINITY) &&
    (forall v {:trigger BranchOk(g, s, tree, v)} | v in tree :: BranchOk(g, s, tree, v)) &&
    (forall v | v in tree :: v in order) &&
    Ranked(s, order, tree)
  }

  ghost predicate BranchOk(g: Graph, s: int, tree: map<int, int>, v: int)
    requires v in tree
  {
    CanBeParent(g, s, v, tree[v])
  }

  // u is the last router but one on a shortest route from s to v.
  ghost predicate CanBeParent(g: Graph, s: int, v: int, u: int) {
    u in g && Distance(g, s, u) < INFINITY && Distance(g, s, v) < INFINITY &&
    Link(v, Distance(g, s, v) - Distance(g, s, u)) in g[u]
  }

  ghost predicate IsTree(g: Graph, s: int, tree: map<int, int>) {
    exists order :: IsTreeBy(g, s, tree, order)
  }

  lemma FinalTree(g: Graph, s: int, st: Search)
    requires Sound(g) && Inv(g, s, st) && st.queue == []
    ensures IsTreeBy(g, s, st.pred, st.done)
  {
    forall v | v in g ensures st.dist[v] == Distance(g, s, v) {
      FinalDistances(g, s, st, v);
    }
    forall v | v in st.pred ensures BranchOk(g, s, st.pred, v) && v in st.done {
      assert ParentOk(g, st, v) && Pending(st, v);
    }
  }

  // The predecessors some complete run leaves.
  ghost predicate Recorded(g: Graph, s: int, tree: map<int, int>) {
    exists st :: Reachable(g, s, st) && st.queue == [] && st.pred == tree
  }

  lemma RecordedIsTree(g: Graph, s: int, tree: map<int, int>)
    requires Sound(g) && s in g && Recorded(g, s, tree)
    ensures IsTree(g, s, tree)
  {
    var st :| Reachable(g, s, st) && st.queue == [] && st.pred == tree;
    ReachableInv(g, s, st);
    FinalTree(g, s, st);
  }

  // Every complete run computes the shortest distances, cut off at INFINITY, and a
  // tree of shortest routes.
  lemma RunResult(g: Graph, s: int, run: seq<Search>, choice: seq<nat>)
    requires Sound(g) && s in g && IsRun(g, s, run, choice) && run[|choice|].queue == []
    ensures run[|choice|].dist.Keys == g.Keys
    ensures forall v | v in g :: run[|choice|].dist[v] == Distance(g, s, v)
    ensures IsTree(g, s, run[|choice|].pred)
  {
    RunInv(g, s, run, choice, |choice|);
    var st := run[|choice|];
    forall v | v in g ensures st.dist[v] == Distance(g, s, v) {
      FinalDistances(g, s, st, v);
    }
    FinalTree(g, s, st);
  }

  // Predecessors followed one after the other.
  ghost predicate IsClimb(pred: map<int, int>, climb: seq<int>) {
    climb != [] && forall k {:trigger Up(pred, climb, k)} | 0 <= k < |climb| - 1 :: Up(pred, climb, k)
  }

  ghost predicate Up(pred: map<int, int>, climb: seq<int>, k: nat)
    requires k + 1 < |climb|
  {
    climb[k] in pred && climb[k + 1] == pred[climb[k]]
  }

  lemma ClimbTail(pred: map<int, int>, climb: seq<int>)
    requires IsClimb(pred, climb) && |climb| > 1
    ensures climb[0] in pred && climb[1] == pred[climb[0]]
    ensures IsClimb(pred, climb[1..])
  {
    assert Up(pred, climb, 0);
    forall k | 0 <= k < |climb[1..]| - 1 ensures Up(pred, climb[1..], k) {
      assert Up(pred, climb, k + 1);
    }
  }

  lemma ClimbFront(pred: map<int, int>, climb: seq<int>)
    requires IsClimb(pred, climb) && |climb| > 1
    ensures climb[|climb| - 2] in pred && climb[|climb| - 1] == pred[climb[|climb| - 2]]
    ensures IsClimb(pred, climb[..|climb| - 1])
  {
    var front := climb[..|climb| - 1];
    assert Up(pred, climb, |climb| - 2);
    forall k | 0 <= k < |front| - 1 ensures Up(pred, front, k) {
      assert Up(pred, climb, k);
    }
  }

  lemma ClimbLonger(pred: map<int, int>, climb: seq<int>)
    requires IsClimb(pred, climb) && climb[|climb| - 1] in pred
    ensures IsClimb(pred, climb + [pred[climb[|climb| - 1]]])
  {
    var longer := climb + [pred[climb[|climb| - 1]]];
    forall k | 0 <= k < |longer| - 1 ensures Up(pred, longer, k) {
      if k < |climb| - 1 {
        assert Up(pred, climb, k);
      }
    }
  }

  lemma {:induction false} ClimbIndex(s: int, order: seq<int>, pred: map<int, int>, climb: seq<int>, j: nat)
    returns (i: nat)
    requires Ranked(s, order, pred) && s !in pred
    requires IsClimb(pred, climb) && j < |order| && climb[0] == order[j]
    ensures i <= j && order[i] == climb[|climb| - 1]
    ensures |climb| > 1 ==> i < j
    decreases |climb|
  {
    if |climb| == 1 {
      i := j;
    } else {
      ClimbTail(pred, climb);
      assert RankedAt(s, order, pred, j);
      var k :| 0 <= k < j && order[k] == climb[1];
      i := ClimbIndex(s, order, pred, climb[1..], k);
    }
  }

  // The recorded predecessors never form a cycle. Core holds between pops and all
  // through a scan, so this covers every moment of the search.
  lemma NoCycle(g: Graph, s: int, st: Search, credit: nat, climb: seq<int>)
    requires Core(g, s, st, credit)
    requires IsClimb(st.pred, climb) && |climb| > 1
    ensures climb[0] != climb[|climb| - 1]
  {
    if climb[0] == climb[|climb| - 1] {
      // The first parent is done; the rest of the climb leads from it to climb[0].
      var rest := climb[1..];
      ClimbTail(st.pred, climb);
      assert ParentOk(g, st, climb[0]);
      var j :| 0 <= j < |st.done| && st.done[j] == climb[1];
      var i := ClimbIndex(s, st.done, st.pred, rest, j);
      assert st.done[i] == climb[0];
      var k := ClimbIndex(s, st.done, st.pred, climb, i);
    }
  }
}
