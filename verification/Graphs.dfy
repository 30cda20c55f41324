// Weighted, directed link graphs and the shortest distances in them. A router
// is known here by its id; a graph gives the outgoing links of every router.
module Graphs {

  datatype Link = Link(to: int, cost: int)

  type Graph = map<int, seq<Link>>

  type Route = seq<Link>

  // What the routers write into the distance of a router not yet reached.
  const INFINITY: nat := 100000

  ghost predicate Closed(g: Graph) {
    forall u, l | u in g && l in g[u] :: l.to in g
  }

  ghost predicate NonNegative(g: Graph) {
    forall u, l | u in g && l in g[u] :: l.cost >= 0
  }

  ghost predicate Positive(g: Graph) {
    forall u, l | u in g && l in g[u] :: l.cost > 0
  }

  // What Dijkstra's algorithm asks of a graph.
  ghost predicate Sound(g: Graph) {
    Closed(g) && NonNegative(g)
  }

  // The router a route from `s` ends at.
  function End(s: int, p: Route): int {
    if p == [] then s else p[|p| - 1].to
  }

  function Cost(p: Route): int {
    if p == [] then 0 else Cost(p[..|p| - 1]) + p[|p| - 1].cost
  }

  ghost predicate IsRoute(g: Graph, s: int, p: Route)
    decreases |p|
  {
    End(s, p) in g &&
    (p != [] ==>
       var front := p[..|p| - 1];
       IsRoute(g, s, front) && p[|p| - 1] in g[End(s, front)])
  }

  ghost predicate Reaches(g: Graph, s: int, t: int, d: int) {
    exists p :: IsRoute(g, s, p) && End(s, p) == t && Cost(p) == d
  }

  ghost function LeastFrom(g: Graph, s: int, t: int, k: nat): (d: nat)
    requires k <= INFINITY
    ensures k <= d <= INFINITY
    ensures d < INFINITY ==> Reaches(g, s, t, d)
    ensures forall j | k <= j < d :: !Reaches(g, s, t, j)
    decreases INFINITY - k
  {
    if k == INFINITY || Reaches(g, s, t, k) then k else LeastFrom(g, s, t, k + 1)
  }

  // The cost of a lightest route from `s` to `t`, or INFINITY when there is
  // none below INFINITY.
  ghost function Distance(g: Graph, s: int, t: int): (d: nat)
    ensures d <= INFINITY
    ensures d < INFINITY ==> Reaches(g, s, t, d)
  {
    LeastFrom(g, s, t, 0)
  }

  lemma {:induction false} RouteCost(g: Graph, s: int, p: Route)
    requires Sound(g) && IsRoute(g, s, p)
    ensures Cost(p) >= 0
    ensures Positive(g) && End(s, p) != s ==> Cost(p) > 0
    decreases |p|
  {
    if p != [] {
      RouteCost(g, s, p[..|p| - 1]);
    }
  }

  lemma DistanceAtMost(g: Graph, s: int, p: Route)
    requires Sound(g) && IsRoute(g, s, p)
    ensures Distance(g, s, End(s, p)) <= Cost(p)
  {
    RouteCost(g, s, p);
    var t := End(s, p);
    if Cost(p) < Distance(g, s, t) {
      assert Reaches(g, s, t, Cost(p));
    }
  }

  // Distance is the only number with the properties of a capped minimum.
  lemma DistanceIs(g: Graph, s: int, t: int, d: nat)
    requires Sound(g) && d <= INFINITY
    requires d < INFINITY ==> Reaches(g, s, t, d)
    requires forall p | IsRoute(g, s, p) && End(s, p) == t :: d <= Cost(p)
    ensures Distance(g, s, t) == d
  {
    if d < INFINITY {
      var p :| IsRoute(g, s, p) && End(s, p) == t && Cost(p) == d;
      DistanceAtMost(g, s, p);
    }
  }

  // All routes from s to t cost at least c.
  ghost predicate AllCost(g: Graph, s: int, t: int, c: int) {
    forall p | IsRoute(g, s, p) && End(s, p) == t :: Cost(p) >= c
  }

  // Routes of 100000 and more do not count, and of the others the lightest does.
  lemma CutOff(g: Graph, s: int, t: int)
    requires Sound(g)
    ensures Distance(g, s, t) <= 100000
    ensures Distance(g, s, t) == 100000 <==> forall p | IsRoute(g, s, p) && End(s, p) == t :: Cost(p) >= 100000
    ensures Distance(g, s, t) < 100000 ==>
              exists p :: IsRoute(g, s, p) && End(s, p) == t && Cost(p) == Distance(g, s, t)
    ensures forall p | IsRoute(g, s, p) && End(s, p) == t :: Distance(g, s, t) <= Cost(p)
  {
    var d := Distance(g, s, t);
    forall p | IsRoute(g, s, p) && End(s, p) == t ensures d <= Cost(p) {
      DistanceAtMost(g, s, p);
    }
    if d < INFINITY {
      var p :| IsRoute(g, s, p) && End(s, p) == t && Cost(p) == d;
    }
  }

  lemma CutOffIff(g: Graph, s: int, t: int)
    requires Sound(g)
    ensures Distance(g, s, t) == INFINITY <==> AllCost(g, s, t, 100000)
  {
    CutOff(g, s, t);
  }

  lemma {:induction false} Concat(g: Graph, s: int, p: Route, q: Route)
    requires IsRoute(g, s, p) && IsRoute(g, End(s, p), q)
    ensures IsRoute(g, s, p + q)
    ensures End(s, p + q) == End(End(s, p), q)
    ensures Cost(p + q) == Cost(p) + Cost(q)
    decreases |q|
  {
    if q == [] {
      assert p + q == p;
    } else {
      var front := q[..|q| - 1];
      Concat(g, s, p, front);
      assert (p + q)[..|p + q| - 1] == p + front;
    }
  }

  lemma Triangle(g: Graph, s: int, u: int, t: int)
    requires Sound(g)
    ensures Distance(g, s, t) <= Distance(g, s, u) + Distance(g, u, t)
  {
    var a, b := Distance(g, s, u), Distance(g, u, t);
    if a < INFINITY && b < INFINITY {
      var p :| IsRoute(g, s, p) && End(s, p) == u && Cost(p) == a;
      var q :| IsRoute(g, u, q) && End(u, q) == t && Cost(q) == b;
      Concat(g, s, p, q);
      DistanceAtMost(g, s, p + q);
    }
  }

  lemma SelfDistance(g: Graph, s: int)
    requires Sound(g) && s in g
    ensures Distance(g, s, s) == 0
  {
    assert IsRoute(g, s, []);
    DistanceAtMost(g, s, []);
  }

  lemma ApartDistance(g: Graph, s: int, t: int)
    requires Sound(g) && Positive(g) && s != t
    ensures Distance(g, s, t) > 0
  {
    var d := Distance(g, s, t);
    if d < INFINITY {
      var p :| IsRoute(g, s, p) && End(s, p) == t && Cost(p) == d;
      RouteCost(g, s, p);
    }
  }

  lemma LinkDistance(g: Graph, u: int, l: Link)
    requires Sound(g) && u in g && l in g[u]
    ensures Distance(g, u, l.to) <= l.cost
  {
    assert [l][..0] == [] && IsRoute(g, u, []);
    assert IsRoute(g, u, [l]);
    assert Cost([l]) == Cost([]) + l.cost;
    DistanceAtMost(g, u, [l]);
  }
}
