// What creating and deleting a router does to the link graph.
module Topology {
  import opened Graphs

  // The links an operator asks for; those naming an unknown router are refused
  // one by one.
  type Request = seq<(int, int)>

  function WithIncoming(g: Graph, id: int, incoming: Request): (r: Graph)
    ensures r.Keys == g.Keys
    decreases |incoming|
  {
    if incoming == [] then g
    else
      var front := WithIncoming(g, id, incoming[..|incoming| - 1]);
      var (from, cost) := incoming[|incoming| - 1];
      if from in front then front[from := front[from] + [Link(id, cost)]] else front
  }

  function Outgoing(g: Graph, outgoing: Request): seq<Link>
    decreases |outgoing|
  {
    if outgoing == [] then []
    else
      var front := Outgoing(g, outgoing[..|outgoing| - 1]);
      var (to, cost) := outgoing[|outgoing| - 1];
      if to in g then front + [Link(to, cost)] else front
  }

  function Created(g: Graph, id: int, incoming: Request, outgoing: Request): Graph {
    WithIncoming(g, id, incoming)[id := Outgoing(g, outgoing)]
  }

  function DropLinks(links: seq<Link>, id: int): seq<Link>
    decreases |links|
  {
    if links == [] then []
    else
      var front, last := DropLinks(links[..|links| - 1], id), links[|links| - 1];
      if last.to == id then front else front + [last]
  }

  function Deleted(g: Graph, id: int): Graph {
    map u | u in g && u != id :: DropLinks(g[u], id)
  }

  ghost predicate NoSelfLinks(g: Graph) {
    forall u, l | u in g && l in g[u] :: l.to != u
  }

  // What every reachable topology satisfies, whatever the link costs.
  ghost predicate Tidy(g: Graph) {
    Closed(g) && NoSelfLinks(g)
  }

  ghost predicate WellFormed(g: Graph) {
    Sound(g) && NoSelfLinks(g)
  }

  ghost predicate CostsFrom(g: Graph, least: int) {
    forall u, l | u in g && l in g[u] :: l.cost >= least
  }

  ghost predicate Costed(request: Request, least: int) {
    forall r | r in request :: r.1 >= least
  }

  lemma {:induction false} IncomingLinks(g: Graph, id: int, incoming: Request, u: int, l: Link)
    requires u in g
    ensures l in WithIncoming(g, id, incoming)[u] <==>
            l in g[u] || (l.to == id && (u, l.cost) in incoming)
    decreases |incoming|
  {
    if incoming != [] {
      var front, last := incoming[..|incoming| - 1], incoming[|incoming| - 1];
      IncomingLinks(g, id, front, u, l);
      assert forall r :: r in incoming <==> r in front || r == last;
    }
  }

  lemma {:induction false} OutgoingLinks(g: Graph, outgoing: Request, l: Link)
    ensures l in Outgoing(g, outgoing) <==> l.to in g && (l.to, l.cost) in outgoing
    decreases |outgoing|
  {
    if outgoing != [] {
      var front, last := outgoing[..|outgoing| - 1], outgoing[|outgoing| - 1];
      OutgoingLinks(g, front, l);
      assert forall r :: r in outgoing <==> r in front || r == last;
    }
  }

  lemma {:induction false} DroppedLinks(links: seq<Link>, id: int, l: Link)
    ensures l in DropLinks(links, id) <==> l in links && l.to != id
    decreases |links|
  {
    if links != [] {
      var front, last := links[..|links| - 1], links[|links| - 1];
      DroppedLinks(front, id, l);
      assert forall k :: k in links <==> k in front || k == last;
    }
  }

  lemma CreatedTidy(g: Graph, id: int, incoming: Request, outgoing: Request)
    requires Tidy(g) && id !in g
    ensures Tidy(Created(g, id, incoming, outgoing))
  {
    var g' := Created(g, id, incoming, outgoing);
    forall u, l: Link | u in g' && l in g'[u] ensures l.to in g' && l.to != u {
      if u == id {
        OutgoingLinks(g, outgoing, l);
      } else {
        IncomingLinks(g, id, incoming, u, l);
      }
    }
  }

  lemma CreatedCosts(g: Graph, id: int, incoming: Request, outgoing: Request, least: int)
    requires CostsFrom(g, least) && Costed(incoming, least) && Costed(outgoing, least)
    ensures CostsFrom(Created(g, id, incoming, outgoing), least)
  {
    var g' := Created(g, id, incoming, outgoing);
    forall u, l: Link | u in g' && l in g'[u] ensures l.cost >= least {
      if u == id {
        OutgoingLinks(g, outgoing, l);
      } else {
        IncomingLinks(g, id, incoming, u, l);
      }
    }
  }

  lemma CreatedWellFormed(g: Graph, id: int, incoming: Request, outgoing: Request)
    requires WellFormed(g) && id !in g && Costed(incoming, 0) && Costed(outgoing, 0)
    ensures WellFormed(Created(g, id, incoming, outgoing))
  {
    CreatedTidy(g, id, incoming, outgoing);
    CreatedCosts(g, id, incoming, outgoing, 0);
  }

  lemma DeletedTidy(g: Graph, id: int)
    requires Tidy(g)
    ensures Tidy(Deleted(g, id))
    ensures forall u, l | u in Deleted(g, id) && l in Deleted(g, id)[u] :: l.to != id
  {
    var g' := Deleted(g, id);
    forall u, l: Link | u in g' && l in g'[u] ensures l.to in g' && l.to != u && l.to != id {
      DroppedLinks(g[u], id, l);
    }
  }

  lemma DeletedCosts(g: Graph, id: int, least: int)
    requires CostsFrom(g, least)
    ensures CostsFrom(Deleted(g, id), least)
  {
    var g' := Deleted(g, id);
    forall u, l: Link | u in g' && l in g'[u] ensures l.cost >= least {
      DroppedLinks(g[u], id, l);
    }
  }

  lemma DeletedWellFormed(g: Graph, id: int)
    requires WellFormed(g)
    ensures WellFormed(Deleted(g, id))
    ensures forall u, l | u in Deleted(g, id) && l in Deleted(g, id)[u] :: l.to != id
  {
    DeletedTidy(g, id);
    DeletedCosts(g, id, 0);
  }

  // ---------- Round trip ----------

  lemma {:induction false} DropNothing(links: seq<Link>, id: int)
    requires forall l | l in links :: l.to != id
    ensures DropLinks(links, id) == links
    decreases |links|
  {
    if links != [] {
      DropNothing(links[..|links| - 1], id);
    }
  }

  lemma {:induction false} DropIncoming(g: Graph, id: int, incoming: Request, u: int)
    requires u in g
    ensures DropLinks(WithIncoming(g, id, incoming)[u], id) == DropLinks(g[u], id)
    decreases |incoming|
  {
    if incoming != [] {
      var front, last := incoming[..|incoming| - 1], incoming[|incoming| - 1];
      DropIncoming(g, id, front, u);
      if last.0 == u {
        var links := WithIncoming(g, id, front)[u];
        assert (links + [Link(id, last.1)])[..|links|] == links;
      }
    }
  }

  // Deleting a router just created leaves every other router as it was.
  lemma DeleteUndoesCreate(g: Graph, id: int, incoming: Request, outgoing: Request)
    requires Closed(g) && id !in g
    ensures Deleted(Created(g, id, incoming, outgoing), id) == g
  {
    var g' := Created(g, id, incoming, outgoing);
    forall u | u in g ensures DropLinks(g'[u], id) == g[u] {
      DropIncoming(g, id, incoming, u);
      DropNothing(g[u], id);
    }
  }

  // ---------- Any history of changes ----------

  datatype Change = Create(id: int, incoming: Request, outgoing: Request) | Delete(victim: int)

  // A change the program refuses leaves the topology alone.
  function Apply(g: Graph, c: Change): Graph {
    match c
    case Create(id, incoming, outgoing) => if id in g then g else Created(g, id, incoming, outgoing)
    case Delete(id) => if id in g then Deleted(g, id) else g
  }

  // g' has the router id in addition, every other router the links to it that were asked
  // for in addition, and id those asked for that lead to a router of g.
  ghost predicate IsCreation(g: Graph, id: int, incoming: Request, outgoing: Request, g': Graph) {
    g'.Keys == g.Keys + {id} &&
    forall u, l {:trigger CreatedAt(g, id, incoming, outgoing, g', u, l)} ::
      CreatedAt(g, id, incoming, outgoing, g', u, l)
  }

  ghost predicate CreatedAt(g: Graph, id: int, incoming: Request, outgoing: Request, g': Graph, u: int, l: Link) {
    if u == id then u in g' && l in g'[u] <==> l.to in g && (l.to, l.cost) in outgoing
    else u in g' && l in g'[u] <==> u in g && (l in g[u] || (l.to == id && (u, l.cost) in incoming))
  }

  // g' has neither the router id nor a link to it, and everything else.
  ghost predicate IsDeletion(g: Graph, id: int, g': Graph) {
    g'.Keys == g.Keys - {id} &&
    forall u, l {:trigger DeletedAt(g, id, g', u, l)} :: DeletedAt(g, id, g', u, l)
  }

  ghost predicate DeletedAt(g: Graph, id: int, g': Graph, u: int, l: Link) {
    u in g' && l in g'[u] <==> u in g && u != id && l in g[u] && l.to != id
  }

  // Link by link: l is a link of an old router if it was one, or leads to the new router
  // and was asked for; it is one of the new router if it was asked for and leads to an old
  // one.
  lemma CreationIs(g: Graph, id: int, incoming: Request, outgoing: Request, g': Graph, u: int, l: Link)
    requires id !in g && IsCreation(g, id, incoming, outgoing, g')
    ensures forall v :: v in g' <==> v in g || v == id
    ensures u in g ==> (l in g'[u] <==> l in g[u] || (l.to == id && (u, l.cost) in incoming))
    ensures l in g'[id] <==> l.to in g && (l.to, l.cost) in outgoing
  {
    assert CreatedAt(g, id, incoming, outgoing, g', u, l);
    assert CreatedAt(g, id, incoming, outgoing, g', id, l);
  }

  lemma DeletionIs(g: Graph, id: int, g': Graph, u: int, l: Link)
    requires id in g && IsDeletion(g, id, g')
    ensures forall v :: v in g' <==> v in g && v != id
    ensures u in g' ==> (l in g'[u] <==> l in g[u] && l.to != id)
  {
    assert DeletedAt(g, id, g', u, l);
  }

  // What a creation does.
  lemma Creates(g: Graph, id: int, incoming: Request, outgoing: Request, g': Graph)
    requires g' == Apply(g, Create(id, incoming, outgoing))
    ensures id in g ==> g' == g
    ensures id !in g ==> IsCreation(g, id, incoming, outgoing, g')
  {
    if id !in g {
      forall u, l ensures CreatedAt(g, id, incoming, outgoing, g', u, l) {
        if u in g {
          IncomingLinks(g, id, incoming, u, l);
        }
        OutgoingLinks(g, outgoing, l);
      }
    }
  }

  // What a deletion does.
  lemma Deletes(g: Graph, id: int, g': Graph)
    requires g' == Apply(g, Delete(id))
    ensures id !in g ==> g' == g
    ensures id in g ==> IsDeletion(g, id, g')
  {
    if id in g {
      assert g'.Keys == g.Keys - {id};
      forall u, l ensures DeletedAt(g, id, g', u, l) {
        if u in g {
          DroppedLinks(g[u], id, l);
        }
      }
    }
  }

  function After(history: seq<Change>): Graph
    decreases |history|
  {
    if history == [] then map[]
    else Apply(After(history[..|history| - 1]), history[|history| - 1])
  }

  // Whatever has been created and deleted, with whatever costs: every link ends at a live
  // router other than its own.
  lemma {:induction false} HistoryTidy(history: seq<Change>)
    ensures Tidy(After(history))
    decreases |history|
  {
    if history != [] {
      var front, c := history[..|history| - 1], history[|history| - 1];
      HistoryTidy(front);
      var g := After(front);
      match c
      case Create(id, incoming, outgoing) =>
        if id !in g {
          CreatedTidy(g, id, incoming, outgoing);
        }
      case Delete(id) =>
        DeletedTidy(g, id);
    }
  }

  // ---------- The topology, told from the changes alone ----------

  // Change k creates u, and no later one deletes it.
  ghost predicate CreatedLast(history: seq<Change>, k: nat, u: int) {
    k < |history| && history[k].Create? && history[k].id == u &&
    forall j | k < j < |history| :: history[j] != Delete(u)
  }

  // A router is live if and only if it has been created and not deleted since.
  lemma {:induction false} LiveIff(history: seq<Change>, u: int)
    ensures u in After(history) <==> exists k: nat :: CreatedLast(history, k, u)
    decreases |history|
  {
    if history != [] {
      var n := |history| - 1;
      var front, c := history[..n], history[n];
      LiveIff(front, u);
      if c.Create? {
        Creates(After(front), c.id, c.incoming, c.outgoing, Apply(After(front), c));
      } else {
        Deletes(After(front), c.victim, Apply(After(front), c));
      }
      if k: nat :| CreatedLast(front, k, u) && c != Delete(u) {
        assert CreatedLast(history, k, u);
      }
      if c.Create? && c.id == u {
        assert CreatedLast(history, n, u);
      }
      if k: nat :| CreatedLast(history, k, u) && k < n {
        assert CreatedLast(front, k, u);
      }
    }
  }

  // Change k is accepted and asks for the link l of u: as an incoming one of the router it
  // leads to, or as an outgoing one of u.
  ghost predicate AsksFor(history: seq<Change>, k: nat, u: int, l: Link) {
    k < |history| && history[k].Create? && history[k].id !in After(history[..k]) &&
    if history[k].id == u then l.to in After(history[..k]) && (l.to, l.cost) in history[k].outgoing
    else history[k].id == l.to && u in After(history[..k]) && (u, l.cost) in history[k].incoming
  }

  ghost predicate KeptSince(history: seq<Change>, k: nat, u: int, l: Link) {
    AsksFor(history, k, u, l) && forall j | k < j < |history| :: history[j] != Delete(u) && history[j] != Delete(l.to)
  }

  // A link is there if and only if it has been asked for, and neither of its ends has been
  // deleted since.
  lemma {:induction false} LinkIff(history: seq<Change>, u: int, l: Link)
    ensures u in After(history) && l in After(history)[u] <==> exists k: nat :: KeptSince(history, k, u, l)
    decreases |history|
  {
    if history != [] {
      var n := |history| - 1;
      var front, c := history[..n], history[n];
      LinkIff(front, u, l);
      LinkStep(front, c, u, l);
      if k: nat :| KeptSince(front, k, u, l) && c != Delete(u) && c != Delete(l.to) {
        assert front[..k] == history[..k];
        assert KeptSince(history, k, u, l);
      }
      if AsksFor(history, n, u, l) {
        assert KeptSince(history, n, u, l);
      }
      if k: nat :| KeptSince(history, k, u, l) && k < n {
        assert front[..k] == history[..k];
        assert KeptSince(front, k, u, l);
      }
    }
  }

  // What the last change does to one link.
  lemma LinkStep(front: seq<Change>, c: Change, u: int, l: Link)
    ensures var g, g', h := After(front), After(front + [c]), front + [c];
            (u in g' && l in g'[u]) <==>
            (u in g && l in g[u] && c != Delete(u) && c != Delete(l.to)) || AsksFor(h, |front|, u, l)
  {
    var h := front + [c];
    assert h[..|front|] == front;
    var g, g' := After(front), Apply(After(front), c);
    if c.Create? {
      Creates(g, c.id, c.incoming, c.outgoing, g');
      assert c.id !in g ==> CreatedAt(g, c.id, c.incoming, c.outgoing, g', u, l);
    } else {
      HistoryTidy(front);
      Deletes(g, c.victim, g');
      assert c.victim in g ==> DeletedAt(g, c.victim, g', u, l);
    }
  }

  ghost predicate CostedChange(c: Change, least: int) {
    c.Create? ==> Costed(c.incoming, least) && Costed(c.outgoing, least)
  }

  // No link gets a cost nobody asked for.
  lemma {:induction false} HistoryCosts(history: seq<Change>, least: int)
    requires forall c | c in history :: CostedChange(c, least)
    ensures CostsFrom(After(history), least)
    decreases |history|
  {
    if history != [] {
      var front, c := history[..|history| - 1], history[|history| - 1];
      HistoryCosts(front, least);
      assert c in history && CostedChange(c, least);
      match c
      case Create(id, incoming, outgoing) =>
        CreatedCosts(After(front), id, incoming, outgoing, least);
      case Delete(id) =>
        DeletedCosts(After(front), id, least);
    }
  }

  // A route that avoids the deleted router survives, and nothing new appears:
  // deleting a router never brings two others closer.
  lemma {:induction false} RouteBefore(g: Graph, id: int, s: int, p: Route)
    requires IsRoute(Deleted(g, id), s, p)
    ensures IsRoute(g, s, p)
    decreases |p|
  {
    if p != [] {
      var front := p[..|p| - 1];
      RouteBefore(g, id, s, front);
      DroppedLinks(g[End(s, front)], id, p[|p| - 1]);
    }
  }

  lemma DeletionNeverShortens(g: Graph, id: int, s: int, t: int)
    requires WellFormed(g)
    ensures Distance(Deleted(g, id), s, t) >= Distance(g, s, t)
  {
    var g' := Deleted(g, id);
    var d := Distance(g', s, t);
    if d < INFINITY {
      var p :| IsRoute(g', s, p) && End(s, p) == t && Cost(p) == d;
      RouteBefore(g, id, s, p);
      DistanceAtMost(g, s, p);
    }
  }
}
