// The simulation as the program runs it: stations are objects scanned one after the
// other, and a scan changes stations on either side of the one it has reached.
module CsmaSim {
  import opened Csma

  class Node {
    const id: int
    var backoffInterval: int
    var collisionCount: nat
    var successfulTransmissions: nat
    var istransmitting: bool
    var collisionsBeforeSuccess: seq<nat>
    var timeBeforeSuccess: seq<nat>

    // istransmitting is left to chance, as in the program.
    constructor (nodeId: int)
      ensures id == nodeId && backoffInterval == 0 && collisionCount == 0 && successfulTransmissions == 0
      ensures collisionsBeforeSuccess == [] && timeBeforeSuccess == []
    {
      id := nodeId;
      backoffInterval, collisionCount, successfulTransmissions := 0, 0, 0;
      istransmitting := *;
      collisionsBeforeSuccess, timeBeforeSuccess := [], [];
    }

    // rand is whatever the random generator yields.
    method PerformBackoff(p: Settings, rand: nat)
      modifies this`backoffInterval
      ensures backoffInterval == rand % Min(Pow2(collisionCount), Pow2(p.maxBackoff)) + 1
      ensures 1 <= backoffInterval <= Window(p, collisionCount)
    {
      backoffInterval := rand % Min(Pow2(collisionCount), Pow2(p.maxBackoff)) + 1;
    }

    method PerformBusyBackoff(backoffChannelBusy: nat, rand: nat)
      requires backoffChannelBusy >= 1
      modifies this`backoffInterval
      ensures backoffInterval == rand % backoffChannelBusy + 1
    {
      backoffInterval := rand % backoffChannelBusy + 1;
    }

    predicate AttemptTransmission()
      reads this
    {
      backoffInterval == 0
    }

    method TransmittingProbability(p: Settings, rand: nat) returns (b: bool)
      ensures b <==> (rand % 100) as real < p.prob * 100.0
      ensures CanDraw(p, b)
    {
      b := (rand % 100) as real < p.prob * 100.0;
    }
  }

  // A node as the model sees it, with its entry of countcollisions.
  function View(n: Node, pending: nat): Station
    reads n
  {
    Station(n.backoffInterval, n.collisionCount, n.successfulTransmissions, n.istransmitting,
            n.collisionsBeforeSuccess, n.timeBeforeSuccess, pending)
  }

  // The local variables of simulateCSMA, and the global collision counter.
  class Simulation {
    const p: Settings
    const nodes: seq<Node>
    const countcollisions: array<nat>
    var channelbusynode: int
    var transmissionTime: nat
    var channelBusy: bool
    var transmissionTimer: nat
    var globalCollisionCounter: nat
    ghost var log: seq<Tx>

    ghost predicate Valid() {
      p.Valid() && countcollisions.Length == |nodes| &&
      forall i | 0 <= i < |nodes| :: nodes[i].id == i
    }

    ghost function Stations(): (s: seq<Station>)
      requires Valid()
      reads nodes, countcollisions
      ensures |s| == |nodes|
    {
      seq(|nodes|, i requires 0 <= i < |nodes| && Valid() reads nodes, countcollisions =>
        View(nodes[i], countcollisions[i]))
    }

    ghost function Current(): State
      requires Valid()
      reads this, nodes, countcollisions
    {
      State(Stations(), Channel(channelBusy, channelbusynode, transmissionTime, transmissionTimer),
            globalCollisionCounter, log)
    }

    // The first loop of a slot.
    method Wish()
      requires Valid()
      modifies nodes
      ensures Wishes(p, old(Stations()), Stations())
    {
      ghost var s := Stations();
      for i := 0 to |nodes|
        invariant forall j | 0 <= j < |nodes| ::
                    Stations()[j] == s[j].(wants := Stations()[j].wants) &&
                    (j < i ==> if s[j].wants then Stations()[j].wants else CanDraw(p, Stations()[j].wants)) &&
                    (i <= j ==> Stations()[j] == s[j])
      {
        var node := nodes[i];
        if !node.istransmitting {
          var rand: nat := *;
          node.istransmitting := node.TransmittingProbability(p, rand);
        }
      }
    }

    // A slot on a busy channel.
    method WaitOut()
      requires Valid() && channelBusy
      modifies this, nodes
      ensures BusySlot(p, old(Current()), old(Stations()), Current())
    {
      ghost var s := Stations();
      transmissionTimer := transmissionTimer + 1;
      for i := 0 to |nodes|
        invariant forall j | 0 <= j < i :: BusyAt(p, channelbusynode, s[j], Stations()[j], j)
        invariant forall j | i <= j < |nodes| :: Stations()[j] == s[j]
        modifies nodes
      {
        var node := nodes[i];
        if channelbusynode != node.id && node.AttemptTransmission() {
          if node.istransmitting {
            var rand: nat := *;
            node.PerformBusyBackoff(p.busyWait, rand);
          }
        } else {
          if node.backoffInterval > 0 {
            node.backoffInterval := node.backoffInterval - 1;
          }
        }
      }
      if transmissionTimer == transmissionTime {
        transmissionTimer := 0;
        channelBusy := false;
        var rand: nat := *;
        transmissionTime := rand % p.maxTime + 2;
      }
    }

    // A collision as one of its stations sees it.
    method Collide(j: nat)
      requires Valid() && j < |nodes|
      modifies nodes[j], countcollisions
      ensures forall k | 0 <= k < |nodes| ::
                if k == j then Struck(p, old(Stations())[k], Stations()[k], 0)
                else Stations()[k] == old(Stations())[k]
    {
      var node := nodes[j];
      countcollisions[node.id] := countcollisions[node.id] + 1;
      node.collisionCount := node.collisionCount + 1;
      var rand: nat := *;
      node.PerformBackoff(p, rand);
    }

    // The inner loop: every other station caught ready collides with station i.
    method Strike(i: nat) returns (collisions: nat)
      requires Valid() && i < |nodes|
      modifies nodes, countcollisions
      ensures Struckdown(p, old(Stations()), i, |nodes|, Stations())
      ensures collisions == 0 <==> forall j | 0 <= j < |nodes| && j != i :: !Ready(old(Stations())[j])
    {
      ghost var s := Stations();
      collisions := 0;
      var node := nodes[i];
      for j := 0 to |nodes|
        invariant Struckdown(p, s, i, j, Stations())
        invariant collisions == 0 <==> forall k | 0 <= k < j && k != i :: !Ready(s[k])
      {
        assert StruckAt(p, s, i, j, Stations(), j);
        var other := nodes[j];
        if node.id != other.id && other.AttemptTransmission() && other.istransmitting {
          assert Ready(s[j]);
          ghost var before := Stations();
          Collide(j);
          collisions := collisions + 1;
          StruckOn(p, s, i, j, before, Stations());
        } else {
          assert j == i || !Ready(s[j]);
          StruckPast(p, s, i, j, Stations());
        }
      }
    }

    method Succeed(i: nat, time: nat)
      requires Valid() && i < |nodes|
      modifies this, nodes[i], countcollisions
      ensures forall j | 0 <= j < |nodes| ::
                if j == i then Succeeds(p, time, old(Stations())[j], Stations()[j])
                else Stations()[j] == old(Stations())[j]
      ensures Current() == State(Stations(), Channel(true, i, transmissionTime, old(transmissionTimer) + 1),
                                 old(globalCollisionCounter), old(log) + [Tx(time, transmissionTime, i)])
      ensures transmissionTime == old(transmissionTime)
    {
      var node := nodes[i];
      var rand: nat := *;
      node.istransmitting := node.TransmittingProbability(p, rand);
      node.collisionsBeforeSuccess := node.collisionsBeforeSuccess + [countcollisions[node.id]];
      countcollisions[node.id] := 0;
      node.timeBeforeSuccess := node.timeBeforeSuccess + [time];
      channelBusy := true;
      channelbusynode := node.id;
      transmissionTimer := transmissionTimer + 1;
      node.successfulTransmissions := node.successfulTransmissions + 1;
      log := log + [Tx(time, transmissionTime, i)];
    }

    // Station i attempts a transmission.
    method Attempt(i: nat, time: nat, ghost s: seq<Station>)
      requires Valid() && i < |nodes| && |s| == |nodes| && First(s, i)
      requires forall j | 0 <= j < |nodes| :: Stations()[j] == if j < i then Dec(s[j]) else s[j]
      modifies this, nodes, countcollisions
      ensures Scanned(p, time, s, i, i + 1, Stations())
      ensures Outcome(time, old(Current()), s, i, Current())
    {
      ghost var before := Stations();
      var collisions := Strike(i);
      ghost var struck := Stations();
      AloneIff(s, i, before);
      if collisions == 0 {
        Succeed(i, time);
      } else {
        globalCollisionCounter := globalCollisionCounter + 1;
        assert Stations() == struck;
        Collide(i);
      }
      Attempted(p, time, s, i, before, struck, Stations());
    }

    method CountDown(i: nat)
      requires Valid() && i < |nodes|
      modifies nodes[i]
      ensures forall j | 0 <= j < |nodes| ::
                Stations()[j] == if j == i then Dec(old(Stations())[j]) else old(Stations())[j]
    {
      var node := nodes[i];
      if node.backoffInterval > 0 {
        node.backoffInterval := node.backoffInterval - 1;
      }
    }

    // A slot on an idle channel.
    method Contend(time: nat)
      requires Valid() && !channelBusy
      modifies this, nodes, countcollisions
      ensures IdleSlot(p, time, old(Current()), old(Stations()), Current())
    {
      ghost var s, st, c := Stations(), Current(), -1;
      for i := 0 to |nodes|
        invariant -1 <= c < i
        invariant c == -1 ==> Waiting(s, i, Stations()) && Current() == st.(stations := Stations())
        invariant c >= 0 ==> First(s, c) && Scanned(p, time, s, c, i, Stations()) && Outcome(time, st, s, c, Current())
      {
        var node := nodes[i];
        ghost var now := Stations();
        if c >= 0 {
          OneContender(p, time, s, c, i, now, i);
        }
        if node.AttemptTransmission() && node.istransmitting {
          Attempt(i, time, s);
          c := i;
        } else {
          CountDown(i);
          if c >= 0 {
            ScannedNext(p, time, s, c, i, now, Stations());
          }
        }
      }
      if c >= 0 {
        assert Ready(s[c]);
        assert IdleAttempt(p, time, st, s, c, Current());
      }
    }

    method RunSlot(time: nat)
      requires Valid()
      modifies this, nodes, countcollisions
      ensures Slot(p, time, old(Current()), Current())
    {
      Wish();
      ghost var s := Stations();
      if channelBusy {
        WaitOut();
      } else {
        Contend(time);
      }
      assert SlotAfter(p, time, old(Current()), s, Current());
    }

    constructor (numNodes: nat, settings: Settings)
      requires settings.Valid()
      ensures Valid() && p == settings && Start(p, numNodes, Current())
      ensures fresh(countcollisions) && forall i | 0 <= i < |nodes| :: fresh(nodes[i])
    {
      var ns: seq<Node> := [];
      for i := 0 to numNodes
        invariant |ns| == i
        invariant forall j | 0 <= j < i ::
                    fresh(ns[j]) && ns[j].id == j &&
                    View(ns[j], 0) == Station(0, 0, 0, ns[j].istransmitting, [], [], 0)
      {
        var node := new Node(i);
        ns := ns + [node];
      }
      p := settings;
      nodes := ns;
      countcollisions := new nat[numNodes](_ => 0);
      channelbusynode := -1;
      var rand: nat := *;
      transmissionTime := rand % settings.maxTime + 2;
      channelBusy, transmissionTimer, globalCollisionCounter := false, 0, 0;
      log := [];
    }
  }

  // The whole simulation: for every outcome of the random draws its states slot by
  // slot are a run of the model.
  method SimulateCSMA(numNodes: nat, settings: Settings, duration: nat) returns (sim: Simulation, ghost run: seq<State>)
    requires settings.Valid()
    ensures sim.Valid() && sim.p == settings
    ensures IsRun(settings, numNodes, run) && |run| == duration + 1 && run[duration] == sim.Current()
  {
    sim := new Simulation(numNodes, settings);
    run := [sim.Current()];
    for time := 0 to duration
      invariant sim.Valid() && sim.p == settings && fresh(sim) && fresh(sim.countcollisions)
      invariant forall i | 0 <= i < |sim.nodes| :: fresh(sim.nodes[i])
      invariant |run| == time + 1 && run[time] == sim.Current()
      invariant IsRun(settings, numNodes, run)
    {
      sim.RunSlot(time);
      RunExtends(settings, numNodes, run, sim.Current());
      run := run + [sim.Current()];
    }
  }

  lemma RunExtends(p: Settings, n: nat, run: seq<State>, st: State)
    requires IsRun(p, n, run) && Slot(p, |run| - 1, run[|run| - 1], st)
    ensures IsRun(p, n, run + [st])
  {
    var longer := run + [st];
    forall t | 0 <= t < |longer| - 1 ensures SlotAt(p, longer, t) {
      if t < |run| - 1 {
        assert SlotAt(p, run, t);
      }
    }
  }

  // Nobody has attempted yet: the stations scanned so far have counted down.
  ghost predicate Waiting(s: seq<Station>, i: nat, now: seq<Station>) {
    |now| == |s| && i <= |s| && (forall j | 0 <= j < i :: !Ready(s[j])) &&
    forall j | 0 <= j < |s| :: now[j] == if j < i then Dec(s[j]) else s[j]
  }

  lemma ScannedNext(p: Settings, time: nat, s: seq<Station>, c: nat, i: nat, now: seq<Station>, next: seq<Station>)
    requires c < i < |s| == |next| && Scanned(p, time, s, c, i, now)
    requires forall j | 0 <= j < |s| :: next[j] == if j == i then Dec(now[j]) else now[j]
    ensures Scanned(p, time, s, c, i + 1, next)
  {
    var i' := i + 1;
    forall j | 0 <= j < |s| ensures ScannedAt(p, time, s, c, i', next[j], j) {
      assert ScannedAt(p, time, s, c, i, now[j], j);
    }
  }

  // Where the inner loop stands before its j-th turn.
  ghost predicate Struckdown(p: Settings, s: seq<Station>, i: nat, j: nat, now: seq<Station>) {
    |now| == |s| &&
    forall k {:trigger StruckAt(p, s, i, j, now, k)} | 0 <= k < |s| :: StruckAt(p, s, i, j, now, k)
  }

  ghost predicate StruckAt(p: Settings, s: seq<Station>, i: nat, j: nat, now: seq<Station>, k: nat)
    requires k < |s| == |now|
  {
    if k < j && k != i && Ready(s[k]) then Struck(p, s[k], now[k], 0) else now[k] == s[k]
  }

  lemma StruckOn(p: Settings, s: seq<Station>, i: nat, j: nat, before: seq<Station>, now: seq<Station>)
    requires Struckdown(p, s, i, j, before) && j < |s| == |now| && j != i && Ready(s[j])
    requires forall k | 0 <= k < |s| :: if k == j then Struck(p, before[k], now[k], 0) else now[k] == before[k]
    ensures Struckdown(p, s, i, j + 1, now)
  {
    var j' := j + 1;
    forall k | 0 <= k < |s| ensures StruckAt(p, s, i, j', now, k) {
      assert StruckAt(p, s, i, j, before, k);
    }
  }

  lemma StruckPast(p: Settings, s: seq<Station>, i: nat, j: nat, now: seq<Station>)
    requires Struckdown(p, s, i, j, now) && j < |s| && (j == i || !Ready(s[j]))
    ensures Struckdown(p, s, i, j + 1, now)
  {
    var j' := j + 1;
    forall k | 0 <= k < |s| ensures StruckAt(p, s, i, j', now, k) {
      assert StruckAt(p, s, i, j, now, k);
    }
  }

  lemma AloneIff(s: seq<Station>, i: nat, before: seq<Station>)
    requires i < |s| == |before|
    requires forall j | 0 <= j < |s| :: before[j] == if j < i then Dec(s[j]) else s[j]
    ensures Alone(s, i) <==> forall j | 0 <= j < |s| && j != i :: !Ready(before[j])
  {
    forall j | 0 <= j < |s| ensures Hit(s, i, j) <==> j != i && Ready(before[j]) {
    }
    if Alone(s, i) {
      forall j | 0 <= j < |s| && j != i ensures !Ready(before[j]) {
        assert !Hit(s, i, j);
      }
    }
  }

  // The two loops together: what the attempt of station i has made of everybody.
  lemma Attempted(p: Settings, time: nat, s: seq<Station>, i: nat,
                  before: seq<Station>, struck: seq<Station>, after: seq<Station>)
    requires i < |s| == |before| == |struck| == |after|
    requires forall j | 0 <= j < |s| :: before[j] == if j < i then Dec(s[j]) else s[j]
    requires Struckdown(p, before, i, |s|, struck)
    requires forall j | 0 <= j < |s| && j != i :: after[j] == struck[j]
    requires if Alone(s, i) then Succeeds(p, time, struck[i], after[i]) else Struck(p, struck[i], after[i], 0)
    ensures Scanned(p, time, s, i, i + 1, after)
  {
    forall j | 0 <= j < |s| ensures ScannedAt(p, time, s, i, i + 1, after[j], j) {
      assert StruckAt(p, before, i, |s|, struck, j);
    }
  }

  // The part of an idle slot that is not about the stations.
  ghost predicate Outcome(time: nat, st: State, s: seq<Station>, c: nat, st': State)
    requires c < |s|
  {
    if Alone(s, c) then
      st'.channel == Channel(true, c, st.channel.length, st.channel.timer + 1) &&
      st'.events == st.events && st'.log == st.log + [Tx(time, st.channel.length, c)]
    else
      st'.channel == st.channel && st'.events == st.events + 1 && st'.log == st.log
  }
}
