// One service of the web shop: its requests are served in rounds by worker threads
// with limited resources.
module Scheduler {

  // The lines the program prints, one for every request served or turned away.
  datatype Outcome = Executed(request: nat, res: int, worker: nat) | Rejected(request: nat, res: int)

  // A round: the request at the head of the queue, what the workers have left, and
  // the outcomes so far.
  datatype Round = Round(next: nat, left: seq<int>, outcomes: seq<Outcome>)

  ghost predicate NonNegative(caps: seq<int>) {
    |caps| >= 1 && forall w | 0 <= w < |caps| :: caps[w] >= 0
  }

  // The first worker with enough left, or -1.
  function FirstFit(left: seq<int>, res: int): (w: int)
    ensures -1 <= w < |left| && (w >= 0 ==> res <= left[w])
    decreases |left|
  {
    if left == [] then -1
    else
      var n := |left| - 1;
      var w := FirstFit(left[..n], res);
      if w >= 0 then w else if res <= left[n] then n else -1
  }

  lemma {:induction false} FirstFitIsFirst(left: seq<int>, res: int)
    ensures FirstFit(left, res) == -1 <==> forall v | 0 <= v < |left| :: left[v] < res
    ensures forall v | 0 <= v < FirstFit(left, res) :: left[v] < res
    decreases |left|
  {
    if left != [] {
      var n := |left| - 1;
      FirstFitIsFirst(left[..n], res);
      assert forall v | 0 <= v < n :: left[..n][v] == left[v];
    }
  }

  // The largest capacity, or 0 if there is none above it.
  function Highest(caps: seq<int>): (h: int)
    ensures h >= 0
    decreases |caps|
  {
    if caps == [] then 0
    else
      var n := |caps| - 1;
      var h := Highest(caps[..n]);
      if h < caps[n] then caps[n] else h
  }

  lemma {:induction false} HighestIsLargest(caps: seq<int>)
    ensures forall w | 0 <= w < |caps| :: caps[w] <= Highest(caps)
    ensures Highest(caps) == 0 || Highest(caps) in caps
    decreases |caps|
  {
    if caps != [] {
      var n := |caps| - 1;
      HighestIsLargest(caps[..n]);
      assert forall w | 0 <= w < n :: caps[..n][w] == caps[w];
    }
  }

  // One turn of the inner loop. What is taken off the worker's resources is the l-th
  // request's demand, l being the number of the turn.
  function Turn(reqs: seq<int>, caps: seq<int>, r: Round, l: nat): Round
    requires r.next < |reqs| && l < |reqs|
  {
    var res := reqs[r.next];
    var place := FirstFit(r.left, res);
    if place != -1 && Highest(caps) >= res then
      Round(r.next + 1, r.left[place := r.left[place] - reqs[l]], r.outcomes + [Executed(r.next, res, place)])
    else if Highest(caps) < res then
      Round(r.next + 1, r.left, r.outcomes + [Rejected(r.next, res)])
    else
      r
  }

  // The round that starts at request `next`, after l turns.
  function Turns(reqs: seq<int>, caps: seq<int>, next: nat, l: nat): (r: Round)
    requires next + l <= |reqs|
    ensures next <= r.next <= next + l && |r.outcomes| == r.next - next && |r.left| == |caps|
    decreases l
  {
    if l == 0 then Round(next, caps, []) else Turn(reqs, caps, Turns(reqs, caps, next, l - 1), l - 1)
  }

  function RoundFrom(reqs: seq<int>, caps: seq<int>, next: nat): Round
    requires next <= |reqs|
  {
    Turns(reqs, caps, next, |reqs| - next)
  }

  // The head of the queue is always dealt with in the first turn.
  lemma {:induction false} RoundAdvances(reqs: seq<int>, caps: seq<int>, next: nat, l: nat)
    requires NonNegative(caps) && next < |reqs| && 0 < l <= |reqs| - next
    ensures Turns(reqs, caps, next, l).next > next
    decreases l
  {
    if l > 1 {
      RoundAdvances(reqs, caps, next, l - 1);
    } else {
      HighestFits(caps, reqs[next]);
      assert Turns(reqs, caps, next, 0) == Round(next, caps, []);
    }
  }

  lemma HighestFits(caps: seq<int>, res: int)
    requires NonNegative(caps)
    ensures Highest(caps) >= res <==> exists w :: 0 <= w < |caps| && caps[w] >= res
    ensures Highest(caps) >= res <==> FirstFit(caps, res) != -1
  {
    HighestIsLargest(caps);
    FirstFitIsFirst(caps, res);
    if Highest(caps) >= res {
      if Highest(caps) == 0 {
        assert caps[0] >= res;
      } else {
        var w :| 0 <= w < |caps| && caps[w] == Highest(caps);
      }
    }
  }

  // All rounds, one sequence of outcomes each.
  ghost function Schedule(reqs: seq<int>, caps: seq<int>, next: nat): seq<seq<Outcome>>
    requires NonNegative(caps) && next <= |reqs|
    decreases |reqs| - next
  {
    if next == |reqs| then []
    else
      RoundAdvances(reqs, caps, next, |reqs| - next);
      var r := RoundFrom(reqs, caps, next);
      [r.outcomes] + Schedule(reqs, caps, r.next)
  }

  function Flatten(rounds: seq<seq<Outcome>>): seq<Outcome> {
    if rounds == [] then [] else rounds[0] + Flatten(rounds[1..])
  }

  ghost predicate Demands(reqs: seq<int>) {
    forall k | 0 <= k < |reqs| :: reqs[k] >= 0
  }

  // Request k is turned away if no worker could ever serve it, and otherwise executed
  // by one that could.
  ghost predicate RightOutcome(reqs: seq<int>, caps: seq<int>, k: nat, o: Outcome)
    requires k < |reqs|
  {
    o.request == k && o.res == reqs[k] &&
    (o.Executed? ==> o.worker < |caps| && (Demands(reqs) ==> reqs[k] <= caps[o.worker])) &&
    (o.Rejected? <==> forall w | 0 <= w < |caps| :: caps[w] < reqs[k])
  }

  ghost predicate RightOutcomes(reqs: seq<int>, caps: seq<int>, next: nat, os: seq<Outcome>)
    requires next + |os| <= |reqs|
  {
    forall k {:trigger RightAt(reqs, caps, next, os, k)} | 0 <= k < |os| :: RightAt(reqs, caps, next, os, k)
  }

  ghost predicate RightAt(reqs: seq<int>, caps: seq<int>, next: nat, os: seq<Outcome>, k: nat)
    requires k < |os| && next + k < |reqs|
  {
    RightOutcome(reqs, caps, next + k, os[k])
  }

  lemma {:induction false} LeftAtMost(reqs: seq<int>, caps: seq<int>, next: nat, l: nat)
    requires Demands(reqs) && next + l <= |reqs|
    ensures forall w | 0 <= w < |caps| :: Turns(reqs, caps, next, l).left[w] <= caps[w]
    decreases l
  {
    if l > 0 {
      LeftAtMost(reqs, caps, next, l - 1);
    }
  }

  lemma {:induction false} TurnsRight(reqs: seq<int>, caps: seq<int>, next: nat, l: nat)
    requires NonNegative(caps) && next + l <= |reqs|
    ensures RightOutcomes(reqs, caps, next, Turns(reqs, caps, next, l).outcomes)
    decreases l
  {
    if l > 0 {
      TurnsRight(reqs, caps, next, l - 1);
      var r, r' := Turns(reqs, caps, next, l - 1), Turns(reqs, caps, next, l);
      HighestFits(caps, reqs[r.next]);
      if Demands(reqs) {
        LeftAtMost(reqs, caps, next, l - 1);
      }
      forall k | 0 <= k < |r'.outcomes| ensures RightAt(reqs, caps, next, r'.outcomes, k) {
        if k < |r.outcomes| {
          assert RightAt(reqs, caps, next, r.outcomes, k);
        }
      }
    }
  }

  // Every request is executed or rejected exactly once, in order of arrival, within
  // as many rounds as there are requests.
  lemma {:induction false} ScheduleRight(reqs: seq<int>, caps: seq<int>, next: nat)
    requires NonNegative(caps) && next <= |reqs|
    ensures |Flatten(Schedule(reqs, caps, next))| == |reqs| - next
    ensures RightOutcomes(reqs, caps, next, Flatten(Schedule(reqs, caps, next)))
    ensures |Schedule(reqs, caps, next)| <= |reqs| - next
    decreases |reqs| - next
  {
    if next < |reqs| {
      RoundAdvances(reqs, caps, next, |reqs| - next);
      TurnsRight(reqs, caps, next, |reqs| - next);
      var r := RoundFrom(reqs, caps, next);
      ScheduleRight(reqs, caps, r.next);
      var rest := Flatten(Schedule(reqs, caps, r.next));
      assert Schedule(reqs, caps, next)[1..] == Schedule(reqs, caps, r.next);
      var all := Flatten(Schedule(reqs, caps, next));
      assert all == r.outcomes + rest;
      forall k | 0 <= k < |all| ensures RightAt(reqs, caps, next, all, k) {
        if k < |r.outcomes| {
          assert RightAt(reqs, caps, next, r.outcomes, k);
        } else {
          assert RightAt(reqs, caps, r.next, rest, k - |r.outcomes|);
        }
      }
    }
  }

  // ---------- What a worker takes on in one round ----------

  function Load(outcomes: seq<Outcome>, w: nat): int
    decreases |outcomes|
  {
    if outcomes == [] then 0
    else
      var n := |outcomes| - 1;
      Load(outcomes[..n], w) + Share(outcomes[n], w)
  }

  function Share(o: Outcome, w: nat): int {
    if o.Executed? && o.worker == w then o.res else 0
  }

  lemma LoadStep(outcomes: seq<Outcome>, o: Outcome, w: nat)
    ensures Load(outcomes + [o], w) == Load(outcomes, w) + Share(o, w)
  {
    assert (outcomes + [o])[..|outcomes|] == outcomes;
  }

  // What worker w has taken on in the first l turns of the round that starts at `next`.
  function LoadAfter(reqs: seq<int>, caps: seq<int>, next: nat, l: nat, w: nat): int
    requires next + l <= |reqs|
  {
    Load(Turns(reqs, caps, next, l).outcomes, w)
  }

  // No worker has enough left for the request at the head, although one could have.
  ghost predicate Blocked(reqs: seq<int>, caps: seq<int>, r: Round) {
    r.next < |reqs| && FirstFit(r.left, reqs[r.next]) == -1 && Highest(caps) >= reqs[r.next]
  }

  // Turn l deals with request next + l, unless the head of the queue is blocked, and then
  // it stays so to the end of the round.
  lemma {:induction false} KeepsPace(reqs: seq<int>, caps: seq<int>, next: nat, l: nat)
    requires next + l <= |reqs|
    ensures var r := Turns(reqs, caps, next, l); r.next == next + l || Blocked(reqs, caps, r)
    decreases l
  {
    if l > 0 {
      KeepsPace(reqs, caps, next, l - 1);
    }
  }

  // A round goes on until the list ends, or no worker has enough left for a request that
  // some worker could have served.
  lemma RoundEnds(reqs: seq<int>, caps: seq<int>, next: nat)
    requires NonNegative(caps) && next <= |reqs|
    ensures var r := RoundFrom(reqs, caps, next);
            r.next == |reqs| ||
            (r.next < |reqs| && |r.left| == |caps| &&
             (forall w | 0 <= w < |caps| :: r.left[w] < reqs[r.next]) &&
             exists w :: 0 <= w < |caps| && caps[w] >= reqs[r.next])
  {
    var r := RoundFrom(reqs, caps, next);
    KeepsPace(reqs, caps, next, |reqs| - next);
    if r.next < |reqs| {
      FirstFitIsFirst(r.left, reqs[r.next]);
      HighestFits(caps, reqs[r.next]);
    }
  }

  // The next turn gives the request at the head to worker w.
  ghost predicate Serves(reqs: seq<int>, caps: seq<int>, r: Round, w: nat) {
    r.next < |reqs| && FirstFit(r.left, reqs[r.next]) == w && Highest(caps) >= reqs[r.next]
  }

  // Turn l gives request next + l to worker w.
  ghost predicate Executes(reqs: seq<int>, caps: seq<int>, next: nat, l: nat, w: nat)
    requires next + l < |reqs|
  {
    Turns(reqs, caps, next, l).next == next + l && Serves(reqs, caps, Turns(reqs, caps, next, l), w)
  }

  // What one turn does to a worker: the demand of the request at the head is added to the
  // load, but that of request l is taken off what is left.
  lemma TurnBooks(reqs: seq<int>, caps: seq<int>, r: Round, l: nat, w: nat)
    requires r.next < |reqs| && l < |reqs| && w < |r.left|
    ensures var r' := Turn(reqs, caps, r, l);
            if Serves(reqs, caps, r, w) then
              reqs[r.next] <= r.left[w] && r'.left[w] == r.left[w] - reqs[l] &&
              Load(r'.outcomes, w) == Load(r.outcomes, w) + reqs[r.next]
            else
              r'.left[w] == r.left[w] && Load(r'.outcomes, w) == Load(r.outcomes, w)
  {
    var place := FirstFit(r.left, reqs[r.next]);
    if place != -1 && Highest(caps) >= reqs[r.next] {
      LoadStep(r.outcomes, Executed(r.next, reqs[r.next], place), w);
    } else if Highest(caps) < reqs[r.next] {
      LoadStep(r.outcomes, Rejected(r.next, reqs[r.next]), w);
    }
  }

  lemma TurnLoad(reqs: seq<int>, caps: seq<int>, next: nat, l: nat, w: nat)
    requires next + l < |reqs| && w < |caps|
    ensures var left, left' := Turns(reqs, caps, next, l).left[w], Turns(reqs, caps, next, l + 1).left[w];
            var load, load' := LoadAfter(reqs, caps, next, l, w), LoadAfter(reqs, caps, next, l + 1, w);
            if Executes(reqs, caps, next, l, w) then
              reqs[next + l] <= left && left' == left - reqs[l] && load' == load + reqs[next + l]
            else
              left' == left && load' == load
  {
    KeepsPace(reqs, caps, next, l);
    TurnBooks(reqs, caps, Turns(reqs, caps, next, l), l, w);
  }

  // What is left is what the load has not used up.
  ghost predicate BooksRight(reqs: seq<int>, caps: seq<int>, next: nat, l: nat, w: nat)
    requires next + l <= |reqs| && w < |caps|
  {
    Turns(reqs, caps, next, l).left[w] == caps[w] - LoadAfter(reqs, caps, next, l, w)
  }

  // If worker w gets a request in turn l, request l happens to be as large.
  ghost predicate Matched(reqs: seq<int>, caps: seq<int>, next: nat, l: nat, w: nat)
    requires next + l < |reqs|
  {
    Executes(reqs, caps, next, l, w) ==> reqs[l] == reqs[next + l]
  }

  lemma BooksStep(reqs: seq<int>, caps: seq<int>, next: nat, l: nat, w: nat)
    requires next + l < |reqs| && w < |caps|
    requires BooksRight(reqs, caps, next, l, w)
    ensures BooksRight(reqs, caps, next, l + 1, w) <==> Matched(reqs, caps, next, l, w)
  {
    TurnLoad(reqs, caps, next, l, w);
  }

  lemma {:induction false} MatchedThenRight(reqs: seq<int>, caps: seq<int>, next: nat, n: nat, w: nat)
    requires next + n <= |reqs| && w < |caps|
    requires forall l | 0 <= l < n :: Matched(reqs, caps, next, l, w)
    ensures BooksRight(reqs, caps, next, n, w)
    decreases n
  {
    if n == 0 {
      assert LoadAfter(reqs, caps, next, 0, w) == 0;
    } else {
      MatchedThenRight(reqs, caps, next, n - 1, w);
      BooksStep(reqs, caps, next, n - 1, w);
    }
  }

  // The books of a worker are right all through n turns of a round if and only if all
  // the requests it has been given match.
  lemma BooksRightIff(reqs: seq<int>, caps: seq<int>, next: nat, n: nat, w: nat)
    requires next + n <= |reqs| && w < |caps|
    ensures (forall l | 0 <= l <= n :: BooksRight(reqs, caps, next, l, w)) <==>
            (forall l | 0 <= l < n :: Matched(reqs, caps, next, l, w))
  {
    if forall l | 0 <= l <= n :: BooksRight(reqs, caps, next, l, w) {
      forall l | 0 <= l < n ensures Matched(reqs, caps, next, l, w) {
        assert BooksRight(reqs, caps, next, l, w) && BooksRight(reqs, caps, next, l + 1, w);
        BooksStep(reqs, caps, next, l, w);
      }
    }
    if forall l | 0 <= l < n :: Matched(reqs, caps, next, l, w) {
      forall l | 0 <= l <= n ensures BooksRight(reqs, caps, next, l, w) {
        MatchedThenRight(reqs, caps, next, l, w);
      }
    }
  }

  // Worker w has not taken on more than its resources, and has no more left than it should.
  ghost predicate Within(reqs: seq<int>, caps: seq<int>, next: nat, l: nat, w: nat)
    requires next + l <= |reqs| && w < |caps|
  {
    LoadAfter(reqs, caps, next, l, w) <= caps[w] &&
    Turns(reqs, caps, next, l).left[w] <= caps[w] - LoadAfter(reqs, caps, next, l, w)
  }

  lemma WithinStep(reqs: seq<int>, caps: seq<int>, next: nat, l: nat, w: nat)
    requires next + l < |reqs| && w < |caps|
    requires Within(reqs, caps, next, l, w) && reqs[next + l] <= reqs[l]
    ensures Within(reqs, caps, next, l + 1, w)
  {
    TurnLoad(reqs, caps, next, l, w);
  }

  // It is enough that request l is never smaller than request next + l.
  lemma {:induction false} CoveredWithin(reqs: seq<int>, caps: seq<int>, next: nat, l: nat, w: nat)
    requires NonNegative(caps) && next + l <= |reqs| && w < |caps|
    requires forall k | 0 <= k < l :: reqs[next + k] <= reqs[k]
    ensures Within(reqs, caps, next, l, w)
    decreases l
  {
    if l == 0 {
      assert LoadAfter(reqs, caps, next, 0, w) == 0;
    } else {
      CoveredWithin(reqs, caps, next, l - 1, w);
      WithinStep(reqs, caps, next, l - 1, w);
    }
  }

  // In the first round, whatever the requests, the books are right and no worker takes
  // on more than its resources.
  lemma FirstRoundWithin(reqs: seq<int>, caps: seq<int>, l: nat, w: nat)
    requires NonNegative(caps) && l <= |reqs| && w < |caps|
    ensures BooksRight(reqs, caps, 0, l, w)
    ensures LoadAfter(reqs, caps, 0, l, w) <= caps[w]
  {
    assert forall k | 0 <= k < l :: Matched(reqs, caps, 0, k, w);
    MatchedThenRight(reqs, caps, 0, l, w);
    CoveredWithin(reqs, caps, 0, l, w);
  }

  ghost predicate NonIncreasing(reqs: seq<int>) {
    forall i, j | 0 <= i <= j < |reqs| :: reqs[j] <= reqs[i]
  }

  // If the largest requests come first, the same goes for every round.
  lemma SortedWithin(reqs: seq<int>, caps: seq<int>, next: nat, l: nat, w: nat)
    requires NonNegative(caps) && next + l <= |reqs| && w < |caps| && NonIncreasing(reqs)
    ensures LoadAfter(reqs, caps, next, l, w) <= caps[w]
    ensures Turns(reqs, caps, next, l).left[w] <= caps[w] - LoadAfter(reqs, caps, next, l, w)
  {
    CoveredWithin(reqs, caps, next, l, w);
    assert Within(reqs, caps, next, l, w);
  }

  // From request `next` on, no worker takes on more than its resources in any round.
  ghost predicate SafeFrom(reqs: seq<int>, caps: seq<int>, next: nat)
    requires NonNegative(caps) && next <= |reqs|
    decreases |reqs| - next
  {
    next == |reqs| ||
    ((forall w | 0 <= w < |caps| :: LoadAfter(reqs, caps, next, |reqs| - next, w) <= caps[w]) &&
     (RoundAdvances(reqs, caps, next, |reqs| - next);
      SafeFrom(reqs, caps, RoundFrom(reqs, caps, next).next)))
  }

  lemma {:induction false} SortedSafe(reqs: seq<int>, caps: seq<int>, next: nat)
    requires NonNegative(caps) && next <= |reqs| && NonIncreasing(reqs)
    ensures SafeFrom(reqs, caps, next)
    decreases |reqs| - next
  {
    if next < |reqs| {
      forall w | 0 <= w < |caps| ensures LoadAfter(reqs, caps, next, |reqs| - next, w) <= caps[w] {
        SortedWithin(reqs, caps, next, |reqs| - next, w);
      }
      RoundAdvances(reqs, caps, next, |reqs| - next);
      SortedSafe(reqs, caps, RoundFrom(reqs, caps, next).next);
    }
  }

  // ---------- Rounds of a single worker ----------

  lemma FitAlone(left: int, res: int)
    ensures FirstFit([left], res) == if res <= left then 0 else -1
    ensures left >= 0 ==> Highest([left]) == left
  {
  }

  // A turn of a service with one worker: the request at the head is rejected, executed
  // or left where it is.
  lemma LoneTurn(reqs: seq<int>, cap: nat, next: nat, l: nat)
    requires next + l < |reqs|
    ensures var r, r' := Turns(reqs, [cap], next, l), Turns(reqs, [cap], next, l + 1);
            var load, load' := LoadAfter(reqs, [cap], next, l, 0), LoadAfter(reqs, [cap], next, l + 1, 0);
            var res := reqs[r.next];
            if cap < res then
              r'.next == r.next + 1 && r'.left[0] == r.left[0] && load' == load
            else if res <= r.left[0] then
              r'.next == r.next + 1 && r'.left[0] == r.left[0] - reqs[l] && load' == load + res
            else
              r'.next == r.next && r'.left[0] == r.left[0] && load' == load
  {
    var r := Turns(reqs, [cap], next, l);
    assert r.left == [r.left[0]];
    FitAlone(r.left[0], reqs[r.next]);
    FitAlone(cap, reqs[r.next]);
    KeepsPace(reqs, [cap], next, l);
    TurnLoad(reqs, [cap], next, l, 0);
  }

  lemma LoneStart(reqs: seq<int>, cap: nat, next: nat)
    requires next <= |reqs|
    ensures Turns(reqs, [cap], next, 0) == Round(next, [cap], [])
    ensures LoadAfter(reqs, [cap], next, 0, 0) == 0
  {
  }

  lemma LoneSafe(reqs: seq<int>, cap: nat, next: nat)
    requires next < |reqs|
    ensures next < RoundFrom(reqs, [cap], next).next <= |reqs|
    ensures SafeFrom(reqs, [cap], next) <==>
            LoadAfter(reqs, [cap], next, |reqs| - next, 0) <= cap &&
            SafeFrom(reqs, [cap], RoundFrom(reqs, [cap], next).next)
  {
    RoundAdvances(reqs, [cap], next, |reqs| - next);
  }

  // What is added up over the first k requests of a round that a worker with this
  // capacity could serve: their demands if from == next, and what the books take off
  // instead if from == 0.
  function Sum(reqs: seq<int>, cap: int, next: nat, from: nat, k: nat): int
    requires from <= next && next + k <= |reqs|
  {
    if k == 0 then 0
    else Sum(reqs, cap, next, from, k - 1) + if reqs[next + k - 1] <= cap then reqs[from + k - 1] else 0
  }

  // Request j of the round is rejected, or the books leave room for it.
  ghost predicate PassedAt(reqs: seq<int>, cap: int, next: nat, j: nat)
    requires next + j < |reqs|
  {
    reqs[next + j] > cap || Sum(reqs, cap, next, 0, j) + reqs[next + j] <= cap
  }

  // The first k requests of the round are all dealt with.
  ghost predicate Passed(reqs: seq<int>, cap: int, next: nat, k: nat)
    requires next + k <= |reqs|
  {
    forall j | 0 <= j < k :: PassedAt(reqs, cap, next, j)
  }

  // Where the round stands: k requests dealt with, and either that is all so far or the
  // next one is blocked.
  ghost predicate LoneState(reqs: seq<int>, cap: nat, next: nat, l: nat, k: nat)
    requires next + l <= |reqs|
  {
    k <= l && Passed(reqs, cap, next, k) && (k < l ==> !PassedAt(reqs, cap, next, k)) &&
    Turns(reqs, [cap], next, l).next == next + k &&
    Turns(reqs, [cap], next, l).left[0] == cap - Sum(reqs, cap, next, 0, k) &&
    LoadAfter(reqs, [cap], next, l, 0) == Sum(reqs, cap, next, next, k)
  }

  lemma LonePasses(reqs: seq<int>, cap: nat, next: nat, l: nat)
    requires next + l < |reqs|
    requires LoneState(reqs, cap, next, l, l) && PassedAt(reqs, cap, next, l)
    ensures LoneState(reqs, cap, next, l + 1, l + 1)
  {
    LoneTurn(reqs, cap, next, l);
  }

  lemma LoneWaits(reqs: seq<int>, cap: nat, next: nat, l: nat, k: nat)
    requires next + l < |reqs| && k <= l
    requires LoneState(reqs, cap, next, l, k) && !PassedAt(reqs, cap, next, k)
    ensures LoneState(reqs, cap, next, l + 1, k)
  {
    LoneTurn(reqs, cap, next, l);
  }

  lemma {:induction false} LoneRound(reqs: seq<int>, cap: nat, next: nat, l: nat) returns (k: nat)
    requires next + l <= |reqs|
    ensures LoneState(reqs, cap, next, l, k)
    decreases l
  {
    if l == 0 {
      LoneStart(reqs, cap, next);
      k := 0;
    } else {
      k := LoneRound(reqs, cap, next, l - 1);
      if PassedAt(reqs, cap, next, k) {
        LonePasses(reqs, cap, next, l - 1);
        k := l;
      } else {
        LoneWaits(reqs, cap, next, l - 1, k);
      }
    }
  }

  lemma NoMorePassed(reqs: seq<int>, cap: int, next: nat, k: nat, e: nat)
    requires next + k <= |reqs| && Passed(reqs, cap, next, k)
    requires next + e < |reqs| ==> !PassedAt(reqs, cap, next, e)
    ensures k <= e
  {
  }

  lemma {:induction false} SumGrows(reqs: seq<int>, cap: int, next: nat, j: nat, k: nat)
    requires Demands(reqs) && j <= k && next + k <= |reqs|
    ensures Sum(reqs, cap, next, next, j) <= Sum(reqs, cap, next, next, k)
    decreases k
  {
    if j < k {
      SumGrows(reqs, cap, next, j, k - 1);
    }
  }

  // One worker and any requests: a round overloads it if and only if some run of requests
  // is passed one by one and yet exceeds the capacity.
  lemma LoneOverloadIff(reqs: seq<int>, cap: nat, next: nat, l: nat)
    requires Demands(reqs) && next + l <= |reqs|
    ensures LoadAfter(reqs, [cap], next, l, 0) > cap <==>
            exists k :: 0 <= k <= l && Passed(reqs, cap, next, k) && Sum(reqs, cap, next, next, k) > cap
  {
    var e := LoneRound(reqs, cap, next, l);
    if k :| 0 <= k <= l && Passed(reqs, cap, next, k) && Sum(reqs, cap, next, next, k) > cap {
      if e < l {
        NoMorePassed(reqs, cap, next, k, e);
      }
      SumGrows(reqs, cap, next, k, e);
    }
  }

  // How many requests a round deals with.
  ghost function Span(reqs: seq<int>, cap: int, next: nat, k: nat): (e: nat)
    requires next + k <= |reqs|
    ensures k <= e && next + e <= |reqs|
    ensures next + e < |reqs| ==> !PassedAt(reqs, cap, next, e)
    ensures Passed(reqs, cap, next, k) ==> Passed(reqs, cap, next, e)
    decreases |reqs| - k
  {
    if next + k < |reqs| && PassedAt(reqs, cap, next, k) then Span(reqs, cap, next, k + 1) else k
  }

  // Cut into rounds by the books, no piece of the list exceeds the capacity.
  ghost predicate PiecesFit(reqs: seq<int>, cap: nat, next: nat)
    requires next <= |reqs|
    decreases |reqs| - next
  {
    next == |reqs| ||
    var k := Span(reqs, cap, next, 0);
    Sum(reqs, cap, next, next, k) <= cap && k > 0 && PiecesFit(reqs, cap, next + k)
  }

  lemma RoundIsSpan(reqs: seq<int>, cap: nat, next: nat)
    requires next < |reqs|
    ensures var k := Span(reqs, cap, next, 0);
            k > 0 && RoundFrom(reqs, [cap], next).next == next + k &&
            LoadAfter(reqs, [cap], next, |reqs| - next, 0) == Sum(reqs, cap, next, next, k)
  {
    var k := Span(reqs, cap, next, 0);
    var e := LoneRound(reqs, cap, next, |reqs| - next);
    NoMorePassed(reqs, cap, next, k, e);
    NoMorePassed(reqs, cap, next, e, k);
    assert PassedAt(reqs, cap, next, 0);
  }

  // A whole service with one worker is safe if and only if those pieces fit.
  lemma {:induction false} LoneSafeIff(reqs: seq<int>, cap: nat, next: nat)
    requires next <= |reqs|
    ensures SafeFrom(reqs, [cap], next) <==> PiecesFit(reqs, cap, next)
    decreases |reqs| - next
  {
    if next < |reqs| {
      RoundIsSpan(reqs, cap, next);
      LoneSafe(reqs, cap, next);
      LoneSafeIff(reqs, cap, next + Span(reqs, cap, next, 0));
    }
  }

  // One worker and three requests: exactly when the second round overloads the worker.
  ghost predicate Overload(a: int, b: int, c: int, cap: int) {
    a <= cap && b <= cap && a + c <= cap < b + (if a < c then a else c)
  }

  // The round that starts at the second of three requests.
  lemma SecondOfThree(a: nat, b: nat, c: nat, cap: nat)
    ensures var r := RoundFrom([a, b, c], [cap], 1);
            r.next == (if b <= cap && c <= cap && cap - a < c then 2 else 3) &&
            LoadAfter([a, b, c], [cap], 1, 2, 0) ==
              (if b <= cap then b else 0) + if c <= cap - (if b <= cap then a else 0) then c else 0
  {
    var reqs := [a, b, c];
    LoneStart(reqs, cap, 1);
    LoneTurn(reqs, cap, 1, 0);
    LoneTurn(reqs, cap, 1, 1);
  }

  lemma FirstOfThree(a: nat, b: nat, c: nat, cap: nat)
    ensures var r := RoundFrom([a, b, c], [cap], 0);
            (r.next == 1 <==> a <= cap && b <= cap < a + b) && 1 <= r.next <= 3 &&
            LoadAfter([a, b, c], [cap], 0, 3, 0) <= cap
  {
    var reqs := [a, b, c];
    LoneStart(reqs, cap, 0);
    LoneTurn(reqs, cap, 0, 0);
    LoneTurn(reqs, cap, 0, 1);
    LoneTurn(reqs, cap, 0, 2);
  }

  lemma LastAlone(reqs: seq<int>, cap: nat)
    requires reqs != []
    ensures SafeFrom(reqs, [cap], |reqs| - 1)
  {
    var n := |reqs| - 1;
    LastLoad(reqs, cap, n);
    LoneSafe(reqs, cap, n);
    assert SafeFrom(reqs, [cap], |reqs|);
  }

  lemma LastLoad(reqs: seq<int>, cap: nat, n: nat)
    requires n + 1 == |reqs|
    ensures LoadAfter(reqs, [cap], n, 1, 0) <= cap
  {
    LoneStart(reqs, cap, n);
    LoneTurn(reqs, cap, n, 0);
  }

  lemma LastTwo(a: nat, b: nat, c: nat, cap: nat)
    ensures SafeFrom([a, b, c], [cap], 1) <==> LoadAfter([a, b, c], [cap], 1, 2, 0) <= cap
  {
    SecondOfThree(a, b, c, cap);
    LoneSafe([a, b, c], cap, 1);
    LastAlone([a, b, c], cap);
  }

  lemma AllThree(a: nat, b: nat, c: nat, cap: nat)
    ensures SafeFrom([a, b, c], [cap], 0) <==>
            (a <= cap && b <= cap < a + b ==> SafeFrom([a, b, c], [cap], 1))
  {
    FirstOfThree(a, b, c, cap);
    LoneSafe([a, b, c], cap, 0);
    LastAlone([a, b, c], cap);
  }

  lemma ThreeSafeIff(a: nat, b: nat, c: nat, cap: nat)
    ensures SafeFrom([a, b, c], [cap], 0) <==> !Overload(a, b, c, cap)
  {
    AllThree(a, b, c, cap);
    LastTwo(a, b, c, cap);
    SecondOfThree(a, b, c, cap);
  }

  // A whole family of services overloads its worker in the second round: a small
  // request, one that fills the worker, and one no larger than the difference.
  lemma LaterRoundOverloads(a: nat, b: nat, c: nat)
    requires 0 < a && 0 < c <= b - a
    ensures RoundFrom([a, b, c], [b], 0).next == 1
    ensures LoadAfter([a, b, c], [b], 1, 2, 0) == b + c > b
    ensures !SafeFrom([a, b, c], [b], 0)
  {
    FirstOfThree(a, b, c, b);
    SecondOfThree(a, b, c, b);
    ThreeSafeIff(a, b, c, b);
  }

  // Requests that ask for nothing spoil the books too.
  lemma NothingThenSomething(b: nat)
    requires b > 0
    ensures !SafeFrom([0, b, b, b], [b], 0)
  {
    var reqs := [0, b, b, b];
    LoneStart(reqs, b, 0);
    LoneTurn(reqs, b, 0, 0);
    LoneTurn(reqs, b, 0, 1);
    LoneTurn(reqs, b, 0, 2);
    LoneTurn(reqs, b, 0, 3);
    LoneStart(reqs, b, 2);
    LoneTurn(reqs, b, 2, 0);
    LoneTurn(reqs, b, 2, 1);
    assert RoundFrom(reqs, [b], 0).next == 2 && LoadAfter(reqs, [b], 2, 2, 0) > b;
    assert !SafeFrom(reqs, [b], 2);
  }

  // ---------- Which demands can be served safely in any order ----------

  ghost predicate Over(demands: set<int>, reqs: seq<int>) {
    forall k | 0 <= k < |reqs| :: reqs[k] in demands
  }

  ghost predicate AlwaysSafe(demands: set<int>) {
    forall reqs, caps | Over(demands, reqs) && NonNegative(caps) :: SafeFrom(reqs, caps, 0)
  }

  // No worker is ever overloaded, whatever the requests and the workers, if and only if
  // all requests demand the same.
  lemma AlwaysSafeIff(demands: set<int>)
    requires forall d | d in demands :: d >= 0
    ensures AlwaysSafe(demands) <==> forall a, b | a in demands && b in demands :: a == b
  {
    if a, b :| a in demands && b in demands && a < b {
      if a == 0 {
        NothingThenSomething(b);
        assert Over(demands, [0, b, b, b]) && NonNegative([b]);
      } else {
        var cap := if 2 * a < b then b else 2 * a;
        ThreeSafeIff(a, b, a, cap);
        assert Over(demands, [a, b, a]) && NonNegative([cap]);
      }
    } else {
      forall a, b | a in demands && b in demands ensures a == b {
        assert !(a < b) && !(b < a);
      }
      forall reqs, caps | Over(demands, reqs) && NonNegative(caps) ensures SafeFrom(reqs, caps, 0) {
        SortedSafe(reqs, caps, 0);
      }
    }
  }

  // ---------- The program's loops ----------

  function WithoutFirst(queue: seq<(int, int)>, a: int): seq<(int, int)> {
    if queue == [] then []
    else if queue[0].1 == a then queue[1..]
    else [queue[0]] + WithoutFirst(queue[1..], a)
  }

  function QueueFrom(reqs: seq<int>, next: nat): seq<(int, int)>
    requires next <= |reqs|
  {
    seq(|reqs| - next, i requires 0 <= i < |reqs| - next => (next + i, reqs[next + i]))
  }

  // One service: its workers' resources, its requests, and what has been printed.
  class Service {
    const caps: seq<int>
    const reqs: seq<int>
    const workerResources: array<int>
    var queue: seq<(int, int)>
    var count: nat
    var rejected: nat
    var printed: seq<Outcome>

    constructor (caps: seq<int>, reqs: seq<int>)
      ensures this.caps == caps && this.reqs == reqs && fresh(workerResources)
      ensures workerResources.Length == |caps|
      ensures queue == QueueFrom(reqs, 0) && count == 1 && rejected == 0 && printed == []
    {
      this.caps, this.reqs := caps, reqs;
      workerResources := new int[|caps|];
      count, rejected, printed := 1, 0, [];
      var q: seq<(int, int)> := [];
      for j := 0 to |reqs|
        invariant |q| == j && forall i | 0 <= i < j :: q[i] == (i, reqs[i])
      {
        q := q + [(j, reqs[j])];
      }
      queue := q;
    }

    method FindThread(currRes: int) returns (place: int)
      ensures place == FirstFit(workerResources[..], currRes)
    {
      for i := 0 to workerResources.Length
        invariant FirstFit(workerResources[..i], currRes) == -1
      {
        assert workerResources[..i + 1][..i] == workerResources[..i];
        if currRes <= workerResources[i] {
          FirstFitIs(workerResources[..], i, currRes);
          return i;
        }
      }
      assert workerResources[..workerResources.Length] == workerResources[..];
      place := -1;
    }

    method OutOfValues(value: int) returns (r: int)
      ensures r == if Highest(caps) >= value then 1 else -1
    {
      var highest := 0;
      for i := 0 to |caps|
        invariant highest == Highest(caps[..i])
      {
        assert caps[..i + 1][..i] == caps[..i];
        if highest < caps[i] {
          highest := caps[i];
        }
      }
      assert caps[..|caps|] == caps;
      r := if highest >= value then 1 else -1;
    }

    // Erases the first entry with this demand.
    method QueueErase(a: int)
      modifies this`queue
      ensures queue == WithoutFirst(old(queue), a)
      ensures old(queue) != [] && old(queue)[0].1 == a ==> queue == old(queue)[1..]
    {
      ghost var before := queue;
      for i := 0 to |queue|
        invariant queue == before
        invariant WithoutFirst(before, a) == before[..i] + WithoutFirst(before[i..], a)
      {
        if queue[i].1 == a {
          queue := queue[..i] + queue[i + 1..];
          return;
        }
        assert before[..i + 1] == before[..i] + [before[i]];
        assert before[i..][1..] == before[i + 1..];
      }
      assert before[..|before|] + [] == before;
    }

    // The program's variables stand for the round r after `done` earlier outcomes.
    ghost predicate Shows(r: Round, done: seq<Outcome>)
      reads this, workerResources
    {
      r.next <= |reqs| && queue == QueueFrom(reqs, r.next) && workerResources[..] == r.left &&
      printed == done + r.outcomes && count == r.next + 1 && rejected == Rejections(printed)
    }

    // One turn of the inner loop.
    method ServeTurn(l: nat, ghost r: Round, ghost done: seq<Outcome>)
      requires Shows(r, done) && r.next < |reqs| && l < |reqs|
      modifies this`queue, this`count, this`rejected, this`printed, workerResources
      ensures Shows(Turn(reqs, caps, r, l), done)
    {
      QueueTail(reqs, r.next);
      var currRes := queue[0].1;
      var place := FindThread(currRes);
      var abnormal := OutOfValues(currRes);
      if place != -1 && abnormal != -1 {
        Retire(Executed(count - 1, currRes, place), currRes, r, done);
        workerResources[place] := workerResources[place] - reqs[l];
        assert workerResources[..] == r.left[place := r.left[place] - reqs[l]];
      } else if abnormal == -1 {
        Retire(Rejected(count - 1, currRes), currRes, r, done);
        rejected := rejected + 1;
      }
    }

    // The line for the request at the head is printed and the request erased.
    method Retire(o: Outcome, currRes: int, ghost r: Round, ghost done: seq<Outcome>)
      requires queue != [] && queue[0].1 == currRes && printed == done + r.outcomes
      modifies this`queue, this`count, this`printed
      ensures queue == old(queue)[1..] && count == old(count) + 1
      ensures printed == done + (r.outcomes + [o])
      ensures Rejections(printed) == old(Rejections(printed)) + if o.Rejected? then 1 else 0
    {
      OutcomesStep(done, r.outcomes, o);
      printed := printed + [o];
      QueueErase(currRes);
      count := count + 1;
    }

    method ResetWorkers()
      requires workerResources.Length == |caps|
      modifies workerResources
      ensures workerResources[..] == caps
    {
      for k := 0 to |caps|
        invariant workerResources[..k] == caps[..k]
      {
        workerResources[k] := caps[k];
      }
    }

    // One round: as many turns as there are requests in the queue.
    method ServeRound(ghost next: nat)
      requires workerResources.Length == |caps| && next <= |reqs|
      requires queue == QueueFrom(reqs, next) && count == next + 1 && rejected == Rejections(printed)
      modifies this`queue, this`count, this`rejected, this`printed, workerResources
      ensures Shows(RoundFrom(reqs, caps, next), old(printed))
    {
      var iterSize := |queue|;
      ResetWorkers();
      for l := 0 to iterSize
        invariant Shows(Turns(reqs, caps, next, l), old(printed))
      {
        ServeTurn(l, Turns(reqs, caps, next, l), old(printed));
      }
    }

    // All the rounds of the service.
    method Serve() returns (rounds: nat)
      requires NonNegative(caps) && workerResources.Length == |caps|
      requires queue == QueueFrom(reqs, 0) && count == 1 && rejected == 0 && printed == []
      modifies this`queue, this`count, this`rejected, this`printed, workerResources
      ensures queue == []
      ensures printed == Flatten(Schedule(reqs, caps, 0))
      ensures rounds == |Schedule(reqs, caps, 0)| <= |reqs|
      ensures rejected == Rejections(printed)
    {
      rounds := 0;
      ghost var next := 0;
      while queue != []
        invariant next <= |reqs| && queue == QueueFrom(reqs, next) && count == next + 1
        invariant Flatten(Schedule(reqs, caps, 0)) == printed + Flatten(Schedule(reqs, caps, next))
        invariant |Schedule(reqs, caps, 0)| == rounds + |Schedule(reqs, caps, next)|
        invariant rejected == Rejections(printed)
        decreases |reqs| - next
      {
        ScheduleStep(reqs, caps, next, printed);
        ServeRound(next);
        next := RoundFrom(reqs, caps, next).next;
        rounds := rounds + 1;
      }
      ScheduleRight(reqs, caps, 0);
    }
  }

  function Rejections(outcomes: seq<Outcome>): nat
    decreases |outcomes|
  {
    if outcomes == [] then 0
    else Rejections(outcomes[..|outcomes| - 1]) + if outcomes[|outcomes| - 1].Rejected? then 1 else 0
  }

  lemma OutcomesStep(done: seq<Outcome>, outcomes: seq<Outcome>, o: Outcome)
    ensures (done + outcomes) + [o] == done + (outcomes + [o])
    ensures Rejections(done + outcomes + [o]) == Rejections(done + outcomes) + if o.Rejected? then 1 else 0
  {
    assert (done + outcomes + [o])[..|done + outcomes|] == done + outcomes;
  }

  lemma QueueTail(reqs: seq<int>, next: nat)
    requires next < |reqs|
    ensures QueueFrom(reqs, next)[0] == (next, reqs[next])
    ensures QueueFrom(reqs, next)[1..] == QueueFrom(reqs, next + 1)
  {
  }

  lemma FirstFitIs(left: seq<int>, i: nat, res: int)
    requires i < |left| && FirstFit(left[..i], res) == -1 && res <= left[i]
    ensures FirstFit(left, res) == i
  {
    FirstFitIsFirst(left, res);
    FirstFitIsFirst(left[..i], res);
    assert forall v | 0 <= v < i :: left[..i][v] == left[v];
  }

  lemma ScheduleStep(reqs: seq<int>, caps: seq<int>, next: nat, done: seq<Outcome>)
    requires NonNegative(caps) && next < |reqs|
    ensures var r := RoundFrom(reqs, caps, next);
            r.next > next &&
            done + Flatten(Schedule(reqs, caps, next)) == (done + r.outcomes) + Flatten(Schedule(reqs, caps, r.next)) &&
            |Schedule(reqs, caps, next)| == 1 + |Schedule(reqs, caps, r.next)|
  {
    RoundAdvances(reqs, caps, next, |reqs| - next);
    var r := RoundFrom(reqs, caps, next);
    assert Schedule(reqs, caps, next)[1..] == Schedule(reqs, caps, r.next);
  }
}
