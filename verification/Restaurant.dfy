// The restaurant: diners and the controller of its doors share a mutex and two
// condition variables. Each section between taking the lock and waiting or
// releasing it is one step; the steps of all threads interleave freely.
module Restaurant {
  import opened Collections

  // AtDoor: about to take the lock and look at the front door, for the first time or
  // after a wake-up. WaitFront: in the wait at the front door. Seated: in the wait at
  // the back door. Leaving: woken from it.
  datatype Diner = AtDoor | WaitFront | Seated | Leaving

  // Where the controller's loop stands: about to open; in one of its three waits; or
  // woken from it.
  datatype Control = Opening | WaitFull | WokenFull | WaitBack | WokenBack | WaitEmpty | WokenEmpty

  datatype Event = Enter(diner: nat) | Leave(diner: nat)

  // log is history.
  datatype State = State(front: bool, back: bool, inside: int, served: int,
                         diners: seq<Diner>, control: Control, log: seq<Event>)

  datatype Step = Door(d: nat) | Exit(d: nat) | Controller

  function Start(n: nat): State {
    State(false, false, 0, 0, seq(n, d => AtDoor), Opening, [])
  }

  // cv_front.notify_all
  function NotifyFront(st: State): State {
    st.(diners := seq(|st.diners|, d requires 0 <= d < |st.diners| =>
          if st.diners[d] == WaitFront then AtDoor else st.diners[d]),
        control := if st.control == WaitFull then WokenFull else st.control)
  }

  // cv_back.notify_all
  function NotifyBack(st: State): State {
    st.(diners := seq(|st.diners|, d requires 0 <= d < |st.diners| =>
          if st.diners[d] == Seated then Leaving else st.diners[d]),
        control := match st.control
                   case WaitBack => WokenBack
                   case WaitEmpty => WokenEmpty
                   case c => c)
  }

  // The end of a diner's visit.
  function Depart(st: State, d: nat): State
    requires d < |st.diners|
  {
    var out := st.(inside := st.inside - 1, served := st.served + 1,
                   diners := st.diners[d := AtDoor], log := st.log + [Leave(d)]);
    if out.inside == 0 then NotifyBack(out.(back := false)).(served := 0) else out
  }

  predicate Enabled(st: State, step: Step) {
    match step
    case Door(d) => d < |st.diners| && st.diners[d] == AtDoor
    case Exit(d) => d < |st.diners| && st.diners[d] == Leaving
    case Controller => st.control in {Opening, WokenFull, WokenBack, WokenEmpty}
  }

  // The last of the batch shuts the front door, opens the back door, and is the first
  // to leave, without giving up the lock.
  function Do(size: nat, st: State, step: Step): State
    requires Enabled(st, step)
  {
    match step
    case Door(d) =>
      if !st.front then
        st.(diners := st.diners[d := WaitFront])
      else
        var come := st.(inside := st.inside + 1, log := st.log + [Enter(d)]);
        if come.inside == size then
          Depart(NotifyBack(NotifyFront(come.(front := false)).(back := true)), d)
        else
          come.(diners := st.diners[d := Seated])
    case Exit(d) =>
      Depart(st, d)
    case Controller =>
      match st.control
      case Opening =>
        var open := NotifyFront(st.(front := true));
        if open.inside < size then open.(control := WaitFull) else CheckBack(open)
      case WokenFull => CheckBack(st)
      case WokenBack => CheckEmpty(st)
      case _ => st.(control := Opening)
  }

  function CheckBack(st: State): State {
    if !st.back then st.(control := WaitBack) else CheckEmpty(st)
  }

  function CheckEmpty(st: State): State {
    if st.inside > 0 then st.(control := WaitEmpty) else st.(control := Opening)
  }

  // ---------- Whole batches ----------

  datatype Batch = Batch(entered: seq<nat>, left: seq<nat>)

  function Enters(ds: seq<nat>): seq<Event> {
    seq(|ds|, i requires 0 <= i < |ds| => Enter(ds[i]))
  }

  function Leaves(ds: seq<nat>): seq<Event> {
    seq(|ds|, i requires 0 <= i < |ds| => Leave(ds[i]))
  }

  function EventsOf(b: Batch): seq<Event> {
    Enters(b.entered) + Leaves(b.left)
  }

  function Flatten(past: seq<Batch>): seq<Event>
    decreases |past|
  {
    if past == [] then [] else Flatten(past[..|past| - 1]) + EventsOf(past[|past| - 1])
  }

  // A batch so far: nobody leaves before `size` different diners have entered, and
  // only those who entered leave, each of them once.
  ghost predicate Orderly(size: nat, b: Batch) {
    AllDifferent(b.entered) && AllDifferent(b.left) && |b.entered| <= size &&
    (forall d | d in b.left :: d in b.entered) &&
    (b.left != [] ==> |b.entered| == size)
  }

  ghost predicate Whole(size: nat, b: Batch) {
    Orderly(size, b) && |b.entered| == |b.left| == size
  }

  // The whole history: complete batches, then the present one.
  ghost predicate Account(size: nat, st: State, past: seq<Batch>, now: Batch) {
    st.log == Flatten(past) + EventsOf(now) &&
    (forall k | 0 <= k < |past| :: Whole(size, past[k])) &&
    Orderly(size, now) && st.inside == |now.entered| - |now.left|
  }

  ghost predicate Filling(size: nat, st: State, now: Batch) {
    st.front && !st.back && now.left == [] && |now.entered| < size && st.served == 0 && st.control == WaitFull &&
    forall d | 0 <= d < |st.diners| :: st.diners[d] == if d in now.entered then Seated else AtDoor
  }

  ghost predicate Draining(size: nat, st: State, now: Batch) {
    !st.front && st.back && |now.entered| == size && 0 < |now.left| < size &&
    st.served == |now.left| && (st.control == WokenFull || st.control == WaitEmpty) &&
    forall d | 0 <= d < |st.diners| ::
      st.diners[d] != Seated && (st.diners[d] == Leaving <==> d in now.entered && d !in now.left)
  }

  ghost predicate Empty(st: State, now: Batch) {
    !st.front && !st.back && now == Batch([], []) && st.served == 0 &&
    st.control in {Opening, WokenFull, WaitBack, WokenEmpty} &&
    forall d | 0 <= d < |st.diners| :: st.diners[d] == AtDoor || st.diners[d] == WaitFront
  }

  ghost predicate Inv(size: nat, st: State, past: seq<Batch>, now: Batch) {
    Account(size, st, past, now) &&
    (forall d | d in now.entered :: d < |st.diners|) &&
    (Filling(size, st, now) || Draining(size, st, now) || Empty(st, now))
  }

  // ---------- Every step keeps the account ----------

  lemma StartInv(size: nat, n: nat)
    ensures Inv(size, Start(n), [], Batch([], []))
  {
  }

  lemma MoreDifferent(ds: seq<nat>, d: nat)
    requires AllDifferent(ds) && d !in ds
    ensures AllDifferent(ds + [d])
  {
  }

  lemma EnterEvents(b: Batch, d: nat)
    requires b.left == []
    ensures EventsOf(Batch(b.entered + [d], [])) == EventsOf(b) + [Enter(d)]
  {
  }

  lemma LeaveEvents(b: Batch, d: nat)
    ensures EventsOf(Batch(b.entered, b.left + [d])) == EventsOf(b) + [Leave(d)]
  {
  }

  lemma CloseBatch(past: seq<Batch>, b: Batch)
    ensures Flatten(past + [b]) == Flatten(past) + EventsOf(b)
    ensures EventsOf(Batch([], [])) == []
  {
    assert (past + [b])[..|past|] == past;
  }

  // A diner takes a seat, and the front door stays open.
  lemma SeatKeeps(size: nat, st: State, past: seq<Batch>, now: Batch, d: nat)
    requires Inv(size, st, past, now) && Enabled(st, Door(d)) && st.front && st.inside + 1 < size
    ensures Inv(size, Do(size, st, Door(d)), past, Batch(now.entered + [d], []))
  {
    MoreDifferent(now.entered, d);
    EnterEvents(now, d);
  }

  // The last diner of the batch enters, the doors change, and the diner leaves.
  lemma LastKeeps(size: nat, st: State, past: seq<Batch>, now: Batch, d: nat)
    requires size >= 2 && Inv(size, st, past, now) && Enabled(st, Door(d)) && st.front && st.inside + 1 == size
    ensures Inv(size, Do(size, st, Door(d)), past, Batch(now.entered + [d], [d]))
  {
    MoreDifferent(now.entered, d);
    EnterEvents(now, d);
    LeaveEvents(Batch(now.entered + [d], []), d);
    var st' := Do(size, st, Door(d));
    forall x | 0 <= x < |st'.diners|
      ensures st'.diners[x] != Seated && (st'.diners[x] == Leaving <==> x in now.entered + [d] && x != d)
    {
    }
  }

  // A woken diner leaves, and others remain.
  lemma LeaveKeeps(size: nat, st: State, past: seq<Batch>, now: Batch, d: nat)
    requires Inv(size, st, past, now) && Enabled(st, Exit(d)) && st.inside > 1
    ensures Inv(size, Do(size, st, Exit(d)), past, Batch(now.entered, now.left + [d]))
  {
    MoreDifferent(now.left, d);
    LeaveEvents(now, d);
  }

  // Once all have left, those who left are those who entered.
  lemma Complete(size: nat, b: Batch)
    requires Orderly(size, b) && |b.left| == |b.entered|
    ensures forall d :: d in b.entered <==> d in b.left
  {
    ElementsSize(b.entered);
    ElementsSize(b.left);
    assert Elements(b.left) <= Elements(b.entered);
    SubsetSize(Elements(b.left), Elements(b.entered));
    assert forall x :: x in b.entered <==> x in Elements(b.entered);
    assert forall x :: x in b.left <==> x in Elements(b.left);
  }

  // The last one out shuts the back door.
  lemma LastOutKeeps(size: nat, st: State, past: seq<Batch>, now: Batch, d: nat)
    requires Inv(size, st, past, now) && Enabled(st, Exit(d)) && st.inside == 1
    ensures Inv(size, Do(size, st, Exit(d)), past + [Batch(now.entered, now.left + [d])], Batch([], []))
  {
    var whole := Batch(now.entered, now.left + [d]);
    MoreDifferent(now.left, d);
    LeaveEvents(now, d);
    CloseBatch(past, whole);
    assert Whole(size, whole);
    Complete(size, whole);
    LastOut(size, st, now, d);
  }

  // Nobody else is left inside.
  lemma LastOut(size: nat, st: State, now: Batch, d: nat)
    requires Draining(size, st, now) && Enabled(st, Exit(d)) && st.inside == 1
    requires forall x :: x in now.entered <==> x in now.left + [d]
    ensures Empty(Do(size, st, Exit(d)), Batch([], []))
  {
    var st' := Do(size, st, Exit(d));
    forall x | 0 <= x < |st'.diners| ensures st'.diners[x] == AtDoor || st'.diners[x] == WaitFront {
      assert x in now.left + [d] ==> x in now.left || x == d;
    }
  }

  lemma OtherKeeps(size: nat, st: State, past: seq<Batch>, now: Batch, step: Step)
    requires size >= 2 && Inv(size, st, past, now) && Enabled(st, step)
    requires step == Controller || (step.Door? && !st.front)
    ensures Inv(size, Do(size, st, step), past, now)
  {
  }

  lemma StepKeeps(size: nat, st: State, past: seq<Batch>, now: Batch, step: Step)
    returns (past': seq<Batch>, now': Batch)
    requires size >= 2 && Inv(size, st, past, now) && Enabled(st, step)
    ensures Inv(size, Do(size, st, step), past', now')
  {
    past', now' := past, now;
    match step
    case Door(d) =>
      if !st.front {
        OtherKeeps(size, st, past, now, step);
      } else if st.inside + 1 < size {
        SeatKeeps(size, st, past, now, d);
        now' := Batch(now.entered + [d], []);
      } else {
        LastKeeps(size, st, past, now, d);
        now' := Batch(now.entered + [d], [d]);
      }
    case Exit(d) =>
      if st.inside > 1 {
        LeaveKeeps(size, st, past, now, d);
        now' := Batch(now.entered, now.left + [d]);
      } else {
        LastOutKeeps(size, st, past, now, d);
        past', now' := past + [Batch(now.entered, now.left + [d])], Batch([], []);
      }
    case Controller =>
      OtherKeeps(size, st, past, now, step);
  }

  // ---------- Runs ----------

  ghost predicate IsPath(size: nat, st: State, run: seq<State>, steps: seq<Step>) {
    |run| == |steps| + 1 && run[0] == st &&
    forall k {:trigger RunAt(size, run, steps, k)} | 0 <= k < |steps| :: RunAt(size, run, steps, k)
  }

  ghost predicate IsRun(size: nat, n: nat, run: seq<State>, steps: seq<Step>) {
    IsPath(size, Start(n), run, steps)
  }

  ghost predicate RunAt(size: nat, run: seq<State>, steps: seq<Step>, k: nat)
    requires |run| == |steps| + 1 && k < |steps|
  {
    Enabled(run[k], steps[k]) && run[k + 1] == Do(size, run[k], steps[k])
  }

  lemma {:induction false} RunInv(size: nat, n: nat, run: seq<State>, steps: seq<Step>, k: nat)
    returns (past: seq<Batch>, now: Batch)
    requires size >= 2 && IsRun(size, n, run, steps) && k < |run|
    ensures Inv(size, run[k], past, now)
    decreases k
  {
    if k == 0 {
      StartInv(size, n);
      past, now := [], Batch([], []);
    } else {
      past, now := RunInv(size, n, run, steps, k - 1);
      assert RunAt(size, run, steps, k - 1);
      past, now := StepKeeps(size, run[k - 1], past, now, steps[k - 1]);
    }
  }

  // The history of every run is one of whole batches, up to the one in progress.
  lemma WholeBatches(size: nat, n: nat, run: seq<State>, steps: seq<Step>, k: nat)
    requires size >= 2 && IsRun(size, n, run, steps) && k < |run|
    ensures exists past, now :: Account(size, run[k], past, now)
  {
    var past, now := RunInv(size, n, run, steps, k);
  }

  // The diners between entry and exit.
  ghost function Inside(st: State): (r: set<nat>)
    ensures forall d: nat :: d in r <==> d < |st.diners| && (st.diners[d] == Seated || st.diners[d] == Leaving)
  {
    InsideOf(st.diners)
  }

  ghost function InsideOf(diners: seq<Diner>): (r: set<nat>)
    ensures forall d: nat :: d in r <==> d < |diners| && (diners[d] == Seated || diners[d] == Leaving)
    decreases |diners|
  {
    if diners == [] then {}
    else
      var n: nat := |diners| - 1;
      InsideOf(diners[..n]) + if diners[n] == Seated || diners[n] == Leaving then {n} else {}
  }

  lemma InsideSize(size: nat, st: State, past: seq<Batch>, now: Batch)
    requires Inv(size, st, past, now)
    ensures |Inside(st)| == st.inside
  {
    var entered, left := Elements(now.entered), Elements(now.left);
    ElementsSize(now.entered);
    ElementsSize(now.left);
    forall d: nat ensures d in Inside(st) <==> d in entered && d !in left {
      assert d in entered <==> d in now.entered;
      assert d in left <==> d in now.left;
    }
    assert Inside(st) == entered - left && left <= entered;
    Difference(entered, left);
  }

  lemma Difference(a: set<nat>, b: set<nat>)
    requires b <= a
    ensures |a - b| == |a| - |b|
  {
    assert a == (a - b) + b;
    assert |(a - b) + b| == |a - b| + |b|;
  }

  // diners_inside is the number of diners inside, and never reaches the batch size
  // at the end of a step.
  lemma InsideCount(size: nat, n: nat, run: seq<State>, steps: seq<Step>, k: nat)
    requires size >= 2 && IsRun(size, n, run, steps) && k < |run|
    ensures run[k].inside == |Inside(run[k])| < size
  {
    var past, now := RunInv(size, n, run, steps, k);
    InsideSize(size, run[k], past, now);
  }

  // The doors are never open together; while the back door is open nobody enters and
  // served and inside make up the batch.
  lemma Doors(size: nat, n: nat, run: seq<State>, steps: seq<Step>, k: nat)
    requires size >= 2 && IsRun(size, n, run, steps) && k < |run|
    ensures var st := run[k];
            !(st.front && st.back) &&
            (st.back ==> st.served + st.inside == size && 0 < st.served < size) &&
            (!st.back ==> st.served == 0)
  {
    var past, now := RunInv(size, n, run, steps, k);
  }

  // Somebody enters, or the front door opens, only in a step that finds the back
  // door closed; and the front door opens only on an empty restaurant.
  lemma NoEntryWhileDraining(size: nat, n: nat, run: seq<State>, steps: seq<Step>, k: nat)
    requires size >= 2 && IsRun(size, n, run, steps) && k < |steps|
    ensures run[k].back ==>
              |run[k + 1].log| <= |run[k].log| + 1 && run[k].log <= run[k + 1].log &&
              forall d | |run[k].log| < |run[k + 1].log| :: run[k + 1].log[|run[k].log|] != Enter(d)
    ensures !run[k].front && run[k + 1].front ==> run[k].inside == 0 && !run[k].back
  {
    var past, now := RunInv(size, n, run, steps, k);
    assert RunAt(size, run, steps, k);
  }

  ghost predicate Reachable(size: nat, n: nat, st: State) {
    exists run, steps :: IsRun(size, n, run, steps) && run[|steps|] == st
  }

  lemma ReachableInv(size: nat, n: nat, st: State) returns (past: seq<Batch>, now: Batch)
    requires size >= 2 && Reachable(size, n, st)
    ensures Inv(size, st, past, now)
  {
    var run, steps :| IsRun(size, n, run, steps) && run[|steps|] == st;
    past, now := RunInv(size, n, run, steps, |steps|);
  }

  lemma {:induction false} RunDiners(size: nat, n: nat, run: seq<State>, steps: seq<Step>, k: nat)
    requires IsRun(size, n, run, steps) && k < |run|
    ensures |run[k].diners| == n
    decreases k
  {
    if k > 0 {
      RunDiners(size, n, run, steps, k - 1);
      assert RunAt(size, run, steps, k - 1);
    }
  }

  lemma ReachableDiners(size: nat, n: nat, st: State)
    requires Reachable(size, n, st)
    ensures |st.diners| == n
  {
    var run, steps :| IsRun(size, n, run, steps) && run[|steps|] == st;
    RunDiners(size, n, run, steps, |steps|);
  }

  // ---------- The controller can miss a batch ----------

  // Nobody is inside, both doors are shut, and the controller waits for a
  // notification that only a diner who gets in could give.
  ghost predicate Stuck(st: State) {
    st.control == WaitBack && !st.front && !st.back &&
    forall d | 0 <= d < |st.diners| :: st.diners[d] == AtDoor || st.diners[d] == WaitFront
  }

  // The doors are shut, and the controller is in that wait or on its way there.
  ghost predicate Doomed(st: State) {
    !st.front && !st.back && (st.control == WokenFull || st.control == WaitBack)
  }

  lemma DoomedStep(size: nat, st: State, past: seq<Batch>, now: Batch, step: Step)
    requires size >= 2 && Inv(size, st, past, now) && Doomed(st) && Enabled(st, step)
    ensures Inv(size, Do(size, st, step), past, now)
    ensures Doomed(Do(size, st, step)) && Do(size, st, step).log == st.log
    ensures Stuck(st) ==> Stuck(Do(size, st, step))
  {
    OtherKeeps(size, st, past, now, step);
  }

  // From then on, whatever steps follow, nobody ever enters or leaves.
  lemma {:induction false} DoomedForever(size: nat, n: nat, st: State, run: seq<State>, steps: seq<Step>, k: nat)
    requires size >= 2 && Reachable(size, n, st) && Doomed(st)
    requires IsPath(size, st, run, steps) && k < |run|
    ensures Doomed(run[k]) && run[k].log == st.log
    ensures Stuck(st) ==> Stuck(run[k])
    ensures exists past, now :: Inv(size, run[k], past, now)
    decreases k
  {
    if k == 0 {
      var past, now := ReachableInv(size, n, st);
    } else {
      DoomedForever(size, n, st, run, steps, k - 1);
      var past, now :| Inv(size, run[k - 1], past, now);
      assert RunAt(size, run, steps, k - 1);
      DoomedStep(size, run[k - 1], past, now, steps[k - 1]);
    }
  }

  // Some continuation lets another diner in.
  ghost predicate ServesAgain(size: nat, st: State) {
    exists run, steps :: IsPath(size, st, run, steps) && NewEntry(st, run[|steps|])
  }

  ghost predicate NewEntry(before: State, after: State) {
    before.log <= after.log && exists i :: |before.log| <= i < |after.log| && after.log[i].Enter?
  }

  lemma ServesNow(size: nat, st: State, d: nat)
    requires Enabled(st, Door(d)) && st.front
    ensures ServesAgain(size, st)
  {
    var st' := Do(size, st, Door(d));
    assert st'.log[|st.log|] == Enter(d);
    assert NewEntry(st, st');
    var run := [st, st'];
    assert RunAt(size, run, [Door(d)], 0);
    assert IsPath(size, st, run, [Door(d)]) && run[|[Door(d)]|] == st';
  }

  lemma ServesLater(size: nat, st: State, step: Step)
    requires Enabled(st, step) && ServesAgain(size, Do(size, st, step))
    ensures ServesAgain(size, st)
  {
    var st' := Do(size, st, step);
    LogGrows(size, st, step);
    var run, steps :| IsPath(size, st', run, steps) && NewEntry(st', run[|steps|]);
    var run', steps' := [st] + run, [step] + steps;
    forall k | 0 <= k < |steps'| ensures RunAt(size, run', steps', k) {
      if k > 0 {
        assert RunAt(size, run, steps, k - 1);
      }
    }
    assert run'[|steps'|] == run[|steps|];
    assert NewEntry(st, run'[|steps'|]);
  }

  lemma LogGrows(size: nat, st: State, step: Step)
    requires Enabled(st, step)
    ensures st.log <= Do(size, st, step).log
  {
  }

  ghost function Below(n: nat): (s: set<nat>)
    ensures |s| == n && forall x: nat :: x in s <==> x < n
  {
    if n == 0 then {} else Below(n - 1) + {n - 1}
  }

  // Unless everybody is inside, with the front door open somebody is about to come in.
  lemma SomebodyComes(size: nat, st: State, now: Batch) returns (d: nat)
    requires Filling(size, st, now) && AllDifferent(now.entered) && |now.entered| < |st.diners|
    ensures Enabled(st, Door(d))
  {
    var all := Below(|st.diners|);
    ElementsSize(now.entered);
    if all <= Elements(now.entered) {
      SubsetSize(all, Elements(now.entered));
    }
    d :| d in all && d !in Elements(now.entered);
  }

  // With everybody inside and the batch not full, nothing can happen any more.
  lemma AllInside(size: nat, st: State, past: seq<Batch>, now: Batch, step: Step)
    requires Inv(size, st, past, now) && st.diners != [] && st.inside == |st.diners|
    ensures !Enabled(st, step)
  {
    var all := Below(|st.diners|);
    ElementsSize(now.entered);
    SubsetSize(Elements(now.entered), all);
    if Filling(size, st, now) {
      assert Elements(now.entered) == all;
      forall d: nat | d < |st.diners| ensures st.diners[d] == Seated {
        assert d in all;
      }
    }
  }

  // While the back door is open there is a diner about to leave.
  lemma SomebodyGoes(size: nat, st: State, past: seq<Batch>, now: Batch) returns (d: nat)
    requires Inv(size, st, past, now) && Draining(size, st, now)
    ensures Enabled(st, Exit(d))
  {
    ElementsSize(now.entered);
    ElementsSize(now.left);
    if Elements(now.entered) <= Elements(now.left) {
      SubsetSize(Elements(now.entered), Elements(now.left));
    }
    d :| d in Elements(now.entered) && d !in Elements(now.left);
  }

  // How many steps it may take until the front door is open again.
  ghost function Until(st: State): int {
    if st.front then 0
    else match st.control
      case Opening => 1
      case WokenEmpty => 2
      case WaitEmpty => 2 + st.inside
      case _ => 3 + st.inside
  }

  // Short of that, somebody can still enter.
  lemma {:induction false} CanServe(size: nat, st: State, past: seq<Batch>, now: Batch)
    requires size >= 2 && Inv(size, st, past, now) && !Doomed(st) && st.inside < |st.diners|
    ensures ServesAgain(size, st)
    decreases Until(st)
  {
    if st.front {
      var d := SomebodyComes(size, st, now);
      ServesNow(size, st, d);
    } else {
      var step := Controller;
      if st.control == WaitEmpty {
        var d := SomebodyGoes(size, st, past, now);
        step := Exit(d);
      }
      var past', now' := StepKeeps(size, st, past, now, step);
      CanServe(size, Do(size, st, step), past', now');
      ServesLater(size, st, step);
    }
  }

  lemma NeverAgain(size: nat, n: nat, st: State, run: seq<State>, steps: seq<Step>)
    requires size >= 2 && n > 0 && Reachable(size, n, st) && (Doomed(st) || st.inside == n)
    requires IsPath(size, st, run, steps)
    ensures !NewEntry(st, run[|steps|])
  {
    if Doomed(st) {
      DoomedForever(size, n, st, run, steps, |steps|);
    } else if steps != [] {
      var past, now := ReachableInv(size, n, st);
      ReachableDiners(size, n, st);
      assert RunAt(size, run, steps, 0);
      AllInside(size, st, past, now, steps[0]);
    }
  }

  // Nobody will ever enter again if and only if the doors are shut and the controller is
  // past its first wait without having found the back door open, or everybody is inside.
  lemma ServesAgainIff(size: nat, n: nat, st: State)
    requires size >= 2 && n > 0 && Reachable(size, n, st)
    ensures ServesAgain(size, st) <==> !Doomed(st) && st.inside != n
  {
    if Doomed(st) || st.inside == n {
      forall run, steps | IsPath(size, st, run, steps) ensures !NewEntry(st, run[|steps|]) {
        NeverAgain(size, n, st, run, steps);
      }
    } else {
      var past, now := ReachableInv(size, n, st);
      ReachableDiners(size, n, st);
      InsideBound(size, st, past, now);
      CanServe(size, st, past, now);
    }
  }

  lemma InsideBound(size: nat, st: State, past: seq<Batch>, now: Batch)
    requires Inv(size, st, past, now)
    ensures st.inside <= |st.diners|
  {
    ElementsSize(now.entered);
    SubsetSize(Elements(now.entered), Below(|st.diners|));
  }

  // With enough diners for a batch they are never all inside.
  lemma ClosedForGoodIff(size: nat, n: nat, st: State)
    requires 2 <= size <= n && Reachable(size, n, st)
    ensures ServesAgain(size, st) <==> !Doomed(st)
  {
    var past, now := ReachableInv(size, n, st);
    ServesAgainIff(size, n, st);
  }

  // In a reachable state the controller is in that wait only if it is stuck.
  lemma WaitBackIsStuck(size: nat, n: nat, run: seq<State>, steps: seq<Step>, k: nat)
    requires size >= 2 && IsRun(size, n, run, steps) && k < |run|
    ensures run[k].control == WaitBack <==> Stuck(run[k])
    ensures run[k].control != WokenBack
  {
    var past, now := RunInv(size, n, run, steps, k);
  }

  // The controller's step from the first wait leads there exactly when the whole
  // batch has left before it gets the lock.
  lemma MissedBatch(size: nat, n: nat, run: seq<State>, steps: seq<Step>, k: nat)
    requires size >= 2 && IsRun(size, n, run, steps) && k < |steps|
    requires steps[k] == Controller && run[k].control == WokenFull
    ensures run[k + 1].control == WaitBack <==> run[k].inside == 0
  {
    var past, now := RunInv(size, n, run, steps, k);
    assert RunAt(size, run, steps, k);
  }

  lemma ReachableStart(size: nat, n: nat)
    ensures Reachable(size, n, Start(n))
  {
    assert IsRun(size, n, [Start(n)], []);
  }

  lemma ReachableNext(size: nat, n: nat, st: State, step: Step)
    requires Reachable(size, n, st) && Enabled(st, step)
    ensures Reachable(size, n, Do(size, st, step))
  {
    var run, steps :| IsRun(size, n, run, steps) && run[|steps|] == st;
    var run', steps' := run + [Do(size, st, step)], steps + [step];
    forall k | 0 <= k < |steps'| ensures RunAt(size, run', steps', k) {
      if k < |steps| {
        assert RunAt(size, run, steps, k);
      }
    }
    assert run'[|steps'|] == Do(size, st, step);
  }

  // The diners 0 .. k - 1 have taken seats in the first batch.
  lemma {:induction false} SeatsTaken(size: nat, n: nat, k: nat) returns (st: State)
    requires 2 <= size <= n && k < size
    ensures Reachable(size, n, st) && |st.diners| == n && st.front && st.inside == k
    ensures !st.back && st.control == WaitFull
    ensures forall d | 0 <= d < n :: st.diners[d] == if d < k then Seated else AtDoor
    decreases k
  {
    if k == 0 {
      ReachableStart(size, n);
      ReachableNext(size, n, Start(n), Controller);
      st := Do(size, Start(n), Controller);
    } else {
      var before := SeatsTaken(size, n, k - 1);
      ReachableNext(size, n, before, Door(k - 1));
      st := Do(size, before, Door(k - 1));
    }
  }

  // k of them are still to leave, the controller not having had the lock meanwhile.
  lemma {:induction false} SeatsLeft(size: nat, n: nat, k: nat) returns (st: State)
    requires 2 <= size <= n && k < size
    ensures Reachable(size, n, st) && |st.diners| == n && !st.front && st.inside == k
    ensures st.back == (k > 0) && st.control == WokenFull
    ensures forall d | 0 <= d < n :: st.diners[d] == if d < k then Leaving else AtDoor
    decreases size - k
  {
    if k == size - 1 {
      var before := SeatsTaken(size, n, k);
      ReachableNext(size, n, before, Door(k));
      st := Do(size, before, Door(k));
    } else {
      var before := SeatsLeft(size, n, k + 1);
      ReachableNext(size, n, before, Exit(k));
      st := Do(size, before, Exit(k));
    }
  }

  // With any batch size and enough diners the restaurant may close for good after its
  // first batch.
  lemma CanGetStuck(size: nat, n: nat) returns (st: State)
    requires 2 <= size <= n
    ensures Reachable(size, n, st) && Stuck(st)
  {
    var before := SeatsLeft(size, n, 0);
    ReachableNext(size, n, before, Controller);
    st := Do(size, before, Controller);
  }
}
