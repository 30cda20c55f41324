// The CSMA simulation slot by slot: what one time slot may do to the stations and
// the channel, whatever the random draws, and what follows for whole runs.
module Csma {

  // pending counts the collisions since the last success; collisionsBefore and
  // times are the two histories kept per station.
  datatype Station = Station(backoff: int, collisions: nat, successes: nat, wants: bool,
                             collisionsBefore: seq<nat>, times: seq<nat>, pending: nat)

  datatype Channel = Channel(busy: bool, owner: int, length: nat, timer: nat)

  datatype Tx = Tx(start: nat, length: nat, owner: nat)

  // events counts collision events; log is history, one entry for every success.
  datatype State = State(stations: seq<Station>, channel: Channel, events: nat, log: seq<Tx>)

  // prob is the probability, from 0 to 1, with which an idle station comes to want to
  // transmit in a slot.
  datatype Settings = Settings(maxBackoff: nat, maxTime: nat, busyWait: nat, prob: real) {
    predicate Valid() {
      maxTime >= 1 && busyWait >= 1
    }
  }

  function Pow2(k: nat): (p: nat)
    ensures p >= 1
  {
    if k == 0 then 1 else 2 * Pow2(k - 1)
  }

  function Min(a: int, b: int): int {
    if a < b then a else b
  }

  // The largest backoff that can be drawn after the given number of collisions.
  function Window(p: Settings, collisions: nat): nat {
    Min(Pow2(collisions), Pow2(p.maxBackoff))
  }

  predicate Ready(s: Station) {
    s.backoff == 0 && s.wants
  }

  function Dec(s: Station): Station {
    if s.backoff > 0 then s.(backoff := s.backoff - 1) else s
  }

  // ---------- One slot ----------

  // A wish is drawn in whole percents: what can come of it.
  ghost predicate CanDraw(p: Settings, wish: bool) {
    if wish then p.prob > 0.0 else p.prob * 100.0 <= 99.0
  }

  // Stations that do not yet want to transmit may start to.
  ghost predicate Wishes(p: Settings, s: seq<Station>, s': seq<Station>) {
    |s'| == |s| &&
    forall i | 0 <= i < |s| ::
      s'[i] == s[i].(wants := s'[i].wants) && if s[i].wants then s'[i].wants else CanDraw(p, s'[i].wants)
  }

  ghost predicate BusyAt(p: Settings, owner: int, s: Station, s': Station, i: int) {
    if i != owner && s.backoff == 0 then
      if s.wants then s' == s.(backoff := s'.backoff) && 1 <= s'.backoff <= p.busyWait else s' == s
    else
      s' == Dec(s)
  }

  ghost predicate BusyStations(p: Settings, owner: int, s: seq<Station>, s': seq<Station>) {
    |s'| == |s| &&
    forall i {:trigger BusyAt(p, owner, s[i], s'[i], i)} | 0 <= i < |s| :: BusyAt(p, owner, s[i], s'[i], i)
  }

  ghost predicate BusyChannel(p: Settings, ch: Channel, ch': Channel) {
    if ch.timer + 1 == ch.length then
      ch' == Channel(false, ch.owner, ch'.length, 0) && 2 <= ch'.length <= p.maxTime + 1
    else
      ch' == ch.(timer := ch.timer + 1)
  }

  // c is the first station in the scan to attempt a transmission.
  ghost predicate First(s: seq<Station>, c: nat) {
    c < |s| && Ready(s[c]) && forall j | 0 <= j < c :: !Ready(s[j])
  }

  // Station j is caught out by c: stations before c have had their turn in this
  // slot already, and may have counted down to zero in it.
  predicate Hit(s: seq<Station>, c: nat, j: nat)
    requires c < |s| && j < |s|
  {
    j != c && Ready(if j < c then Dec(s[j]) else s[j])
  }

  ghost predicate Alone(s: seq<Station>, c: nat)
    requires c < |s|
  {
    forall j | 0 <= j < |s| :: !Hit(s, c, j)
  }

  ghost predicate Struck(p: Settings, s: Station, s': Station, late: nat) {
    s' == s.(backoff := s'.backoff, collisions := s.collisions + 1, pending := s.pending + 1) &&
    1 <= s'.backoff + late <= Window(p, s.collisions + 1)
  }

  ghost predicate Succeeds(p: Settings, time: nat, s: Station, s': Station) {
    CanDraw(p, s'.wants) &&
    s' == Station(s.backoff, s.collisions, s.successes + 1, s'.wants,
                  s.collisionsBefore + [s.pending], s.times + [time], 0)
  }

  // What has become of station j when the scan has reached station n, c being the
  // first to attempt. A station struck before its own turn counts down in it.
  ghost predicate ScannedAt(p: Settings, time: nat, s: seq<Station>, c: nat, n: nat, s': Station, j: nat)
    requires c < |s| && j < |s|
  {
    if j == c then
      if Alone(s, c) then Succeeds(p, time, s[c], s') else Struck(p, s[c], s', 0)
    else if Hit(s, c, j) then
      Struck(p, s[j], s', if c < j < n then 1 else 0)
    else
      s' == if j < n then Dec(s[j]) else s[j]
  }

  ghost predicate Scanned(p: Settings, time: nat, s: seq<Station>, c: nat, n: nat, s': seq<Station>)
    requires c < |s|
  {
    |s'| == |s| &&
    forall j {:trigger ScannedAt(p, time, s, c, n, s'[j], j)} | 0 <= j < |s| :: ScannedAt(p, time, s, c, n, s'[j], j)
  }

  ghost predicate Idles(s: seq<Station>, s': seq<Station>) {
    |s'| == |s| && forall j | 0 <= j < |s| :: !Ready(s[j]) && s'[j] == Dec(s[j])
  }

  // The idle slot: nobody attempts, or exactly one station does, and either
  // transmits or collides.
  ghost predicate IdleSlot(p: Settings, time: nat, st: State, s: seq<Station>, st': State) {
    if Idles(s, st'.stations) then
      st' == st.(stations := st'.stations)
    else
      exists c :: First(s, c) && IdleAttempt(p, time, st, s, c, st')
  }

  ghost predicate IdleAttempt(p: Settings, time: nat, st: State, s: seq<Station>, c: nat, st': State)
    requires c < |s|
  {
    Scanned(p, time, s, c, |s|, st'.stations) &&
    if Alone(s, c) then
      st'.channel == Channel(true, c, st.channel.length, st.channel.timer + 1) &&
      st'.events == st.events && st'.log == st.log + [Tx(time, st.channel.length, c)]
    else
      st'.channel == st.channel && st'.events == st.events + 1 && st'.log == st.log
  }

  ghost predicate BusySlot(p: Settings, st: State, s: seq<Station>, st': State) {
    BusyStations(p, st.channel.owner, s, st'.stations) &&
    BusyChannel(p, st.channel, st'.channel) &&
    st'.events == st.events && st'.log == st.log
  }

  ghost predicate Slot(p: Settings, time: nat, st: State, st': State) {
    exists s :: Wishes(p, st.stations, s) && SlotAfter(p, time, st, s, st')
  }

  ghost predicate SlotAfter(p: Settings, time: nat, st: State, s: seq<Station>, st': State) {
    if st.channel.busy then BusySlot(p, st, s, st') else IdleSlot(p, time, st, s, st')
  }

  // istransmitting starts out arbitrary.
  ghost predicate Start(p: Settings, n: nat, st: State) {
    |st.stations| == n &&
    (forall i | 0 <= i < n :: st.stations[i] == Station(0, 0, 0, st.stations[i].wants, [], [], 0)) &&
    st.channel == Channel(false, -1, st.channel.length, 0) && 2 <= st.channel.length <= p.maxTime + 1 &&
    st.events == 0 && st.log == []
  }

  ghost predicate IsRun(p: Settings, n: nat, run: seq<State>) {
    run != [] && Start(p, n, run[0]) &&
    forall t {:trigger SlotAt(p, run, t)} | 0 <= t < |run| - 1 :: SlotAt(p, run, t)
  }

  ghost predicate SlotAt(p: Settings, run: seq<State>, t: nat)
    requires t + 1 < |run|
  {
    Slot(p, t, run[t], run[t + 1])
  }

  // ---------- Sums ----------

  function Sum(xs: seq<nat>): nat
    decreases |xs|
  {
    if xs == [] then 0 else Sum(xs[..|xs| - 1]) + xs[|xs| - 1]
  }

  function Collisions(s: seq<Station>): nat
    decreases |s|
  {
    if s == [] then 0 else Collisions(s[..|s| - 1]) + s[|s| - 1].collisions
  }

  function Successes(s: seq<Station>): nat
    decreases |s|
  {
    if s == [] then 0 else Successes(s[..|s| - 1]) + s[|s| - 1].successes
  }

  // The start times of one station's transmissions.
  function TimesOf(log: seq<Tx>, i: nat): seq<nat>
    decreases |log|
  {
    if log == [] then []
    else
      var last := log[|log| - 1];
      TimesOf(log[..|log| - 1], i) + if last.owner == i then [last.start] else []
  }

  // ---------- Invariants ----------

  function Cap(p: Settings, collisions: nat): nat {
    if Window(p, collisions) > p.busyWait then Window(p, collisions) else p.busyWait
  }

  // The ledger of one station, and the range of its backoff.
  ghost predicate StationOk(p: Settings, s: Station) {
    0 <= s.backoff <= Cap(p, s.collisions) &&
    s.collisions == Sum(s.collisionsBefore) + s.pending &&
    s.successes == |s.collisionsBefore| == |s.times|
  }

  ghost predicate StationsOk(p: Settings, s: seq<Station>) {
    forall i | 0 <= i < |s| :: StationOk(p, s[i])
  }

  // Collisions are shared by at least two stations and at most all.
  ghost predicate EventsOk(st: State) {
    2 * st.events <= Collisions(st.stations) <= |st.stations| * st.events
  }

  // A busy channel belongs to the station whose transmission has run for `timer`
  // slots and is not over; an idle one to nobody.
  ghost predicate ChannelOk(p: Settings, time: nat, st: State) {
    var ch := st.channel;
    2 <= ch.length <= p.maxTime + 1 &&
    if ch.busy then
      1 <= ch.timer < ch.length && 0 <= ch.owner < |st.stations| &&
      st.log != [] &&
      var last := st.log[|st.log| - 1];
      last.start + ch.timer == time && last.length == ch.length && last.owner == ch.owner
    else
      ch.timer == 0 && (st.log != [] ==> st.log[|st.log| - 1].start + st.log[|st.log| - 1].length <= time)
  }

  // No two transmissions overlap, and none is shorter than two slots.
  ghost predicate LogOk(p: Settings, n: nat, time: nat, log: seq<Tx>) {
    (forall k | 0 <= k < |log| ::
       2 <= log[k].length <= p.maxTime + 1 && log[k].owner < n && log[k].start < time) &&
    forall k | 0 <= k < |log| - 1 :: log[k].start + log[k].length <= log[k + 1].start
  }

  ghost predicate HistoryOk(st: State) {
    forall i | 0 <= i < |st.stations| :: st.stations[i].times == TimesOf(st.log, i)
  }

  ghost predicate Inv(p: Settings, n: nat, time: nat, st: State) {
    |st.stations| == n && StationsOk(p, st.stations) && EventsOk(st) && ChannelOk(p, time, st) &&
    LogOk(p, n, time, st.log) && HistoryOk(st) && Successes(st.stations) == |st.log|
  }

  // ---------- Preservation, station by station ----------

  lemma {:induction false} Pow2Grows(a: nat, b: nat)
    requires a <= b
    ensures Pow2(a) <= Pow2(b)
    decreases b
  {
    if a < b {
      Pow2Grows(a, b - 1);
    }
  }

  lemma CapGrows(p: Settings, a: nat, b: nat)
    requires a <= b
    ensures Cap(p, a) <= Cap(p, b)
  {
    Pow2Grows(a, b);
  }

  lemma {:induction false} Pow2Is(a: nat, b: nat)
    ensures Pow2(0) == 1 && Pow2(1) == 2 && Pow2(a + b) == Pow2(a) * Pow2(b)
    decreases b
  {
    if b > 0 {
      Pow2Is(a, b - 1);
      assert Pow2(a) * (2 * Pow2(b - 1)) == 2 * (Pow2(a) * Pow2(b - 1));
    }
  }

  // A window is a power of two with the smaller of the two exponents.
  lemma WindowIs(p: Settings, collisions: nat)
    ensures Window(p, collisions) == Pow2(Min(collisions, p.maxBackoff))
  {
    if collisions <= p.maxBackoff {
      Pow2Grows(collisions, p.maxBackoff);
    } else {
      Pow2Grows(p.maxBackoff, collisions);
    }
  }

  lemma StruckOk(p: Settings, s: Station, s': Station, late: nat)
    requires StationOk(p, s) && Struck(p, s, s', late) && late <= 1
    ensures StationOk(p, s')
  {
    CapGrows(p, s.collisions, s.collisions + 1);
  }

  lemma SucceedsOk(p: Settings, time: nat, s: Station, s': Station)
    requires StationOk(p, s) && Succeeds(p, time, s, s')
    ensures StationOk(p, s')
  {
    assert (s.collisionsBefore + [s.pending])[..|s.collisionsBefore|] == s.collisionsBefore;
  }

  lemma BusyStationsOk(p: Settings, owner: int, s: seq<Station>, s': seq<Station>)
    requires p.Valid() && StationsOk(p, s) && BusyStations(p, owner, s, s')
    ensures StationsOk(p, s')
    ensures SameCounts(s, s')
  {
    forall i | 0 <= i < |s|
      ensures StationOk(p, s'[i])
      ensures s'[i].collisions == s[i].collisions && s'[i].successes == s[i].successes && s'[i].times == s[i].times
    {
      assert BusyAt(p, owner, s[i], s'[i], i);
    }
  }

  lemma ScannedOk(p: Settings, time: nat, s: seq<Station>, c: nat, s': seq<Station>)
    requires StationsOk(p, s) && c < |s| && Scanned(p, time, s, c, |s|, s')
    ensures StationsOk(p, s')
  {
    forall j | 0 <= j < |s| ensures StationOk(p, s'[j]) {
      assert ScannedAt(p, time, s, c, |s|, s'[j], j);
      if j == c && Alone(s, c) {
        SucceedsOk(p, time, s[j], s'[j]);
      } else if j == c || Hit(s, c, j) {
        StruckOk(p, s[j], s'[j], if c < j then 1 else 0);
      }
    }
  }

  // ---------- Counting ----------

  ghost predicate SameCounts(s: seq<Station>, s': seq<Station>) {
    |s'| == |s| &&
    forall i | 0 <= i < |s| ::
      s'[i].collisions == s[i].collisions && s'[i].successes == s[i].successes && s'[i].times == s[i].times
  }

  lemma {:induction false} SameSums(s: seq<Station>, s': seq<Station>)
    requires SameCounts(s, s')
    ensures Collisions(s') == Collisions(s) && Successes(s') == Successes(s)
    decreases |s|
  {
    if s != [] {
      SameSums(s[..|s| - 1], s'[..|s| - 1]);
    }
  }

  // The number of stations among the first n that take part in c's collision.
  ghost function Involved(s: seq<Station>, c: nat, n: nat): (k: nat)
    requires c < |s| && n <= |s|
    ensures k <= n
  {
    if n == 0 then 0
    else Involved(s, c, n - 1) + if n - 1 == c || Hit(s, c, n - 1) then 1 else 0
  }

  lemma {:induction false} InvolvedGrows(s: seq<Station>, c: nat, m: nat, n: nat)
    requires c < |s| && m <= n <= |s|
    ensures Involved(s, c, m) <= Involved(s, c, n)
    decreases n
  {
    if m < n {
      InvolvedGrows(s, c, m, n - 1);
    }
  }

  // Not alone: at least two take part.
  lemma AtLeastTwo(s: seq<Station>, c: nat)
    requires c < |s| && !Alone(s, c)
    ensures Involved(s, c, |s|) >= 2
  {
    var j: nat :| j < |s| && Hit(s, c, j);
    var a, b := if j < c then j else c, if j < c then c else j;
    InvolvedGrows(s, c, a + 1, b);
    InvolvedGrows(s, c, b + 1, |s|);
  }

  lemma {:induction false} CollisionSum(p: Settings, time: nat, s: seq<Station>, c: nat, s': seq<Station>, n: nat)
    requires c < |s| && !Alone(s, c) && Scanned(p, time, s, c, |s|, s') && n <= |s|
    ensures Collisions(s'[..n]) == Collisions(s[..n]) + Involved(s, c, n)
    ensures Successes(s'[..n]) == Successes(s[..n])
    decreases n
  {
    if n > 0 {
      CollisionSum(p, time, s, c, s', n - 1);
      assert s[..n][..n - 1] == s[..n - 1] && s'[..n][..n - 1] == s'[..n - 1];
      assert ScannedAt(p, time, s, c, |s|, s'[n - 1], n - 1);
    }
  }

  lemma {:induction false} SuccessSum(p: Settings, time: nat, s: seq<Station>, c: nat, s': seq<Station>, n: nat)
    requires c < |s| && Alone(s, c) && Scanned(p, time, s, c, |s|, s') && n <= |s|
    ensures Collisions(s'[..n]) == Collisions(s[..n])
    ensures Successes(s'[..n]) == Successes(s[..n]) + if c < n then 1 else 0
    decreases n
  {
    if n > 0 {
      SuccessSum(p, time, s, c, s', n - 1);
      assert s[..n][..n - 1] == s[..n - 1] && s'[..n][..n - 1] == s'[..n - 1];
      assert ScannedAt(p, time, s, c, |s|, s'[n - 1], n - 1);
    }
  }

  // ---------- One slot keeps the invariant ----------

  lemma WishesKeep(p: Settings, s: seq<Station>, s': seq<Station>)
    requires StationsOk(p, s) && Wishes(p, s, s')
    ensures StationsOk(p, s') && SameCounts(s, s')
  {
    forall i | 0 <= i < |s| ensures StationOk(p, s'[i]) {
      assert StationOk(p, s[i]);
    }
  }

  lemma BusySlotKeeps(p: Settings, n: nat, time: nat, st: State, st': State)
    requires p.Valid() && Inv(p, n, time, st) && st.channel.busy && BusySlot(p, st, st.stations, st')
    ensures Inv(p, n, time + 1, st')
  {
    BusyStationsOk(p, st.channel.owner, st.stations, st'.stations);
    SameSums(st.stations, st'.stations);
  }

  lemma QuietSlotKeeps(p: Settings, n: nat, time: nat, st: State, st': State)
    requires Inv(p, n, time, st) && !st.channel.busy && Idles(st.stations, st'.stations)
    requires st' == st.(stations := st'.stations)
    ensures Inv(p, n, time + 1, st')
  {
    assert forall i | 0 <= i < n :: StationOk(p, st.stations[i]);
    SameSums(st.stations, st'.stations);
  }

  lemma EventsStep(n: nat, e: nat, total: nat, d: nat)
    requires 2 * e <= total <= n * e && 2 <= d <= n
    ensures 2 * (e + 1) <= total + d <= n * (e + 1)
  {
    assert n * (e + 1) == n * e + n;
  }

  // The histories change with a success of their own station only.
  lemma ScannedTimes(p: Settings, time: nat, s: seq<Station>, c: nat, s': seq<Station>)
    requires c < |s| && Scanned(p, time, s, c, |s|, s')
    ensures forall j | 0 <= j < |s| ::
              s'[j].times == s[j].times + if j == c && Alone(s, c) then [time] else []
  {
    forall j | 0 <= j < |s|
      ensures s'[j].times == s[j].times + if j == c && Alone(s, c) then [time] else []
    {
      assert ScannedAt(p, time, s, c, |s|, s'[j], j);
    }
  }

  lemma CollisionSlotKeeps(p: Settings, n: nat, time: nat, st: State, c: nat, st': State)
    requires Inv(p, n, time, st) && !st.channel.busy && c < n && !Alone(st.stations, c)
    requires IdleAttempt(p, time, st, st.stations, c, st')
    ensures Inv(p, n, time + 1, st')
  {
    var s, s' := st.stations, st'.stations;
    CollisionTotals(p, time, s, c, s', st.events);
    assert StationsOk(p, s') by {
      ScannedOk(p, time, s, c, s');
    }
    assert HistoryOk(st') by {
      ScannedTimes(p, time, s, c, s');
    }
  }

  lemma CollisionTotals(p: Settings, time: nat, s: seq<Station>, c: nat, s': seq<Station>, events: nat)
    requires c < |s| && !Alone(s, c) && Scanned(p, time, s, c, |s|, s')
    requires 2 * events <= Collisions(s) <= |s| * events
    ensures 2 * (events + 1) <= Collisions(s') <= |s| * (events + 1)
    ensures Successes(s') == Successes(s)
  {
    AtLeastTwo(s, c);
    CollisionSum(p, time, s, c, s', |s|);
    assert s[..|s|] == s && s'[..|s|] == s';
    EventsStep(|s|, events, Collisions(s), Involved(s, c, |s|));
  }

  lemma SuccessTotals(p: Settings, time: nat, s: seq<Station>, c: nat, s': seq<Station>)
    requires c < |s| && Alone(s, c) && Scanned(p, time, s, c, |s|, s')
    ensures Collisions(s') == Collisions(s) && Successes(s') == Successes(s) + 1
  {
    SuccessSum(p, time, s, c, s', |s|);
    assert s[..|s|] == s && s'[..|s|] == s';
  }

  lemma {:induction false} TimesStep(log: seq<Tx>, tx: Tx, i: nat)
    ensures TimesOf(log + [tx], i) == TimesOf(log, i) + if tx.owner == i then [tx.start] else []
  {
    assert (log + [tx])[..|log|] == log;
  }

  lemma SuccessSlotKeeps(p: Settings, n: nat, time: nat, st: State, c: nat, st': State)
    requires Inv(p, n, time, st) && !st.channel.busy && c < n && Alone(st.stations, c)
    requires IdleAttempt(p, time, st, st.stations, c, st')
    ensures Inv(p, n, time + 1, st')
  {
    var s, s' := st.stations, st'.stations;
    ScannedOk(p, time, s, c, s');
    SuccessTotals(p, time, s, c, s');
    ScannedTimes(p, time, s, c, s');
    forall i | 0 <= i < n ensures s'[i].times == TimesOf(st'.log, i) {
      TimesStep(st.log, Tx(time, st.channel.length, c), i);
    }
    SuccessLog(p, n, time, st, c);
  }

  lemma SuccessLog(p: Settings, n: nat, time: nat, st: State, c: nat)
    requires LogOk(p, n, time, st.log) && ChannelOk(p, time, st) && !st.channel.busy && c < n
    ensures LogOk(p, n, time + 1, st.log + [Tx(time, st.channel.length, c)])
  {
  }

  lemma SlotKeeps(p: Settings, n: nat, time: nat, st: State, st': State)
    requires p.Valid() && Inv(p, n, time, st) && Slot(p, time, st, st')
    ensures Inv(p, n, time + 1, st')
  {
    var s: seq<Station> :| Wishes(p, st.stations, s) && SlotAfter(p, time, st, s, st');
    var mid := st.(stations := s);
    WishesKeep(p, st.stations, s);
    SameSums(st.stations, s);
    assert Inv(p, n, time, mid);
    if st.channel.busy {
      BusySlotKeeps(p, n, time, mid, st');
    } else if Idles(s, st'.stations) {
      QuietSlotKeeps(p, n, time, mid, st');
    } else {
      var c :| First(s, c) && IdleAttempt(p, time, st, s, c, st');
      if Alone(s, c) {
        SuccessSlotKeeps(p, n, time, mid, c, st');
      } else {
        CollisionSlotKeeps(p, n, time, mid, c, st');
      }
    }
  }

  lemma RunStep(p: Settings, n: nat, run: seq<State>, t: nat, st: State, st': State)
    requires p.Valid() && t + 1 < |run| && run[t] == st && run[t + 1] == st' && SlotAt(p, run, t)
    requires Inv(p, n, t, st)
    ensures Inv(p, n, t + 1, st')
  {
    SlotKeeps(p, n, t, st, st');
  }

  lemma {:induction false} RunInv(p: Settings, n: nat, run: seq<State>, t: nat)
    requires p.Valid() && IsRun(p, n, run) && t < |run|
    ensures Inv(p, n, t, run[t])
    decreases t
  {
    if t == 0 {
      StartInv(p, n, run[0]);
    } else {
      RunInv(p, n, run, t - 1);
      RunStep(p, n, run, t - 1, run[t - 1], run[t]);
    }
  }

  lemma StartInv(p: Settings, n: nat, st: State)
    requires Start(p, n, st)
    ensures Inv(p, n, 0, st)
  {
    ZeroSums(st.stations);
  }

  lemma {:induction false} ZeroSums(s: seq<Station>)
    requires forall i | 0 <= i < |s| :: s[i].collisions == 0 && s[i].successes == 0
    ensures Collisions(s) == 0 && Successes(s) == 0
    decreases |s|
  {
    if s != [] {
      ZeroSums(s[..|s| - 1]);
    }
  }

  // ---------- What every slot and every run satisfies ----------

  // A slot brings at most one success and at most one collision event, never both,
  // and neither while the channel is busy.
  lemma OneOutcome(p: Settings, time: nat, st: State, st': State)
    requires Slot(p, time, st, st')
    ensures (st'.log == st.log && st.events <= st'.events <= st.events + 1) ||
            (st'.events == st.events && |st'.log| == |st.log| + 1 && st'.log[..|st.log|] == st.log &&
             st'.log[|st.log|].start == time)
    ensures st.channel.busy ==> st'.log == st.log && st'.events == st.events
  {
  }

  // What the stations are after their wishes.
  lemma Wished(p: Settings, time: nat, st: State, st': State) returns (s: seq<Station>)
    requires Slot(p, time, st, st')
    ensures Wishes(p, st.stations, s) && SlotAfter(p, time, st, s, st') && |s| == |st'.stations|
    ensures |s| == |st.stations| && forall i | 0 <= i < |s| ::
              s[i] == st.stations[i].(wants := s[i].wants) && (st.stations[i].wants ==> s[i].wants)
    ensures p.prob * 100.0 > 99.0 ==> forall i | 0 <= i < |s| :: s[i].wants
    ensures p.prob <= 0.0 ==> s == st.stations
  {
    s :| Wishes(p, st.stations, s) && SlotAfter(p, time, st, s, st');
    if p.prob <= 0.0 {
      assert forall i | 0 <= i < |s| :: s[i] == st.stations[i];
    }
  }

  function OneLess(backoff: int): int {
    if backoff > 0 then backoff - 1 else backoff
  }

  // On a busy channel every station counts down, but those other than the owner that could
  // transmit draw how long to hold back, if they want to, and stay as they are if not.
  lemma BusySlotIs(p: Settings, time: nat, st: State, st': State) returns (s: seq<Station>)
    requires Slot(p, time, st, st') && st.channel.busy
    ensures |s| == |st.stations| == |st'.stations| && forall i | 0 <= i < |s| ::
              s[i] == st.stations[i].(wants := s[i].wants) && (st.stations[i].wants ==> s[i].wants)
    ensures forall i | 0 <= i < |s| ::
              var x, x' := s[i], st'.stations[i];
              x' == x.(backoff := x'.backoff) &&
              if i == st.channel.owner || x.backoff != 0 then x'.backoff == OneLess(x.backoff)
              else if x.wants then 1 <= x'.backoff <= p.busyWait
              else x'.backoff == 0
    ensures st'.events == st.events && st'.log == st.log
    ensures if st.channel.timer + 1 == st.channel.length
            then !st'.channel.busy && st'.channel.timer == 0 && 2 <= st'.channel.length <= p.maxTime + 1
            else st'.channel == st.channel.(timer := st.channel.timer + 1)
  {
    s := Wished(p, time, st, st');
    forall i | 0 <= i < |s| ensures BusyAt(p, st.channel.owner, s[i], st'.stations[i], i) {
    }
  }

  // Station c is the first that could transmit and wants to, or -1 if there is none.
  lemma {:induction false} FirstReady(s: seq<Station>, n: nat) returns (c: int)
    requires n <= |s|
    ensures -1 <= c < n
    ensures c == -1 ==> forall j | 0 <= j < n :: !(s[j].backoff == 0 && s[j].wants)
    ensures c >= 0 ==> s[c].backoff == 0 && s[c].wants && forall j | 0 <= j < c :: !(s[j].backoff == 0 && s[j].wants)
    decreases n
  {
    c := -1;
    if n > 0 {
      c := FirstReady(s, n - 1);
      if c == -1 && s[n - 1].backoff == 0 && s[n - 1].wants {
        c := n - 1;
      }
    }
  }

  // Station j is ready when c attempts: it is still to come and could transmit already, or
  // has had its turn and has counted down to zero in it.
  predicate Caught(s: seq<Station>, c: int, j: int)
    requires 0 <= j < |s|
  {
    j != c && s[j].wants && s[j].backoff == if j < c then 1 else 0
  }

  // An idle slot in which nobody is ready.
  lemma QuietSlotIs(p: Settings, time: nat, st: State, s: seq<Station>, st': State)
    requires IdleSlot(p, time, st, s, st')
    requires forall j | 0 <= j < |s| :: !(s[j].backoff == 0 && s[j].wants)
    ensures st' == st.(stations := st'.stations) && |st'.stations| == |s|
    ensures forall j | 0 <= j < |s| :: st'.stations[j] == s[j].(backoff := OneLess(s[j].backoff))
  {
  }

  lemma OnlyFirst(p: Settings, time: nat, st: State, s: seq<Station>, st': State, c: nat)
    requires IdleSlot(p, time, st, s, st')
    requires c < |s| && s[c].backoff == 0 && s[c].wants && forall j | 0 <= j < c :: !(s[j].backoff == 0 && s[j].wants)
    ensures IdleAttempt(p, time, st, s, c, st')
    ensures forall j | 0 <= j < |s| :: Hit(s, c, j) <==> Caught(s, c, j)
    ensures Alone(s, c) <==> forall j | 0 <= j < |s| :: !Caught(s, c, j)
  {
    assert !Idles(s, st'.stations);
    var d :| First(s, d) && IdleAttempt(p, time, st, s, d, st');
    assert d == c;
    forall j | 0 <= j < |s| ensures Hit(s, c, j) <==> Caught(s, c, j) {
    }
  }

  // One in which c is the first that is: it transmits if no other station is caught out,
  // and collides otherwise.
  lemma AttemptIs(p: Settings, time: nat, st: State, s: seq<Station>, st': State, c: nat)
    requires IdleSlot(p, time, st, s, st')
    requires c < |s| && s[c].backoff == 0 && s[c].wants && forall j | 0 <= j < c :: !(s[j].backoff == 0 && s[j].wants)
    ensures |st'.stations| == |s|
    ensures (forall j | 0 <= j < |s| :: !Caught(s, c, j)) ==>
              st'.log == st.log + [Tx(time, st.channel.length, c)] && st'.events == st.events &&
              st'.channel == Channel(true, c, st.channel.length, st.channel.timer + 1)
    ensures (exists j :: 0 <= j < |s| && Caught(s, c, j)) ==>
              st'.log == st.log && st'.events == st.events + 1 && st'.channel == st.channel
  {
    OnlyFirst(p, time, st, s, st', c);
  }

  // The stations after an attempt: those that collide are c, if at all, and those caught
  // out; the rest count down.
  lemma AttemptedStations(p: Settings, time: nat, st: State, s: seq<Station>, st': State, c: nat, j: nat)
    requires IdleSlot(p, time, st, s, st') && j < |s| == |st'.stations|
    requires c < |s| && s[c].backoff == 0 && s[c].wants && forall j | 0 <= j < c :: !(s[j].backoff == 0 && s[j].wants)
    ensures var x, x' := s[j], st'.stations[j];
            if j == c && exists k :: 0 <= k < |s| && Caught(s, c, k) then Collided(p, x, x', 0)
            else if j == c then
              x' == Station(0, x.collisions, x.successes + 1, x'.wants, x.collisionsBefore + [x.pending],
                            x.times + [time], 0)
            else if Caught(s, c, j) then Collided(p, x, x', if j < c then 0 else 1)
            else x' == x.(backoff := OneLess(x.backoff))
  {
    OnlyFirst(p, time, st, s, st', c);
    assert ScannedAt(p, time, s, c, |s|, st'.stations[j], j);
    WindowIs(p, s[j].collisions + 1);
  }

  // One collision more, and a backoff drawn from the window, `late` slots of which have
  // gone by already.
  ghost predicate Collided(p: Settings, x: Station, x': Station, late: nat) {
    x' == x.(backoff := x'.backoff, collisions := x.collisions + 1, pending := x.pending + 1) &&
    1 <= x'.backoff + late <= Pow2(Min(x.collisions + 1, p.maxBackoff))
  }

  // An idle slot brings exactly one success or one collision event if some station is
  // ready after the wishes, and neither otherwise.
  lemma OutcomeIff(p: Settings, time: nat, st: State, st': State) returns (s: seq<Station>, c: int)
    requires Slot(p, time, st, st') && !st.channel.busy
    ensures |s| == |st.stations| == |st'.stations| && forall i | 0 <= i < |s| ::
              s[i] == st.stations[i].(wants := s[i].wants) && (st.stations[i].wants ==> s[i].wants)
    ensures if exists j :: 0 <= j < |s| && s[j].backoff == 0 && s[j].wants then
              0 <= c < |s| && s[c].backoff == 0 && s[c].wants &&
              (forall j | 0 <= j < c :: !(s[j].backoff == 0 && s[j].wants)) &&
              if exists j :: 0 <= j < |s| && Caught(s, c, j)
              then st'.events == st.events + 1 && st'.log == st.log
              else st'.events == st.events && st'.log == st.log + [Tx(time, st.channel.length, c)]
            else
              st'.events == st.events && st'.log == st.log
  {
    var hit;
    s, c, hit := IdleSlotIs(p, time, st, st');
  }

  // The whole of an idle slot: c is the first station ready after the wishes, or -1, and
  // hit says whether it collides. Who collides is struck, the one that transmits books its
  // success and takes the channel, and every other station counts down.
  lemma IdleSlotIs(p: Settings, time: nat, st: State, st': State) returns (s: seq<Station>, c: int, hit: bool)
    requires Slot(p, time, st, st') && !st.channel.busy
    ensures |s| == |st.stations| == |st'.stations| && forall i | 0 <= i < |s| ::
              s[i] == st.stations[i].(wants := s[i].wants) && (st.stations[i].wants ==> s[i].wants)
    ensures -1 <= c < |s|
    ensures forall j | 0 <= j < if c < 0 then |s| else c :: !(s[j].backoff == 0 && s[j].wants)
    ensures c >= 0 ==> s[c].backoff == 0 && s[c].wants
    ensures hit <==> c >= 0 && exists j :: 0 <= j < |s| && Caught(s, c, j)
    ensures if c < 0 then st' == st.(stations := st'.stations)
            else if hit then st' == st.(stations := st'.stations, events := st.events + 1)
            else st' == State(st'.stations, Channel(true, c, st.channel.length, st.channel.timer + 1),
                              st.events, st.log + [Tx(time, st.channel.length, c)])
    ensures forall j | 0 <= j < |s| ::
              var x, x' := s[j], st'.stations[j];
              if hit && (j == c || Caught(s, c, j)) then Collided(p, x, x', if j <= c then 0 else 1)
              else if j == c then
                x' == Station(0, x.collisions, x.successes + 1, x'.wants, x.collisionsBefore + [x.pending],
                              x.times + [time], 0)
              else x' == x.(backoff := OneLess(x.backoff))
  {
    s := Wished(p, time, st, st');
    c := FirstReady(s, |s|);
    if c >= 0 {
      hit := exists j :: 0 <= j < |s| && Caught(s, c, j);
      AttemptIs(p, time, st, s, st', c);
      forall j | 0 <= j < |s|
        ensures var x, x' := s[j], st'.stations[j];
                if hit && (j == c || Caught(s, c, j)) then Collided(p, x, x', if j <= c then 0 else 1)
                else if j == c then
                  x' == Station(0, x.collisions, x.successes + 1, x'.wants, x.collisionsBefore + [x.pending],
                                x.times + [time], 0)
                else x' == x.(backoff := OneLess(x.backoff))
      {
        AttemptedStations(p, time, st, s, st', c, j);
      }
    } else {
      hit := false;
      QuietSlotIs(p, time, st, s, st');
    }
  }

  // With probability one, the first slot is a success of a single station, and a collision
  // of several.
  lemma FirstSlot(p: Settings, n: nat, run: seq<State>)
    requires p.Valid() && IsRun(p, n, run) && |run| >= 2 && n >= 1 && p.prob >= 1.0
    ensures n == 1 ==> run[1].log == [Tx(0, run[0].channel.length, 0)] && run[1].events == 0
    ensures n >= 2 ==> run[1].log == [] && run[1].events == 1
  {
    assert SlotAt(p, run, 0);
    var s := Wished(p, 0, run[0], run[1]);
    assert s[0].backoff == 0 && s[0].wants;
    if n >= 2 {
      assert Caught(s, 0, 1);
    }
    AttemptIs(p, 0, run[0], s, run[1], 0);
  }

  // A station that stood ready on a busy channel holds back: it does not transmit in the
  // next slot.
  lemma HoldsBack(p: Settings, n: nat, run: seq<State>, t: nat, i: nat)
    requires p.Valid() && IsRun(p, n, run) && t + 2 < |run| && i < n
    requires |run[t].stations| == |run[t + 1].stations| == n
    requires run[t].channel.busy && i != run[t].channel.owner
    requires run[t].stations[i].backoff == 0 && run[t + 1].stations[i].wants
    ensures 1 <= run[t + 1].stations[i].backoff <= p.busyWait
    ensures |run[t + 2].log| > |run[t + 1].log| ==> run[t + 2].log[|run[t + 2].log| - 1].owner != i
  {
    assert SlotAt(p, run, t) && SlotAt(p, run, t + 1);
    var s := BusySlotIs(p, t, run[t], run[t + 1]);
    if run[t + 1].channel.busy {
      var s' := BusySlotIs(p, t + 1, run[t + 1], run[t + 2]);
    } else {
      var s', c := OutcomeIff(p, t + 1, run[t + 1], run[t + 2]);
      assert s'[i].backoff == run[t + 1].stations[i].backoff;
    }
  }

  // In an idle slot only one station can be the one to attempt: by the time the scan
  // has passed it, no later station is ready, whoever was struck.
  lemma OneContender(p: Settings, time: nat, s: seq<Station>, c: nat, n: nat, now: seq<Station>, j: nat)
    requires First(s, c) && c < n <= |s| && Scanned(p, time, s, c, n, now) && n <= j < |s|
    ensures !Ready(now[j])
  {
    assert ScannedAt(p, time, s, c, n, now[j], j);
  }

  // A backoff above one drops by exactly one in every slot, busy or idle. At one it drops
  // to zero too, unless the station collides in the slot; only at zero, or in a
  // collision, can it be drawn anew.
  lemma BackoffDrops(p: Settings, n: nat, time: nat, st: State, st': State, i: nat)
    requires Inv(p, n, time, st) && Slot(p, time, st, st') && i < n
    ensures |st'.stations| == n
    ensures st.stations[i].backoff > 1 ==> st'.stations[i].backoff == st.stations[i].backoff - 1
    ensures st.stations[i].backoff == 1 ==>
              st'.stations[i].backoff == 0 ||
              (!st.channel.busy && st'.stations[i].collisions == st.stations[i].collisions + 1)
  {
    var s: seq<Station> :| Wishes(p, st.stations, s) && SlotAfter(p, time, st, s, st');
    assert s[i].backoff == st.stations[i].backoff;
    if st.channel.busy {
      assert BusyAt(p, st.channel.owner, s[i], st'.stations[i], i);
    } else if !Idles(s, st'.stations) {
      var c :| First(s, c) && IdleAttempt(p, time, st, s, c, st');
      assert ScannedAt(p, time, s, c, |s|, st'.stations[i], i);
    }
  }

  // The backoff never leaves its range.
  lemma BackoffRange(p: Settings, n: nat, run: seq<State>, t: nat, i: nat)
    requires p.Valid() && IsRun(p, n, run) && t < |run| && i < n
    ensures |run[t].stations| == n
    ensures var s := run[t].stations[i];
            0 <= s.backoff &&
            (s.backoff <= Pow2(Min(s.collisions, p.maxBackoff)) || s.backoff <= p.busyWait)
  {
    RunInv(p, n, run, t);
    var s := run[t].stations[i];
    assert StationOk(p, s);
    WindowIs(p, s.collisions);
  }

  // The ledger at the end of every slot.
  lemma Ledger(p: Settings, n: nat, run: seq<State>, t: nat)
    requires p.Valid() && IsRun(p, n, run) && t < |run|
    ensures |run[t].stations| == n
    ensures forall i | 0 <= i < n ::
              var s := run[t].stations[i];
              s.collisions == Sum(s.collisionsBefore) + s.pending &&
              s.successes == |s.collisionsBefore| == |s.times| && s.times == TimesOf(run[t].log, i)
    ensures 2 * run[t].events <= Collisions(run[t].stations) <= n * run[t].events
    ensures Successes(run[t].stations) == |run[t].log|
  {
    RunInv(p, n, run, t);
    forall i | 0 <= i < n
      ensures var s := run[t].stations[i];
              s.collisions == Sum(s.collisionsBefore) + s.pending &&
              s.successes == |s.collisionsBefore| == |s.times|
    {
      assert StationOk(p, run[t].stations[i]);
    }
  }

  lemma {:induction false} LogSpread(p: Settings, n: nat, time: nat, log: seq<Tx>, k: nat)
    requires LogOk(p, n, time, log) && k < |log|
    ensures log[k].start >= 2 * k
    decreases k
  {
    if k > 0 {
      LogSpread(p, n, time, log, k - 1);
      assert log[k - 1].start + log[k - 1].length <= log[k - 1 + 1].start;
    }
  }

  // At least every other slot is spent on finishing a transmission.
  lemma SuccessBound(p: Settings, n: nat, run: seq<State>, t: nat)
    requires p.Valid() && IsRun(p, n, run) && t < |run|
    ensures 2 * Successes(run[t].stations) <= t + 1
  {
    RunInv(p, n, run, t);
    var log := run[t].log;
    if log != [] {
      LogSpread(p, n, t, log, |log| - 1);
    }
  }

  // What is logged stays logged, and what is logged later starts later.
  lemma {:induction false} LogGrows(p: Settings, n: nat, run: seq<State>, t: nat, t': nat)
    requires p.Valid() && IsRun(p, n, run) && t <= t' < |run|
    ensures |run[t].log| <= |run[t'].log| && run[t'].log[..|run[t].log|] == run[t].log
    ensures forall k | |run[t].log| <= k < |run[t'].log| :: run[t'].log[k].start >= t
    decreases t'
  {
    if t < t' {
      LogGrows(p, n, run, t, t' - 1);
      assert SlotAt(p, run, t' - 1);
      OneOutcome(p, t' - 1, run[t' - 1], run[t']);
      var old', new' := run[t' - 1].log, run[t'].log;
      assert new'[..|old'|] == old';
      forall k | 0 <= k < |old'| ensures new'[k] == old'[k] {
        assert new'[..|old'|][k] == new'[k];
      }
      assert new'[..|run[t].log|] == old'[..|run[t].log|];
    } else {
      assert run[t].log[..|run[t].log|] == run[t].log;
    }
  }

  lemma {:induction false} LogOrdered(p: Settings, n: nat, time: nat, log: seq<Tx>, j: nat, k: nat)
    requires LogOk(p, n, time, log) && j < k < |log|
    ensures log[j].start + log[j].length <= log[k].start
    decreases k
  {
    assert log[k - 1].start + log[k - 1].length <= log[k - 1 + 1].start;
    if j < k - 1 {
      LogOrdered(p, n, time, log, j, k - 1);
    }
  }

  // The transmission logged as `tx` is on the channel, and nothing else is, from the
  // slot after its start until its last slot; then the channel is free again.
  lemma Occupies(p: Settings, n: nat, run: seq<State>, k: nat, t: nat)
    requires p.Valid() && IsRun(p, n, run) && k < |run[|run| - 1].log| && t < |run|
    requires var tx := run[|run| - 1].log[k]; tx.start < t <= tx.start + tx.length
    ensures var tx, ch := run[|run| - 1].log[k], run[t].channel;
            if t < tx.start + tx.length then
              ch.busy && ch.owner == tx.owner && ch.length == tx.length && ch.timer == t - tx.start
            else
              !ch.busy
  {
    var log, tx := run[|run| - 1].log, run[|run| - 1].log[k];
    LogGrows(p, n, run, t, |run| - 1);
    RunInv(p, n, run, t);
    RunInv(p, n, run, |run| - 1);
    var past := run[t].log;
    assert k < |past| && past[k] == log[k] by {
      assert log[..|past|][k] == log[k];
    }
    if k < |past| - 1 {
      LogOrdered(p, n, t, past, k, |past| - 1);
    }
  }

  // Conversely, a busy channel carries a logged transmission.
  lemma BusyIsLogged(p: Settings, n: nat, run: seq<State>, t: nat) returns (k: nat)
    requires p.Valid() && IsRun(p, n, run) && t < |run| && run[t].channel.busy
    ensures k < |run[|run| - 1].log|
    ensures var tx := run[|run| - 1].log[k];
            tx.owner == run[t].channel.owner && tx.start < t < tx.start + tx.length
  {
    RunInv(p, n, run, t);
    LogGrows(p, n, run, t, |run| - 1);
    k := |run[t].log| - 1;
    assert run[|run| - 1].log[..|run[t].log|][k] == run[t].log[k];
  }
}
