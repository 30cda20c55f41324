// The exam: a parent process and its students exchange typed messages over two
// queues. Every interleaving of their sends and receives is a run of this machine.
module Exam {
  import opened Collections

  datatype Question = Question(kind: nat)

  datatype Reply = Reply(kind: nat, answer: char)

  // next is the question the student is at; a student who has taken it holds an
  // answer until the reply is sent. replies is history.
  datatype Student = Student(next: nat, holding: bool, answer: char, replies: seq<char>)

  datatype Phase = Sending(sent: nat) | Collecting(taken: nat, correct: char)

  // corrects and received are history: the correct answer of every round, and what
  // was taken from each student in it.
  datatype State = State(questions: seq<Question>, answers: seq<Reply>, students: seq<Student>,
                         round: nat, phase: Phase, grades: seq<nat>,
                         corrects: seq<char>, received: seq<seq<char>>)

  // Queues are bounded; a send waits for room.
  datatype Setup = Setup(students: nat, rounds: nat, questionRoom: nat, answerRoom: nat)

  datatype Action =
    | Send                                   // the parent sends a question once more
    | Draw(c: char)                          // and settles on the correct answer
    | Collect(k: nat)                        // takes the reply at place k
    | Proceed                                // goes on to the next question
    | Take(s: nat, k: nat, answer: char)     // student s takes the question at place k
    | Respond(s: nat)                        // and sends the reply

  // msgrcv with a type delivers the first message of that type.
  ghost predicate FirstQuestion(q: seq<Question>, k: nat, kind: nat) {
    k < |q| && q[k].kind == kind && forall j | 0 <= j < k :: q[j].kind != kind
  }

  ghost predicate FirstReply(q: seq<Reply>, k: nat, kind: nat) {
    k < |q| && q[k].kind == kind && forall j | 0 <= j < k :: q[j].kind != kind
  }

  function Start(c: Setup): State {
    State([], [], seq(c.students, s => Student(0, false, 'A', [])), 0, Sending(0),
          seq(c.students, s => 0), [], seq(c.students, s => []))
  }

  ghost predicate Shape(c: Setup, st: State) {
    |st.students| == |st.grades| == |st.received| == c.students
  }

  ghost predicate Enabled(c: Setup, st: State, a: Action)
    requires Shape(c, st)
  {
    match a
    case Send => st.round < c.rounds && st.phase.Sending? && st.phase.sent < c.students &&
                 |st.questions| < c.questionRoom
    case Draw(_) => st.round < c.rounds && st.phase == Sending(c.students)
    case Collect(k) => st.phase.Collecting? && st.phase.taken < c.students &&
                       FirstReply(st.answers, k, st.phase.taken + 1)
    case Proceed => st.phase.Collecting? && st.phase.taken == c.students
    case Take(s, k, _) => s < c.students && st.students[s].next < c.rounds && !st.students[s].holding &&
                          FirstQuestion(st.questions, k, st.students[s].next + 1)
    case Respond(s) => s < c.students && st.students[s].holding && |st.answers| < c.answerRoom
  }

  ghost function Do(c: Setup, st: State, a: Action): State
    requires Shape(c, st) && Enabled(c, st, a)
  {
    match a
    case Send =>
      st.(questions := st.questions + [Question(st.round + 1)], phase := Sending(st.phase.sent + 1))
    case Draw(x) =>
      st.(phase := Collecting(0, x), corrects := st.corrects + [x])
    case Collect(k) =>
      var j, got := st.phase.taken, st.answers[k].answer;
      st.(answers := RemoveAt(st.answers, k), phase := Collecting(j + 1, st.phase.correct),
          grades := st.grades[j := st.grades[j] + if got == st.phase.correct then 1 else 0],
          received := st.received[j := st.received[j] + [got]])
    case Proceed =>
      st.(round := st.round + 1, phase := Sending(0))
    case Take(s, k, answer) =>
      st.(questions := RemoveAt(st.questions, k),
          students := st.students[s := st.students[s].(holding := true, answer := answer)])
    case Respond(s) =>
      var me := st.students[s];
      st.(answers := st.answers + [Reply(s + 1, me.answer)],
          students := st.students[s := Student(me.next + 1, false, me.answer, me.replies + [me.answer])])
  }

  // ---------- The invariant ----------

  // Students of the current round who have taken its question, or more.
  function Has(s: Student, round: nat): nat {
    if s.next > round || s.holding then 1 else 0
  }

  function Having(students: seq<Student>, round: nat): nat
    decreases |students|
  {
    if students == [] then 0
    else Having(students[..|students| - 1], round) + Has(students[|students| - 1], round)
  }

  function SentSoFar(c: Setup, st: State): nat {
    if st.phase.Sending? then st.phase.sent else c.students
  }

  // How many students' replies of this round the parent has taken.
  function TakenSoFar(st: State): nat {
    if st.phase.Sending? then 0 else st.phase.taken
  }

  ghost predicate QuestionsOk(c: Setup, st: State) {
    (forall k | 0 <= k < |st.questions| :: st.questions[k].kind == st.round + 1) &&
    |st.questions| + Having(st.students, st.round) == SentSoFar(c, st) <= c.students
  }

  // A student is at the current question, or through with it.
  ghost predicate StudentOk(st: State, s: nat)
    requires s < |st.students|
  {
    var me := st.students[s];
    |me.replies| == me.next && st.round <= me.next <= st.round + 1 && (me.next > st.round ==> !me.holding) &&
    (s < TakenSoFar(st) ==> me.next == st.round + 1)
  }

  // A reply of student s of this round waits to be taken.
  ghost predicate Due(st: State, s: nat) {
    s < |st.students| && st.students[s].next == st.round + 1 && s >= TakenSoFar(st)
  }

  // The queued replies are exactly the ones due, one for each student.
  ghost predicate AnswersOk(st: State) {
    (forall k {:trigger AnswerOk(st, k)} | 0 <= k < |st.answers| :: AnswerOk(st, k)) &&
    (forall j, k | 0 <= j < k < |st.answers| :: st.answers[j].kind != st.answers[k].kind) &&
    forall s: nat {:trigger Due(st, s)} | Due(st, s) :: Queued(st.answers, s + 1)
  }

  ghost predicate AnswerOk(st: State, k: nat)
    requires k < |st.answers|
  {
    var r := st.answers[k];
    r.kind >= 1 && Due(st, r.kind - 1) && |st.students[r.kind - 1].replies| > st.round &&
    r.answer == st.students[r.kind - 1].replies[st.round]
  }

  ghost predicate Queued(q: seq<Reply>, kind: nat) {
    exists k :: 0 <= k < |q| && q[k].kind == kind
  }

  function Matches(got: seq<char>, corrects: seq<char>): nat
    requires |got| <= |corrects|
    decreases |got|
  {
    if got == [] then 0
    else
      var n := |got| - 1;
      Matches(got[..n], corrects) + if got[n] == corrects[n] then 1 else 0
  }

  // What was received from student j is what student j replied, round by round, and
  // the grade counts the matches.
  ghost predicate GradeOk(st: State, j: nat)
    requires j < |st.students| == |st.grades| == |st.received|
  {
    var got := st.received[j];
    |got| == st.round + (if j < TakenSoFar(st) then 1 else 0) &&
    |got| <= |st.students[j].replies| && |got| <= |st.corrects| &&
    got == st.students[j].replies[..|got|] &&
    st.grades[j] == Matches(got, st.corrects)
  }

  ghost predicate PhaseOk(c: Setup, st: State) {
    st.round <= c.rounds &&
    |st.corrects| == st.round + (if st.phase.Collecting? then 1 else 0) &&
    (st.phase.Collecting? ==>
       st.round < c.rounds && st.phase.taken <= c.students && st.corrects[st.round] == st.phase.correct) &&
    (st.round == c.rounds ==> st.phase == Sending(0))
  }

  ghost predicate Inv(c: Setup, st: State) {
    Shape(c, st) && PhaseOk(c, st) && QuestionsOk(c, st) && AnswersOk(st) &&
    (forall s {:trigger StudentOk(st, s)} | 0 <= s < c.students :: StudentOk(st, s)) &&
    forall j {:trigger GradeOk(st, j)} | 0 <= j < c.students :: GradeOk(st, j)
  }

  // ---------- Counting ----------

  lemma {:induction false} HavingUpdate(students: seq<Student>, s: nat, x: Student, round: nat)
    requires s < |students|
    ensures Having(students[s := x], round) == Having(students, round) - Has(students[s], round) + Has(x, round)
    decreases |students|
  {
    var n := |students| - 1;
    var front := students[..n];
    if s < n {
      HavingUpdate(front, s, x, round);
      assert students[s := x][..n] == front[s := x];
    } else {
      assert students[s := x][..n] == front;
    }
  }

  lemma {:induction false} HavingRange(students: seq<Student>, round: nat)
    ensures Having(students, round) <= |students|
    ensures Having(students, round) == |students| <==> forall s | 0 <= s < |students| :: Has(students[s], round) == 1
    ensures Having(students, round) == 0 <==> forall s | 0 <= s < |students| :: Has(students[s], round) == 0
    decreases |students|
  {
    if students != [] {
      var n := |students| - 1;
      HavingRange(students[..n], round);
      assert forall s | 0 <= s < n :: students[..n][s] == students[s];
    }
  }

  lemma RemoveMembers<T>(q: seq<T>, k: nat)
    requires k < |q|
    ensures |RemoveAt(q, k)| == |q| - 1
    ensures forall j | 0 <= j < |q| - 1 :: RemoveAt(q, k)[j] == q[if j < k then j else j + 1]
  {
  }

  // ---------- Every action keeps the invariant ----------

  lemma StartInv(c: Setup)
    ensures Inv(c, Start(c))
  {
    var st := Start(c);
    HavingRange(st.students, 0);
    assert forall s | 0 <= s < c.students :: StudentOk(st, s) && GradeOk(st, s);
  }

  // Students, grades and replies all as before.
  lemma SameStudents(c: Setup, st: State, st': State)
    requires Inv(c, st) && Shape(c, st') && st'.students == st.students && st'.round == st.round
    requires st'.grades == st.grades && st'.received == st.received && st.corrects <= st'.corrects
    requires TakenSoFar(st') == TakenSoFar(st) && st'.answers == st.answers
    ensures forall s | 0 <= s < c.students :: StudentOk(st', s) && GradeOk(st', s)
    ensures AnswersOk(st')
  {
    forall s | 0 <= s < c.students ensures StudentOk(st', s) && GradeOk(st', s) {
      assert StudentOk(st, s) && GradeOk(st, s);
      MatchesLonger(st.received[s], st.corrects, st'.corrects);
    }
    forall k | 0 <= k < |st'.answers| ensures AnswerOk(st', k) {
      assert AnswerOk(st, k);
    }
    forall s: nat | Due(st', s) ensures Queued(st'.answers, s + 1) {
      assert Due(st, s);
    }
  }

  lemma {:induction false} MatchesLonger(got: seq<char>, corrects: seq<char>, corrects': seq<char>)
    requires |got| <= |corrects| && corrects <= corrects'
    ensures Matches(got, corrects') == Matches(got, corrects)
    decreases |got|
  {
    if got != [] {
      MatchesLonger(got[..|got| - 1], corrects, corrects');
    }
  }

  lemma SendKeeps(c: Setup, st: State)
    requires Inv(c, st) && Enabled(c, st, Send)
    ensures Inv(c, Do(c, st, Send))
  {
    SameStudents(c, st, Do(c, st, Send));
  }

  lemma DrawKeeps(c: Setup, st: State, x: char)
    requires Inv(c, st) && Enabled(c, st, Draw(x))
    ensures Inv(c, Do(c, st, Draw(x)))
  {
    SameStudents(c, st, Do(c, st, Draw(x)));
  }

  lemma ProceedKeeps(c: Setup, st: State)
    requires Inv(c, st) && Enabled(c, st, Proceed)
    ensures Inv(c, Do(c, st, Proceed))
  {
    var st' := Do(c, st, Proceed);
    forall s | 0 <= s < c.students
      ensures StudentOk(st', s) && GradeOk(st', s)
      ensures Has(st.students[s], st.round) == 1 && Has(st.students[s], st'.round) == 0
    {
      assert StudentOk(st, s) && GradeOk(st, s);
    }
    HavingRange(st.students, st.round);
    HavingRange(st.students, st'.round);
    NoneDue(st);
  }

  lemma NoneDue(st: State)
    requires AnswersOk(st)
    ensures st.answers == [] || exists s: nat :: Due(st, s)
  {
    if st.answers != [] {
      assert AnswerOk(st, 0);
      assert Due(st, st.answers[0].kind - 1);
    }
  }

  lemma TakeKeeps(c: Setup, st: State, s: nat, k: nat, answer: char)
    requires Inv(c, st) && Enabled(c, st, Take(s, k, answer))
    ensures Inv(c, Do(c, st, Take(s, k, answer)))
  {
    var st' := Do(c, st, Take(s, k, answer));
    RemoveMembers(st.questions, k);
    assert StudentOk(st, s);
    HavingUpdate(st.students, s, st'.students[s], st.round);
    forall t | 0 <= t < c.students ensures StudentOk(st', t) && GradeOk(st', t) {
      assert StudentOk(st, t) && GradeOk(st, t);
    }
    forall j | 0 <= j < |st'.answers| ensures AnswerOk(st', j) {
      assert AnswerOk(st, j);
    }
    forall t: nat | Due(st', t) ensures Queued(st'.answers, t + 1) {
      assert Due(st, t);
    }
  }

  lemma RespondKeeps(c: Setup, st: State, s: nat)
    requires Inv(c, st) && Enabled(c, st, Respond(s))
    ensures Inv(c, Do(c, st, Respond(s)))
  {
    var st' := Do(c, st, Respond(s));
    assert StudentOk(st, s);
    HavingUpdate(st.students, s, st'.students[s], st.round);
    forall t | 0 <= t < c.students ensures StudentOk(st', t) && GradeOk(st', t) {
      assert StudentOk(st, t) && GradeOk(st, t);
    }
    RespondAnswers(c, st, s);
  }

  lemma RespondAnswers(c: Setup, st: State, s: nat)
    requires Inv(c, st) && Enabled(c, st, Respond(s))
    ensures AnswersOk(Do(c, st, Respond(s)))
  {
    var st', n := Do(c, st, Respond(s)), |st.answers|;
    assert StudentOk(st, s);
    forall k | 0 <= k < n ensures AnswerOk(st', k) && st.answers[k].kind != s + 1 {
      assert AnswerOk(st, k);
    }
    assert AnswerOk(st', n);
    forall t: nat | Due(st', t) ensures Queued(st'.answers, t + 1) {
      if t == s {
        assert st'.answers[n].kind == t + 1;
      } else {
        assert Due(st, t);
        var k :| 0 <= k < n && st.answers[k].kind == t + 1;
        assert st'.answers[k].kind == t + 1;
      }
    }
  }

  lemma CollectKeeps(c: Setup, st: State, k: nat)
    requires Inv(c, st) && Enabled(c, st, Collect(k))
    ensures Inv(c, Do(c, st, Collect(k)))
  {
    var st', j := Do(c, st, Collect(k)), st.phase.taken;
    assert AnswerOk(st, k);
    forall t | 0 <= t < c.students ensures StudentOk(st', t) && GradeOk(st', t) {
      assert StudentOk(st, t) && GradeOk(st, t);
      if t == j {
        CollectGrade(st, st', j, k);
      }
    }
    CollectAnswers(c, st, k);
  }

  lemma CollectGrade(st: State, st': State, j: nat, k: nat)
    requires j < |st.students| == |st.grades| == |st.received| && k < |st.answers|
    requires st.phase.Collecting? && j == st.phase.taken && GradeOk(st, j) && StudentOk(st, j)
    requires AnswerOk(st, k) && st.answers[k].kind == j + 1
    requires |st.corrects| == st.round + 1 && st.corrects[st.round] == st.phase.correct
    requires st'.students == st.students && st'.round == st.round && st'.corrects == st.corrects
    requires st'.phase == Collecting(j + 1, st.phase.correct) && |st'.grades| == |st'.received| == |st.students|
    requires st'.received[j] == st.received[j] + [st.answers[k].answer]
    requires st'.grades[j] == st.grades[j] + if st.answers[k].answer == st.phase.correct then 1 else 0
    ensures GradeOk(st', j)
  {
    var got, got' := st.received[j], st'.received[j];
    assert got'[..|got|] == got;
    assert got' == st.students[j].replies[..|got'|];
  }

  lemma CollectAnswers(c: Setup, st: State, k: nat)
    requires Inv(c, st) && Enabled(c, st, Collect(k))
    ensures AnswersOk(Do(c, st, Collect(k)))
  {
    var st', j := Do(c, st, Collect(k)), st.phase.taken;
    RemoveMembers(st.answers, k);
    forall i | 0 <= i < |st'.answers| ensures AnswerOk(st', i) {
      var i' := if i < k then i else i + 1;
      assert AnswerOk(st, i') && st.answers[i'].kind != st.answers[k].kind;
    }
    forall t: nat | Due(st', t) ensures Queued(st'.answers, t + 1) {
      assert Due(st, t);
      var i :| 0 <= i < |st.answers| && st.answers[i].kind == t + 1;
      assert st'.answers[if i < k then i else i - 1] == st.answers[i];
    }
  }

  lemma ActionKeeps(c: Setup, st: State, a: Action)
    requires Inv(c, st) && Enabled(c, st, a)
    ensures Inv(c, Do(c, st, a))
  {
    match a
    case Send => SendKeeps(c, st);
    case Draw(x) => DrawKeeps(c, st, x);
    case Collect(k) => CollectKeeps(c, st, k);
    case Proceed => ProceedKeeps(c, st);
    case Take(s, k, answer) => TakeKeeps(c, st, s, k, answer);
    case Respond(s) => RespondKeeps(c, st, s);
  }

  // ---------- Runs ----------

  ghost predicate IsRun(c: Setup, run: seq<State>, actions: seq<Action>) {
    |run| == |actions| + 1 && run[0] == Start(c) &&
    forall k {:trigger RunAt(c, run, actions, k)} | 0 <= k < |actions| :: RunAt(c, run, actions, k)
  }

  ghost predicate RunAt(c: Setup, run: seq<State>, actions: seq<Action>, k: nat)
    requires |run| == |actions| + 1 && k < |actions|
  {
    Shape(c, run[k]) && Enabled(c, run[k], actions[k]) && run[k + 1] == Do(c, run[k], actions[k])
  }

  lemma {:induction false} RunInv(c: Setup, run: seq<State>, actions: seq<Action>, k: nat)
    requires IsRun(c, run, actions) && k < |run|
    ensures Inv(c, run[k])
    decreases k
  {
    if k == 0 {
      StartInv(c);
    } else {
      RunInv(c, run, actions, k - 1);
      assert RunAt(c, run, actions, k - 1);
      ActionKeeps(c, run[k - 1], actions[k - 1]);
    }
  }

  ghost predicate Finished(c: Setup, st: State) {
    st.round == c.rounds
  }

  // The reply the parent takes for student j in a round is j's reply to that round's
  // question.
  lemma RepliesAttributed(c: Setup, run: seq<State>, actions: seq<Action>, k: nat, place: nat)
    requires IsRun(c, run, actions) && k < |actions| && actions[k] == Collect(place)
    ensures Shape(c, run[k]) && Enabled(c, run[k], Collect(place))
    ensures var st := run[k];
            var j := st.phase.taken;
            st.round < |st.students[j].replies| &&
            st.answers[place].answer == st.students[j].replies[st.round]
  {
    RunInv(c, run, actions, k);
    assert RunAt(c, run, actions, k);
    assert AnswerOk(run[k], place);
  }

  // When the exam is over, every student has answered every question once, both
  // queues are empty, and the grades count the right answers.
  lemma FinalGrades(c: Setup, run: seq<State>, actions: seq<Action>)
    requires IsRun(c, run, actions) && Finished(c, run[|actions|])
    ensures var st := run[|actions|];
            st.questions == [] && st.answers == [] && |st.corrects| == c.rounds &&
            Shape(c, st) &&
            forall j | 0 <= j < c.students ::
              |st.students[j].replies| == c.rounds &&
              st.grades[j] == Matches(st.students[j].replies, st.corrects)
  {
    var st := run[|actions|];
    RunInv(c, run, actions, |actions|);
    NothingPending(c, run, actions, |actions|);
    NoneDue(st);
    forall j | 0 <= j < c.students
      ensures |st.students[j].replies| == c.rounds && st.grades[j] == Matches(st.students[j].replies, st.corrects)
    {
      assert StudentOk(st, j) && GradeOk(st, j);
      assert st.students[j].replies[..c.rounds] == st.students[j].replies;
    }
  }

  // ---------- The same, told from the actions alone ----------

  // The answers student s has drawn, one for every question taken.
  function Drawn(actions: seq<Action>, s: nat): seq<char>
    decreases |actions|
  {
    if actions == [] then []
    else
      var front := Drawn(actions[..|actions| - 1], s);
      match actions[|actions| - 1]
      case Take(t, _, answer) => if t == s then front + [answer] else front
      case _ => front
  }

  // The correct answers the parent has drawn.
  function Key(actions: seq<Action>): seq<char>
    decreases |actions|
  {
    if actions == [] then []
    else
      var front := Key(actions[..|actions| - 1]);
      match actions[|actions| - 1]
      case Draw(x) => front + [x]
      case _ => front
  }

  // How many replies the parent has taken.
  function Collects(actions: seq<Action>): nat
    decreases |actions|
  {
    if actions == [] then 0
    else Collects(actions[..|actions| - 1]) + if actions[|actions| - 1].Collect? then 1 else 0
  }

  // What a student has replied, and the answer it still holds.
  function Given(me: Student): seq<char> {
    me.replies + if me.holding then [me.answer] else []
  }

  ghost predicate Told(c: Setup, st: State, actions: seq<Action>)
    requires Shape(c, st)
  {
    st.corrects == Key(actions) && Collects(actions) == c.students * st.round + TakenSoFar(st) &&
    forall s: nat | s < c.students :: Given(st.students[s]) == Drawn(actions, s)
  }

  lemma ActionTells(c: Setup, st: State, actions: seq<Action>, a: Action)
    requires Inv(c, st) && Enabled(c, st, a) && Told(c, st, actions)
    ensures Told(c, Do(c, st, a), actions + [a])
  {
    var actions', st' := actions + [a], Do(c, st, a);
    assert actions'[..|actions|] == actions;
    if a == Proceed {
      assert c.students * (st.round + 1) == c.students * st.round + c.students;
    }
    forall s: nat | s < c.students ensures Given(st'.students[s]) == Drawn(actions', s) {
      assert Given(st.students[s]) == Drawn(actions, s);
    }
  }

  lemma {:induction false} RunTells(c: Setup, run: seq<State>, actions: seq<Action>, k: nat)
    requires IsRun(c, run, actions) && k < |run|
    ensures Inv(c, run[k]) && Told(c, run[k], actions[..k])
    decreases k
  {
    RunInv(c, run, actions, k);
    if k > 0 {
      RunTells(c, run, actions, k - 1);
      assert RunAt(c, run, actions, k - 1);
      ActionTells(c, run[k - 1], actions[..k - 1], actions[k - 1]);
      assert actions[..k] == actions[..k - 1] + [actions[k - 1]];
    }
  }

  // The reply taken as the j-th of round i carries the answer student j drew on taking
  // its i-th question, counted from zero.
  lemma CollectsDrawn(c: Setup, run: seq<State>, actions: seq<Action>, k: nat, place: nat, i: nat, j: nat)
    requires IsRun(c, run, actions) && k < |actions| && actions[k] == Collect(place)
    requires Collects(actions[..k]) == c.students * i + j && j < c.students
    ensures place < |run[k].answers| && run[k].answers[place].kind == j + 1
    ensures i < |Drawn(actions[..k], j)| && run[k].answers[place].answer == Drawn(actions[..k], j)[i]
  {
    RunTells(c, run, actions, k);
    assert RunAt(c, run, actions, k);
    var st := run[k];
    Divided(c.students, i, j, st.round, st.phase.taken);
    assert AnswerOk(st, place);
    assert Given(st.students[j]) == Drawn(actions[..k], j);
  }

  lemma Divided(n: nat, i: nat, j: nat, i': nat, j': nat)
    requires j < n && j' < n && n * i + j == n * i' + j'
    ensures i == i' && j == j'
  {
    Multiples(n, i, i');
    Multiples(n, i', i);
  }

  lemma Multiples(n: nat, i: nat, i': nat)
    ensures i < i' ==> n * i + n <= n * i'
  {
    if i < i' {
      var d := i' - i;
      AtLeast(d, n);
      assert n * i' == n * i + d * n;
    }
  }

  // ---------- What those summaries of the actions hold ----------

  // The moments before k at which student s takes a question.
  ghost function Takes(actions: seq<Action>, s: nat, k: nat): set<int> {
    set m | 0 <= m < k && m < |actions| && actions[m].Take? && actions[m].s == s
  }

  ghost function Draws(actions: seq<Action>, k: nat): set<int> {
    set m | 0 <= m < k && m < |actions| && actions[m].Draw?
  }

  ghost function CollectTimes(actions: seq<Action>, k: nat): set<int> {
    set m | 0 <= m < k && m < |actions| && actions[m].Collect?
  }

  lemma TakesStep(actions: seq<Action>, s: nat)
    requires actions != []
    ensures var n := |actions| - 1;
            |Takes(actions, s, n + 1)| ==
            |Takes(actions[..n], s, n)| + if actions[n].Take? && actions[n].s == s then 1 else 0
  {
    var n := |actions| - 1;
    var before := Takes(actions[..n], s, n);
    if actions[n].Take? && actions[n].s == s {
      assert Takes(actions, s, n + 1) == before + {n};
    } else {
      assert Takes(actions, s, n + 1) == before;
    }
  }

  lemma {:induction false} DrawnSize(actions: seq<Action>, s: nat)
    ensures |Drawn(actions, s)| == |Takes(actions, s, |actions|)|
    decreases |actions|
  {
    if actions != [] {
      DrawnSize(actions[..|actions| - 1], s);
      TakesStep(actions, s);
    }
  }

  // The answer of the i-th question student s takes is the i-th it has drawn.
  lemma {:induction false} DrawnIs(actions: seq<Action>, s: nat, k: nat)
    requires k < |actions| && actions[k].Take? && actions[k].s == s
    ensures |Drawn(actions, s)| == |Takes(actions, s, |actions|)|
    ensures var i := |Takes(actions, s, k)|;
            i < |Drawn(actions, s)| && Drawn(actions, s)[i] == actions[k].answer
    decreases |actions|
  {
    var n := |actions| - 1;
    DrawnSize(actions, s);
    DrawnSize(actions[..n], s);
    assert Takes(actions, s, k) == Takes(actions[..n], s, k);
    if k < n {
      DrawnIs(actions[..n], s, k);
    }
  }

  lemma DrawsStep(actions: seq<Action>)
    requires actions != []
    ensures var n := |actions| - 1;
            |Draws(actions, n + 1)| == |Draws(actions[..n], n)| + if actions[n].Draw? then 1 else 0
  {
    var n := |actions| - 1;
    var before := Draws(actions[..n], n);
    if actions[n].Draw? {
      assert Draws(actions, n + 1) == before + {n};
    } else {
      assert Draws(actions, n + 1) == before;
    }
  }

  lemma {:induction false} KeySize(actions: seq<Action>)
    ensures |Key(actions)| == |Draws(actions, |actions|)|
    decreases |actions|
  {
    if actions != [] {
      KeySize(actions[..|actions| - 1]);
      DrawsStep(actions);
    }
  }

  // The i-th answer the parent draws is the i-th of the key.
  lemma {:induction false} KeyIs(actions: seq<Action>, k: nat)
    requires k < |actions| && actions[k].Draw?
    ensures |Key(actions)| == |Draws(actions, |actions|)|
    ensures var i := |Draws(actions, k)|; i < |Key(actions)| && Key(actions)[i] == actions[k].c
    decreases |actions|
  {
    var n := |actions| - 1;
    KeySize(actions);
    KeySize(actions[..n]);
    assert Draws(actions, k) == Draws(actions[..n], k);
    if k < n {
      KeyIs(actions[..n], k);
    }
  }

  lemma {:induction false} CollectsAre(actions: seq<Action>)
    ensures Collects(actions) == |CollectTimes(actions, |actions|)|
    decreases |actions|
  {
    if actions != [] {
      var n := |actions| - 1;
      CollectsAre(actions[..n]);
      assert CollectTimes(actions, |actions|) ==
             CollectTimes(actions[..n], n) + if actions[n].Collect? then {n} else {};
    }
  }

  // The places at which two sequences agree.
  ghost function Agreeing(a: seq<char>, b: seq<char>): set<int> {
    set i | 0 <= i < |a| && i < |b| && a[i] == b[i]
  }

  lemma {:induction false} MatchesAre(got: seq<char>, corrects: seq<char>)
    requires |got| <= |corrects|
    ensures Matches(got, corrects) == |Agreeing(got, corrects)|
    decreases |got|
  {
    if got != [] {
      var n := |got| - 1;
      MatchesAre(got[..n], corrects);
      assert Agreeing(got, corrects) == Agreeing(got[..n], corrects) + if got[n] == corrects[n] then {n} else {};
    }
  }

  // The final grade of student j is the number of rounds in which the answer it drew is
  // the one the parent drew.
  lemma GradesCount(c: Setup, run: seq<State>, actions: seq<Action>, j: nat)
    requires IsRun(c, run, actions) && Finished(c, run[|actions|]) && j < c.students
    ensures |Drawn(actions, j)| == |Key(actions)| == c.rounds && |run[|actions|].grades| == c.students
    ensures run[|actions|].grades[j] == |Agreeing(Drawn(actions, j), Key(actions))|
  {
    var st := run[|actions|];
    RunTells(c, run, actions, |actions|);
    assert actions[..|actions|] == actions;
    FinalGrades(c, run, actions);
    NothingPending(c, run, actions, |actions|);
    assert StudentOk(st, j);
    assert Given(st.students[j]) == Drawn(actions, j);
    assert !st.students[j].holding;
    assert Drawn(actions, j) == st.students[j].replies;
    MatchesAre(Drawn(actions, j), Key(actions));
  }

  // No question 'rounds + 1' is ever taken or answered.
  lemma {:induction false} NothingPending(c: Setup, run: seq<State>, actions: seq<Action>, k: nat)
    requires IsRun(c, run, actions) && k < |run|
    ensures Shape(c, run[k])
    ensures forall s | 0 <= s < c.students ::
              run[k].students[s].next <= c.rounds && (run[k].students[s].holding ==> run[k].students[s].next < c.rounds)
    decreases k
  {
    if k > 0 {
      NothingPending(c, run, actions, k - 1);
      assert RunAt(c, run, actions, k - 1);
    }
  }

  // ---------- Termination ----------

  function WorkOf(c: Setup, s: Student): int {
    2 * (c.rounds - s.next) - if s.holding then 1 else 0
  }

  function Work(c: Setup, students: seq<Student>): int
    decreases |students|
  {
    if students == [] then 0
    else Work(c, students[..|students| - 1]) + WorkOf(c, students[|students| - 1])
  }

  // The number of actions still to come.
  function Measure(c: Setup, st: State): int {
    Work(c, st.students) + (c.rounds - st.round) * (2 * c.students + 2) -
    match st.phase
    case Sending(sent) => sent
    case Collecting(taken, _) => c.students + 1 + taken
  }

  lemma {:induction false} WorkUpdate(c: Setup, students: seq<Student>, s: nat, x: Student)
    requires s < |students|
    ensures Work(c, students[s := x]) == Work(c, students) - WorkOf(c, students[s]) + WorkOf(c, x)
    decreases |students|
  {
    var n := |students| - 1;
    var front := students[..n];
    if s < n {
      WorkUpdate(c, front, s, x);
      assert students[s := x][..n] == front[s := x];
    } else {
      assert students[s := x][..n] == front;
    }
  }

  // Every action, whoever acts, brings the end nearer by exactly one.
  lemma ActionCounts(c: Setup, st: State, a: Action)
    requires Shape(c, st) && Enabled(c, st, a)
    ensures Measure(c, Do(c, st, a)) == Measure(c, st) - 1
  {
    var st' := Do(c, st, a);
    match a
    case Proceed =>
      RoundStep(c.rounds - st.round, 2 * c.students + 2);
    case Take(s, _, _) =>
      WorkUpdate(c, st.students, s, st'.students[s]);
    case Respond(s) =>
      WorkUpdate(c, st.students, s, st'.students[s]);
    case _ =>
  }

  lemma RoundStep(a: int, b: int)
    ensures (a - 1) * b == a * b - b
  {
  }

  lemma {:induction false} WorkRange(c: Setup, students: seq<Student>)
    requires forall s | 0 <= s < |students| :: WorkOf(c, students[s]) >= 0
    ensures Work(c, students) >= 0
    ensures Work(c, students) == 0 ==> forall s | 0 <= s < |students| :: WorkOf(c, students[s]) == 0
    decreases |students|
  {
    if students != [] {
      var n := |students| - 1;
      assert forall s | 0 <= s < n :: students[..n][s] == students[s];
      WorkRange(c, students[..n]);
    }
  }

  lemma {:induction false} RunMeasure(c: Setup, run: seq<State>, actions: seq<Action>, k: nat)
    requires IsRun(c, run, actions) && k < |run|
    ensures Measure(c, run[k]) == Measure(c, Start(c)) - k
    decreases k
  {
    if k > 0 {
      RunMeasure(c, run, actions, k - 1);
      assert RunAt(c, run, actions, k - 1);
      ActionCounts(c, run[k - 1], actions[k - 1]);
    }
  }

  lemma MeasureNonNegative(c: Setup, run: seq<State>, actions: seq<Action>, k: nat)
    requires IsRun(c, run, actions) && k < |run|
    ensures Measure(c, run[k]) >= 0
  {
    var st := run[k];
    RunInv(c, run, actions, k);
    NothingPending(c, run, actions, k);
    WorkRange(c, st.students);
    if st.round < c.rounds {
      AtLeast(c.rounds - st.round, 2 * c.students + 2);
    }
  }

  lemma AtLeast(a: int, b: int)
    requires a >= 1 && b >= 0
    ensures a * b >= b
  {
  }

  lemma {:induction false} FreshWork(c: Setup, n: nat)
    requires n <= c.students
    ensures Work(c, Start(c).students[..n]) == n * (2 * c.rounds)
    decreases n
  {
    if n > 0 {
      FreshWork(c, n - 1);
      assert Start(c).students[..n][..n - 1] == Start(c).students[..n - 1];
      RoundStep(n, 2 * c.rounds);
    }
  }

  // No run is longer than one send, receive and answer of every question for every
  // student, and two more actions for every question.
  lemma RunLength(c: Setup, run: seq<State>, actions: seq<Action>)
    requires IsRun(c, run, actions)
    ensures |actions| <= c.students * (2 * c.rounds) + c.rounds * (2 * c.students + 2)
    ensures Finished(c, run[|actions|]) ==>
              |actions| == c.students * (2 * c.rounds) + c.rounds * (2 * c.students + 2)
  {
    RunMeasure(c, run, actions, |actions|);
    MeasureNonNegative(c, run, actions, |actions|);
    FreshWork(c, c.students);
    assert Start(c).students[..c.students] == Start(c).students;
    if Finished(c, run[|actions|]) {
      FinalMeasure(c, run, actions);
    }
  }

  lemma FinalMeasure(c: Setup, run: seq<State>, actions: seq<Action>)
    requires IsRun(c, run, actions) && Finished(c, run[|actions|])
    ensures Measure(c, run[|actions|]) == 0
  {
    var st := run[|actions|];
    RunInv(c, run, actions, |actions|);
    NothingPending(c, run, actions, |actions|);
    forall s | 0 <= s < |st.students| ensures WorkOf(c, st.students[s]) == 0 {
      assert StudentOk(st, s);
    }
    NoWork(c, st.students);
  }

  lemma {:induction false} NoWork(c: Setup, students: seq<Student>)
    requires forall s | 0 <= s < |students| :: WorkOf(c, students[s]) == 0
    ensures Work(c, students) == 0
    decreases |students|
  {
    if students != [] {
      NoWork(c, students[..|students| - 1]);
    }
  }

  // ---------- Progress ----------

  lemma {:induction false} FirstOfQuestion(q: seq<Question>, i: nat, kind: nat) returns (k: nat)
    requires i < |q| && q[i].kind == kind
    ensures FirstQuestion(q, k, kind)
    decreases i
  {
    if j :| 0 <= j < i && q[j].kind == kind {
      k := FirstOfQuestion(q, j, kind);
    } else {
      k := i;
    }
  }

  lemma {:induction false} FirstOfReply(q: seq<Reply>, i: nat, kind: nat) returns (k: nat)
    requires i < |q| && q[i].kind == kind
    ensures FirstReply(q, k, kind)
    decreases i
  {
    if j :| 0 <= j < i && q[j].kind == kind {
      k := FirstOfReply(q, j, kind);
    } else {
      k := i;
    }
  }

  ghost function Kinds(q: seq<Reply>): set<int> {
    set k | 0 <= k < |q| :: q[k].kind
  }

  lemma {:induction false} KindCount(q: seq<Reply>)
    requires forall j, k | 0 <= j < k < |q| :: q[j].kind != q[k].kind
    ensures |Kinds(q)| == |q|
    decreases |q|
  {
    if q != [] {
      var n := |q| - 1;
      KindCount(q[..n]);
      assert Kinds(q) == Kinds(q[..n]) + {q[n].kind};
      assert q[n].kind !in Kinds(q[..n]);
    }
  }

  ghost function Upto(n: nat): (r: set<int>)
    ensures forall k :: k in r <==> 1 <= k <= n
  {
    if n == 0 then {} else Upto(n - 1) + {n}
  }

  lemma {:induction false} UptoSize(n: nat)
    ensures |Upto(n)| == n
  {
    if n > 0 {
      UptoSize(n - 1);
    }
  }

  // A student still holding an answer leaves room in a queue with a place for each.
  lemma RoomToRespond(c: Setup, st: State, s: nat)
    requires Inv(c, st) && s < c.students && st.students[s].holding
    ensures |st.answers| < c.students
  {
    assert StudentOk(st, s);
    forall k | 0 <= k < |st.answers| ensures st.answers[k].kind in Upto(c.students) - {s + 1} {
      assert AnswerOk(st, k);
    }
    KindCount(st.answers);
    SubsetSize(Kinds(st.answers), Upto(c.students) - {s + 1});
    UptoSize(c.students);
  }

  // A student yet to take the question finds one, once there are more sent than
  // taken.
  lemma CanTake(c: Setup, st: State, s: nat) returns (a: Action)
    requires Inv(c, st) && s < c.students && st.round < c.rounds && st.questions != []
    requires st.students[s].next == st.round && !st.students[s].holding
    ensures Enabled(c, st, a)
  {
    var k := FirstOfQuestion(st.questions, 0, st.round + 1);
    a := Take(s, k, 'A');
  }

  // With a place in the answer queue for every student, somebody can always act
  // until the exam is over.
  lemma Progress(c: Setup, st: State) returns (a: Action)
    requires Inv(c, st) && !Finished(c, st)
    requires c.questionRoom >= 1 && c.answerRoom >= c.students
    ensures Enabled(c, st, a)
  {
    match st.phase
    case Sending(sent) =>
      if sent == c.students {
        a := Draw('A');
      } else if |st.questions| < c.questionRoom {
        a := Send;
      } else {
        var s := SomeoneWithout(c, st);
        a := CanTake(c, st, s);
      }
    case Collecting(j, correct) =>
      if j == c.students {
        a := Proceed;
      } else {
        a := ProgressFor(c, st, j);
      }
  }

  lemma SomeoneWithout(c: Setup, st: State) returns (s: nat)
    requires Inv(c, st) && st.questions != []
    ensures s < c.students && st.students[s].next == st.round && !st.students[s].holding
  {
    HavingRange(st.students, st.round);
    var x :| 0 <= x < |st.students| && Has(st.students[x], st.round) != 1;
    s := x;
    assert StudentOk(st, s);
  }

  lemma ProgressFor(c: Setup, st: State, j: nat) returns (a: Action)
    requires Inv(c, st) && st.phase.Collecting? && st.phase.taken == j < c.students
    requires c.answerRoom >= c.students
    ensures Enabled(c, st, a)
  {
    assert StudentOk(st, j);
    if st.students[j].next == st.round + 1 {
      assert Due(st, j);
      var i :| 0 <= i < |st.answers| && st.answers[i].kind == j + 1;
      var k := FirstOfReply(st.answers, i, j + 1);
      a := Collect(k);
    } else if st.students[j].holding {
      RoomToRespond(c, st, j);
      a := Respond(j);
    } else {
      HavingRange(st.students, st.round);
      assert Has(st.students[j], st.round) == 0;
      a := CanTake(c, st, j);
    }
  }

  // ---------- Why the answer queue needs a place for every student ----------

  ghost predicate Reachable(c: Setup, st: State) {
    exists run, actions :: IsRun(c, run, actions) && run[|actions|] == st
  }

  lemma ReachableStart(c: Setup)
    ensures Reachable(c, Start(c))
  {
    assert IsRun(c, [Start(c)], []);
  }

  lemma ReachableNext(c: Setup, st: State, a: Action)
    requires Reachable(c, st) && Shape(c, st) && Enabled(c, st, a)
    ensures Reachable(c, Do(c, st, a))
  {
    var run, actions :| IsRun(c, run, actions) && run[|actions|] == st;
    var run', actions' := run + [Do(c, st, a)], actions + [a];
    forall k | 0 <= k < |actions'| ensures RunAt(c, run', actions', k) {
      if k < |actions| {
        assert RunAt(c, run, actions, k);
      }
    }
    assert run'[|actions'|] == Do(c, st, a);
  }

  lemma ReachableInv(c: Setup, st: State)
    requires Reachable(c, st)
    ensures Inv(c, st)
  {
    var run, actions :| IsRun(c, run, actions) && run[|actions|] == st;
    RunInv(c, run, actions, |actions|);
  }

  ghost predicate Deadlocked(c: Setup, st: State)
    requires Shape(c, st)
  {
    !Finished(c, st) && forall a :: !Enabled(c, st, a)
  }

  // The first round as it may go: the students take the question from the last one
  // down, and answer as long as there is room. This is after m of them.
  function CrowdedStudent(c: Setup, m: nat, s: int): Student {
    var turn := c.students - 1 - s;
    if turn >= m then Student(0, false, 'A', [])
    else if turn < c.answerRoom then Student(1, false, 'A', ['A'])
    else Student(0, true, 'A', [])
  }

  function Crowded(c: Setup, m: nat): State
    requires m <= c.students
  {
    State([], seq(if m < c.answerRoom then m else c.answerRoom,
                  k requires 0 <= k < c.students => Reply(c.students - k, 'A')),
          seq(c.students, s => CrowdedStudent(c, m, s)), 0, Sending(m),
          seq(c.students, s => 0), [], seq(c.students, s => []))
  }

  lemma {:induction false} CrowdedReachable(c: Setup, m: nat)
    requires m <= c.students && c.rounds >= 1 && c.questionRoom >= 1
    ensures Reachable(c, Crowded(c, m))
    decreases m
  {
    if m == 0 {
      ReachableStart(c);
      assert Crowded(c, 0) == Start(c);
    } else {
      CrowdedReachable(c, m - 1);
      CrowdedStep(c, m - 1);
    }
  }

  lemma CrowdedStep(c: Setup, m: nat)
    requires m < c.students && c.rounds >= 1 && c.questionRoom >= 1
    requires Reachable(c, Crowded(c, m))
    ensures Reachable(c, Crowded(c, m + 1))
  {
    var s := c.students - 1 - m;
    var st0 := Crowded(c, m);
    ReachableNext(c, st0, Send);
    var st1 := Do(c, st0, Send);
    assert FirstQuestion(st1.questions, 0, 1);
    ReachableNext(c, st1, Take(s, 0, 'A'));
    var st2 := Do(c, st1, Take(s, 0, 'A'));
    assert st2.questions == [];
    if m < c.answerRoom {
      ReachableNext(c, st2, Respond(s));
      CrowdedAnswer(c, m, st2);
    } else {
      assert st2.answers == Crowded(c, m + 1).answers;
      assert st2.students == Crowded(c, m + 1).students;
      assert st2 == Crowded(c, m + 1);
    }
  }

  lemma CrowdedAnswer(c: Setup, m: nat, st: State)
    requires m < c.students && m < c.answerRoom && c.rounds >= 1
    requires var s := c.students - 1 - m;
             st == Crowded(c, m).(students := Crowded(c, m).students[s := Student(0, true, 'A', [])],
                                  phase := Sending(m + 1))
    ensures Shape(c, st) && Enabled(c, st, Respond(c.students - 1 - m))
    ensures Do(c, st, Respond(c.students - 1 - m)) == Crowded(c, m + 1)
  {
    var st' := Do(c, st, Respond(c.students - 1 - m));
    assert [] + ['A'] == ['A'];
    assert st'.answers == Crowded(c, m + 1).answers;
    assert st'.students == Crowded(c, m + 1).students;
  }

  // The queue is full of other students' answers, and the parent waits for the first
  // student's, who waits for room.
  lemma CrowdedDeadlock(c: Setup) returns (st: State)
    requires c.rounds >= 1 && c.questionRoom >= 1 && c.answerRoom < c.students
    ensures Reachable(c, st) && Shape(c, st) && Deadlocked(c, st)
  {
    var full := Crowded(c, c.students);
    CrowdedReachable(c, c.students);
    ReachableNext(c, full, Draw('A'));
    st := Do(c, full, Draw('A'));
    forall a ensures !Enabled(c, st, a) {
      match a
      case Collect(k) =>
        assert k < |st.answers| ==> st.answers[k].kind == c.students - k;
      case Respond(s) =>
      case Take(s, k, _) =>
      case _ =>
    }
  }

  // The exam cannot get stuck if and only if the answer queue holds one message per
  // student.
  lemma DeadlockFreeIff(c: Setup)
    requires c.rounds >= 1 && c.questionRoom >= 1
    ensures (forall st | Reachable(c, st) && Shape(c, st) :: !Deadlocked(c, st)) <==> c.answerRoom >= c.students
  {
    if c.answerRoom >= c.students {
      forall st | Reachable(c, st) && Shape(c, st) ensures !Deadlocked(c, st) {
        ReachableInv(c, st);
        if !Finished(c, st) {
          var a := Progress(c, st);
        }
      }
    } else {
      var st := CrowdedDeadlock(c);
    }
  }
}
