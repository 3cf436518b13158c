/**
  The thread pool behind the asynchronous logger: producers post under the blocking policy, `N` workers take messages
  from the queue, and the destructor, which no producer outlives, posts one terminate message per worker and joins them.

  Assumptions: an operation on the queue is one step, as it holds the queue's mutex; a waiting thread is woken when what
  it waits for holds; threads that can go on do so at some time.
*/
module LogShutdown {
  import opened CircularQueue

  datatype Msg = Log(n: int) | Flush(n: int) | Terminate

  datatype Worker = Idle | Busy(msg: Msg) | Exited

  /** What the pool's owner is doing; in the destructor it has posted or joined so many. */
  datatype Phase = Running | Posting(k: nat) | Joining(j: nat) | Done

  /** `posted`, `taken` and `handled` are history: posted by producers, dequeued, and worked off. */
  datatype State = State(phase: Phase, queue: seq<Msg>, workers: seq<Worker>,
                         posted: seq<Msg>, taken: seq<Msg>, handled: multiset<Msg>)

  datatype Event =
    | Post(m: Msg)
    | Shutdown
    | PostTerminate
    | StartJoining
    | Join
    | Finish
    | Dequeue(w: nat)
    | Handle(w: nat)
    | TimeOut(w: nat)

  ghost predicate Init(s: State, n: nat) {
    && s.phase == Running && s.queue == [] && s.workers == seq(n, _ => Idle)
    && s.posted == [] && s.taken == [] && s.handled == multiset{}
  }

  predicate OwnerStep(s: State, e: Event, t: State, capacity: nat) {
    match e
    case Post(m) =>
      && s.phase.Running? && !m.Terminate? && |s.queue| < capacity
      && t == s.(queue := Pushed(s.queue, capacity, m), posted := s.posted + [m])
    case Shutdown => s.phase.Running? && t == s.(phase := Posting(0))
    case PostTerminate =>
      && s.phase.Posting? && s.phase.k < |s.workers| && |s.queue| < capacity
      && t == s.(phase := Posting(s.phase.k + 1), queue := Pushed(s.queue, capacity, Terminate))
    case StartJoining => s.phase.Posting? && s.phase.k == |s.workers| && t == s.(phase := Joining(0))
    case Join =>
      && s.phase.Joining? && s.phase.j < |s.workers| && s.workers[s.phase.j].Exited?
      && t == s.(phase := Joining(s.phase.j + 1))
    case Finish => s.phase.Joining? && s.phase.j == |s.workers| && t == s.(phase := Done)
    case _ => false
  }

  predicate WorkerStep(s: State, e: Event, t: State) {
    match e
    case Dequeue(w) =>
      && w < |s.workers| && s.workers[w].Idle? && s.queue != []
      && t == s.(queue := s.queue[1..], workers := s.workers[w := Busy(s.queue[0])], taken := s.taken + [s.queue[0]])
    case Handle(w) =>
      && w < |s.workers| && s.workers[w].Busy?
      && t == s.(workers := s.workers[w := if s.workers[w].msg.Terminate? then Exited else Idle],
                 handled := s.handled + multiset{s.workers[w].msg})
    case TimeOut(w) => w < |s.workers| && s.workers[w].Idle? && s.queue == [] && t == s
    case _ => false
  }

  predicate Step(s: State, e: Event, t: State, capacity: nat) {
    OwnerStep(s, e, t, capacity) || WorkerStep(s, e, t)
  }

  /// The invariant

  function Terminates(k: nat): (r: seq<Msg>)
    ensures |r| == k && forall i :: 0 <= i < k ==> r[i] == Terminate
  {
    seq(k, _ => Terminate)
  }

  function PostedTerminates(s: State): nat {
    match s.phase
    case Running => 0
    case Posting(k) => k
    case _ => |s.workers|
  }

  /** Workers that have not taken a terminate message. */
  function Active(workers: seq<Worker>): (r: nat)
    ensures r <= |workers|
  {
    if workers == [] then 0
    else (if workers[0].Exited? || workers[0] == Busy(Terminate) then 0 else 1) + Active(workers[1..])
  }

  function BusyWorkers(workers: seq<Worker>): nat {
    if workers == [] then 0 else (if workers[0].Busy? then 1 else 0) + BusyWorkers(workers[1..])
  }

  function Hand(worker: Worker): multiset<Msg> {
    if worker.Busy? then multiset{worker.msg} else multiset{}
  }

  function InHand(workers: seq<Worker>): multiset<Msg> {
    if workers == [] then multiset{} else Hand(workers[0]) + InHand(workers[1..])
  }

  function TerminatesIn(msgs: seq<Msg>): nat {
    if msgs == [] then 0 else (if msgs[0].Terminate? then 1 else 0) + TerminatesIn(msgs[1..])
  }

  predicate HaveExited(workers: seq<Worker>, j: nat) {
    j <= |workers| && forall i :: 0 <= i < j ==> workers[i].Exited?
  }

  predicate NoTerminate(msgs: seq<Msg>) {
    forall i :: 0 <= i < |msgs| ==> !msgs[i].Terminate?
  }

  ghost predicate PhaseInv(s: State, n: nat, capacity: nat) {
    && |s.workers| == n && |s.queue| <= capacity && PostedTerminates(s) <= n
    && (s.phase.Joining? ==> HaveExited(s.workers, s.phase.j)) && (s.phase.Done? ==> HaveExited(s.workers, n))
  }

  /**
    What has been taken and what is in the queue is, in order, what the producers posted and then the terminate
    messages.
  */
  ghost predicate OrderInv(s: State) {
    NoTerminate(s.posted) && s.taken + s.queue == s.posted + Terminates(PostedTerminates(s))
  }

  /** The active workers are those without a terminate message so far; whatever was taken is handled or in hand. */
  ghost predicate WorkersInv(s: State, n: nat) {
    && Active(s.workers) + TerminatesIn(s.taken) == n
    && s.handled + InHand(s.workers) == multiset(s.taken)
  }

  ghost predicate Inv(s: State, n: nat, capacity: nat) {
    PhaseInv(s, n, capacity) && OrderInv(s) && WorkersInv(s, n)
  }

  lemma {:induction false} WorkersAfter(workers: seq<Worker>, w: nat, next: Worker)
    requires w < |workers|
    ensures
      var after := workers[w := next];
      && Active(after) + Active([workers[w]]) == Active(workers) + Active([next])
      && BusyWorkers(after) + BusyWorkers([workers[w]]) == BusyWorkers(workers) + BusyWorkers([next])
  {
    var after := workers[w := next];
    if w == 0 {
      assert after[1..] == workers[1..];
    } else {
      WorkersAfter(workers[1..], w - 1, next);
      assert after[1..] == workers[1..][w - 1 := next];
    }
  }

  lemma {:induction false} HandsAfter(workers: seq<Worker>, w: nat, next: Worker)
    requires w < |workers|
    ensures InHand(workers[w := next]) + Hand(workers[w]) == InHand(workers) + Hand(next)
  {
    var after := workers[w := next];
    if w == 0 {
      assert after[1..] == workers[1..];
      Exchange(Hand(next), Hand(workers[0]), InHand(workers[1..]));
    } else {
      HandsAfter(workers[1..], w - 1, next);
      assert after[1..] == workers[1..][w - 1 := next];
      AddBoth(Hand(workers[0]), InHand(after[1..]), Hand(workers[w]), InHand(workers[1..]), Hand(next));
    }
  }

  lemma Exchange(x: multiset<Msg>, y: multiset<Msg>, rest: multiset<Msg>)
    ensures (x + rest) + y == (y + rest) + x
  {
  }

  lemma AddBoth(x: multiset<Msg>, a: multiset<Msg>, b: multiset<Msg>, c: multiset<Msg>, d: multiset<Msg>)
    requires a + b == c + d
    ensures (x + a) + b == (x + c) + d
  {
    assert (x + a) + b == x + (a + b);
    assert (x + c) + d == x + (c + d);
  }

  lemma {:induction false} TerminatesAppend(msgs: seq<Msg>, m: Msg)
    ensures TerminatesIn(msgs + [m]) == TerminatesIn(msgs) + if m.Terminate? then 1 else 0
  {
    if msgs != [] {
      assert (msgs + [m])[1..] == msgs[1..] + [m];
      TerminatesAppend(msgs[1..], m);
    }
  }

  lemma {:induction false} ActiveAtFirst(n: nat, workers: seq<Worker>)
    requires workers == seq(n, _ => Idle)
    ensures Active(workers) == n && InHand(workers) == multiset{}
  {
    if n > 0 {
      assert workers[1..] == seq(n - 1, _ => Idle);
      ActiveAtFirst(n - 1, workers[1..]);
    }
  }

  lemma InitInv(s: State, n: nat, capacity: nat)
    requires Init(s, n)
    ensures Inv(s, n, capacity)
  {
    ActiveAtFirst(n, s.workers);
  }

  /// The owner's steps

  lemma QueueAfterPost(taken: seq<Msg>, queue: seq<Msg>, posted: seq<Msg>, m: Msg)
    requires taken + queue == posted
    ensures taken + (queue + [m]) == posted + [m]
  {
    assert taken + (queue + [m]) == (taken + queue) + [m];
  }

  lemma TerminatesGrow(k: nat)
    ensures Terminates(0) == [] && Terminates(k + 1) == Terminates(k) + [Terminate]
  {
  }

  lemma PostKeepsOrder(s: State, m: Msg, t: State, capacity: nat)
    requires OrderInv(s) && OwnerStep(s, Post(m), t, capacity)
    ensures OrderInv(t)
  {
    TerminatesGrow(0);
    assert s.posted + [] == s.posted && t.posted + [] == t.posted;
    QueueAfterPost(s.taken, s.queue, s.posted, m);
  }

  lemma PostTerminateKeepsOrder(s: State, t: State, capacity: nat)
    requires OrderInv(s) && OwnerStep(s, PostTerminate, t, capacity)
    ensures OrderInv(t)
  {
    var ts := Terminates(s.phase.k);
    TerminatesGrow(s.phase.k);
    QueueAfterPost(s.taken, s.queue, s.posted + ts, Terminate);
    assert (s.posted + ts) + [Terminate] == s.posted + (ts + [Terminate]);
  }

  lemma OwnerKeepsOrder(s: State, e: Event, t: State, n: nat, capacity: nat)
    requires Inv(s, n, capacity) && OwnerStep(s, e, t, capacity)
    ensures OrderInv(t)
  {
    if e.Post? {
      PostKeepsOrder(s, e.m, t, capacity);
    } else if e.PostTerminate? {
      PostTerminateKeepsOrder(s, t, capacity);
    }
  }

  lemma OwnerKeepsInv(s: State, e: Event, t: State, n: nat, capacity: nat)
    requires Inv(s, n, capacity) && OwnerStep(s, e, t, capacity)
    ensures Inv(t, n, capacity)
  {
    OwnerKeepsOrder(s, e, t, n, capacity);
  }

  /// The workers' steps

  lemma TakenAfter(handled: multiset<Msg>, before: multiset<Msg>, after: multiset<Msg>, taken: seq<Msg>, m: Msg)
    requires handled + before == multiset(taken) && after + multiset{} == before + multiset{m}
    ensures handled + after == multiset(taken + [m])
  {
    assert after == before + multiset{m};
    assert handled + (before + multiset{m}) == (handled + before) + multiset{m};
  }

  lemma TakeFirst(taken: seq<Msg>, queue: seq<Msg>)
    requires queue != []
    ensures taken + [queue[0]] + queue[1..] == taken + queue
  {
  }

  lemma DequeueKeepsWorkers(s: State, w: nat, t: State, n: nat)
    requires WorkersInv(s, n) && WorkerStep(s, Dequeue(w), t)
    ensures WorkersInv(t, n)
  {
    var m := s.queue[0];
    WorkersAfter(s.workers, w, Busy(m));
    TerminatesAppend(s.taken, m);
    HandsAfter(s.workers, w, Busy(m));
    TakenAfter(s.handled, InHand(s.workers), InHand(t.workers), s.taken, m);
  }

  lemma ExitedStay(workers: seq<Worker>, w: nat, next: Worker, j: nat)
    requires HaveExited(workers, j) && w < |workers| && !workers[w].Exited?
    ensures HaveExited(workers[w := next], j)
  {
  }

  /** A step of a worker that has not exited leaves those that have. */
  lemma WorkerKeepsPhase(s: State, e: Event, t: State, n: nat, capacity: nat)
    requires PhaseInv(s, n, capacity) && WorkerStep(s, e, t) && !e.TimeOut?
    ensures PhaseInv(t, n, capacity)
  {
    if s.phase.Joining? {
      ExitedStay(s.workers, e.w, t.workers[e.w], s.phase.j);
    }
  }

  lemma DequeueKeepsInv(s: State, w: nat, t: State, n: nat, capacity: nat)
    requires Inv(s, n, capacity) && WorkerStep(s, Dequeue(w), t)
    ensures Inv(t, n, capacity)
  {
    TakeFirst(s.taken, s.queue);
    WorkerKeepsPhase(s, Dequeue(w), t, n, capacity);
    DequeueKeepsWorkers(s, w, t, n);
  }

  lemma HandleMovesHands(s: State, w: nat, t: State)
    requires WorkerStep(s, Handle(w), t)
    ensures t.handled + InHand(t.workers) == s.handled + InHand(s.workers)
    ensures Active(t.workers) == Active(s.workers)
  {
    var m := s.workers[w].msg;
    var next := if m.Terminate? then Exited else Idle;
    WorkersAfter(s.workers, w, next);
    HandsAfter(s.workers, w, next);
    HandledAfter(s.handled, InHand(s.workers), InHand(t.workers), m);
  }

  lemma HandleKeepsInv(s: State, w: nat, t: State, n: nat, capacity: nat)
    requires Inv(s, n, capacity) && WorkerStep(s, Handle(w), t)
    ensures Inv(t, n, capacity)
  {
    HandleMovesHands(s, w, t);
    WorkerKeepsPhase(s, Handle(w), t, n, capacity);
  }

  lemma HandledAfter(handled: multiset<Msg>, before: multiset<Msg>, after: multiset<Msg>, m: Msg)
    requires after + multiset{m} == before + multiset{}
    ensures (handled + multiset{m}) + after == handled + before
  {
    assert before == after + multiset{m};
    assert (handled + multiset{m}) + after == handled + (after + multiset{m});
  }

  lemma StepKeepsInv(s: State, e: Event, t: State, n: nat, capacity: nat)
    requires Inv(s, n, capacity) && Step(s, e, t, capacity)
    ensures Inv(t, n, capacity)
  {
    if OwnerStep(s, e, t, capacity) {
      OwnerKeepsInv(s, e, t, n, capacity);
    } else if e.Dequeue? {
      DequeueKeepsInv(s, e.w, t, n, capacity);
    } else if e.Handle? {
      HandleKeepsInv(s, e.w, t, n, capacity);
    }
  }

  /// Every run

  ghost predicate StepAt(run: seq<State>, events: seq<Event>, capacity: nat, i: nat)
    requires 0 < i < |run| == |events| + 1
  {
    Step(run[i - 1], events[i - 1], run[i], capacity)
  }

  ghost predicate IsRun(run: seq<State>, events: seq<Event>, n: nat, capacity: nat) {
    && |run| == |events| + 1 && Init(run[0], n)
    && forall i {:trigger StepAt(run, events, capacity, i)} :: 0 < i < |run| ==> StepAt(run, events, capacity, i)
  }

  lemma {:induction false} RunKeepsInv(run: seq<State>, events: seq<Event>, n: nat, capacity: nat, i: nat)
    requires IsRun(run, events, n, capacity) && i < |run|
    ensures Inv(run[i], n, capacity)
  {
    if i == 0 {
      InitInv(run[0], n, capacity);
    } else {
      RunKeepsInv(run, events, n, capacity, i - 1);
      assert StepAt(run, events, capacity, i);
      StepKeepsInv(run[i - 1], events[i - 1], run[i], n, capacity);
    }
  }

  /// The end of the shutdown

  /** How far the owner is from the end of its destructor. */
  function OwnerRank(s: State): nat {
    match s.phase
    case Running => 4 * |s.workers| + 3
    case Posting(k) => if k <= |s.workers| then 3 * (|s.workers| - k) + |s.workers| + 2 else 0
    case Joining(j) => if j <= |s.workers| then |s.workers| - j + 1 else 0
    case Done => 0
  }

  function Rank(s: State): nat {
    OwnerRank(s) + 2 * |s.queue| + BusyWorkers(s.workers)
  }

  predicate Progress(e: Event) {
    !e.TimeOut? && !e.Post?
  }

  /** Only waiting in vain, and posting before the shutdown, do not bring the end nearer. */
  lemma RankFalls(s: State, e: Event, t: State, capacity: nat)
    requires Step(s, e, t, capacity) && Progress(e)
    ensures Rank(t) < Rank(s)
  {
    if e.Dequeue? {
      WorkersAfter(s.workers, e.w, Busy(s.queue[0]));
    } else if e.Handle? {
      WorkersAfter(s.workers, e.w, t.workers[e.w]);
    }
  }

  /// No deadlock

  lemma {:induction false} SomeActive(workers: seq<Worker>) returns (w: nat)
    requires Active(workers) > 0
    ensures w < |workers| && (workers[w].Idle? || workers[w].Busy?)
  {
    if !workers[0].Exited? && workers[0] != Busy(Terminate) {
      w := 0;
    } else {
      w := SomeActive(workers[1..]);
      w := w + 1;
    }
  }

  lemma {:induction false} NoneActive(workers: seq<Worker>, w: nat)
    requires Active(workers) == 0 && w < |workers|
    ensures workers[w].Exited? || workers[w] == Busy(Terminate)
  {
    if w > 0 {
      NoneActive(workers[1..], w - 1);
    }
  }

  lemma {:induction false} TerminatesOfAll(posted: seq<Msg>, k: nat)
    requires NoTerminate(posted)
    ensures TerminatesIn(posted + Terminates(k)) == k
    decreases |posted| + k
  {
    if posted != [] {
      assert (posted + Terminates(k))[1..] == posted[1..] + Terminates(k);
      TerminatesOfAll(posted[1..], k);
    } else if k > 0 {
      assert posted + Terminates(k) == Terminates(k) && Terminates(k)[1..] == posted + Terminates(k - 1);
      TerminatesOfAll(posted, k - 1);
    }
  }

  lemma {:induction false} TerminatesConcat(x: seq<Msg>, y: seq<Msg>)
    ensures TerminatesIn(x + y) == TerminatesIn(x) + TerminatesIn(y)
  {
    if x == [] {
      assert x + y == y;
    } else {
      assert (x + y)[1..] == x[1..] + y;
      TerminatesConcat(x[1..], y);
    }
  }

  /** The active workers always equal the terminate messages still to be dequeued. */
  lemma ActiveAreTerminatesLeft(s: State, n: nat, capacity: nat)
    requires Inv(s, n, capacity)
    ensures Active(s.workers) == (n - PostedTerminates(s)) + TerminatesIn(s.queue)
  {
    TerminatesOfAll(s.posted, PostedTerminates(s));
    TerminatesConcat(s.taken, s.queue);
  }

  /** Behind every message in the queue there is a terminate message, once all of these are posted. */
  lemma LastIsTerminate(s: State, n: nat, capacity: nat)
    requires Inv(s, n, capacity) && PostedTerminates(s) == n > 0 && s.queue != []
    ensures TerminatesIn(s.queue) > 0
  {
    var all := s.posted + Terminates(n);
    var front := s.queue[..|s.queue| - 1];
    assert s.queue == front + [s.queue[|s.queue| - 1]];
    assert s.queue[|s.queue| - 1] == (s.taken + s.queue)[|all| - 1] == all[|all| - 1] == Terminate;
    TerminatesAppend(front, Terminate);
  }

  /** A worker that can take or handle a message, given one that is active. */
  lemma ActiveCanStep(s: State) returns (e: Event, t: State)
    requires Active(s.workers) > 0 && s.queue != []
    ensures WorkerStep(s, e, t) && Progress(e)
  {
    var w := SomeActive(s.workers);
    if s.workers[w].Idle? {
      e := Dequeue(w);
      t := s.(queue := s.queue[1..], workers := s.workers[w := Busy(s.queue[0])], taken := s.taken + [s.queue[0]]);
    } else {
      e, t := BusyCanStep(s, w);
    }
  }

  lemma BusyCanStep(s: State, w: nat) returns (e: Event, t: State)
    requires w < |s.workers| && s.workers[w].Busy?
    ensures WorkerStep(s, e, t) && Progress(e)
  {
    e := Handle(w);
    t := s.(workers := s.workers[w := if s.workers[w].msg.Terminate? then Exited else Idle],
            handled := s.handled + multiset{s.workers[w].msg});
  }

  /** The destructor never waits for good: until it is done, some thread can go on, if the queue has any room at all. */
  lemma ShutdownCanStep(s: State, n: nat, capacity: nat) returns (e: Event, t: State)
    requires Inv(s, n, capacity) && n > 0 && capacity > 0 && (s.phase.Posting? || s.phase.Joining?)
    ensures Step(s, e, t, capacity) && Progress(e)
  {
    ActiveAreTerminatesLeft(s, n, capacity);
    if s.queue != [] {
      if PostedTerminates(s) == n {
        LastIsTerminate(s, n, capacity);
      }
      e, t := ActiveCanStep(s);
    } else if s.phase.Posting? {
      if s.phase.k < n {
        e := PostTerminate;
        t := s.(phase := Posting(s.phase.k + 1), queue := Pushed(s.queue, capacity, Terminate));
      } else {
        e, t := StartJoining, s.(phase := Joining(0));
      }
    } else {
      e, t := JoiningCanStep(s, n, capacity);
    }
  }

  lemma JoiningCanStep(s: State, n: nat, capacity: nat) returns (e: Event, t: State)
    requires Inv(s, n, capacity) && s.phase.Joining? && Active(s.workers) == 0
    ensures Step(s, e, t, capacity) && Progress(e)
  {
    if s.phase.j == n {
      e, t := Finish, s.(phase := Done);
    } else if s.workers[s.phase.j].Exited? {
      e, t := Join, s.(phase := Joining(s.phase.j + 1));
    } else {
      NoneActive(s.workers, s.phase.j);
      e, t := BusyCanStep(s, s.phase.j);
    }
  }

  /// What every run guarantees

  /** Messages are taken in the order they were posted, each once, and the terminate messages after all of them. */
  lemma TakenInOrder(run: seq<State>, events: seq<Event>, n: nat, capacity: nat, i: nat)
    requires IsRun(run, events, n, capacity) && i < |run|
    ensures run[i].taken <= run[i].posted + Terminates(n)
    ensures run[i].taken + run[i].queue == run[i].posted + Terminates(PostedTerminates(run[i]))
    ensures run[i].handled <= multiset(run[i].taken)
  {
    RunKeepsInv(run, events, n, capacity, i);
    var s := run[i];
    var k := PostedTerminates(s);
    assert Terminates(n)[..k] == Terminates(k);
    assert s.taken + s.queue <= s.posted + Terminates(n);
    assert s.taken <= s.taken + s.queue;
    assert s.handled <= s.handled + InHand(s.workers);
  }

  lemma {:induction false} AllExited(workers: seq<Worker>)
    requires HaveExited(workers, |workers|)
    ensures Active(workers) == 0 && InHand(workers) == multiset{}
  {
    if workers != [] {
      assert HaveExited(workers[1..], |workers| - 1);
      AllExited(workers[1..]);
    }
  }

  /** When the destructor is done, nothing is left in the queue and every message posted has been handled once. */
  lemma DoneMeansDrained(run: seq<State>, events: seq<Event>, n: nat, capacity: nat, i: nat)
    requires IsRun(run, events, n, capacity) && i < |run| && n > 0 && run[i].phase.Done?
    ensures run[i].queue == [] && run[i].taken == run[i].posted + Terminates(n)
    ensures run[i].handled == multiset(run[i].posted + Terminates(n))
  {
    var s := run[i];
    RunKeepsInv(run, events, n, capacity, i);
    AllExited(s.workers);
    ActiveAreTerminatesLeft(s, n, capacity);
    if s.queue != [] {
      LastIsTerminate(s, n, capacity);
    }
    assert s.taken + [] == s.taken;
    assert s.handled + multiset{} == s.handled;
  }

  function ProgressSteps(events: seq<Event>): nat {
    if events == [] then 0 else (if Progress(events[0]) then 1 else 0) + ProgressSteps(events[1..])
  }

  lemma {:induction false} ProgressAppend(events: seq<Event>, e: Event)
    ensures ProgressSteps(events + [e]) == ProgressSteps(events) + if Progress(e) then 1 else 0
  {
    if events != [] {
      assert (events + [e])[1..] == events[1..] + [e];
      ProgressAppend(events[1..], e);
    }
  }

  /** From the start of the shutdown on, the steps that are not waiting in vain are bounded by the rank. */
  lemma {:induction false} ShutdownIsBounded(run: seq<State>, events: seq<Event>, n: nat, capacity: nat, i: nat, j: nat)
    requires IsRun(run, events, n, capacity) && i <= j < |run| && !run[i].phase.Running?
    ensures !run[j].phase.Running?
    ensures ProgressSteps(events[i..j]) + Rank(run[j]) <= Rank(run[i])
  {
    if i < j {
      ShutdownIsBounded(run, events, n, capacity, i, j - 1);
      assert StepAt(run, events, capacity, j);
      var e := events[j - 1];
      assert events[i..j] == events[i..j - 1] + [e];
      ProgressAppend(events[i..j - 1], e);
      if Progress(e) {
        RankFalls(run[j - 1], e, run[j], capacity);
      }
    }
  }

  /** No thread can go on; at most some wait in vain. */
  ghost predicate AtRest(s: State, capacity: nat) {
    forall e, t :: Step(s, e, t, capacity) ==> !Progress(e)
  }

  /** A shutdown that has come to rest is done, given room for at least one message. */
  lemma ShutdownEnds(run: seq<State>, events: seq<Event>, n: nat, capacity: nat)
    requires IsRun(run, events, n, capacity) && n > 0 && capacity > 0
    requires !run[|run| - 1].phase.Running?
    requires AtRest(run[|run| - 1], capacity)
    ensures run[|run| - 1].phase.Done? && run[|run| - 1].queue == []
  {
    RunKeepsInv(run, events, n, capacity, |run| - 1);
    if !run[|run| - 1].phase.Done? {
      var e, t := ShutdownCanStep(run[|run| - 1], n, capacity);
    }
    DoneMeansDrained(run, events, n, capacity, |run| - 1);
  }

  /** And from its start on a shutdown can always be brought to its end. */
  lemma {:induction false} ShutdownLeadsToDone(run: seq<State>, events: seq<Event>, n: nat, capacity: nat)
    returns (longer: seq<State>, more: seq<Event>)
    requires IsRun(run, events, n, capacity) && n > 0 && capacity > 0 && !run[|run| - 1].phase.Running?
    ensures IsRun(longer, more, n, capacity) && run <= longer && longer[|longer| - 1].phase.Done?
    decreases Rank(run[|run| - 1])
  {
    if run[|run| - 1].phase.Done? {
      longer, more := run, events;
    } else {
      RunKeepsInv(run, events, n, capacity, |run| - 1);
      var e, t := ShutdownStep(run[|run| - 1], n, capacity);
      RunGoesOn(run, events, n, capacity, e, t);
      longer, more := ShutdownLeadsToDone(run + [t], events + [e], n, capacity);
    }
  }

  lemma ShutdownStep(s: State, n: nat, capacity: nat) returns (e: Event, t: State)
    requires Inv(s, n, capacity) && n > 0 && capacity > 0 && (s.phase.Posting? || s.phase.Joining?)
    ensures Step(s, e, t, capacity) && Rank(t) < Rank(s) && !t.phase.Running?
  {
    e, t := ShutdownCanStep(s, n, capacity);
    RankFalls(s, e, t, capacity);
  }

  lemma RunGoesOn(run: seq<State>, events: seq<Event>, n: nat, capacity: nat, e: Event, t: State)
    requires IsRun(run, events, n, capacity) && Step(run[|run| - 1], e, t, capacity)
    ensures IsRun(run + [t], events + [e], n, capacity)
  {
    forall i | 0 < i < |run + [t]| ensures StepAt(run + [t], events + [e], capacity, i) {
      assert i < |run| ==> StepAt(run, events, capacity, i);
    }
  }

  /** A message can be posted whenever there is room, and is then the last one in the queue. */
  lemma PostIsQueued(s: State, m: Msg, capacity: nat)
    requires s.phase.Running? && !m.Terminate? && |s.queue| < capacity
    ensures Step(s, Post(m), s.(queue := s.queue + [m], posted := s.posted + [m]), capacity)
  {
  }

  lemma NoRoomStaysOut(s: State, e: Event, t: State)
    requires Step(s, e, t, 0) && s.workers != [] && (s.phase.Running? || s.phase == Posting(0))
    ensures t.phase.Running? || t.phase == Posting(0)
  {
  }

  /** A queue without room is full from the start: the destructor never posts its first terminate message. */
  lemma {:induction false} NoRoomNoEnd(run: seq<State>, events: seq<Event>, n: nat, i: nat)
    requires IsRun(run, events, n, 0) && i < |run| && n > 0
    ensures run[i].phase.Running? || run[i].phase == Posting(0)
  {
    if i > 0 {
      NoRoomNoEnd(run, events, n, i - 1);
      RunKeepsInv(run, events, n, 0, i - 1);
      assert StepAt(run, events, 0, i);
      NoRoomStaysOut(run[i - 1], events[i - 1], run[i]);
    }
  }
}
