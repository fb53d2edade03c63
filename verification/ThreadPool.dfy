// libuv's threadpool.c: worker threads that share a queue under one mutex, slow work that is
// throttled through a message in that queue, and one loop thread that submits, cancels and
// collects. A section that holds a mutex is one step; steps interleave in any order.

module ThreadPools {

  import opened Wrappers
  import opened Queues

  type Request = int

  // An entry of wq: a request or run_slow_work_message.
  datatype Item = Work(w: Request) | SlowMessage

  // What w->work holds.
  datatype Fn = Given | Null | Cancelled

  // A worker waits on the condition variable, runs w->work, or is on its way to the mutex.
  // Any waiting worker may wake up, signaled or not.
  datatype Worker = Ready(wasSlow: bool) | Parked(signaled: bool) | Running(w: Request, slow: bool)

  // Where a request is.
  datatype Place = InQueue | InSlowQueue | AtWorker(i: nat) | BeingCancelled | InLoopQueue | InMovedQueue | Delivered

  datatype Report = Report(w: Request, cancelled: bool)

  // wq, slow (slow_io_pending_wq), running (slow_io_work_running), idle (idle_threads) and
  // work are the variables of the program; loopQueue is loop->wq, moved the queue that
  // uv__work_done works through, removed the request between the two halves of a cancel.
  // The rest is history: where each request is, the calls of work and of done, in order,
  // and the requests for which a cancel returned 0.
  datatype State = State(
    wq: seq<Item>, slow: seq<Request>, running: int, idle: int, workers: seq<Worker>,
    loopQueue: seq<Request>, moved: seq<Request>, removed: Option<Request>, work: map<Request, Fn>,
    at: map<Request, Place>, started: seq<Request>, done: seq<Report>, cancels: set<Request>)

  function Threshold(n: nat): nat { (n + 1) / 2 }

  predicate Full(s: State) { s.running >= Threshold(|s.workers|) }

  // What a worker that holds the mutex does before it gives the mutex up: it goes to sleep,
  // or leaves with a request. posted says that it put the slow message back and may signal.
  datatype Choice = Sleep(wq: seq<Item>)
    | Take(wq: seq<Item>, slow: seq<Request>, w: Request, isSlow: bool, posted: bool)

  ghost function Choose(wq: seq<Item>, slow: seq<Request>, full: bool): Choice
    requires Once(wq)
  {
    if wq == [] || (full && wq == [SlowMessage]) then Sleep(wq)
    else if wq[0].Work? then Take(wq[1..], slow, wq[0].w, false, false)
    else if full then Take(wq[2..] + [SlowMessage], slow, wq[1].w, false, false)
    else if slow != [] then
      var more := |slow| > 1;
      Take(wq[1..] + (if more then [SlowMessage] else []), slow[1..], slow[0], true, more)
    else if |wq| == 1 then Sleep([])
    else Take(wq[2..], slow, wq[1].w, false, false)
  }

  // uv_cond_signal wakes one waiting thread: wake is the one that the system picks.
  function Signal(workers: seq<Worker>, wake: nat): seq<Worker> {
    if wake < |workers| && workers[wake] == Parked(false) then workers[wake := Parked(true)] else workers
  }

  predicate CanPick(workers: seq<Worker>, wake: nat) {
    (exists k :: 0 <= k < |workers| && workers[k] == Parked(false)) ==>
      wake < |workers| && workers[wake] == Parked(false)
  }

  datatype Label =
    | Section(i: nat, wake: nat)                  // a worker, from taking the mutex to giving it up
    | Finish(i: nat)                              // a worker hands its request to the loop
    | Submit(w: Request, isSlow: bool, wake: nat) // uv__work_submit
    | Cancel(w: Request)                          // uv__work_cancel, the section with both mutexes
    | CancelEnd                                   // and its second section
    | Move                                        // uv__work_done takes the queue
    | Deliver                                     // and calls the next done callback

  // A request can be cancelled if it is linked in a queue and w->work is not NULL.
  predicate Linked(s: State, w: Request) {
    Work(w) in s.wq || w in s.slow || w in s.loopQueue || w in s.moved
  }

  ghost predicate Enabled(s: State, a: Label) {
    match a
    case Section(i, wake) => i < |s.workers| && !s.workers[i].Running? && CanPick(s.workers[i := Ready(false)], wake)
    case Finish(i) => i < |s.workers| && s.workers[i].Running?
    case Submit(w, _, wake) => w !in s.at && s.removed.None? && CanPick(s.workers, wake)
    case Cancel(w) => w in s.at && s.at[w] != Delivered && s.removed.None?
    case CancelEnd => s.removed.Some?
    case Move => s.moved == [] && s.removed.None?
    case Deliver => s.moved != [] && s.removed.None?
  }

  ghost function SectionStep(s: State, i: nat, wake: nat): State
    requires Once(s.wq) && i < |s.workers| && !s.workers[i].Running?
  {
    var running := if s.workers[i] == Ready(true) then s.running - 1 else s.running;
    var idle := if s.workers[i].Parked? then s.idle - 1 else s.idle;
    match Choose(s.wq, s.slow, running >= Threshold(|s.workers|))
    case Sleep(wq) => s.(wq := wq, running := running, idle := idle + 1, workers := s.workers[i := Parked(false)])
    case Take(wq, slow, w, isSlow, posted) =>
      var workers := s.workers[i := Running(w, isSlow)];
      s.(wq := wq, slow := slow, running := if isSlow then running + 1 else running, idle := idle,
         workers := if posted && idle > 0 then Signal(workers, wake) else workers,
         at := s.at[w := AtWorker(i)], started := s.started + [w])
  }

  function SubmitStep(s: State, w: Request, isSlow: bool, wake: nat): State {
    var t := s.(work := s.work[w := Given], at := s.at[w := if isSlow then InSlowQueue else InQueue],
                slow := if isSlow then s.slow + [w] else s.slow);
    if isSlow && SlowMessage in s.wq then t
    else t.(wq := s.wq + [if isSlow then SlowMessage else Work(w)],
            workers := if s.idle > 0 then Signal(s.workers, wake) else s.workers)
  }

  function CancelStep(s: State, w: Request): State {
    if !Linked(s, w) || w !in s.work || s.work[w] == Null then s
    else s.(wq := Without(s.wq, Work(w)), slow := Without(s.slow, w), loopQueue := Without(s.loopQueue, w),
            moved := Without(s.moved, w), removed := Some(w), at := s.at[w := BeingCancelled],
            cancels := s.cancels + {w})
  }

  ghost function Next(s: State, a: Label): State
    requires Once(s.wq) && Enabled(s, a)
  {
    match a
    case Section(i, wake) => SectionStep(s, i, wake)
    case Finish(i) =>
      var w := s.workers[i].w;
      s.(workers := s.workers[i := Ready(s.workers[i].slow)], work := s.work[w := Null],
         loopQueue := s.loopQueue + [w], at := s.at[w := InLoopQueue])
    case Submit(w, isSlow, wake) => SubmitStep(s, w, isSlow, wake)
    case Cancel(w) => CancelStep(s, w)
    case CancelEnd =>
      var w := s.removed.value;
      s.(work := s.work[w := Cancelled], loopQueue := s.loopQueue + [w], at := s.at[w := InLoopQueue], removed := None)
    case Move => s.(moved := s.loopQueue, loopQueue := [],
                    at := map w | w in s.at :: if s.at[w] == InLoopQueue then InMovedQueue else s.at[w])
    case Deliver =>
      var w := s.moved[0];
      s.(moved := s.moved[1..], at := s.at[w := Delivered],
         done := s.done + [Report(w, w in s.work && s.work[w] == Cancelled)])
  }

  // ---------- The invariant ----------

  // The requests of q are those at p, each once.
  ghost predicate Holds(q: seq<Request>, at: map<Request, Place>, p: Place) {
    Once(q) && forall w :: w in q <==> w in at && at[w] == p
  }

  ghost predicate QueueHolds(wq: seq<Item>, at: map<Request, Place>) {
    Once(wq) && forall w :: Work(w) in wq <==> w in at && at[w] == InQueue
  }

  ghost predicate WorkersHold(workers: seq<Worker>, at: map<Request, Place>) {
    && (forall w :: w in at && at[w].AtWorker? ==>
       at[w].i < |workers| && workers[at[w].i].Running? && workers[at[w].i].w == w)
    && (forall i :: 0 <= i < |workers| && workers[i].Running? ==> workers[i].w in at && at[workers[i].w] == AtWorker(i))
  }

  ghost predicate RemovedHolds(removed: Option<Request>, at: map<Request, Place>) {
    forall w :: removed == Some(w) <==> w in at && at[w] == BeingCancelled
  }

  // Every request is where at says, once, and nowhere else.
  ghost predicate InPlace(s: State) {
    && QueueHolds(s.wq, s.at) && Holds(s.slow, s.at, InSlowQueue) && WorkersHold(s.workers, s.at)
    && Holds(s.loopQueue, s.at, InLoopQueue) && Holds(s.moved, s.at, InMovedQueue) && RemovedHolds(s.removed, s.at)
  }

  // What the place of a request says about its function, its start and its cancels.
  ghost predicate Tracked(p: Place, fn: Fn, started: bool, cancelled: bool) {
    match p
    case InQueue => fn == Given && !started && !cancelled
    case InSlowQueue => fn == Given && !started && !cancelled
    case AtWorker(_) => fn == Given && started && !cancelled
    case BeingCancelled => !started && cancelled
    case _ => if cancelled then fn == Cancelled && !started else fn == Null && started
  }

  ghost predicate AllTracked(at: map<Request, Place>, work: map<Request, Fn>, started: seq<Request>,
    cancels: set<Request>) {
    && Once(started)
    && (forall w :: w in at ==> w in work && Tracked(at[w], work[w], w in started, w in cancels))
    && (forall w :: w in started || w in cancels ==> w in at)
  }

  // The done callbacks run once per delivered request and tell whether it was cancelled.
  ghost predicate Reported(done: seq<Report>, at: map<Request, Place>, cancels: set<Request>) {
    && (forall j, k :: 0 <= j < k < |done| ==> done[j].w != done[k].w)
    && (forall k :: 0 <= k < |done| ==>
       done[k].w in at && at[done[k].w] == Delivered && (done[k].cancelled <==> done[k].w in cancels))
    && (forall w :: w in at && at[w] == Delivered ==> Report(w, w in cancels) in done)
  }

  ghost predicate History(s: State) {
    AllTracked(s.at, s.work, s.started, s.cancels) && Reported(s.done, s.at, s.cancels)
  }

  datatype Kind = BusySlow | Waiting | Woken

  predicate Is(k: Worker, kind: Kind) {
    match kind
    case BusySlow => (k.Running? && k.slow) || k == Ready(true)
    case Waiting => k.Parked?
    case Woken => k == Parked(true)
  }

  function Count(workers: seq<Worker>, kind: Kind): nat {
    if workers == [] then 0 else (if Is(workers[0], kind) then 1 else 0) + Count(workers[1..], kind)
  }

  // The counters count, the throttle holds, and the slow message stands for the slow queue.
  ghost predicate Throttled(s: State) {
    && |s.workers| >= 1
    && s.running == Count(s.workers, BusySlow) && s.running <= Threshold(|s.workers|)
    && s.idle == Count(s.workers, Waiting)
    && (s.slow != [] ==> SlowMessage in s.wq)
  }

  // The entries of wq that a worker would take now.
  function Runnable(wq: seq<Item>, full: bool): int { |wq| - (if full && SlowMessage in wq then 1 else 0) }

  // While any worker sleeps without a signal, a signal is under way for every runnable entry.
  ghost predicate NoneStranded(s: State) {
    (exists k :: 0 <= k < |s.workers| && s.workers[k] == Parked(false)) ==>
      Runnable(s.wq, Full(s)) <= Count(s.workers, Woken)
  }

  ghost predicate Inv(s: State) { InPlace(s) && History(s) && Throttled(s) && NoneStranded(s) }

  // ---------- Queues and counts ----------

  lemma OnceTail<T>(q: seq<T>)
    requires Once(q) && q != []
    ensures Once(q[1..]) && q[0] !in q[1..] && forall x :: x in q <==> x == q[0] || x in q[1..]
  {
    assert q == [q[0]] + q[1..];
  }

  lemma OnceEnd<T>(q: seq<T>, x: T)
    requires Once(q) && x !in q
    ensures Once(q + [x])
  {
  }

  lemma {:induction false} CountUpdate(workers: seq<Worker>, i: nat, k: Worker, kind: Kind)
    requires i < |workers|
    ensures Count(workers[i := k], kind)
      == Count(workers, kind) - (if Is(workers[i], kind) then 1 else 0) + (if Is(k, kind) then 1 else 0)
  {
    if i == 0 {
      assert workers[i := k][1..] == workers[1..];
    } else {
      assert workers[i := k][1..] == workers[1..][i - 1 := k];
      CountUpdate(workers[1..], i - 1, k, kind);
    }
  }

  lemma {:induction false} CountSome(workers: seq<Worker>, i: nat, kind: Kind)
    requires i < |workers| && Is(workers[i], kind)
    ensures Count(workers, kind) >= 1
  {
    if i > 0 { CountSome(workers[1..], i - 1, kind); }
  }

  lemma {:induction false} CountNone(workers: seq<Worker>, kind: Kind)
    requires forall i :: 0 <= i < |workers| ==> !Is(workers[i], kind)
    ensures Count(workers, kind) == 0
  {
    if workers != [] { CountNone(workers[1..], kind); }
  }

  // ---------- What a worker chooses ----------

  lemma Chosen(wq: seq<Item>, slow: seq<Request>, full: bool)
    requires Once(wq) && (slow != [] ==> SlowMessage in wq)
    ensures var c := Choose(wq, slow, full);
            && Once(c.wq)
            && (c.Sleep? ==> Runnable(c.wq, full) == 0 && (slow != [] ==> SlowMessage in c.wq))
            && (c.Sleep? ==> forall x :: Work(x) !in wq && Work(x) !in c.wq)
            && (c.Take? ==> (c.slow != [] ==> SlowMessage in c.wq))
            && (c.Take? && c.isSlow ==> !full && slow != [] && c.w == slow[0] && c.slow == slow[1..])
            && (c.Take? && !c.isSlow ==> Work(c.w) in wq && c.slow == slow && !c.posted)
            && (c.Take? ==> forall x :: Work(x) in c.wq <==> Work(x) in wq && (c.isSlow || x != c.w))
            && (c.Take? ==> Runnable(c.wq, full) <= Runnable(wq, full) - (if c.posted then 0 else 1))
  {
    if wq != [] {
      OnceTail(wq);
      if |wq| > 1 { OnceTail(wq[1..]); assert wq[1..][1..] == wq[2..]; }
      assert wq[0] == SlowMessage && |wq| == 1 ==> wq == [SlowMessage];
    }
  }

  // ---------- Signals ----------

  lemma Signaled(workers: seq<Worker>, wake: nat)
    ensures var t := Signal(workers, wake);
            && |t| == |workers| && Count(t, BusySlow) == Count(workers, BusySlow)
               && Count(t, Waiting) == Count(workers, Waiting)
            && (forall k :: 0 <= k < |t| ==>
               t[k] == workers[k] || (t[k] == Parked(true) && workers[k] == Parked(false)))
            && Count(t, Woken) >= Count(workers, Woken)
            && (CanPick(workers, wake) && (exists k :: 0 <= k < |t| && t[k] == Parked(false)) ==>
               Count(t, Woken) == Count(workers, Woken) + 1)
  {
    if wake < |workers| {
      CountUpdate(workers, wake, Parked(true), BusySlow);
      CountUpdate(workers, wake, Parked(true), Waiting);
      CountUpdate(workers, wake, Parked(true), Woken);
    }
  }

  // ---------- Every step keeps the places ----------

  lemma PlaceKept(q: seq<Request>, at: map<Request, Place>, p: Place, w: Request, p': Place)
    requires Holds(q, at, p) && p != p' && !(w in at && at[w] == p)
    ensures Holds(q, at[w := p'], p)
  {
  }

  lemma PlaceEntered(q: seq<Request>, at: map<Request, Place>, p: Place, w: Request)
    requires Holds(q, at, p) && !(w in at && at[w] == p)
    ensures Holds(q + [w], at[w := p], p)
  {
    OnceEnd(q, w);
  }

  lemma PlaceLeft(q: seq<Request>, at: map<Request, Place>, p: Place, p': Place)
    requires Holds(q, at, p) && p != p' && q != []
    ensures Holds(q[1..], at[q[0] := p'], p)
  {
    OnceTail(q);
  }

  lemma PlaceWithout(q: seq<Request>, at: map<Request, Place>, p: Place, w: Request, p': Place)
    requires Holds(q, at, p) && p != p'
    ensures Holds(Without(q, w), at[w := p'], p)
  {
    WithoutMembers(q, w);
  }

  lemma QueueWithout(wq: seq<Item>, at: map<Request, Place>, w: Request, p': Place)
    requires QueueHolds(wq, at) && p' != InQueue
    ensures QueueHolds(Without(wq, Work(w)), at[w := p'])
  {
    WithoutMembers(wq, Work(w));
  }

  lemma WorkersKept(workers: seq<Worker>, at: map<Request, Place>, w: Request, p: Place)
    requires WorkersHold(workers, at) && !p.AtWorker? && !(w in at && at[w].AtWorker?)
    ensures WorkersHold(workers, at[w := p])
  {
  }

  // Workers that run nothing may sleep, wake up or be signaled.
  lemma WorkersSame(workers: seq<Worker>, others: seq<Worker>, at: map<Request, Place>)
    requires WorkersHold(workers, at) && |others| == |workers|
    requires forall k :: 0 <= k < |workers| ==> others[k] == workers[k] || (!workers[k].Running? && !others[k].Running?)
    ensures WorkersHold(others, at)
  {
  }

  lemma WorkerTakes(workers: seq<Worker>, at: map<Request, Place>, i: nat, w: Request, isSlow: bool)
    requires WorkersHold(workers, at) && i < |workers| && !workers[i].Running? && !(w in at && at[w].AtWorker?)
    ensures WorkersHold(workers[i := Running(w, isSlow)], at[w := AtWorker(i)])
  {
  }

  // The queues when a worker i takes the request of its choice.
  lemma TakeKeepsPlaces(s: State, i: nat, c: Choice)
    requires InPlace(s) && c.Take? && Once(c.wq)
    requires if c.isSlow then s.slow != [] && c.w == s.slow[0] && c.slow == s.slow[1..]
      else Work(c.w) in s.wq && c.slow == s.slow
    requires forall x :: Work(x) in c.wq <==> Work(x) in s.wq && (c.isSlow || x != c.w)
    ensures var at := s.at[c.w := AtWorker(i)];
            && QueueHolds(c.wq, at) && Holds(c.slow, at, InSlowQueue) && RemovedHolds(s.removed, at)
            && Holds(s.loopQueue, at, InLoopQueue) && Holds(s.moved, at, InMovedQueue)
            && c.w in s.at && !s.at[c.w].AtWorker?
  {
    if c.isSlow {
      assert c.w in s.slow;
      PlaceLeft(s.slow, s.at, InSlowQueue, AtWorker(i));
    } else {
      PlaceKept(s.slow, s.at, InSlowQueue, c.w, AtWorker(i));
    }
    PlaceKept(s.loopQueue, s.at, InLoopQueue, c.w, AtWorker(i));
    PlaceKept(s.moved, s.at, InMovedQueue, c.w, AtWorker(i));
  }

  lemma SectionKeepsPlaces(s: State, i: nat, wake: nat)
    requires InPlace(s) && Throttled(s) && i < |s.workers| && !s.workers[i].Running?
    ensures InPlace(SectionStep(s, i, wake))
  {
    var running := if s.workers[i] == Ready(true) then s.running - 1 else s.running;
    var full := running >= Threshold(|s.workers|);
    var c := Choose(s.wq, s.slow, full);
    Chosen(s.wq, s.slow, full);
    if c.Take? {
      TakeKeepsPlaces(s, i, c);
      TakeKeepsWorkers(s.workers, s.at, i, c.w, c.isSlow, wake);
    } else {
      WorkersSame(s.workers, s.workers[i := Parked(false)], s.at);
    }
  }

  lemma TakeKeepsWorkers(workers: seq<Worker>, at: map<Request, Place>, i: nat, w: Request, isSlow: bool, wake: nat)
    requires WorkersHold(workers, at) && i < |workers| && !workers[i].Running? && !(w in at && at[w].AtWorker?)
    ensures var t := workers[i := Running(w, isSlow)];
            WorkersHold(t, at[w := AtWorker(i)]) && WorkersHold(Signal(t, wake), at[w := AtWorker(i)])
  {
    var t := workers[i := Running(w, isSlow)];
    WorkerTakes(workers, at, i, w, isSlow);
    WorkersSame(t, Signal(t, wake), at[w := AtWorker(i)]);
  }

  lemma SubmitKeepsPlaces(s: State, w: Request, isSlow: bool, wake: nat)
    requires InPlace(s) && Enabled(s, Submit(w, isSlow, wake))
    ensures InPlace(SubmitStep(s, w, isSlow, wake))
  {
    var s' := SubmitStep(s, w, isSlow, wake);
    var p := if isSlow then InSlowQueue else InQueue;
    if isSlow { PlaceEntered(s.slow, s.at, p, w); } else { PlaceKept(s.slow, s.at, InSlowQueue, w, p); }
    PlaceKept(s.loopQueue, s.at, InLoopQueue, w, p);
    PlaceKept(s.moved, s.at, InMovedQueue, w, p);
    WorkersKept(s.workers, s.at, w, p);
    Signaled(s.workers, wake);
    WorkersSame(s.workers, s'.workers, s'.at);
    QueueEntered(s.wq, s.at, w, isSlow);
  }

  lemma QueueEntered(wq: seq<Item>, at: map<Request, Place>, w: Request, isSlow: bool)
    requires QueueHolds(wq, at) && w !in at
    ensures !isSlow ==> QueueHolds(wq + [Work(w)], at[w := InQueue])
    ensures isSlow ==>
      QueueHolds(wq, at[w := InSlowQueue])
      && (SlowMessage !in wq ==> QueueHolds(wq + [SlowMessage], at[w := InSlowQueue]))
  {
  }

  lemma CancelKeepsPlaces(s: State, w: Request)
    requires InPlace(s) && Enabled(s, Cancel(w))
    ensures InPlace(CancelStep(s, w))
  {
    QueueWithout(s.wq, s.at, w, BeingCancelled);
    PlaceWithout(s.slow, s.at, InSlowQueue, w, BeingCancelled);
    PlaceWithout(s.loopQueue, s.at, InLoopQueue, w, BeingCancelled);
    PlaceWithout(s.moved, s.at, InMovedQueue, w, BeingCancelled);
    if Linked(s, w) { WorkersKept(s.workers, s.at, w, BeingCancelled); }
  }

  lemma FinishKeepsPlaces(s: State, i: nat)
    requires InPlace(s) && Enabled(s, Finish(i))
    ensures InPlace(Next(s, Finish(i)))
  {
    var w := s.workers[i].w;
    PlaceKept(s.slow, s.at, InSlowQueue, w, InLoopQueue);
    PlaceEntered(s.loopQueue, s.at, InLoopQueue, w);
    PlaceKept(s.moved, s.at, InMovedQueue, w, InLoopQueue);
  }

  lemma CancelEndKeepsPlaces(s: State)
    requires InPlace(s) && Enabled(s, CancelEnd)
    ensures InPlace(Next(s, CancelEnd))
  {
    var w := s.removed.value;
    PlaceKept(s.slow, s.at, InSlowQueue, w, InLoopQueue);
    PlaceEntered(s.loopQueue, s.at, InLoopQueue, w);
    PlaceKept(s.moved, s.at, InMovedQueue, w, InLoopQueue);
    WorkersKept(s.workers, s.at, w, InLoopQueue);
  }

  lemma DeliverKeepsPlaces(s: State)
    requires InPlace(s) && Enabled(s, Deliver)
    ensures InPlace(Next(s, Deliver))
  {
    var w := s.moved[0];
    assert w in s.moved;
    PlaceKept(s.slow, s.at, InSlowQueue, w, Delivered);
    PlaceKept(s.loopQueue, s.at, InLoopQueue, w, Delivered);
    PlaceLeft(s.moved, s.at, InMovedQueue, Delivered);
    WorkersKept(s.workers, s.at, w, Delivered);
  }

  lemma MoveKeepsPlaces(s: State)
    requires InPlace(s) && Enabled(s, Move)
    ensures InPlace(Next(s, Move))
  {
  }

  // ---------- Every step keeps the history ----------

  lemma SectionKeepsHistory(s: State, i: nat, wake: nat)
    requires InPlace(s) && History(s) && Throttled(s) && Enabled(s, Section(i, wake))
    ensures History(SectionStep(s, i, wake))
  {
    var running := if s.workers[i] == Ready(true) then s.running - 1 else s.running;
    var full := running >= Threshold(|s.workers|);
    var c := Choose(s.wq, s.slow, full);
    Chosen(s.wq, s.slow, full);
    if c.Take? {
      assert c.isSlow ==> c.w in s.slow;
      assert c.w in s.at && (s.at[c.w] == InQueue || s.at[c.w] == InSlowQueue);
      Starts(s.at, s.work, s.started, s.cancels, c.w, i);
      ReportsKept(s.done, s.at, s.cancels, c.w, AtWorker(i));
    }
  }

  lemma Starts(at: map<Request, Place>, work: map<Request, Fn>, started: seq<Request>, cancels: set<Request>,
    w: Request, i: nat)
    requires AllTracked(at, work, started, cancels) && w in at && (at[w] == InQueue || at[w] == InSlowQueue)
    ensures AllTracked(at[w := AtWorker(i)], work, started + [w], cancels)
  {
    OnceEnd(started, w);
    assert forall v :: v in started + [w] <==> v in started || v == w;
  }

  lemma ReportsKept(done: seq<Report>, at: map<Request, Place>, cancels: set<Request>, w: Request, p: Place)
    requires Reported(done, at, cancels) && p != Delivered && !(w in at && at[w] == Delivered)
    ensures Reported(done, at[w := p], cancels) && Reported(done, at[w := p], cancels + {w})
  {
    forall v | v in at[w := p] && at[w := p][v] == Delivered
      ensures Report(v, v in cancels) in done && Report(v, v in cancels + {w}) in done
    {
      assert v != w;
    }
  }

  lemma DeliverKeepsHistory(s: State)
    requires InPlace(s) && History(s) && Enabled(s, Deliver)
    ensures History(Next(s, Deliver))
  {
    var w := s.moved[0];
    var s' := Next(s, Deliver);
    assert w in s.moved && s.at[w] == InMovedQueue;
    forall v | v in s'.at && s'.at[v] == Delivered ensures Report(v, v in s'.cancels) in s'.done {
      if v == w { assert s'.done[|s.done|] == Report(v, v in s'.cancels); }
    }
  }

  lemma MoveKeepsHistory(s: State)
    requires History(s) && Enabled(s, Move)
    requires Once(s.wq)
    ensures History(Next(s, Move))
  {
  }

  lemma OthersKeepHistory(s: State, a: Label)
    requires InPlace(s) && History(s) && Enabled(s, a) && (a.Finish? || a.Submit? || a.Cancel? || a.CancelEnd?)
    ensures History(Next(s, a))
  {
    match a
    case Finish(i) => ReportsKept(s.done, s.at, s.cancels, s.workers[i].w, InLoopQueue);
    case Submit(w, isSlow, _) => ReportsKept(s.done, s.at, s.cancels, w, if isSlow then InSlowQueue else InQueue);
    case Cancel(w) => ReportsKept(s.done, s.at, s.cancels, w, BeingCancelled);
    case CancelEnd => ReportsKept(s.done, s.at, s.cancels, s.removed.value, InLoopQueue);
  }

  // ---------- Every step keeps the counters, the throttle and the signals ----------

  lemma SectionKeepsThrottle(s: State, i: nat, wake: nat)
    requires Once(s.wq) && Throttled(s) && Enabled(s, Section(i, wake))
    ensures Throttled(SectionStep(s, i, wake))
  {
    var k := s.workers[i];
    var running := if k == Ready(true) then s.running - 1 else s.running;
    var full := running >= Threshold(|s.workers|);
    var c := Choose(s.wq, s.slow, full);
    Chosen(s.wq, s.slow, full);
    var k' := if c.Take? then Running(c.w, c.isSlow) else Parked(false);
    CountUpdate(s.workers, i, k', BusySlow);
    CountUpdate(s.workers, i, k', Waiting);
    Signaled(s.workers[i := k'], wake);
  }

  // A worker that puts the slow message back passes its own wakeup on.
  lemma TakerSignals(workers: seq<Worker>, i: nat, k': Worker, wake: nat, j: nat)
    requires i < |workers| && k'.Running? && CanPick(workers[i := Ready(false)], wake)
    requires var t := Signal(workers[i := k'], wake); j < |t| && t[j] == Parked(false)
    ensures workers[j] == Parked(false) && j != i && Count(workers[i := k'], Waiting) >= 1
    ensures Count(Signal(workers[i := k'], wake), Woken)
      == Count(workers, Woken) + (if workers[i] == Parked(true) then 0 else 1)
  {
    var u := workers[i := k'];
    CountUpdate(workers, i, k', Woken);
    Signaled(u, wake);
    assert u[j] == Parked(false);
    assert workers[i := Ready(false)][j] == Parked(false);
    assert wake < |u| && u[wake] == Parked(false);
    CountSome(u, j, Waiting);
  }

  // When worker i leaves with a request, it uses up its own wakeup, and replaces it if it
  // has put the slow message back.
  lemma TakeSignals(workers: seq<Worker>, i: nat, k': Worker, posted: bool, wake: nat, j: nat)
    requires i < |workers| && k'.Running? && CanPick(workers[i := Ready(false)], wake)
    requires var t := TakeWorkers(workers, i, k', posted, wake); j < |t| && t[j] == Parked(false)
    ensures j < |workers| && workers[j] == Parked(false)
    ensures Count(TakeWorkers(workers, i, k', posted, wake), Woken)
            >= Count(workers, Woken) - (if workers[i] == Parked(true) then 1 else 0) + (if posted then 1 else 0)
  {
    CountUpdate(workers, i, k', Woken);
    Signaled(workers[i := k'], wake);
    assert workers[j] == Parked(false);
    if posted {
      CountSome(workers[i := k'], j, Waiting);
      TakerSignals(workers, i, k', wake, j);
    }
  }

  function TakeWorkers(workers: seq<Worker>, i: nat, k': Worker, posted: bool, wake: nat): seq<Worker>
    requires i < |workers|
  {
    var u := workers[i := k'];
    if posted && Count(u, Waiting) > 0 then Signal(u, wake) else u
  }

  lemma SectionSignalsEnough(s: State, i: nat, wake: nat, j: nat)
    requires Once(s.wq) && Throttled(s) && NoneStranded(s) && Enabled(s, Section(i, wake))
    requires var s' := SectionStep(s, i, wake); j < |s'.workers| && s'.workers[j] == Parked(false)
    ensures var s' := SectionStep(s, i, wake); Runnable(s'.wq, Full(s')) <= Count(s'.workers, Woken)
  {
    hide Choose;
    hide Count;
    hide Signal;
    hide CanPick;
    var running := if s.workers[i] == Ready(true) then s.running - 1 else s.running;
    var full := running >= Threshold(|s.workers|);
    var c := Choose(s.wq, s.slow, full);
    Chosen(s.wq, s.slow, full);
    if c.Take? {
      var k' := Running(c.w, c.isSlow);
      CountUpdate(s.workers, i, k', Waiting);
      assert SectionStep(s, i, wake).workers == TakeWorkers(s.workers, i, k', c.posted, wake);
      TakeSignals(s.workers, i, k', c.posted, wake, j);
    }
  }

  lemma SectionKeepsSignals(s: State, i: nat, wake: nat)
    requires Once(s.wq) && Throttled(s) && NoneStranded(s) && Enabled(s, Section(i, wake))
    ensures NoneStranded(SectionStep(s, i, wake))
  {
    var s' := SectionStep(s, i, wake);
    if exists j :: 0 <= j < |s'.workers| && s'.workers[j] == Parked(false) {
      var j :| 0 <= j < |s'.workers| && s'.workers[j] == Parked(false);
      SectionSignalsEnough(s, i, wake, j);
    }
  }

  lemma SubmitKeepsCounts(s: State, w: Request, isSlow: bool, wake: nat)
    requires Once(s.wq) && Throttled(s) && NoneStranded(s) && Enabled(s, Submit(w, isSlow, wake))
    ensures Throttled(SubmitStep(s, w, isSlow, wake)) && NoneStranded(SubmitStep(s, w, isSlow, wake))
  {
    var s' := SubmitStep(s, w, isSlow, wake);
    Signaled(s.workers, wake);
    if exists j :: 0 <= j < |s'.workers| && s'.workers[j] == Parked(false) {
      var j :| 0 <= j < |s'.workers| && s'.workers[j] == Parked(false);
      assert s.workers[j] == Parked(false);
      CountSome(s.workers, j, Waiting);
    }
  }

  lemma FinishKeepsCounts(s: State, i: nat)
    requires Once(s.wq) && Throttled(s) && NoneStranded(s) && Enabled(s, Finish(i))
    ensures Throttled(Next(s, Finish(i))) && NoneStranded(Next(s, Finish(i)))
  {
    var k' := Ready(s.workers[i].slow);
    CountUpdate(s.workers, i, k', BusySlow);
    CountUpdate(s.workers, i, k', Waiting);
    CountUpdate(s.workers, i, k', Woken);
    var t := s.workers[i := k'];
    assert forall j :: 0 <= j < |t| && t[j] == Parked(false) ==> s.workers[j] == Parked(false);
  }

  lemma CancelKeepsCounts(s: State, w: Request)
    requires InPlace(s) && Throttled(s) && NoneStranded(s) && Enabled(s, Cancel(w))
    ensures Throttled(CancelStep(s, w)) && NoneStranded(CancelStep(s, w))
  {
    WithoutMembers(s.wq, Work(w));
    WithoutMembers(s.slow, w);
  }

  // Every step of every thread keeps the invariant.
  lemma StepKeeps(s: State, a: Label)
    requires Inv(s) && Enabled(s, a)
    ensures Inv(Next(s, a))
  {
    match a
    case Section(i, wake) =>
      SectionKeepsPlaces(s, i, wake);
      SectionKeepsHistory(s, i, wake);
      SectionKeepsThrottle(s, i, wake);
      SectionKeepsSignals(s, i, wake);
    case Submit(w, isSlow, wake) =>
      SubmitKeepsPlaces(s, w, isSlow, wake);
      OthersKeepHistory(s, a);
      SubmitKeepsCounts(s, w, isSlow, wake);
    case Finish(i) =>
      FinishKeepsPlaces(s, i);
      OthersKeepHistory(s, a);
      FinishKeepsCounts(s, i);
    case Cancel(w) =>
      CancelKeepsPlaces(s, w);
      OthersKeepHistory(s, a);
      CancelKeepsCounts(s, w);
    case CancelEnd =>
      CancelEndKeepsPlaces(s);
      OthersKeepHistory(s, a);
    case Move =>
      MoveKeepsPlaces(s);
      MoveKeepsHistory(s);
    case Deliver =>
      DeliverKeepsPlaces(s);
      DeliverKeepsHistory(s);
  }

  // ---------- Whole runs ----------

  function Start(n: nat): State {
    State([], [], 0, 0, seq(n, _ => Ready(false)), [], [], None, map[], map[], [], [], {})
  }

  // n threads; the states that a sequence of labels leads through, one more than labels.
  ghost predicate IsRun(n: nat, labels: seq<Label>, states: seq<State>) {
    && |states| == |labels| + 1 && states[0] == Start(n)
    && (forall i :: 0 <= i < |labels| ==>
       Once(states[i].wq) && Enabled(states[i], labels[i]) && states[i + 1] == Next(states[i], labels[i]))
  }

  lemma StartIsFine(n: nat)
    requires n >= 1
    ensures Inv(Start(n))
  {
    CountNone(Start(n).workers, BusySlow);
    CountNone(Start(n).workers, Waiting);
  }

  lemma WorkersStay(s: State, a: Label)
    requires Once(s.wq) && Enabled(s, a)
    ensures |Next(s, a).workers| == |s.workers|
  {
  }

  lemma {:induction false} RunKeeps(n: nat, labels: seq<Label>, states: seq<State>, i: nat)
    requires n >= 1 && IsRun(n, labels, states) && i <= |labels|
    ensures Inv(states[i]) && |states[i].workers| == n
  {
    if i == 0 {
      StartIsFine(n);
    } else {
      RunKeeps(n, labels, states, i - 1);
      WorkersStay(states[i - 1], labels[i - 1]);
      StepKeeps(states[i - 1], labels[i - 1]);
      assert states[i - 1 + 1] == states[i];
    }
  }

  function One(b: bool): nat { if b then 1 else 0 }

  // In every run, a submitted request is in exactly one place, and in it once.
  lemma ExactlyOnePlace(n: nat, labels: seq<Label>, states: seq<State>, i: nat, w: Request)
    requires n >= 1 && IsRun(n, labels, states) && i <= |labels| && w in states[i].at
    ensures var s := states[i];
            && One(Work(w) in s.wq) + One(w in s.slow)
               + One(exists k :: 0 <= k < |s.workers| && s.workers[k].Running? && s.workers[k].w == w)
               + One(s.removed == Some(w)) + One(w in s.loopQueue) + One(w in s.moved)
               + One(exists k :: 0 <= k < |s.done| && s.done[k].w == w) == 1
            && Once(s.wq) && Once(s.slow) && Once(s.loopQueue) && Once(s.moved)
            && (forall j, k :: 0 <= j < k < |s.workers| && s.workers[j].Running? && s.workers[k].Running? ==>
               s.workers[j].w != s.workers[k].w)
  {
    RunKeeps(n, labels, states, i);
    var s := states[i];
    if s.at[w] == Delivered {
      var r := Report(w, w in s.cancels);
      assert r in s.done;
      var k :| 0 <= k < |s.done| && s.done[k] == r;
    }
  }

  // What uv__work_cancel returns: true for 0, false for UV_EBUSY.
  predicate CancelWorks(s: State, w: Request) { Linked(s, w) && w in s.work && s.work[w] != Null }

  lemma CancelRecorded(s: State, a: Label, w: Request)
    requires Once(s.wq) && Enabled(s, a)
    ensures w in Next(s, a).cancels <==> w in s.cancels || (a == Cancel(w) && CancelWorks(s, w))
  {
  }

  lemma {:induction false} CancelsOfRun(n: nat, labels: seq<Label>, states: seq<State>, j: nat, w: Request)
    requires IsRun(n, labels, states) && j <= |labels|
    ensures w in states[j].cancels <==> exists i :: 0 <= i < j && labels[i] == Cancel(w) && CancelWorks(states[i], w)
  {
    if j > 0 {
      CancelsOfRun(n, labels, states, j - 1, w);
      CancelRecorded(states[j - 1], labels[j - 1], w);
      assert states[j - 1 + 1] == states[j];
    }
  }

  // In every run, a cancel succeeds exactly if no worker has started the request, and then it
  // is recorded and taken out of its queue; otherwise nothing changes.
  lemma CancelIffUnstarted(n: nat, labels: seq<Label>, states: seq<State>, i: nat)
    requires n >= 1 && IsRun(n, labels, states) && i < |labels| && labels[i].Cancel?
    ensures var w, s, s' := labels[i].w, states[i], states[i + 1];
            && (CancelWorks(s, w) <==> w !in s.started)
            && if w in s.started then s' == s else s'.removed == Some(w) && w in s'.cancels && !Linked(s', w)
  {
    var w, s := labels[i].w, states[i];
    RunKeeps(n, labels, states, i);
    assert w in s.at && w in s.work && Tracked(s.at[w], s.work[w], w in s.started, w in s.cancels);
    CancelPlace(s, w);
    assert Enabled(s, Cancel(w)) && states[i + 1] == Next(s, Cancel(w));
    WorkWithout(s.wq, w);
    WithoutMembers(s.slow, w);
    WithoutMembers(s.loopQueue, w);
    WithoutMembers(s.moved, w);
  }

  lemma WorkWithout(wq: seq<Item>, w: Request)
    ensures Work(w) !in Without(wq, Work(w))
  {
    WithoutMembers(wq, Work(w));
  }

  lemma CancelPlace(s: State, w: Request)
    requires InPlace(s) && Enabled(s, Cancel(w))
    ensures Linked(s, w) <==> !s.at[w].AtWorker?
  {
  }

  // In every run, done runs at most once for a request, with UV_ECANCELED exactly if a
  // cancel of it has returned 0; a cancelled work function is never called, any other one
  // that is reported was called exactly once.
  lemma DoneAtMostOnce(n: nat, labels: seq<Label>, states: seq<State>, i: nat, k: nat)
    requires n >= 1 && IsRun(n, labels, states) && i <= |labels| && k < |states[i].done|
    ensures var s := states[i]; var r := s.done[k];
            && (forall j :: 0 <= j < |s.done| && j != k ==> s.done[j].w != r.w)
            && (r.cancelled <==> exists j :: 0 <= j < i && labels[j] == Cancel(r.w) && CancelWorks(states[j], r.w))
            && (r.cancelled <==> r.w !in s.started) && Once(s.started)
  {
    RunKeeps(n, labels, states, i);
    CancelsOfRun(n, labels, states, i, states[i].done[k].w);
  }

  // In every run, at most (nthreads + 1) / 2 workers execute slow work, slow_io_work_running
  // counts them until they come back, and waiting slow work is announced in wq.
  lemma Throttle(n: nat, labels: seq<Label>, states: seq<State>, i: nat)
    requires n >= 1 && IsRun(n, labels, states) && i <= |labels|
    ensures var s := states[i];
            && s.running == Count(s.workers, BusySlow) && 0 <= s.running <= (n + 1) / 2
            && |set k | 0 <= k < |s.workers| && s.workers[k].Running? && s.workers[k].slow| <= (n + 1) / 2
            && (s.slow != [] ==> SlowMessage in s.wq)
  {
    RunKeeps(n, labels, states, i);
    CountSlow(states[i].workers);
  }

  lemma {:induction false} CountSlow(workers: seq<Worker>)
    ensures |set k | 0 <= k < |workers| && workers[k].Running? && workers[k].slow| <= Count(workers, BusySlow)
  {
    if workers != [] {
      var rest := workers[..|workers| - 1];
      var last := |workers| - 1;
      CountSlow(rest);
      assert workers == rest + [workers[last]];
      CountEnd(rest, workers[last], BusySlow);
      var all := set k | 0 <= k < |workers| && workers[k].Running? && workers[k].slow;
      var few := set k | 0 <= k < |rest| && rest[k].Running? && rest[k].slow;
      assert all == if workers[last].Running? && workers[last].slow then few + {last} else few;
    }
  }

  lemma {:induction false} CountEnd(workers: seq<Worker>, k: Worker, kind: Kind)
    ensures Count(workers + [k], kind) == Count(workers, kind) + (if Is(k, kind) then 1 else 0)
  {
    if workers != [] {
      assert (workers + [k])[1..] == workers[1..] + [k];
      CountEnd(workers[1..], k, kind);
    }
  }

  // In every run, when all workers sleep and no signal is outstanding, nothing waits for a
  // worker; and if the loop has collected everything, each submitted request was reported.
  lemma NothingForgotten(n: nat, labels: seq<Label>, states: seq<State>, i: nat)
    requires n >= 1 && IsRun(n, labels, states) && i <= |labels|
    requires forall k :: 0 <= k < |states[i].workers| ==> states[i].workers[k] == Parked(false)
    ensures var s := states[i];
            && s.wq == [] && s.slow == []
            && (s.removed.None? && s.loopQueue == [] && s.moved == [] ==>
                  forall w :: w in s.at ==> exists r :: r in s.done && r.w == w)
  {
    RunKeeps(n, labels, states, i);
    var s := states[i];
    CountNone(s.workers, BusySlow);
    CountNone(s.workers, Woken);
    assert s.workers[0] == Parked(false);
    forall w | w in s.at && s.removed.None? && s.loopQueue == [] && s.moved == []
      ensures exists r :: r in s.done && r.w == w {
      assert s.at[w] == Delivered;
      assert Report(w, w in s.cancels) in s.done;
    }
  }

  // ---------- The program ----------

  // The shared variables of threadpool.c and of the loop. A method is one section under a
  // mutex, or what a thread does with its own data between two sections.
  class Pool {
    var wq: seq<Item>
    var slowPending: seq<Request>
    var slowRunning: int
    var idleThreads: int
    const nthreads: nat
    var loopQueue: seq<Request>
    var moved: seq<Request>
    var removed: Option<Request>
    var work: map<Request, Fn>
    ghost var workers: seq<Worker>
    ghost var at: map<Request, Place>
    ghost var started: seq<Request>
    ghost var done: seq<Report>
    ghost var cancels: set<Request>

    ghost function View(): State
      reads this
    {
      State(wq, slowPending, slowRunning, idleThreads, workers, loopQueue, moved, removed, work, at, started, done,
        cancels)
    }

    constructor (n: nat)
      requires n >= 1
      ensures View() == Start(n) && Inv(View()) && |workers| == nthreads == n
    {
      wq, slowPending, slowRunning, idleThreads, nthreads := [], [], 0, 0, n;
      loopQueue, moved, removed, work := [], [], None, map[];
      workers, at, started, done, cancels := seq(n, _ => Ready(false)), map[], [], [], {};
      new;
      StartIsFine(n);
    }

    // The loop of worker() while it holds the mutex: up to the wait, or to the unlock with
    // a request in hand.
    method PickWork() returns (take: Option<Request>, isSlow: bool, posted: bool)
      requires Once(wq)
      modifies this`wq, this`slowPending, this`slowRunning
      ensures var c := Choose(old(wq), old(slowPending), old(slowRunning) >= Threshold(nthreads));
              && wq == c.wq
              && (c.Sleep? ==>
                 take.None? && !isSlow && !posted && slowPending == old(slowPending) && slowRunning == old(slowRunning))
              && (c.Take? ==> take == Some(c.w) && isSlow == c.isSlow && posted == c.posted && slowPending == c.slow
                              && slowRunning == old(slowRunning) + (if isSlow then 1 else 0))
    {
      isSlow, posted := false, false;
      var threshold := (nthreads + 1) / 2;
      ghost var choice := Choose(wq, slowPending, slowRunning >= threshold);
      while true
        invariant slowPending == old(slowPending) && slowRunning == old(slowRunning) && !isSlow && !posted
        invariant Once(wq) && Choose(wq, slowPending, slowRunning >= threshold) == choice
        decreases if wq != [] && wq[0].SlowMessage? then 1 else 0
      {
        if wq == [] || (wq[0].SlowMessage? && |wq| == 1 && slowRunning >= threshold) {
          return None, false, false;
        }
        var q, was := wq[0], wq;
        OnceTail(wq);
        wq := wq[1..];
        if q.Work? {
          return Some(q.w), false, false;
        }
        if slowRunning >= threshold {
          wq := wq + [SlowMessage];
          assert wq[0] == was[1] && wq[1..] == was[2..] + [SlowMessage];
          continue;
        }
        if slowPending == [] {
          assert wq != [] ==> wq[0] == was[1] && wq[1..] == was[2..];
          continue;
        }
        isSlow := true;
        slowRunning := slowRunning + 1;
        take := Some(slowPending[0]);
        slowPending := slowPending[1..];
        if slowPending != [] {
          wq := wq + [SlowMessage];
          posted := true;
        }
        return;
      }
    }

    // Back at the mutex: after work, or from the wait.
    method LeaveWait(wasSlow: bool, woken: bool)
      modifies this`slowRunning, this`idleThreads
      ensures slowRunning == if wasSlow then old(slowRunning) - 1 else old(slowRunning)
      ensures idleThreads == if woken then old(idleThreads) - 1 else old(idleThreads)
    {
      if wasSlow { slowRunning := slowRunning - 1; }
      if woken { idleThreads := idleThreads - 1; }
    }

    // The history of a worker that goes to sleep or leaves with a request.
    ghost method Record(i: nat, k: Worker, signals: bool, wake: nat)
      requires i < |workers| && (signals ==> k.Running?)
      modifies this`workers, this`at, this`started
      ensures |workers| == |old(workers)| && workers[i] == k
      ensures View() == old(View()).(
                workers := if signals then Signal(old(workers)[i := k], wake) else old(workers)[i := k],
                at := if k.Running? then old(at)[k.w := AtWorker(i)] else old(at),
                started := if k.Running? then old(started) + [k.w] else old(started))
    {
      workers := workers[i := k];
      if signals { workers := Signal(workers, wake); }
      if k.Running? {
        at := at[k.w := AtWorker(i)];
        started := started + [k.w];
      }
    }

    // A worker from taking the mutex to uv_cond_wait or to the call of w->work. wasSlow is
    // its is_slow_work, woken says that it comes from the wait, wake is the thread that a
    // signal would wake up.
    method Section(ghost i: nat, wasSlow: bool, woken: bool, ghost wake: nat)
      returns (take: Option<Request>, isSlow: bool)
      requires Once(wq) && |workers| == nthreads && i < nthreads && !workers[i].Running?
      requires (wasSlow <==> workers[i] == Ready(true)) && (woken <==> workers[i].Parked?)
      modifies this
      ensures View() == SectionStep(old(View()), i, wake) && |workers| == nthreads
      ensures workers[i] == (if take.Some? then Running(take.value, isSlow) else Parked(false))
    {
      LeaveWait(wasSlow, woken);
      var posted;
      take, isSlow, posted := PickWork();
      if take == None {
        idleThreads := idleThreads + 1;
        Record(i, Parked(false), false, wake);
      } else {
        Record(i, Running(take.value, isSlow), posted && idleThreads > 0, wake);
      }
    }

    // The end of an iteration of worker(), under the mutex of the loop.
    method FinishWork(ghost i: nat, w: Request)
      requires Once(wq) && Enabled(View(), Finish(i)) && workers[i].w == w
      modifies this
      ensures View() == Next(old(View()), Finish(i))
      ensures work == old(work)[w := Null] && loopQueue == old(loopQueue) + [w]
    {
      work := work[w := Null];
      loopQueue := loopQueue + [w];
      workers := workers[i := Ready(workers[i].slow)];
      at := at[w := InLoopQueue];
    }

    // uv__work_submit and post.
    method SubmitWork(w: Request, isSlow: bool, ghost wake: nat)
      requires Once(wq) && Enabled(View(), Submit(w, isSlow, wake))
      modifies this
      ensures View() == Next(old(View()), Submit(w, isSlow, wake))
      ensures if isSlow then slowPending == old(slowPending) + [w] else wq == old(wq) + [Work(w)]
      ensures isSlow ==> wq == if SlowMessage in old(wq) then old(wq) else old(wq) + [SlowMessage]
    {
      work := work[w := Given];
      at := at[w := if isSlow then InSlowQueue else InQueue];
      var q := Work(w);
      if isSlow {
        slowPending := slowPending + [w];
        if SlowMessage in wq {
          return;
        }
        q := SlowMessage;
      }
      wq := wq + [q];
      if idleThreads > 0 { workers := Signal(workers, wake); }
    }

    // QUEUE_REMOVE(&w->wq), which unlinks w from the one queue that it is in.
    method Unlink(w: Request)
      modifies this`wq, this`slowPending, this`loopQueue, this`moved
      ensures wq == Without(old(wq), Work(w)) && slowPending == Without(old(slowPending), w)
      ensures loopQueue == Without(old(loopQueue), w) && moved == Without(old(moved), w)
    {
      wq, slowPending := Without(wq, Work(w)), Without(slowPending, w);
      loopQueue, moved := Without(loopQueue, w), Without(moved, w);
    }

    // The section of uv__work_cancel with both mutexes.
    method CancelWork(w: Request) returns (cancelled: bool)
      requires w in work
      modifies this
      ensures View() == CancelStep(old(View()), w) && (cancelled <==> CancelWorks(old(View()), w))
      ensures cancelled <==> old((Work(w) in wq || w in slowPending || w in loopQueue || w in moved) && work[w] != Null)
      ensures work == old(work) && removed == (if cancelled then Some(w) else old(removed))
    {
      var linked := Work(w) in wq || w in slowPending || w in loopQueue || w in moved;
      cancelled := linked && work[w] != Null;
      if cancelled {
        Unlink(w);
        removed, at, cancels := Some(w), at[w := BeingCancelled], cancels + {w};
      }
    }

    // The rest of uv__work_cancel.
    method CancelWorkEnd(w: Request)
      requires Once(wq) && removed == Some(w)
      modifies this
      ensures View() == Next(old(View()), CancelEnd)
      ensures work == old(work)[w := Cancelled] && loopQueue == old(loopQueue) + [w] && removed == None
    {
      work := work[w := Cancelled];
      loopQueue := loopQueue + [w];
      removed := None;
      at := at[w := InLoopQueue];
    }

    // uv__work_done, under the mutex of the loop.
    method MoveQueue()
      requires Once(wq) && Enabled(View(), Move)
      modifies this
      ensures View() == Next(old(View()), Move)
      ensures moved == old(loopQueue) && loopQueue == []
    {
      moved, loopQueue := loopQueue, [];
      at := map w | w in at :: if at[w] == InLoopQueue then InMovedQueue else at[w];
    }

    // One iteration of the loop of uv__work_done; ecanceled is the status passed to done.
    method DeliverNext() returns (w: Request, ecanceled: bool)
      requires InPlace(View()) && History(View()) && Enabled(View(), Deliver)
      modifies this
      ensures View() == Next(old(View()), Deliver)
      ensures done == old(done) + [Report(w, ecanceled)] && (ecanceled <==> w in cancels)
      ensures old(moved) == [w] + moved && (ecanceled <==> old(work)[w] == Cancelled)
    {
      w := moved[0];
      assert w in moved && at[w] == InMovedQueue;
      moved := moved[1..];
      ecanceled := work[w] == Cancelled;
      at := at[w := Delivered];
      done := done + [Report(w, ecanceled)];
    }
  }
}
