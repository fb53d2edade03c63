// The wakeup protocol of libuv's unix/async.c: any number of threads call uv_async_send,
// one loop thread drains the wakeup descriptor, visits the handles and closes handles.
// Every atomic operation, system call and queue operation is one step, in any interleaving.

module Asyncs {

  import opened Queues

  type Tid = int
  type Handle = int

  // Where a sending thread is inside uv_async_send(h). began is the number of visits that
  // had run the callback of h when the call began, kept for the statements only.
  datatype Sender =
    | Away
    | Called(h: Handle, began: nat)    // before the cheap read of pending
    | Saw0(h: Handle, began: nat)      // it read 0
    | Busy(h: Handle, began: nat)      // busy was incremented
    | Won(h: Handle, began: nat)       // its exchange returned 0: it must write
    | Leaving(h: Handle, began: nat)   // before decrementing busy

  // Where the loop thread is: outside uv__async_io, between the drain and the end of the
  // queue it moved, or inside uv__async_close(h), which may interrupt either.
  datatype Loop = Idle | Visiting(todo: seq<Handle>) | Spinning(h: Handle, back: Loop)

  // pending and busy are the two words of uv_async_t; runs counts the visits that ran the
  // callback. open is loop->async_handles, without the part that the loop has moved away.
  datatype State = State(
    pending: map<Handle, bool>, busy: map<Handle, int>, runs: map<Handle, nat>,
    closed: set<Handle>, open: seq<Handle>, unread: bool, loop: Loop, senders: map<Tid, Sender>)

  function At(s: State, t: Tid): Sender { if t in s.senders then s.senders[t] else Away }

  function Todo(l: Loop): seq<Handle> {
    match l
    case Idle => []
    case Visiting(todo) => todo
    case Spinning(_, back) => Todo(back)
  }

  predicate IsSpinning(s: State, h: Handle) { s.loop.Spinning? && s.loop.h == h }

  // QUEUE_REMOVE from whichever list the handle is in.
  function Unlinked(l: Loop, h: Handle): Loop {
    match l
    case Idle => Idle
    case Visiting(todo) => Visiting(Without(todo, h))
    case Spinning(g, back) => Spinning(g, Unlinked(back, h))
  }

  // The steps of uv_async_send.
  function Move(s: State, t: Tid, w: Sender): State { s.(senders := s.senders[t := w]) }

  function SendStep(s: State, t: Tid): State
    requires At(s, t).Away? || (At(s, t).h in s.pending && At(s, t).h in s.busy)
  {
    match At(s, t)
    case Away => s
    // if (atomic_load(pending) != 0) return
    case Called(h, v) => Move(s, t, if s.pending[h] then Away else Saw0(h, v))
    // atomic_fetch_add(busy, 1)
    case Saw0(h, v) => Move(s.(busy := s.busy[h := s.busy[h] + 1]), t, Busy(h, v))
    // atomic_exchange(pending, 1)
    case Busy(h, v) => Move(s.(pending := s.pending[h := true]), t, if s.pending[h] then Leaving(h, v) else Won(h, v))
    // uv__async_send writes to the descriptor; a full one is readable already
    case Won(h, v) => Move(s.(unread := true), t, Leaving(h, v))
    // atomic_fetch_add(busy, -1)
    case Leaving(h, v) => Move(s.(busy := s.busy[h := s.busy[h] - 1]), t, Away)
  }

  datatype Label =
    | Init(h: Handle)              // uv_async_init
    | Call(t: Tid, h: Handle)      // a thread calls uv_async_send(h)
    | Send(t: Tid)                 // its next step
    | Drain                        // uv__async_io reads the descriptor and moves the queue
    | Visit                        // it takes the next handle and clears its pending flag
    | Finish                       // the moved queue is empty
    | Close(h: Handle)             // uv__async_spin sets pending
    | SpinDone                     // it has read busy == 0; the handle leaves its queue

  predicate Enabled(s: State, a: Label) {
    match a
    case Init(h) => h !in s.pending && !s.loop.Spinning?
    case Call(t, h) => At(s, t).Away? && h in s.pending
    case Send(t) => !At(s, t).Away?
    case Drain => s.loop.Idle?
    case Visit => s.loop.Visiting? && s.loop.todo != []
    case Finish => s.loop.Visiting? && s.loop.todo == []
    case Close(h) => h in s.pending && h !in s.closed && !s.loop.Spinning?
    case SpinDone => s.loop.Spinning? && s.loop.h in s.busy && s.busy[s.loop.h] == 0
  }

  function Next(s: State, a: Label): State
    requires Known(s) && Enabled(s, a)
  {
    match a
    case Init(h) =>
      s.(pending := s.pending[h := false], busy := s.busy[h := 0], runs := s.runs[h := 0], open := s.open + [h])
    case Call(t, h) => Move(s, t, Called(h, s.runs[h]))
    case Send(t) => SendStep(s, t)
    case Drain => s.(unread := false, open := [], loop := Visiting(s.open))
    case Visit =>
      var h := s.loop.todo[0];
      var v := s.(open := s.open + [h], loop := Visiting(s.loop.todo[1..]));
      if h !in s.pending || !s.pending[h] then v
      else v.(pending := s.pending[h := false], runs := s.runs[h := (if h in s.runs then s.runs[h] else 0) + 1])
    case Finish => s.(loop := Idle)
    case Close(h) => s.(pending := s.pending[h := true], loop := Spinning(h, s.loop))
    case SpinDone =>
      var h := s.loop.h;
      s.(closed := s.closed + {h}, open := Without(s.open, h), loop := Unlinked(s.loop.back, h))
  }

  // ---------- The invariant ----------

  // Threads and queues know only handles that exist.
  ghost predicate Known(s: State) {
    && s.busy.Keys == s.pending.Keys && s.runs.Keys == s.pending.Keys
    && (forall t :: t in s.senders && !s.senders[t].Away? ==> s.senders[t].h in s.pending)
  }

  // Every handle that is not closed is in exactly one of the two queues, once.
  ghost predicate Queued(s: State) {
    && s.closed <= s.pending.Keys
    && (forall h :: h in s.pending && h !in s.closed <==> h in s.open + Todo(s.loop))
    && Once(s.open + Todo(s.loop))
    && (s.loop.Spinning? ==> s.loop.h in s.pending && s.loop.h !in s.closed && !s.loop.back.Spinning?)
  }

  predicate Holds(w: Sender, h: Handle) { (w.Busy? || w.Won? || w.Leaving?) && w.h == h }

  // The busy word counts the threads inside.
  ghost function Inside(m: map<Tid, Sender>, h: Handle): set<Tid> { set t | t in m && Holds(m[t], h) }

  ghost predicate BusyCounts(s: State) { forall h :: h in s.busy ==> s.busy[h] == |Inside(s.senders, h)| }

  ghost predicate Writing(s: State, h: Handle) {
    exists t :: t in s.senders && s.senders[t].Won? && s.senders[t].h == h
  }

  // No lost wakeup: a set flag is followed by a visit.
  ghost predicate Awake(s: State, h: Handle) { s.unread || Writing(s, h) || h in Todo(s.loop) }

  ghost predicate NoLostWakeup(s: State) {
    forall h :: h in s.pending && h !in s.closed && !IsSpinning(s, h) && s.pending[h] ==> Awake(s, h)
  }

  // A handle that is closed, or that uv__async_spin works on, keeps its flag set for ever.
  ghost predicate Sealed(s: State) {
    && (forall h :: h in s.closed || IsSpinning(s, h) ==> h in s.pending && s.pending[h])
    && (forall h :: h in s.closed ==> !Writing(s, h))
  }

  // A call that is past its exchange has set the flag after it began.
  ghost predicate Delivered(s: State, h: Handle, began: nat) {
    h in s.pending && h in s.runs && (s.pending[h] || s.runs[h] > began)
  }

  ghost predicate CallsCount(s: State) {
    forall t :: t in s.senders && !s.senders[t].Away? ==>
      && s.senders[t].h in s.runs && s.senders[t].began <= s.runs[s.senders[t].h]
      && (s.senders[t].Won? || s.senders[t].Leaving? ==> Delivered(s, s.senders[t].h, s.senders[t].began))
  }

  ghost predicate Inv(s: State) {
    Known(s) && Queued(s) && BusyCounts(s) && NoLostWakeup(s) && Sealed(s) && CallsCount(s)
  }

  // ---------- Queues ----------

  lemma OnceInsert(p: seq<Handle>, q: seq<Handle>, h: Handle)
    requires Once(p + q) && h !in p + q
    ensures Once(p + [h] + q)
  {
    var r := p + [h] + q;
    forall i, j | 0 <= i < j < |r| ensures r[i] != r[j] {
      assert r[i] == if i < |p| then (p + q)[i] else if i == |p| then h else (p + q)[i - 1];
      assert r[j] == if j < |p| then (p + q)[j] else if j == |p| then h else (p + q)[j - 1];
    }
  }

  lemma QueuedAfterSpin(s: State)
    requires Known(s) && Queued(s) && Enabled(s, SpinDone)
    ensures Queued(Next(s, SpinDone))
  {
    var s' := Next(s, SpinDone);
    var h, back := s.loop.h, s.loop.back;
    WithoutConcat(s.open, Todo(back), h);
    WithoutMembers(s.open + Todo(back), h);
    assert Todo(s'.loop) == Without(Todo(back), h);
    assert s'.open + Todo(s'.loop) == Without(s.open + Todo(back), h);
  }

  lemma QueuedAfterInit(s: State, h: Handle)
    requires Known(s) && Queued(s) && Enabled(s, Init(h))
    ensures Queued(Next(s, Init(h)))
  {
    var s' := Next(s, Init(h));
    OnceInsert(s.open, Todo(s.loop), h);
    assert s'.open + Todo(s'.loop) == s.open + [h] + Todo(s.loop);
  }

  lemma QueuedAfterVisit(s: State)
    requires Known(s) && Queued(s) && Enabled(s, Visit)
    ensures Queued(Next(s, Visit))
  {
    var s' := Next(s, Visit);
    assert s'.open + Todo(s'.loop) == s.open + Todo(s.loop);
  }

  lemma QueuedKept(s: State, a: Label)
    requires Known(s) && Queued(s) && Enabled(s, a)
    ensures Queued(Next(s, a))
  {
    hide Without;
    hide Unlinked;
    hide Once;
    match a
    case Init(h) => QueuedAfterInit(s, h);
    case Visit => QueuedAfterVisit(s);
    case SpinDone => QueuedAfterSpin(s);
    case Drain => assert Next(s, a).open + Todo(Next(s, a).loop) == s.open + Todo(s.loop);
    case _ =>
  }

  // ---------- Busy words ----------

  // A thread that moves enters or leaves at most one set.
  lemma InsideMoved(m: map<Tid, Sender>, t: Tid, w: Sender, h: Handle)
    ensures var before := t in m && Holds(m[t], h);
            |Inside(m[t := w], h)| == |Inside(m, h)| + (if Holds(w, h) then 1 else 0) - (if before then 1 else 0)
  {
    var rest := Inside(m, h) - {t};
    assert Inside(m, h) == if t in m && Holds(m[t], h) then rest + {t} else rest;
    assert Inside(m[t := w], h) == if Holds(w, h) then rest + {t} else rest;
  }

  lemma BusyKeptBySend(s: State, t: Tid, h: Handle)
    requires Known(s) && BusyCounts(s) && !At(s, t).Away? && h in s.busy
    ensures var s' := SendStep(s, t); h in s'.busy && s'.busy[h] == |Inside(s'.senders, h)|
  {
    var s' := SendStep(s, t);
    InsideMoved(s.senders, t, At(s', t), h);
    assert s'.senders == s.senders[t := At(s', t)];
  }

  lemma InsideKept(s: State, a: Label, h: Handle)
    requires Known(s) && Enabled(s, a) && !a.Send?
    ensures Inside(Next(s, a).senders, h) == Inside(s.senders, h)
  {
    var s' := Next(s, a);
    if a.Call? {
      assert forall u :: u in s.senders && u != a.t ==> u in s'.senders && s'.senders[u] == s.senders[u];
    } else {
      assert s'.senders == s.senders;
    }
  }

  lemma NobodyInside(s: State, h: Handle)
    requires Known(s) && h !in s.pending
    ensures Inside(s.senders, h) == {}
  {
    assert forall t :: t in s.senders && Holds(s.senders[t], h) ==> s.senders[t].h in s.pending;
  }

  lemma BusyKept(s: State, a: Label)
    requires Inv(s) && Enabled(s, a)
    ensures BusyCounts(Next(s, a))
  {
    var s' := Next(s, a);
    forall h | h in s'.busy ensures s'.busy[h] == |Inside(s'.senders, h)| {
      if a.Send? {
        BusyKeptBySend(s, a.t, h);
      } else {
        InsideKept(s, a, h);
        if a.Init? && a.h == h { NobodyInside(s, h); }
      }
    }
  }

  // ---------- Wakeups ----------

  lemma WritingKept(s: State, a: Label, h: Handle)
    requires Inv(s) && Enabled(s, a) && Writing(s, h)
    ensures Writing(Next(s, a), h) || Next(s, a).unread
  {
    var t :| t in s.senders && s.senders[t].Won? && s.senders[t].h == h;
    var s' := Next(s, a);
    if !(a.Send? && a.t == t) { assert t in s'.senders && s'.senders[t] == s.senders[t]; }
  }

  lemma UnlinkedTodo(l: Loop, h: Handle)
    ensures Todo(Unlinked(l, h)) == Without(Todo(l), h)
    ensures Unlinked(l, h).Spinning? <==> l.Spinning?
  {
  }

  lemma WakeupKept(s: State, a: Label)
    requires Inv(s) && Enabled(s, a)
    ensures NoLostWakeup(Next(s, a))
  {
    hide Without, Unlinked, Once, BusyCounts, CallsCount;
    var s' := Next(s, a);
    forall h | h in s'.pending && h !in s'.closed && !IsSpinning(s', h) && s'.pending[h] ensures Awake(s', h) {
      if a.Send? && At(s', a.t).Won? && At(s', a.t).h == h {
        assert Writing(s', h);
      } else if a.SpinDone? {
        UnlinkedTodo(s.loop.back, s.loop.h);
        WithoutMembers(Todo(s.loop.back), s.loop.h);
        assert s.pending[h] && Awake(s, h);
        if Writing(s, h) { WritingKept(s, a, h); }
      } else if h in s.pending && s.pending[h] {
        assert Awake(s, h);
        if Writing(s, h) { WritingKept(s, a, h); }
        if a.Drain? { assert h in s.open + Todo(s.loop); }
      }
    }
  }

  lemma WriterIsInside(s: State, h: Handle)
    requires Known(s) && BusyCounts(s) && Writing(s, h)
    ensures h in s.busy && s.busy[h] > 0
  {
    var t :| t in s.senders && s.senders[t].Won? && s.senders[t].h == h;
    assert t in Inside(s.senders, h);
  }

  // A thread comes to write only through an exchange that finds the flag clear.
  lemma WritingBefore(s: State, a: Label, h: Handle)
    requires Known(s) && Enabled(s, a) && Writing(Next(s, a), h)
    ensures Writing(s, h) || (a.Send? && At(s, a.t).Busy? && At(s, a.t).h == h && !s.pending[h])
  {
    var s' := Next(s, a);
    var t :| t in s'.senders && s'.senders[t].Won? && s'.senders[t].h == h;
    if !(a.Send? && a.t == t) { assert t in s.senders && s.senders[t] == s'.senders[t]; }
  }

  lemma FlagsStaySet(s: State, a: Label, h: Handle)
    requires Inv(s) && Enabled(s, a) && (h in Next(s, a).closed || IsSpinning(Next(s, a), h))
    ensures h in Next(s, a).pending && Next(s, a).pending[h]
  {
    hide Without, Unlinked, Once, BusyCounts, CallsCount, NoLostWakeup;
    if a.SpinDone? { UnlinkedTodo(s.loop.back, s.loop.h); }
    assert a.Visit? ==> s.loop.todo[0] in s.open + Todo(s.loop);
  }

  lemma NobodyStarts(s: State, a: Label, h: Handle)
    requires Inv(s) && Enabled(s, a) && h in Next(s, a).closed
    ensures !Writing(Next(s, a), h)
  {
    hide Without, Unlinked, Once, Todo, CallsCount, NoLostWakeup;
    if Writing(Next(s, a), h) { WritingBefore(s, a, h); }
    if Writing(s, h) { WriterIsInside(s, h); }
  }

  lemma SealedKept(s: State, a: Label)
    requires Inv(s) && Enabled(s, a)
    ensures Sealed(Next(s, a))
  {
    hide Known, Queued, BusyCounts, CallsCount, NoLostWakeup, Next, Enabled, Writing;
    var s' := Next(s, a);
    forall h | h in s'.closed || IsSpinning(s', h) ensures h in s'.pending && s'.pending[h] { FlagsStaySet(s, a, h); }
    forall h | h in s'.closed ensures !Writing(s', h) { NobodyStarts(s, a, h); }
  }

  lemma DeliveredKept(s: State, a: Label, h: Handle, began: nat)
    requires Inv(s) && Enabled(s, a) && Delivered(s, h, began) && began <= s.runs[h]
    ensures Delivered(Next(s, a), h, began) && began <= Next(s, a).runs[h]
  {
  }

  lemma CallKept(s: State, a: Label, t: Tid)
    requires Inv(s) && Enabled(s, a) && t in s.senders && !s.senders[t].Away? && !(a.Send? && a.t == t)
      && !(a.Call? && a.t == t)
    ensures var s' := Next(s, a); var w := s.senders[t];
            && t in s'.senders && s'.senders[t] == w && w.h in s'.runs && w.began <= s'.runs[w.h]
            && (w.Won? || w.Leaving? ==> Delivered(s', w.h, w.began))
  {
    hide Without, Unlinked, Once, Todo, Queued, Sealed, BusyCounts, NoLostWakeup;
    var w := s.senders[t];
    if Delivered(s, w.h, w.began) { DeliveredKept(s, a, w.h, w.began); }
  }

  lemma CallMoved(s: State, a: Label, t: Tid)
    requires Inv(s) && Enabled(s, a) && ((a.Send? && a.t == t) || (a.Call? && a.t == t))
    requires var s' := Next(s, a); t in s'.senders && !s'.senders[t].Away?
    ensures var s' := Next(s, a); var w := s'.senders[t];
            && w.h in s'.runs && w.began <= s'.runs[w.h]
            && (w.Won? || w.Leaving? ==> Delivered(s', w.h, w.began))
  {
    hide Without;
    hide Unlinked;
    hide Todo;
  }

  lemma CallsKept(s: State, a: Label)
    requires Inv(s) && Enabled(s, a)
    ensures CallsCount(Next(s, a))
  {
    hide Without;
    hide Unlinked;
    hide Todo;
    var s' := Next(s, a);
    forall t | t in s'.senders && !s'.senders[t].Away?
      ensures s'.senders[t].h in s'.runs && s'.senders[t].began <= s'.runs[s'.senders[t].h]
      ensures s'.senders[t].Won? || s'.senders[t].Leaving? ==> Delivered(s', s'.senders[t].h, s'.senders[t].began)
    {
      if (a.Send? && a.t == t) || (a.Call? && a.t == t) {
        CallMoved(s, a, t);
      } else {
        CallKept(s, a, t);
      }
    }
  }

  lemma KnownKept(s: State, a: Label)
    requires Inv(s) && Enabled(s, a)
    ensures Known(Next(s, a))
  {
    hide Without, Unlinked, Once, BusyCounts, CallsCount, NoLostWakeup, Sealed;
    assert a.Visit? ==> s.loop.todo[0] in s.open + Todo(s.loop);
  }

  // Every step of every thread keeps the invariant.
  lemma StepKeeps(s: State, a: Label)
    requires Inv(s) && Enabled(s, a)
    ensures Inv(Next(s, a))
  {
    hide Known, Queued, BusyCounts, NoLostWakeup, Sealed, CallsCount, Next, Enabled;
    KnownKept(s, a);
    QueuedKept(s, a);
    BusyKept(s, a);
    WakeupKept(s, a);
    SealedKept(s, a);
    CallsKept(s, a);
  }

  const START: State := State(map[], map[], map[], {}, [], false, Idle, map[])

  // The states that a sequence of labels leads through, one more than labels.
  ghost predicate IsRun(labels: seq<Label>, states: seq<State>) {
    && |states| == |labels| + 1 && states[0] == START
    && (forall i :: 0 <= i < |labels| ==>
       Known(states[i]) && Enabled(states[i], labels[i]) && states[i + 1] == Next(states[i], labels[i]))
  }

  lemma {:induction false} RunKeeps(labels: seq<Label>, states: seq<State>, i: nat)
    requires IsRun(labels, states) && i <= |labels|
    ensures Inv(states[i])
  {
    if i == 0 {
      assert Inside(START.senders, 0) == {};
    } else {
      RunKeeps(labels, states, i - 1);
      StepKeeps(states[i - 1], labels[i - 1]);
      assert states[i - 1 + 1] == states[i];
    }
  }

  lemma {:induction false} RunDelivers(labels: seq<Label>, states: seq<State>, h: Handle, began: nat, i: nat, j: nat)
    requires IsRun(labels, states) && i <= j <= |labels| && Delivered(states[i], h, began) && began <= states[i].runs[h]
    ensures Delivered(states[j], h, began) && began <= states[j].runs[h]
  {
    if i < j {
      RunDelivers(labels, states, h, began, i, j - 1);
      RunKeeps(labels, states, j - 1);
      DeliveredKept(states[j - 1], labels[j - 1], h, began);
      assert states[j - 1 + 1] == states[j];
    }
  }

  // Nobody is about to write, the descriptor is empty and the loop is not in uv__async_io.
  ghost predicate Quiet(s: State) {
    s.loop.Idle? && !s.unread && forall t :: t in s.senders ==> !s.senders[t].Won?
  }

  // The promise of uv_async_send: in every run, once a call has returned (step i ends it)
  // and everything is quiet again (state j), the callback of the handle has run at least
  // once since the call began, unless the handle was closed.
  lemma SendIsFollowedByCallback(labels: seq<Label>, states: seq<State>, i: nat, j: nat)
    requires IsRun(labels, states) && i < j <= |labels| && labels[i].Send? && At(states[i + 1], labels[i].t).Away?
    requires Quiet(states[j]) && At(states[i], labels[i].t).h !in states[j].closed
    ensures var w := At(states[i], labels[i].t); w.h in states[j].runs && states[j].runs[w.h] > w.began
  {
    var w := At(states[i], labels[i].t);
    RunKeeps(labels, states, i);
    RunKeeps(labels, states, j);
    assert Delivered(states[i + 1], w.h, w.began);
    RunDelivers(labels, states, w.h, w.began, i + 1, j);
  }

  lemma {:induction false} ClosedStays(labels: seq<Label>, states: seq<State>, h: Handle, i: nat, j: nat)
    requires IsRun(labels, states) && i <= j <= |labels| && h in states[i].closed
    ensures h in states[j].closed
  {
    if i < j {
      ClosedStays(labels, states, h, i, j - 1);
      assert states[j - 1 + 1] == states[j];
    }
  }

  // The promise of uv__async_spin: after it has returned for h at step i, no thread is ever
  // again about to write a wakeup for h, and the callback of h does not run any more.
  lemma NoWriteAfterSpin(labels: seq<Label>, states: seq<State>, i: nat, j: nat)
    requires IsRun(labels, states) && i < j <= |labels| && labels[i].SpinDone?
    ensures !Writing(states[j], states[i].loop.h) && states[i].loop.h !in states[j].open + Todo(states[j].loop)
  {
    RunKeeps(labels, states, j);
    assert states[i].loop.h in states[i + 1].closed;
    ClosedStays(labels, states, states[i].loop.h, i + 1, j);
  }

  // ---------- How often the callback runs, and in which order ----------

  // An exchange on the flag of h that finds it clear.
  predicate Wins(s: State, a: Label, h: Handle) {
    a.Send? && At(s, a.t).Busy? && At(s, a.t).h == h && h in s.pending && !s.pending[h]
  }

  // How many of the first i steps are such exchanges.
  ghost function Sends(labels: seq<Label>, states: seq<State>, i: nat, h: Handle): nat
    requires i <= |labels| && i <= |states|
  {
    if i == 0 then 0 else Sends(labels, states, i - 1, h) + (if Wins(states[i - 1], labels[i - 1], h) then 1 else 0)
  }

  // n exchanges have found the flag clear, and all of them but one to come have been served.
  ghost predicate Counted(s: State, h: Handle, n: nat) {
    && (h !in s.pending ==> n == 0)
    && (h in s.pending ==> h in s.runs && s.runs[h] <= n)
    && (h in s.pending && h !in s.closed && !IsSpinning(s, h) ==>
          h in s.runs && s.runs[h] + (if s.pending[h] then 1 else 0) == n)
  }

  lemma CountedStep(s: State, a: Label, h: Handle, n: nat)
    requires Inv(s) && Enabled(s, a) && Counted(s, h, n)
    ensures Counted(Next(s, a), h, n + (if Wins(s, a, h) then 1 else 0))
  {
    hide Without, Unlinked, Once, BusyCounts, CallsCount, NoLostWakeup;
    match a
    case Visit => CountedVisit(s, h, n);
    case Send(t) => CountedSend(s, t, h, n);
    case _ =>
  }

  lemma CountedVisit(s: State, h: Handle, n: nat)
    requires Known(s) && Queued(s) && Sealed(s) && Enabled(s, Visit) && Counted(s, h, n)
    ensures Counted(Next(s, Visit), h, n)
  {
    hide Without, Unlinked, Once;
    assert s.loop.todo[0] in s.open + Todo(s.loop);
  }

  lemma CountedSend(s: State, t: Tid, h: Handle, n: nat)
    requires Known(s) && Sealed(s) && Enabled(s, Send(t)) && Counted(s, h, n)
    ensures Counted(SendStep(s, t), h, n + (if Wins(s, Send(t), h) then 1 else 0))
  {
  }

  // In every run, the callback of a handle has run once for each exchange that found the flag
  // clear, but for one that has yet to be served: it never runs without a send, and sends
  // between two visits are served by one call. Closing can only take that last call away.
  lemma {:induction false} RunsCountSends(labels: seq<Label>, states: seq<State>, i: nat, h: Handle)
    requires IsRun(labels, states) && i <= |labels|
    ensures var s, n := states[i], Sends(labels, states, i, h);
            && (h !in s.pending ==> n == 0)
            && (h in s.pending ==> h in s.runs && s.runs[h] <= n)
            && (h in s.pending && h !in s.closed && !IsSpinning(s, h) ==>
                  h in s.runs && s.runs[h] + (if s.pending[h] then 1 else 0) == n)
  {
    if i > 0 {
      RunsCountSends(labels, states, i - 1, h);
      RunKeeps(labels, states, i - 1);
      CountedStep(states[i - 1], labels[i - 1], h, Sends(labels, states, i - 1, h));
      assert states[i - 1 + 1] == states[i];
    }
  }

  predicate Visits(s: State, a: Label, h: Handle) {
    a.Visit? && s.loop.Visiting? && s.loop.todo != [] && s.loop.todo[0] == h
  }

  // Between the steps i and j the loop has visited h.
  ghost predicate Visited(labels: seq<Label>, states: seq<State>, i: nat, j: nat, h: Handle)
    requires j <= |labels| && j <= |states|
  { exists k :: i < k < j && Visits(states[k], labels[k], h) }

  // What is left of the queue that a drain has moved: g is still to be visited before h, or
  // has been visited or closed.
  ghost predicate StillAhead(s: State, g: Handle, h: Handle, visited: bool) {
    Ahead(Todo(s.loop), g, h) || ((visited || g in s.closed) && g !in Todo(s.loop)) || h !in Todo(s.loop)
  }

  lemma AheadAfterVisit(s: State, g: Handle, h: Handle, visited: bool)
    requires Known(s) && Once(Todo(s.loop)) && Enabled(s, Visit) && g != h && StillAhead(s, g, h, visited)
    ensures StillAhead(Next(s, Visit), g, h, visited || Visits(s, Visit, g))
  {
    var q := Todo(s.loop);
    assert Todo(Next(s, Visit).loop) == q[1..];
    if Ahead(q, g, h) { AheadTail(q, g, h); }
    assert forall i :: 0 < i < |q| ==> q[i] != q[0];
  }

  lemma AheadAfterSpin(s: State, g: Handle, h: Handle, visited: bool)
    requires Known(s) && Enabled(s, SpinDone) && g != h && StillAhead(s, g, h, visited)
    ensures StillAhead(Next(s, SpinDone), g, h, visited)
  {
    var q, x := Todo(s.loop), s.loop.h;
    UnlinkedTodo(s.loop.back, x);
    WithoutMembers(q, x);
    if Ahead(q, g, h) && x != g && x != h { AheadWithout(q, g, h, x); }
  }

  lemma AheadStep(s: State, a: Label, g: Handle, h: Handle, visited: bool)
    requires Inv(s) && Enabled(s, a) && !a.Drain? && g != h && StillAhead(s, g, h, visited)
    ensures StillAhead(Next(s, a), g, h, visited || Visits(s, a, g))
  {
    hide Without, Unlinked, BusyCounts, CallsCount, NoLostWakeup, Sealed, Ahead;
    OnceRest(s.open, Todo(s.loop));
    if a.Visit? {
      AheadAfterVisit(s, g, h, visited);
    } else if a.SpinDone? {
      AheadAfterSpin(s, g, h, visited);
    }
  }

  lemma OnceRest(p: seq<Handle>, q: seq<Handle>)
    requires Once(p + q)
    ensures Once(q)
  {
    assert forall i :: 0 <= i < |q| ==> q[i] == (p + q)[|p| + i];
  }

  lemma {:induction false} RunAhead(labels: seq<Label>, states: seq<State>, i: nat, j: nat, g: Handle, h: Handle)
    requires IsRun(labels, states) && i < j <= |labels| && labels[i].Drain? && Ahead(states[i].open, g, h)
    requires forall k :: i < k < j ==> !labels[k].Drain?
    ensures g != h && StillAhead(states[j], g, h, Visited(labels, states, i, j, g))
  {
    hide IsRun;
    hide Inv;
    hide Enabled;
    hide Next;
    hide Visits;
    hide StillAhead;
    StepOf(labels, states, j - 1);
    if j - 1 > i {
      RunAhead(labels, states, i, j - 1, g, h);
      AheadStep(states[j - 1], labels[j - 1], g, h, Visited(labels, states, i, j - 1, g));
      VisitedMore(labels, states, i, j, g);
    } else {
      Drained(labels, states, i, g, h);
    }
  }

  lemma StepOf(labels: seq<Label>, states: seq<State>, k: nat)
    requires IsRun(labels, states) && k < |labels|
    ensures |states| == |labels| + 1 && Inv(states[k])
    ensures Enabled(states[k], labels[k]) && states[k + 1] == Next(states[k], labels[k])
  {
    RunKeeps(labels, states, k);
  }

  lemma VisitedMore(labels: seq<Label>, states: seq<State>, i: nat, j: nat, g: Handle)
    requires i < j - 1 && j <= |labels| && j <= |states|
    ensures Visited(labels, states, i, j, g) <==>
      Visited(labels, states, i, j - 1, g) || Visits(states[j - 1], labels[j - 1], g)
  {
  }

  lemma Drained(labels: seq<Label>, states: seq<State>, i: nat, g: Handle, h: Handle)
    requires IsRun(labels, states) && i < |labels| && labels[i].Drain? && Ahead(states[i].open, g, h)
    ensures g != h && StillAhead(states[i + 1], g, h, Visited(labels, states, i, i + 1, g))
  {
    StepOf(labels, states, i);
    AheadApart(states[i].open, Todo(states[i].loop), g, h);
  }

  lemma AheadApart(p: seq<Handle>, q: seq<Handle>, g: Handle, h: Handle)
    requires Once(p + q) && Ahead(p, g, h)
    ensures g != h
  {
    var i, j :| 0 <= i < j < |p| && p[i] == g && p[j] == h;
    assert (p + q)[i] == g && (p + q)[j] == h;
  }

  // Handles are visited in the order of the queue: when step j visits h, which the last drain
  // at step i found behind g, then g has been visited since that drain, or was closed.
  lemma VisitedInOrder(labels: seq<Label>, states: seq<State>, i: nat, j: nat, g: Handle)
    requires IsRun(labels, states) && i < j < |labels| && labels[i].Drain? && labels[j].Visit?
    requires states[j].loop.Visiting? && states[j].loop.todo != []
    requires Ahead(states[i].open, g, states[j].loop.todo[0]) && forall k :: i < k < j ==> !labels[k].Drain?
    ensures Visited(labels, states, i, j, g) || g in states[j].closed
  {
    var q := Todo(states[j].loop);
    RunAhead(labels, states, i, j, g, q[0]);
    RunKeeps(labels, states, j);
    OnceRest(states[j].open, q);
    if Ahead(q, g, q[0]) { AheadTail(q, g, q[0]); }
  }

  // ---------- The program ----------

  // The words of the handles, the queue of the loop and its descriptor. A method is one
  // atomic operation of a thread, or what the loop thread does up to its next one.
  class AsyncLoop {
    var pending: map<Handle, bool>
    var busy: map<Handle, int>
    var open: seq<Handle>
    var unread: bool
    var loop: Loop
    ghost var runs: map<Handle, nat>
    ghost var closed: set<Handle>
    ghost var senders: map<Tid, Sender>

    ghost function View(): State
      reads this
    { State(pending, busy, runs, closed, open, unread, loop, senders) }

    constructor ()
      ensures View() == START
    {
      pending, busy, open, unread, loop := map[], map[], [], false, Loop.Idle;
      runs, closed, senders := map[], {}, map[];
    }

    // uv_async_init
    method Init(h: Handle)
      requires Known(View()) && Enabled(View(), Label.Init(h))
      modifies this
      ensures View() == Next(old(View()), Label.Init(h))
      ensures open == old(open) + [h] && pending == old(pending)[h := false] && busy == old(busy)[h := 0]
    {
      pending, busy, open := pending[h := false], busy[h := 0], open + [h];
      runs := runs[h := 0];
    }

    // The cheap read of uv_async_send; go is false if the call returns.
    method ReadPending(ghost t: Tid, h: Handle) returns (go: bool)
      requires Known(View()) && At(View(), t).Called? && At(View(), t).h == h
      modifies this
      ensures View() == Next(old(View()), Send(t)) && (go <==> At(View(), t).Saw0?)
      ensures (go <==> !pending[h]) && pending == old(pending) && busy == old(busy) && unread == old(unread)
    {
      go := !pending[h];
      senders := senders[t := if go then Saw0(h, senders[t].began) else Away];
    }

    // atomic_fetch_add(busy, 1)
    method EnterBusy(ghost t: Tid, h: Handle)
      requires Known(View()) && At(View(), t).Saw0? && At(View(), t).h == h
      modifies this
      ensures View() == Next(old(View()), Send(t))
      ensures pending == old(pending) && busy == old(busy)[h := old(busy)[h] + 1] && unread == old(unread)
    {
      busy := busy[h := busy[h] + 1];
      senders := senders[t := Busy(h, senders[t].began)];
    }

    // atomic_exchange(pending, 1); won tells the thread to write to the descriptor.
    method Exchange(ghost t: Tid, h: Handle) returns (won: bool)
      requires Known(View()) && At(View(), t).Busy? && At(View(), t).h == h
      modifies this
      ensures View() == Next(old(View()), Send(t)) && (won <==> At(View(), t).Won?)
      ensures (won <==> !old(pending)[h]) && pending == old(pending)[h := true] && unread == old(unread)
    {
      won := !pending[h];
      pending := pending[h := true];
      senders := senders[t := if won then Won(h, senders[t].began) else Leaving(h, senders[t].began)];
    }

    // uv__async_send
    method Write(ghost t: Tid)
      requires Known(View()) && At(View(), t).Won?
      modifies this
      ensures View() == Next(old(View()), Send(t))
      ensures unread && pending == old(pending) && busy == old(busy)
    {
      unread := true;
      senders := senders[t := Leaving(senders[t].h, senders[t].began)];
    }

    // atomic_fetch_add(busy, -1)
    method LeaveBusy(ghost t: Tid, h: Handle)
      requires Known(View()) && At(View(), t).Leaving? && At(View(), t).h == h
      modifies this
      ensures View() == Next(old(View()), Send(t))
      ensures pending == old(pending) && busy == old(busy)[h := old(busy)[h] - 1] && unread == old(unread)
    {
      busy := busy[h := busy[h] - 1];
      senders := senders[t := Away];
    }

    // uv__async_io up to the loop over the moved queue.
    method DrainAndMove()
      requires Known(View()) && loop.Idle?
      modifies this
      ensures View() == Next(old(View()), Drain)
      ensures loop == Visiting(old(open)) && open == [] && !unread && pending == old(pending)
    {
      unread := false;
      loop, open := Visiting(open), [];
    }

    // One iteration of that loop: the handle goes back to its queue, its flag is fetched and
    // cleared; call tells whether the callback runs.
    method VisitNext() returns (h: Handle, call: bool)
      requires Inv(View()) && Enabled(View(), Visit)
      modifies this
      ensures View() == Next(old(View()), Visit) && h in old(pending) && (call <==> old(pending)[h])
      ensures old(loop) == Visiting([h] + Todo(loop)) && open == old(open) + [h] && pending == old(pending)[h := false]
      ensures h in old(runs) && runs == if call then old(runs)[h := old(runs)[h] + 1] else old(runs)
    {
      h := loop.todo[0];
      assert h in open + Todo(loop);
      loop := Visiting(loop.todo[1..]);
      open := open + [h];
      call := pending[h];
      pending := pending[h := false];
      if call { runs := runs[h := runs[h] + 1]; }
    }

    // uv__async_close up to the first read of busy.
    method BeginClose(h: Handle)
      requires Known(View()) && Enabled(View(), Close(h))
      modifies this
      ensures View() == Next(old(View()), Close(h))
      ensures loop == Spinning(h, old(loop)) && pending == old(pending)[h := true] && open == old(open)
    {
      pending := pending[h := true];
      loop := Spinning(h, loop);
    }

    // The read of busy that ends uv__async_spin, or another round of it; then QUEUE_REMOVE.
    method SpinOnce() returns (ended: bool)
      requires Known(View()) && loop.Spinning? && loop.h in busy
      modifies this
      ensures ended <==> old(busy)[old(loop).h] == 0
      ensures View() == if ended then Next(old(View()), SpinDone) else old(View())
      ensures ended ==> open == Without(old(open), old(loop).h) && Todo(loop) == Without(Todo(old(loop)), old(loop).h)
    {
      ended := busy[loop.h] == 0;
      if ended {
        UnlinkedTodo(loop.back, loop.h);
        closed := closed + {loop.h};
        open := Without(open, loop.h);
        loop := Unlinked(loop.back, loop.h);
      }
    }
  }
}
