// The reusable barrier of libuv's thread-common.c, used where pthread barriers are missing.
// uv_barrier_wait runs under one mutex and gives it up only inside uv_cond_wait, so a step
// is what one thread does from taking the mutex to waiting or returning. Every wakeup may
// be spurious: any thread that waits may take a step at any time. asleep holds the threads
// that wait and that no broadcast has woken since.

module Barriers {

  type Tid = int

  // Where a thread is: not in the barrier, in the first wait loop, or in the second.
  // A waiting thread remembers, for the statements only, which round it counted into.
  datatype Pc = Outside | AtGate | Counted(round: nat)

  datatype Event = Enter(t: Tid, round: nat) | Leave(t: Tid, round: nat, last: bool)

  // in, out and threshold are the fields of struct _uv_barrier. trips counts how often
  // "in" reached the threshold; log lists the counting in and the returns, in order.
  datatype State = State(
    in_: nat, out: nat, threshold: nat, pc: map<Tid, Pc>, asleep: set<Tid>, trips: nat,
    log: seq<Event>)

  function PcOf(s: State, t: Tid): Pc { if t in s.pc then s.pc[t] else Outside }

  // The end of uv_barrier_wait.
  function Return(s: State, t: Tid, round: nat): State
    requires s.out > 0
  {
    s.(out := s.out - 1, pc := s.pc[t := Outside], asleep := if s.out == 1 then {} else s.asleep - {t},
       log := s.log + [Leave(t, round, s.out == 1)])
  }

  // One step of thread t: a call, or a wakeup in one of the two loops.
  function Step(s: State, t: Tid): State
    requires 1 <= s.threshold && s.in_ < s.threshold
  {
    match PcOf(s, t)
    case Counted(r) => if s.in_ != 0 || s.out == 0 then s.(asleep := s.asleep + {t}) else Return(s, t, r)
    case _ =>
      if s.out != 0 then s.(pc := s.pc[t := AtGate], asleep := s.asleep + {t})
      else
        var e := s.(log := s.log + [Enter(t, s.trips)]);
        if s.in_ + 1 == s.threshold
        then Return(e.(in_ := 0, out := s.threshold, asleep := {}, trips := s.trips + 1), t, s.trips)
        else e.(in_ := s.in_ + 1, pc := s.pc[t := Counted(s.trips)], asleep := s.asleep + {t})
  }

  // ---------- Counting events ----------

  function Enters(log: seq<Event>, r: nat): nat {
    if log == [] then 0
    else Enters(log[..|log| - 1], r) + (if log[|log| - 1].Enter? && log[|log| - 1].round == r then 1 else 0)
  }

  function Leaves(log: seq<Event>, r: nat): nat {
    if log == [] then 0
    else Leaves(log[..|log| - 1], r) + (if log[|log| - 1].Leave? && log[|log| - 1].round == r then 1 else 0)
  }

  function Lasts(log: seq<Event>, r: nat): nat {
    if log == [] then 0 else
      Lasts(log[..|log| - 1], r)
      + (if log[|log| - 1].Leave? && log[|log| - 1].round == r && log[|log| - 1].last then 1 else 0)
  }

  lemma Counts(log: seq<Event>, e: Event, r: nat)
    ensures Enters(log + [e], r) == Enters(log, r) + (if e.Enter? && e.round == r then 1 else 0)
    ensures Leaves(log + [e], r) == Leaves(log, r) + (if e.Leave? && e.round == r then 1 else 0)
    ensures Lasts(log + [e], r) == Lasts(log, r) + (if e.Leave? && e.round == r && e.last then 1 else 0)
  {
    assert (log + [e])[..|log|] == log;
  }

  // ---------- The invariant ----------

  function Waiting(s: State): set<Tid> { set t | t in s.pc && s.pc[t].Counted? }

  // The round that the waiting threads belong to.
  function Current(s: State): nat { if s.out > 0 && s.trips > 0 then s.trips - 1 else s.trips }

  ghost predicate Balanced(s: State) {
    && 1 <= s.threshold && s.in_ < s.threshold && s.out < s.threshold && (s.out > 0 ==> s.in_ == 0 && s.trips > 0)
    && |Waiting(s)| == (if s.out > 0 then s.out else s.in_)
    && (forall t :: t in s.pc && s.pc[t].Counted? ==> s.pc[t].round == Current(s))
  }

  ghost predicate Counted_(s: State) {
    forall r: nat ::
      && Enters(s.log, r) == (if r < s.trips then s.threshold else if r == s.trips then s.in_ else 0)
      && Leaves(s.log, r) == (if r >= s.trips then 0 else if r == s.trips - 1 then s.threshold - s.out else s.threshold)
      && Lasts(s.log, r) == (if Leaves(s.log, r) == s.threshold then 1 else 0)
  }

  // What the log says about the round of each event at the moment of the event.
  ghost predicate EventOk(before: seq<Event>, e: Event, threshold: nat) {
    match e
    // A thread counts into a round that is not full, after the round before has been left by all.
    case Enter(_, r) => Enters(before, r) < threshold && (r > 0 ==> Leaves(before, r - 1) == threshold)
    // A thread leaves a round that is full, and returns 1 exactly if it is the last to leave.
    case Leave(_, r, last) =>
      Enters(before, r) == threshold && Leaves(before, r) < threshold && (last <==> Leaves(before, r) == threshold - 1)
  }

  ghost predicate LogOk(s: State) {
    forall i :: 0 <= i < |s.log| ==> EventOk(s.log[..i], s.log[i], s.threshold)
  }

  // Whoever sleeps has reason to: its round is not full, or the round before is not over.
  ghost predicate SleepOk(s: State) {
    forall t :: t in s.asleep ==>
      && t in s.pc && !s.pc[t].Outside? && (s.pc[t].AtGate? ==> s.out != 0)
      && (s.pc[t].Counted? ==> s.in_ != 0 && s.out == 0 && s.pc[t].round == s.trips)
  }

  ghost predicate Inv(s: State) { Balanced(s) && Counted_(s) && LogOk(s) && SleepOk(s) }

  lemma LogGrows(log: seq<Event>, e: Event, threshold: nat)
    requires forall i :: 0 <= i < |log| ==> EventOk(log[..i], log[i], threshold)
    requires EventOk(log, e, threshold)
    ensures forall i :: 0 <= i < |log + [e]| ==> EventOk((log + [e])[..i], (log + [e])[i], threshold)
  {
    var l := log + [e];
    forall i | 0 <= i < |l| ensures EventOk(l[..i], l[i], threshold) {
      assert l[..i] == log[..i];
    }
  }

  lemma ReturnKeeps(s: State, t: Tid, round: nat)
    requires 1 <= s.threshold && s.in_ == 0 && 0 < s.out <= s.threshold && s.trips > 0 && round == s.trips - 1
    requires Counted_(s) && LogOk(s)
    ensures Counted_(Return(s, t, round)) && LogOk(Return(s, t, round))
  {
    var e := Leave(t, round, s.out == 1);
    LogGrows(s.log, e, s.threshold);
    forall r: nat ensures Enters(s.log + [e], r) == Enters(s.log, r)
                  && Leaves(s.log + [e], r) == Leaves(s.log, r) + (if r == round then 1 else 0)
                  && Lasts(s.log + [e], r) == Lasts(s.log, r) + (if r == round && s.out == 1 then 1 else 0)
    {
      Counts(s.log, e, r);
    }
  }

  lemma EnterKeeps(s: State, t: Tid, s': State)
    requires Inv(s) && s.out == 0
    requires s' == s.(in_ := s.in_ + 1, log := s.log + [Enter(t, s.trips)])
    ensures LogOk(s') && forall r: nat ::
      && Enters(s'.log, r) == (if r < s.trips then s.threshold else if r == s.trips then s.in_ + 1 else 0)
      && Leaves(s'.log, r) == Leaves(s.log, r) && Lasts(s'.log, r) == Lasts(s.log, r)
  {
    var e := Enter(t, s.trips);
    LogGrows(s.log, e, s.threshold);
    forall r: nat ensures Enters(s.log + [e], r) == Enters(s.log, r) + (if r == s.trips then 1 else 0)
                  && Leaves(s.log + [e], r) == Leaves(s.log, r) && Lasts(s.log + [e], r) == Lasts(s.log, r)
    {
      Counts(s.log, e, r);
    }
  }

  lemma SectionKeepsWaiting(s: State, t: Tid)
    requires Balanced(s)
    ensures Balanced(Step(s, t))
  {
    hide Enters;
    hide Leaves;
    hide Lasts;
    var s' := Step(s, t);
    assert Waiting(s') == if PcOf(s', t).Counted? then Waiting(s) + {t} else Waiting(s) - {t};
    if PcOf(s, t).Counted? && s.in_ == 0 { assert t in Waiting(s); }
    forall u | u in s'.pc && s'.pc[u].Counted? ensures s'.pc[u].round == Current(s') {
      assert u in Waiting(s');
      if u != t { assert u in Waiting(s) && s'.pc[u] == s.pc[u]; }
    }
  }

  lemma SectionKeepsSleep(s: State, t: Tid)
    requires Balanced(s) && SleepOk(s)
    ensures SleepOk(Step(s, t))
  {
    if PcOf(s, t).Counted? { assert t in Waiting(s); }
  }

  // Every step of every thread keeps the invariant.
  lemma StepKeeps(s: State, t: Tid)
    requires Inv(s)
    ensures Inv(Step(s, t))
  {
    SectionKeepsWaiting(s, t);
    SectionKeepsSleep(s, t);
    hide Waiting, SleepOk;
    match PcOf(s, t)
    case Counted(r) => if s.in_ == 0 && s.out > 0 { ReturnKeeps(s, t, r); }
    case _ =>
      if s.out == 0 {
        var e := s.(in_ := s.in_ + 1, log := s.log + [Enter(t, s.trips)]);
        EnterKeeps(s, t, e);
        if s.in_ + 1 == s.threshold {
          ReturnKeeps(e.(in_ := 0, out := s.threshold, asleep := {}, trips := s.trips + 1), t, s.trips);
        }
      }
  }

  function Init(threshold: nat): State { State(0, 0, threshold, map[], {}, 0, []) }

  lemma {:induction false} RunKeeps(threshold: nat, schedule: seq<Tid>) returns (s: State)
    requires 1 <= threshold
    ensures s == Run(threshold, schedule) && Inv(s) && s.threshold == threshold
  {
    if schedule == [] {
      s := Init(threshold);
      assert Waiting(s) == {};
    } else {
      var u := RunKeeps(threshold, schedule[..|schedule| - 1]);
      s := Step(u, schedule[|schedule| - 1]);
      StepKeeps(u, schedule[|schedule| - 1]);
    }
  }

  // Any number of threads, scheduled in any order, waking up whenever they like.
  function Run(threshold: nat, schedule: seq<Tid>): (s: State)
    requires 1 <= threshold
    ensures s.threshold == threshold && s.in_ < threshold
  {
    if schedule == [] then Init(threshold)
      else Step(Run(threshold, schedule[..|schedule| - 1]), schedule[|schedule| - 1])
  }

  // The promise of a barrier, for every schedule: no thread leaves a round before the
  // threshold has entered it, none enters a round before all have left the one before, and
  // a round that all have left has given the return value 1 to exactly one thread.
  lemma BarrierRounds(threshold: nat, schedule: seq<Tid>, i: nat)
    requires 1 <= threshold && i < |Run(threshold, schedule).log|
    ensures var log := Run(threshold, schedule).log;
            && (log[i].Leave? ==> Enters(log[..i], log[i].round) == threshold)
            && (log[i].Enter? && log[i].round > 0 ==> Leaves(log[..i], log[i].round - 1) == threshold)
            && (forall r: nat ::
               Leaves(log, r) <= threshold && Lasts(log, r) == (if Leaves(log, r) == threshold then 1 else 0))
  {
    var s := RunKeeps(threshold, schedule);
    assert EventOk(s.log[..i], s.log[i], threshold);
  }

  // A full round that some threads have still to leave.
  ghost predicate Leaving(log: seq<Event>, threshold: nat) {
    exists r: nat :: Enters(log, r) == threshold && Leaves(log, r) < threshold
  }

  // No wakeup is lost: in every run, a thread that sleeps waits for a round that is not full,
  // or for the threads that have still to leave a full one.
  lemma NoLostWakeup(threshold: nat, schedule: seq<Tid>, t: Tid)
    requires 1 <= threshold && t in Run(threshold, schedule).asleep
    ensures var s := Run(threshold, schedule);
            && !PcOf(s, t).Outside?
            && (PcOf(s, t).Counted? ==> Enters(s.log, PcOf(s, t).round) < threshold)
            && (PcOf(s, t).AtGate? ==> Leaving(s.log, threshold))
  {
    var s := RunKeeps(threshold, schedule);
    if PcOf(s, t).AtGate? {
      var r := s.trips - 1;
      assert Enters(s.log, r) == threshold && Leaves(s.log, r) < threshold;
    }
  }

  // And whoever takes a step gets on: in every run, a thread of a full round returns from it,
  // and any other thread that is not in a round enters the next one, once all have left the
  // one before.
  lemma StepsGoOn(threshold: nat, schedule: seq<Tid>, t: Tid)
    requires 1 <= threshold
    ensures var s, s' := Run(threshold, schedule), Run(threshold, schedule + [t]);
            && (PcOf(s, t).Counted? ==>
                  var r := PcOf(s, t).round;
                  if Enters(s.log, r) < threshold then s'.log == s.log
                  else PcOf(s', t).Outside? && exists last :: s'.log == s.log + [Leave(t, r, last)])
            && (!PcOf(s, t).Counted? ==>
                  if Leaving(s.log, threshold) then s'.log == s.log
                  else s.log + [Enter(t, s.trips)] <= s'.log && Enters(s.log, s.trips) < threshold)
  {
    var s := RunKeeps(threshold, schedule);
    assert (schedule + [t])[..|schedule|] == schedule;
    assert Run(threshold, schedule + [t]) == Step(s, t);
    match PcOf(s, t)
    case Counted(r) =>
      assert t in Waiting(s);
      if s.out > 0 { assert Step(s, t).log == s.log + [Leave(t, r, s.out == 1)]; }
    case _ =>
      if s.out != 0 {
        assert Enters(s.log, s.trips - 1) == threshold && Leaves(s.log, s.trips - 1) < threshold;
      }
  }

  datatype Result = Einval | Ok

  // struct _uv_barrier. The mutex is held during each method.
  class Barrier {
    var in_: nat
    var out: nat
    var threshold: nat
    ghost var pc: map<Tid, Pc>
    ghost var asleep: set<Tid>  // waiting on cond
    ghost var trips: nat
    ghost var log: seq<Event>

    ghost function View(): State
      reads this
    { State(in_, out, threshold, pc, asleep, trips, log) }

    constructor (count: nat)
      ensures View() == Init(count)
    {
      in_, out, threshold, pc, asleep, trips, log := 0, 0, count, map[], {}, 0, [];
    }

    // uv_barrier_init: a barrier for which the invariant holds, unless the count is zero.
    static method TryInit(count: nat) returns (r: Result, b: Barrier?)
      ensures r == Einval <==> count == 0
      ensures r == Einval ==> b == null
      ensures r == Ok ==> b != null && fresh(b) && b.View() == Init(count) && Inv(b.View())
    {
      if count == 0 { return Einval, null; }
      b := new Barrier(count);
      r := Ok;
      var _ := RunKeeps(count, []);
    }

    // uv_cond_wait up to the moment when the mutex is given up, and uv_cond_broadcast.
    ghost method Sleep(t: Tid)
      modifies this`asleep
      ensures asleep == old(asleep) + {t}
    {
      asleep := asleep + {t};
    }

    ghost method Broadcast()
      modifies this`asleep
      ensures asleep == {}
    {
      asleep := {};
    }

    // From the lock to the first wait, to a wait in the second loop, or to the return.
    // r is the returned value, if the call returns.
    method WaitFromStart(t: Tid) returns (returned: bool, r: int)
      requires Inv(View()) && !PcOf(View(), t).Counted?
      modifies this
      ensures View() == Step(old(View()), t) && Inv(View())
      ensures returned <==> PcOf(View(), t).Outside?
      ensures returned ==> log != [] && log[|log| - 1] == Leave(t, old(trips), r == 1) && (r == 0 || r == 1)
    {
      StepKeeps(View(), t);
      assert 1 <= threshold && in_ < threshold;
      hide Inv, Balanced, SleepOk, LogOk, Counted_;
      returned, r := false, 0;
      if out != 0 {
        pc := pc[t := AtGate];
        Sleep(t);
        return;
      }
      log := log + [Enter(t, trips)];
      in_ := in_ + 1;
      if in_ == threshold {
        in_ := 0;
        out := threshold;
        trips := trips + 1;
        Broadcast();
      } else {
        pc := pc[t := Counted(trips)];
        Sleep(t);
        return;
      }
      out := out - 1;
      var last := out == 0;
      if last { Broadcast(); }
      pc := pc[t := Outside];
      log := log + [Leave(t, trips - 1, last)];
      returned, r := true, if last then 1 else 0;
    }

    // From a wakeup in the second loop to the next wait or to the return.
    method WaitFromWakeup(t: Tid) returns (returned: bool, r: int)
      requires Inv(View()) && PcOf(View(), t).Counted?
      modifies this
      ensures View() == Step(old(View()), t) && Inv(View())
      ensures returned <==> PcOf(View(), t).Outside?
      ensures returned ==> log != [] && log[|log| - 1] == Leave(t, old(pc)[t].round, r == 1) && (r == 0 || r == 1)
    {
      StepKeeps(View(), t);
      returned, r := false, 0;
      asleep := asleep - {t};
      if in_ != 0 {
        Sleep(t);
        return;
      }
      assert t in Waiting(View());
      out := out - 1;
      var last := out == 0;
      if last { Broadcast(); }
      log := log + [Leave(t, pc[t].round, last)];
      pc := pc[t := Outside];
      returned, r := true, if last then 1 else 0;
    }
  }
}
