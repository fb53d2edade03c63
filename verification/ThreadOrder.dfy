// The order in which the thread pool of threadpool.c starts work and reports it: requests of
// a kind start in the order of submission, slow work takes turns with other work, and what
// has been handed to the loop is reported in that order.

module ThreadOrders {

  import opened Wrappers
  import opened Queues
  import opened ThreadPools

  // ---------- Requests of a kind start in the order of submission ----------

  predicate Queued(s: State, isSlow: bool, w: Request) { if isSlow then w in s.slow else Work(w) in s.wq }

  // What is needed of the invariant of all runs.
  ghost predicate Sound(s: State) { Once(s.wq) && Once(s.slow) && (s.slow != [] ==> SlowMessage in s.wq) }

  // v and w are of one kind, and v was submitted first.
  ghost predicate InTurn(s: State, isSlow: bool, v: Request, w: Request) {
    && v in s.at && v != w && !Queued(s, !isSlow, v) && !Queued(s, !isSlow, w)
    && (v in s.cancels || v in s.started || Queued(s, isSlow, v))
    && (Queued(s, isSlow, w) ==>
          v in s.cancels || v in s.started || if isSlow then Ahead(s.slow, v, w) else Ahead(s.wq, Work(v), Work(w)))
    && (w in s.started ==> v in s.cancels || Ahead(s.started, v, w))
  }

  // A worker takes the request of a kind that is ahead of the others.
  lemma ChosenInOrder(wq: seq<Item>, slow: seq<Request>, full: bool, v: Request, w: Request)
    requires Once(wq) && Ahead(wq, Work(v), Work(w))
    ensures var c := Choose(wq, slow, full);
            && (c.Take? && !c.isSlow ==> c.w != w)
            && ((c.Take? && !c.isSlow && c.w == v) || Ahead(c.wq, Work(v), Work(w)))
  {
    AheadTail(wq, Work(v), Work(w));
    OnceTail(wq);
    if wq[0] != Work(v) {
      AheadTail(wq[1..], Work(v), Work(w));
      assert |wq| > 1 && wq[1..][1..] == wq[2..];
      AheadMore(wq[1..], Work(v), Work(w), [SlowMessage]);
      AheadMore(wq[1..], Work(v), Work(w), []);
      if wq[1] != Work(v) { AheadMore(wq[2..], Work(v), Work(w), [SlowMessage]); }
    }
  }

  lemma TakeInTurn(s: State, i: nat, wake: nat, isSlow: bool, v: Request, w: Request)
    requires Sound(s) && Enabled(s, Section(i, wake)) && InTurn(s, isSlow, v, w)
    ensures InTurn(SectionStep(s, i, wake), isSlow, v, w)
  {
    hide Choose, Signal, CanPick, Ahead, Once;
    var running := if s.workers[i] == Ready(true) then s.running - 1 else s.running;
    var full := running >= Threshold(|s.workers|);
    var c := Choose(s.wq, s.slow, full);
    Chosen(s.wq, s.slow, full);
    if Ahead(s.wq, Work(v), Work(w)) { ChosenInOrder(s.wq, s.slow, full, v, w); }
    if Ahead(s.slow, v, w) { AheadTail(s.slow, v, w); }
    if c.Take? {
      if c.w == w { assert Queued(s, isSlow, w); }
      StartInTurn(s, c.w, v, w);
    }
  }

  // A start keeps the order if it is not w that overtakes.
  lemma StartInTurn(s: State, x: Request, v: Request, w: Request)
    requires w in s.started ==> v in s.cancels || Ahead(s.started, v, w)
    requires x == w ==> v in s.cancels || v in s.started
    ensures w in s.started + [x] ==> v in s.cancels || Ahead(s.started + [x], v, w)
  {
    if Ahead(s.started, v, w) { AheadMore(s.started, v, w, [x]); }
    if x == w && v in s.started { AheadEnd(s.started, v, w); }
  }

  lemma SubmitInTurn(s: State, a: Label, isSlow: bool, v: Request, w: Request)
    requires Sound(s) && Enabled(s, a) && InTurn(s, isSlow, v, w)
    requires a.Submit? && (a.w == w ==> a.isSlow == isSlow && w !in s.started)
    ensures InTurn(Next(s, a), isSlow, v, w)
  {
    hide Signal, CanPick;
    if Ahead(s.slow, v, w) { AheadMore(s.slow, v, w, [a.w]); }
    if Ahead(s.wq, Work(v), Work(w)) {
      AheadMore(s.wq, Work(v), Work(w), [SlowMessage]);
      AheadMore(s.wq, Work(v), Work(w), [Work(a.w)]);
    }
    if v in s.slow { AheadEnd(s.slow, v, w); }
    if Work(v) in s.wq { AheadEnd(s.wq, Work(v), Work(w)); }
  }

  lemma CancelInTurn(s: State, x: Request, isSlow: bool, v: Request, w: Request)
    requires Sound(s) && Enabled(s, Cancel(x)) && InTurn(s, isSlow, v, w)
    ensures InTurn(Next(s, Cancel(x)), isSlow, v, w)
  {
    WithoutMembers(s.wq, Work(x));
    WithoutMembers(s.slow, x);
    if x != v && x != w {
      if Ahead(s.slow, v, w) { AheadWithout(s.slow, v, w, x); }
      if Ahead(s.wq, Work(v), Work(w)) { AheadWithout(s.wq, Work(v), Work(w), Work(x)); }
    }
  }

  lemma StepInTurn(s: State, a: Label, isSlow: bool, v: Request, w: Request)
    requires Sound(s) && Enabled(s, a) && InTurn(s, isSlow, v, w)
    requires a.Submit? && a.w == w ==> a.isSlow == isSlow && w !in s.started
    ensures InTurn(Next(s, a), isSlow, v, w)
  {
    match a
    case Section(i, wake) => TakeInTurn(s, i, wake, isSlow, v, w);
    case Submit(_, _, _) => SubmitInTurn(s, a, isSlow, v, w);
    case Cancel(x) => CancelInTurn(s, x, isSlow, v, w);
    case _ =>
  }

  lemma StepOf(n: nat, labels: seq<Label>, states: seq<State>, k: nat)
    requires n >= 1 && IsRun(n, labels, states) && k < |labels|
    ensures |states| == |labels| + 1 && Inv(states[k]) && Sound(states[k]) && Enabled(states[k], labels[k])
    ensures states[k + 1] == Next(states[k], labels[k]) && Inv(states[k + 1])
  {
    RunKeeps(n, labels, states, k);
    RunKeeps(n, labels, states, k + 1);
  }

  lemma StepGrows(s: State, a: Label, w: Request)
    requires Inv(s) && Enabled(s, a) && w in s.at
    ensures w in Next(s, a).at
  {
  }

  lemma {:induction false} StaysSubmitted(n: nat, labels: seq<Label>, states: seq<State>, i: nat, k: nat, w: Request)
    requires n >= 1 && IsRun(n, labels, states) && i <= k <= |labels| && w in states[i].at
    ensures w in states[k].at
    decreases k
  {
    hide *;
    if i < k {
      StaysSubmitted(n, labels, states, i, k - 1, w);
      StepOf(n, labels, states, k - 1);
      StepGrows(states[k - 1], labels[k - 1], w);
    }
  }

  // A request is submitted at most once.
  lemma SubmittedOnce(n: nat, labels: seq<Label>, states: seq<State>, i: nat, k: nat, w: Request)
    requires n >= 1 && IsRun(n, labels, states) && i < k <= |labels| && labels[i].Submit? && labels[i].w == w
    ensures w in states[k].at && (k < |labels| ==> !(labels[k].Submit? && labels[k].w == w))
  {
    assert Enabled(states[i], labels[i]) && states[i + 1] == Next(states[i], labels[i]);
    StaysSubmitted(n, labels, states, i + 1, k, w);
    if k < |labels| { assert Enabled(states[k], labels[k]); }
  }

  lemma FreshAt(s: State, a: Label)
    requires Inv(s) && Enabled(s, a)
    ensures a.Submit? ==> a.w !in s.at && a.w !in s.started
  {
  }

  lemma FirstInTurn(s: State, a: Label, v: Request, w: Request)
    requires Inv(s) && Enabled(s, a) && a.Submit? && a.w == v && w !in Next(s, a).at
    ensures InTurn(Next(s, a), a.isSlow, v, w)
  {
    SubmitKeepsPlaces(s, v, a.isSlow, a.wake);
    OthersKeepHistory(s, a);
  }

  lemma {:induction false} RunInTurn(
    n: nat, labels: seq<Label>, states: seq<State>, i: nat, j: nat, k: nat, isSlow: bool, v: Request, w: Request)
    requires n >= 1 && IsRun(n, labels, states) && i < j < |labels| && i < k <= |labels|
    requires labels[i].Submit? && labels[i].w == v && labels[i].isSlow == isSlow
    requires labels[j].Submit? && labels[j].w == w && labels[j].isSlow == isSlow
    ensures InTurn(states[k], isSlow, v, w)
    decreases k
  {
    hide *;
    StepOf(n, labels, states, k - 1);
    StepOf(n, labels, states, j);
    FreshAt(states[j], labels[j]);
    var s, a := states[k - 1], labels[k - 1];
    if i == k - 1 {
      if w in states[k].at { StaysSubmitted(n, labels, states, k, j, w); }
      FirstInTurn(s, a, v, w);
    } else {
      RunInTurn(n, labels, states, i, j, k - 1, isSlow, v, w);
      if a.Submit? && a.w == w {
        if k - 1 < j { SubmittedOnce(n, labels, states, k - 1, j, w); }
        if j < k - 1 { SubmittedOnce(n, labels, states, j, k - 1, w); }
        FreshAt(s, a);
      }
      StepInTurn(s, a, isSlow, v, w);
    }
  }

  // In every run, of two requests of a kind the one submitted first is started first, unless
  // it was cancelled.
  lemma StartedInOrder(
    n: nat, labels: seq<Label>, states: seq<State>, i: nat, j: nat, k: nat, v: Request, w: Request)
    requires n >= 1 && IsRun(n, labels, states) && i < j < |labels| && k <= |labels|
    requires labels[i].Submit? && labels[i].w == v && labels[j].Submit? && labels[j].w == w
    requires labels[i].isSlow == labels[j].isSlow
    ensures var started := states[k].started;
            w in started ==>
              || v in states[k].cancels
              || exists a, b :: 0 <= a < b < |started| && started[a] == v && started[b] == w
  {
    if w in states[k].started {
      RunKeeps(n, labels, states, k);
      assert w in states[k].at;
      assert Enabled(states[j], labels[j]);
      if k <= j { StaysSubmitted(n, labels, states, k, j, w); }
      RunInTurn(n, labels, states, i, j, k, labels[i].isSlow, v, w);
    }
  }

  // ---------- What is handed to the loop is reported in that order ----------

  function Names(done: seq<Report>): seq<Request> { seq(|done|, i requires 0 <= i < |done| => done[i].w) }

  // The requests that have been handed to the loop, in order.
  function Handed(s: State): seq<Request> { Names(s.done) + s.moved + s.loopQueue }

  // A worker or a cancel hands w to the loop.
  predicate Hands(s: State, a: Label, w: Request) {
    || (a.Finish? && a.i < |s.workers| && s.workers[a.i].Running? && s.workers[a.i].w == w)
    || (a.CancelEnd? && s.removed == Some(w))
  }

  ghost function Handing(s: State, a: Label): Request
    requires Enabled(s, a) && (a.Finish? || a.CancelEnd?)
  {
    if a.Finish? then s.workers[a.i].w else s.removed.value
  }

  lemma CancelOnHanded(s: State, x: Request)
    requires Inv(s) && Enabled(s, Cancel(x)) && CancelWorks(s, x)
    ensures Handed(CancelStep(s, x)) == Without(Handed(s), x)
  {
    assert x !in Names(s.done);
    WithoutMembers(Names(s.done), x);
    WithoutConcat(Names(s.done), s.moved, x);
    WithoutConcat(Names(s.done) + s.moved, s.loopQueue, x);
  }

  lemma DeliverOnHanded(s: State)
    requires Once(s.wq) && Enabled(s, Deliver)
    ensures Handed(Next(s, Deliver)) == Handed(s)
  {
    assert Names(Next(s, Deliver).done) == Names(s.done) + [s.moved[0]];
    assert s.moved == [s.moved[0]] + s.moved[1..];
  }

  // The list of handed requests only grows at its end, but for a request that is cancelled.
  lemma StepOnHanded(s: State, a: Label)
    requires Inv(s) && Enabled(s, a)
    ensures var h, h' := Handed(s), Handed(Next(s, a));
            if a.Cancel? && CancelWorks(s, a.w) then h' == Without(h, a.w)
            else if a.Finish? || a.CancelEnd? then Hands(s, a, Handing(s, a)) && h' == h + [Handing(s, a)]
            else h' == h
  {
    if a.Cancel? && CancelWorks(s, a.w) { CancelOnHanded(s, a.w); }
    if a.Deliver? { DeliverOnHanded(s); }
    hide Inv, Names, Signal, Choose, CanPick, Without;
  }

  ghost predicate InLine(s: State, v: Request, w: Request) {
    v != w && v in Handed(s) && (w in Handed(s) ==> Ahead(Handed(s), v, w))
  }

  lemma StepInLine(s: State, a: Label, v: Request, w: Request)
    requires Inv(s) && Enabled(s, a) && InLine(s, v, w) && !(a == Cancel(v) && CancelWorks(s, v))
    ensures InLine(Next(s, a), v, w)
  {
    StepOnHanded(s, a);
    hide Inv, Enabled, Next, Handed;
    var h := Handed(s);
    if a.Cancel? && CancelWorks(s, a.w) {
      WithoutMembers(h, a.w);
      if a.w != w && w in h { AheadWithout(h, v, w, a.w); }
    } else if a.Finish? || a.CancelEnd? {
      var x := Handing(s, a);
      AheadEnd(h, v, x);
      if w in h { AheadMore(h, v, w, [x]); }
    }
  }

  lemma HandedOnce(s: State)
    requires Inv(s)
    ensures Once(Handed(s))
  {
    var h, d, m := Handed(s), |s.done|, |s.done| + |s.moved|;
    forall i | 0 <= i < |h|
      ensures h[i] in s.at
      ensures s.at[h[i]] == if i < d then Delivered else if i < m then InMovedQueue else InLoopQueue
    {
      if d <= i < m { assert h[i] == s.moved[i - d]; }
      if m <= i { assert h[i] == s.loopQueue[i - m]; }
    }
  }

  lemma {:induction false} StaysHanded(n: nat, labels: seq<Label>, states: seq<State>, a: nat, k: nat, v: Request)
    requires n >= 1 && IsRun(n, labels, states) && a < k <= |labels| && Hands(states[a], labels[a], v)
    requires forall c :: a < c < k && labels[c] == Cancel(v) ==> !CancelWorks(states[c], v)
    ensures v in Handed(states[k])
    decreases k
  {
    hide Inv, Next, Handed, IsRun, Enabled, CancelWorks;
    StepOf(n, labels, states, k - 1);
    var s, l := states[k - 1], labels[k - 1];
    StepOnHanded(s, l);
    if a < k - 1 {
      StaysHanded(n, labels, states, a, k - 1, v);
      if l.Cancel? { WithoutMembers(Handed(s), l.w); }
    }
  }

  lemma {:induction false} RunInLine(
    n: nat, labels: seq<Label>, states: seq<State>, a: nat, b: nat, k: nat, v: Request, w: Request)
    requires n >= 1 && IsRun(n, labels, states) && a < b < k <= |labels| && v != w
    requires Hands(states[a], labels[a], v) && Hands(states[b], labels[b], w)
    requires forall c :: a < c < k && labels[c] == Cancel(v) ==> !CancelWorks(states[c], v)
    ensures InLine(states[k], v, w)
    decreases k
  {
    hide Inv, Next, Handed, IsRun, Enabled, CancelWorks;
    StepOf(n, labels, states, k - 1);
    if b < k - 1 {
      RunInLine(n, labels, states, a, b, k - 1, v, w);
      StepInLine(states[k - 1], labels[k - 1], v, w);
    } else {
      StaysHanded(n, labels, states, a, b, v);
      StepOnHanded(states[b], labels[b]);
      AheadEnd(Handed(states[b]), v, w);
    }
  }

  // In every run, what is handed to the loop first is reported first, unless it is cancelled
  // before it has been reported.
  lemma ReportedInOrder(
    n: nat, labels: seq<Label>, states: seq<State>, a: nat, b: nat, k: nat, v: Request, w: Request)
    requires n >= 1 && IsRun(n, labels, states) && a < b < k <= |labels| && v != w
    requires Hands(states[a], labels[a], v) && Hands(states[b], labels[b], w)
    requires forall c :: a < c < k && labels[c] == Cancel(v) ==> !CancelWorks(states[c], v)
    ensures var done := states[k].done;
            forall q :: 0 <= q < |done| && done[q].w == w ==> exists p :: 0 <= p < q && done[p].w == v
  {
    RunInLine(n, labels, states, a, b, k, v, w);
    RunKeeps(n, labels, states, k);
    HandedOnce(states[k]);
    hide Inv, IsRun;
    var s := states[k];
    var h := Handed(s);
    forall q | 0 <= q < |s.done| && s.done[q].w == w ensures exists p :: 0 <= p < q && s.done[p].w == v {
      assert h[q] == w;
      var i, j :| 0 <= i < j < |h| && h[i] == v && h[j] == w;
      assert j == q;
      assert s.done[i].w == v;
    }
  }

  // ---------- Slow work takes turns with other work ----------

  // Slow work is not started before v is.
  ghost predicate NextTurn(s: State, v: Request) {
    v in s.started || v in s.cancels
    || (Work(v) in s.wq && (SlowMessage in s.wq ==> Ahead(s.wq, Work(v), SlowMessage)))
  }

  // A section that starts slow work.
  ghost predicate StartsSlow(s: State, a: Label) {
    && Sound(s) && Enabled(s, a) && a.Section?
    && Next(s, a).workers[a.i].Running? && Next(s, a).workers[a.i].slow
  }

  lemma SectionNextTurn(s: State, a: Label, v: Request)
    requires Sound(s) && Enabled(s, a) && a.Section? && NextTurn(s, v)
    ensures NextTurn(Next(s, a), v)
    ensures StartsSlow(s, a) ==> v in s.started || v in s.cancels
  {
    if v !in s.started && v !in s.cancels {
      OnceTail(s.wq);
      if SlowMessage in s.wq { AheadTail(s.wq, Work(v), SlowMessage); }
    }
    hide Signal, CanPick;
  }

  lemma StepNextTurn(s: State, a: Label, v: Request)
    requires Sound(s) && Enabled(s, a) && NextTurn(s, v)
    ensures NextTurn(Next(s, a), v)
  {
    hide Signal, CanPick;
    match a
    case Section(_, _) => SectionNextTurn(s, a, v);
    case Submit(x, _, _) =>
      if Ahead(s.wq, Work(v), SlowMessage) { AheadMore(s.wq, Work(v), SlowMessage, [Work(x)]); }
      if Work(v) in s.wq { AheadEnd(s.wq, Work(v), SlowMessage); }
    case Cancel(x) =>
      WithoutMembers(s.wq, Work(x));
      if x != v && Ahead(s.wq, Work(v), SlowMessage) { AheadWithout(s.wq, Work(v), SlowMessage, Work(x)); }
    case _ =>
  }

  // A section that finds the slow message at the head of the queue.
  ghost predicate MeetsMessage(s: State, a: Label) {
    Sound(s) && Enabled(s, a) && a.Section? && s.wq != [] && s.wq[0] == SlowMessage
  }

  // It starts slow work or takes other work, and the message goes behind everything that waits.
  lemma MessageGoesLast(s: State, a: Label, v: Request)
    requires MeetsMessage(s, a) && Work(v) in s.wq
    ensures NextTurn(Next(s, a), v)
  {
    OnceTail(s.wq);
    AheadEnd(s.wq[1..], Work(v), SlowMessage);
    if s.wq[1] != Work(v) {
      OnceTail(s.wq[1..]);
      assert s.wq[1..][1..] == s.wq[2..];
      AheadEnd(s.wq[2..], Work(v), SlowMessage);
    }
    hide Signal, CanPick;
  }

  lemma {:induction false} RunNextTurn(n: nat, labels: seq<Label>, states: seq<State>, a: nat, b: nat, v: Request)
    requires n >= 1 && IsRun(n, labels, states) && a < b <= |labels|
    requires MeetsMessage(states[a], labels[a]) && Work(v) in states[a].wq
    ensures NextTurn(states[b], v)
    decreases b
  {
    hide *;
    StepOf(n, labels, states, b - 1);
    if a < b - 1 {
      RunNextTurn(n, labels, states, a, b - 1, v);
      StepNextTurn(states[b - 1], labels[b - 1], v);
    } else {
      MessageGoesLast(states[a], labels[a], v);
    }
  }

  // In every run: when a worker has found the slow message at the head of the queue, and has
  // started slow work or put it off, no more slow work starts before everything that was in
  // the queue has been started or cancelled.
  lemma SlowTakesTurns(n: nat, labels: seq<Label>, states: seq<State>, a: nat, b: nat, v: Request)
    requires n >= 1 && IsRun(n, labels, states) && a < b < |labels|
    requires MeetsMessage(states[a], labels[a]) && Work(v) in states[a].wq && StartsSlow(states[b], labels[b])
    ensures v in states[b].started || v in states[b].cancels
  {
    RunNextTurn(n, labels, states, a, b, v);
    SectionNextTurn(states[b], labels[b], v);
  }

  // Slow work only starts in such a section.
  lemma SlowMeetsMessage(s: State, a: Label)
    requires StartsSlow(s, a)
    ensures MeetsMessage(s, a) && |Next(s, a).slow| == |s.slow| - 1
  {
    var running := if s.workers[a.i] == Ready(true) then s.running - 1 else s.running;
    Chosen(s.wq, s.slow, running >= Threshold(|s.workers|));
  }

  // ---------- Work waits for good reasons only ----------

  // In every run, while a worker sleeps and no signal is under way, nothing waits but slow
  // work, and that only because (nthreads + 1) / 2 workers are busy with slow work.
  lemma WaitsForThreshold(n: nat, labels: seq<Label>, states: seq<State>, i: nat, k: nat)
    requires n >= 1 && IsRun(n, labels, states) && i <= |labels| && k < |states[i].workers|
    requires states[i].workers[k] == Parked(false)
    requires forall j :: 0 <= j < |states[i].workers| ==> states[i].workers[j] != Parked(true)
    ensures var s := states[i];
            && (forall w :: Work(w) !in s.wq)
            && (s.slow != [] ==> s.running == (n + 1) / 2 && s.running == Count(s.workers, BusySlow))
  {
    RunKeeps(n, labels, states, i);
    CountNone(states[i].workers, Woken);
    var s := states[i];
    if s.wq != [] {
      assert SlowMessage in s.wq && |s.wq| == 1;
      assert s.wq[0] == SlowMessage;
    }
  }
}
