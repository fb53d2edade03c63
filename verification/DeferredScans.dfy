// DeferredScanManager of scan.py: one delayed task per changed path, two dictionaries that
// track them, and a reaper that removes finished ones.

module DeferredScans {

  type Path = string
  type Id = nat

  // A task of deferred_scan_file: not begun, asleep, returned, or ended by a CancelledError
  // that nothing in it could catch. cancel says that cancel() was called on it.
  datatype Task = Fresh(cancel: bool) | Asleep(cancel: bool) | Returned | Killed

  // The reaper: looking for work, waiting for a set of tasks, going through completed ones,
  // or ended by the CancelledError of a task that it awaited.
  datatype Reaper = Looking | Waiting(watched: set<Id>) | Reaping(todo: set<Id>) | Dead(killer: Id)

  // scans and paths (paths_by_scan) are the dictionaries; queued lists the paths put.
  datatype State = State(scans: map<Path, Id>, paths: map<Id, Path>, tasks: map<Id, Task>, reaper: Reaper,
    queued: seq<Path>)

  datatype Label =
    | Schedule(p: Path, t: Id)     // schedule_file_scan; t names the task, if one is made
    | Cancel(p: Path)              // cancel_file_scan
    | First(t: Id)                 // the task runs for the first time, up to its sleep
    | Wake(t: Id)                  // it wakes up, after ten seconds or by its cancellation
    | Look                         // the reaper calls asyncio.wait on the values of scans
    | Complete(done: set<Id>)      // which returns
    | Reap(t: Id)                  // await task, and the two del statements

  predicate InTmp(p: Path) { "/tmp" <= p }

  predicate Over(s: State, t: Id) { t in s.tasks && (s.tasks[t].Returned? || s.tasks[t].Killed?) }

  ghost predicate Enabled(s: State, a: Label) {
    match a
    case Schedule(_, t) => t !in s.tasks
    case Cancel(_) => true
    case First(t) => t in s.tasks && s.tasks[t].Fresh?
    case Wake(t) => t in s.tasks && s.tasks[t].Asleep?
    case Look => s.reaper.Looking? && s.scans != map[]
    case Complete(done) =>
      s.reaper.Waiting? && done != {} && done <= s.reaper.watched && forall t :: t in done ==> Over(s, t)
    case Reap(t) => s.reaper.Reaping? && t in s.reaper.todo
  }

  function Values(m: map<Path, Id>): set<Id> { set p | p in m :: m[p] }

  function SetTask(s: State, t: Id, k: Task): State { s.(tasks := s.tasks[t := k]) }

  function ReapStep(s: State, t: Id): State
    requires s.reaper.Reaping?
  {
    if t in s.tasks && s.tasks[t].Killed? then s.(reaper := Dead(t))
    else
      var todo := s.reaper.todo - {t};
      var r := if todo == {} then Looking else Reaping(todo);
      if t in s.paths then s.(scans := s.scans - {s.paths[t]}, paths := s.paths - {t}, reaper := r) else s.(reaper := r)
  }

  ghost function Next(s: State, a: Label): State
    requires Enabled(s, a)
  {
    match a
    case Schedule(p, t) =>
      if InTmp(p) || p in s.scans then s
      else s.(scans := s.scans[p := t], paths := s.paths[t := p], tasks := s.tasks[t := Fresh(false)])
    case Cancel(p) =>
      if p !in s.scans || s.scans[p] !in s.tasks then s
      else
        var t := s.scans[p];
        (match s.tasks[t]
         case Fresh(_) => SetTask(s, t, Fresh(true))
         case Asleep(_) => SetTask(s, t, Asleep(true))
         case _ => s)
    case First(t) => SetTask(s, t, if s.tasks[t].cancel then Killed else Asleep(false))
    case Wake(t) =>
      var r := SetTask(s, t, Returned);
      if !s.tasks[t].cancel && t in s.paths then r.(queued := s.queued + [s.paths[t]]) else r
    case Look => s.(reaper := Waiting(Values(s.scans)))
    case Complete(done) => s.(reaper := Reaping(done))
    case Reap(t) => ReapStep(s, t)
  }

  // ---------- The invariant ----------

  // The two dictionaries are inverse to each other.
  ghost predicate Inverse(s: State) {
    && (forall p :: p in s.scans ==> s.scans[p] in s.paths && s.paths[s.scans[p]] == p)
    && (forall t :: t in s.paths ==> s.paths[t] in s.scans && s.scans[s.paths[t]] == t)
  }

  ghost predicate Inv(s: State) {
    && Inverse(s) && s.paths.Keys <= s.tasks.Keys
    && (s.reaper.Waiting? ==> s.reaper.watched <= s.paths.Keys)
    && (s.reaper.Reaping? ==> s.reaper.todo <= s.paths.Keys && forall t :: t in s.reaper.todo ==> Over(s, t))
    // a task that is not tracked has returned and was reaped; a path in /tmp is never tracked
    && (forall t :: t in s.tasks && t !in s.paths ==> s.tasks[t].Returned?)
    && (forall p :: p in s.scans ==> !InTmp(p))
    // a dead reaper leaves the task that killed it tracked
    && (s.reaper.Dead? ==> s.reaper.killer in s.paths && s.tasks[s.reaper.killer].Killed?)
  }

  lemma ReapKeeps(s: State, t: Id)
    requires Inv(s) && Enabled(s, Reap(t))
    ensures Inv(ReapStep(s, t))
  {
    var s' := ReapStep(s, t);
    assert t in s.paths;
    if !s.tasks[t].Killed? {
      var p := s.paths[t];
      assert s.scans[p] == t;
      forall u | u in s'.paths
        ensures s'.paths[u] in s'.scans && s'.scans[s'.paths[u]] == u { assert u in s.paths && s.paths[u] != p; }
    }
  }

  lemma ScheduleKeeps(s: State, p: Path, t: Id)
    requires Inv(s) && t !in s.tasks
    ensures Inv(Next(s, Schedule(p, t)))
  {
  }

  lemma TaskKeeps(s: State, a: Label)
    requires Inv(s) && Enabled(s, a) && (a.Cancel? || a.First? || a.Wake?)
    ensures Inv(Next(s, a))
  {
    hide Inverse;
    var n := Next(s, a);
    assert n.scans == s.scans && n.paths == s.paths && n.reaper == s.reaper && n.tasks.Keys == s.tasks.Keys;
    assert Inverse(n) by { InverseSame(s, n); }
  }

  lemma InverseSame(s: State, n: State)
    requires Inverse(s) && n.scans == s.scans && n.paths == s.paths
    ensures Inverse(n)
  {
  }

  lemma ReaperKeeps(s: State, a: Label)
    requires Inv(s) && Enabled(s, a) && (a.Look? || a.Complete?)
    ensures Inv(Next(s, a))
  {
  }

  lemma StepKeeps(s: State, a: Label)
    requires Inv(s) && Enabled(s, a)
    ensures Inv(Next(s, a))
  {
    hide Inv;
    match a
    case Reap(t) => ReapKeeps(s, t);
    case Schedule(p, t) => ScheduleKeeps(s, p, t);
    case Look => ReaperKeeps(s, a);
    case Complete(_) => ReaperKeeps(s, a);
    case _ => TaskKeeps(s, a);
  }

  const START: State := State(map[], map[], map[], Looking, [])

  ghost predicate IsRun(labels: seq<Label>, states: seq<State>) {
    && |states| == |labels| + 1 && states[0] == START
    && (forall i :: 0 <= i < |labels| ==> Enabled(states[i], labels[i]) && states[i + 1] == Next(states[i], labels[i]))
  }

  lemma {:induction false} RunKeeps(labels: seq<Label>, states: seq<State>, i: nat)
    requires IsRun(labels, states) && i <= |labels|
    ensures Inv(states[i])
  {
    if i > 0 {
      RunKeeps(labels, states, i - 1);
      StepKeeps(states[i - 1], labels[i - 1]);
      assert states[i - 1 + 1] == states[i];
    }
  }

  // In every run, scans and paths_by_scan are mutually inverse, so a path has at most one
  // tracked task and every task that may still put its path is tracked.
  lemma OneTaskPerPath(labels: seq<Label>, states: seq<State>, i: nat)
    requires IsRun(labels, states) && i <= |labels|
    ensures var s := states[i];
            && Inverse(s)
            && (forall t, u :: t in s.paths && u in s.paths && s.paths[t] == s.paths[u] ==> t == u)
            && (forall t :: t in s.tasks && !Over(s, t) ==> t in s.paths && s.scans[s.paths[t]] == t)
  {
    RunKeeps(labels, states, i);
  }

  // ---------- How long a path is tracked, and what its task puts ----------

  // A task and the path that it is tracked for.
  predicate Tracks(s: State, t: Id, p: Path) { t in s.paths && s.paths[t] == p && p in s.scans && s.scans[p] == t }

  // The reaper has gone through t between the steps k and i.
  ghost predicate ReapedSince(labels: seq<Label>, states: seq<State>, k: int, i: nat, t: Id)
    requires IsRun(labels, states) && i <= |labels| && -1 <= k
  { exists m :: k < m < i && labels[m] == Reap(t) && states[m + 1].reaper != Dead(t) }

  // t has been made for p, by the call of schedule_file_scan at step k.
  ghost predicate MadeAt(labels: seq<Label>, states: seq<State>, k: nat, t: Id, p: Path)
    requires IsRun(labels, states) && k < |labels|
  { labels[k] == Schedule(p, t) && !("/tmp" <= p) && p !in states[k].scans }

  lemma TrackStep(s: State, a: Label, t: Id, p: Path)
    requires Inv(s) && Enabled(s, a)
    ensures Tracks(Next(s, a), t, p) <==>
      || (Tracks(s, t, p) && !(a == Reap(t) && Next(s, a).reaper != Dead(t)))
      || (a == Schedule(p, t) && !("/tmp" <= p) && p !in s.scans)
  {
  }

  // In every run, a task is tracked for a path exactly from the call that made it until the
  // reaper has gone through it.
  lemma {:induction false} TrackedUntilReaped(labels: seq<Label>, states: seq<State>, i: nat, t: Id, p: Path)
    requires IsRun(labels, states) && i <= |labels|
    ensures Tracks(states[i], t, p) <==>
      exists k :: 0 <= k < i && MadeAt(labels, states, k, t, p) && !ReapedSince(labels, states, k, i, t)
  {
    if i > 0 {
      TrackedUntilReaped(labels, states, i - 1, t, p);
      StepOf(labels, states, i - 1);
      TrackStep(states[i - 1], labels[i - 1], t, p);
      var gone := labels[i - 1] == Reap(t) && states[i].reaper != Dead(t);
      assert gone ==> states[i - 1 + 1].reaper != Dead(t);
      assert forall k :: 0 <= k < i - 1 ==>
        (ReapedSince(labels, states, k, i, t) <==> ReapedSince(labels, states, k, i - 1, t) || gone);
      assert !ReapedSince(labels, states, i - 1, i, t);
      if Tracks(states[i], t, p) {
        if MadeAt(labels, states, i - 1, t, p) {
        } else {
          var k :| 0 <= k < i - 1 && MadeAt(labels, states, k, t, p) && !ReapedSince(labels, states, k, i - 1, t);
          assert !ReapedSince(labels, states, k, i, t);
        }
      }
    }
  }

  lemma FreeStep(s: State, a: Label, p: Path)
    requires Inv(s) && Enabled(s, a) && p !in s.scans && (a.Schedule? ==> a.p != p)
    ensures p !in Next(s, a).scans
  {
  }

  // A reaped path is free again, and the next call of schedule_file_scan for it, at any later
  // step, makes a live task.
  lemma {:induction false} ReapedIsServedAgain(labels: seq<Label>, states: seq<State>, i: nat, j: nat, p: Path)
    requires IsRun(labels, states) && i < j <= |labels| && labels[i].Reap? && states[i + 1].reaper != Dead(labels[i].t)
    requires Tracks(states[i], labels[i].t, p)
    requires forall k :: i < k < j && labels[k].Schedule? ==> labels[k].p != p
    ensures p !in states[j].scans && !("/tmp" <= p)
    ensures j < |labels| && labels[j].Schedule? && labels[j].p == p ==>
      Tracks(states[j + 1], labels[j].t, p) && states[j + 1].tasks[labels[j].t] == Fresh(false)
  {
    hide IsRun, Inv, Next, Enabled, Tracks;
    StepOf(labels, states, j - 1);
    if j < |labels| { StepOf(labels, states, j); }
    if i < j - 1 {
      ReapedIsServedAgain(labels, states, i, j - 1, p);
      FreeStep(states[j - 1], labels[j - 1], p);
    } else {
      ReapFrees(states[i], labels[i].t, p);
    }
    if j < |labels| && labels[j].Schedule? && labels[j].p == p { FreeIsScheduled(states[j], p, labels[j].t); }
  }

  lemma ReapFrees(s: State, t: Id, p: Path)
    requires Inv(s) && Enabled(s, Reap(t)) && Tracks(s, t, p) && Next(s, Reap(t)).reaper != Dead(t)
    ensures p !in Next(s, Reap(t)).scans && !("/tmp" <= p)
  {
  }

  lemma FreeIsScheduled(s: State, p: Path, t: Id)
    requires Inv(s) && Enabled(s, Schedule(p, t)) && p !in s.scans && !("/tmp" <= p)
    ensures var n := Next(s, Schedule(p, t)); Tracks(n, t, p) && n.tasks[t] == Fresh(false)
  {
  }

  // A call of cancel_file_scan has reached t in the first i steps.
  ghost predicate Cancelled(labels: seq<Label>, states: seq<State>, i: nat, t: Id)
    requires IsRun(labels, states) && i <= |labels|
  {
    exists j :: 0 <= j < i && labels[j].Cancel? && labels[j].p in states[j].scans && states[j].scans[labels[j].p] == t
  }

  predicate Pending(s: State, t: Id) { t in s.tasks && !Over(s, t) }

  lemma PendingStep(s: State, a: Label, t: Id)
    requires Inv(s) && Enabled(s, a) && Pending(Next(s, a), t)
    ensures var hit := a.Cancel? && a.p in s.scans && s.scans[a.p] == t;
      && (Next(s, a).tasks[t].cancel <==> (Pending(s, t) && s.tasks[t].cancel) || hit)
      && (!Pending(s, t) ==> a.Schedule? && t !in s.tasks)
  {
  }

  lemma {:induction false} NotYetCancelled(labels: seq<Label>, states: seq<State>, i: nat, t: Id)
    requires IsRun(labels, states) && i <= |labels| && t !in states[i].tasks
    ensures !Cancelled(labels, states, i, t)
  {
    hide IsRun, Enabled, Next, Inv;
    if i > 0 {
      StepOf(labels, states, i - 1);
      HitIsMade(states[i - 1], labels[i - 1], t);
      NotYetCancelled(labels, states, i - 1, t);
    }
  }

  lemma HitIsMade(s: State, a: Label, t: Id)
    requires Inv(s) && Enabled(s, a) && t !in Next(s, a).tasks
    ensures t !in s.tasks && !(a.Cancel? && a.p in s.scans && s.scans[a.p] == t)
  {
  }

  lemma {:induction false} CancelIsMarked(labels: seq<Label>, states: seq<State>, i: nat, t: Id)
    requires IsRun(labels, states) && i <= |labels| && Pending(states[i], t)
    ensures states[i].tasks[t].cancel <==> Cancelled(labels, states, i, t)
  {
    if i > 0 {
      StepOf(labels, states, i - 1);
      PendingStep(states[i - 1], labels[i - 1], t);
      if Pending(states[i - 1], t) {
        CancelIsMarked(labels, states, i - 1, t);
      } else {
        NotYetCancelled(labels, states, i - 1, t);
      }
    }
  }

  // In every run, a path is put only when a task that is tracked for it wakes up, and then
  // exactly if no call of cancel_file_scan has reached that task.
  lemma PutUnlessCancelled(labels: seq<Label>, states: seq<State>, i: nat)
    requires IsRun(labels, states) && i < |labels|
    ensures !labels[i].Wake? ==> states[i + 1].queued == states[i].queued
    ensures labels[i].Wake? ==>
      var t := labels[i].t;
      && t in states[i].paths && Tracks(states[i], t, states[i].paths[t])
      && states[i + 1].queued == states[i].queued
           + (if Cancelled(labels, states, i, t) then [] else [states[i].paths[t]])
  {
    StepOf(labels, states, i);
    if labels[i].Wake? {
      CancelIsMarked(labels, states, i, labels[i].t);
    }
  }

  // ---------- When the reaper dies ----------

  // A cancellation that reaches a task before its first step.
  ghost predicate EarlyCancel(s: State, a: Label) {
    a.Cancel? && a.p in s.scans && s.scans[a.p] in s.tasks && s.tasks[s.scans[a.p]].Fresh?
  }

  // Whether t has been cancelled before its first step in the first i steps.
  ghost predicate CancelledEarly(labels: seq<Label>, states: seq<State>, i: nat, t: Id)
    requires IsRun(labels, states) && i <= |labels|
  { exists j :: 0 <= j < i && EarlyCancel(states[j], labels[j]) && states[j].scans[labels[j].p] == t }

  // Whether a task carries the mark of an early cancellation.
  predicate Marked(s: State, t: Id) { t in s.tasks && (s.tasks[t] == Fresh(true) || s.tasks[t].Killed?) }

  lemma MarkStep(s: State, a: Label, t: Id)
    requires Inv(s) && Enabled(s, a)
    ensures Marked(Next(s, a), t) <==> Marked(s, t) || (EarlyCancel(s, a) && s.scans[a.p] == t)
  {
  }

  // A task carries the mark exactly if such a cancellation has reached it.
  lemma {:induction false} MarkedIffEarly(labels: seq<Label>, states: seq<State>, i: nat, t: Id)
    requires IsRun(labels, states) && i <= |labels|
    ensures Marked(states[i], t) <==> CancelledEarly(labels, states, i, t)
  {
    if i > 0 {
      MarkedIffEarly(labels, states, i - 1, t);
      RunKeeps(labels, states, i - 1);
      MarkStep(states[i - 1], labels[i - 1], t);
      assert states[i - 1 + 1] == states[i];
      if CancelledEarly(labels, states, i - 1, t) {
        var j :| 0 <= j < i - 1 && EarlyCancel(states[j], labels[j]) && states[j].scans[labels[j].p] == t;
      }
    }
  }

  // The reaper dies at a step exactly if it comes to a task that was cancelled before its
  // first step. In a run without such cancellations it never dies.
  lemma ReaperDies(labels: seq<Label>, states: seq<State>, i: nat)
    requires IsRun(labels, states) && i < |labels| && !states[i].reaper.Dead?
    ensures states[i + 1].reaper.Dead? <==> labels[i].Reap? && CancelledEarly(labels, states, i, labels[i].t)
  {
    RunKeeps(labels, states, i);
    if labels[i].Reap? {
      MarkedIffEarly(labels, states, i, labels[i].t);
    }
  }

  lemma DeadStep(s: State, a: Label)
    requires Inv(s) && Enabled(s, a) && s.reaper.Dead?
    ensures var n := Next(s, a);
      n.reaper == s.reaper && forall p :: p in s.scans ==> p in n.scans && n.scans[p] == s.scans[p]
  {
  }

  // After that, every tracked path stays tracked for ever, so scheduling it does nothing.
  lemma {:induction false} StuckForEver(labels: seq<Label>, states: seq<State>, i: nat, j: nat, p: Path)
    requires IsRun(labels, states) && i <= j <= |labels| && states[i].reaper.Dead? && p in states[i].scans
    ensures states[j].reaper.Dead? && p in states[j].scans
    ensures j < |labels| && labels[j].Schedule? && labels[j].p == p ==> states[j + 1] == states[j]
  {
    if i < j {
      StuckForEver(labels, states, i, j - 1, p);
      RunKeeps(labels, states, j - 1);
      DeadStep(states[j - 1], labels[j - 1]);
      assert states[j - 1 + 1] == states[j];
    }
  }

  // The task of p when it is cancelled before its first step.
  function KilledEarly(p: Path): State { State(map[p := 0], map[0 := p], map[0 := Killed], Looking, []) }

  lemma CancelledBeforeStart(p: Path) returns (s1: State, s2: State)
    requires !InTmp(p)
    ensures Enabled(START, Schedule(p, 0)) && Next(START, Schedule(p, 0)) == s1
    ensures Enabled(s1, Cancel(p)) && Next(s1, Cancel(p)) == s2
    ensures Enabled(s2, First(0)) && Next(s2, First(0)) == KilledEarly(p)
  {
    s1 := Next(START, Schedule(p, 0));
    s2 := Next(s1, Cancel(p));
    assert Next(s2, First(0)).tasks == map[0 := Killed];
  }

  lemma ReaperMeetsKilled(p: Path) returns (s4: State, s5: State, s6: State)
    ensures Enabled(KilledEarly(p), Look) && Next(KilledEarly(p), Look) == s4
    ensures Enabled(s4, Complete({0})) && Next(s4, Complete({0})) == s5
    ensures Enabled(s5, Reap(0)) && Next(s5, Reap(0)) == s6 && s6.reaper == Dead(0) && p in s6.scans
  {
    var s3 := KilledEarly(p);
    assert p in s3.scans && s3.scans[p] in Values(s3.scans);
    assert Values(s3.scans) == {0};
    s4 := s3.(reaper := Waiting({0}));
    s5 := s3.(reaper := Reaping({0}));
    s6 := s3.(reaper := Dead(0));
  }

  // It happens: a batch of events that writes and removes the same file is enough.
  lemma WriteThenRemove(p: Path) returns (labels: seq<Label>, states: seq<State>)
    requires !InTmp(p)
    ensures IsRun(labels, states) && states[|labels|].reaper == Dead(0) && p in states[|labels|].scans
    ensures |labels| > 2 && labels[0] == Schedule(p, 0) && labels[1] == Cancel(p)
  {
    hide Enabled;
    hide Next;
    hide KilledEarly;
    var s1, s2 := CancelledBeforeStart(p);
    var s4, s5, s6 := ReaperMeetsKilled(p);
    labels := [Schedule(p, 0), Cancel(p), First(0), Look, Complete({0}), Reap(0)];
    states := [START, s1, s2, KilledEarly(p), s4, s5, s6];
  }

  // ---------- When a write is scanned ----------

  // A tracked task that is going to put its path.
  predicate Live(s: State, p: Path) {
    && p in s.scans && s.scans[p] in s.tasks
    && (s.tasks[s.scans[p]] == Fresh(false) || s.tasks[s.scans[p]] == Asleep(false))
  }

  // p has been put since the queue was was, or is going to be.
  ghost predicate Served(s: State, p: Path, was: seq<Path>) {
    was <= s.queued && (Live(s, p) || p in s.queued[|was|..])
  }

  // A step that neither schedules nor cancels p.
  predicate Apart(a: Label, p: Path) { (a.Schedule? || a.Cancel?) ==> a.p != p }

  lemma ServedStep(s: State, a: Label, p: Path, was: seq<Path>)
    requires Inv(s) && Enabled(s, a) && Apart(a, p) && was <= s.queued
    ensures was <= Next(s, a).queued && (Served(Next(s, a), p, was) <==> Served(s, p, was))
  {
    if a.Reap? {
      ReapKeeps(s, a.t);
    } else if a.Wake? {
      WakeServes(s, a.t, p, was);
    }
  }

  lemma WakeServes(s: State, t: Id, p: Path, was: seq<Path>)
    requires Inv(s) && Enabled(s, Wake(t)) && was <= s.queued
    ensures var n := Next(s, Wake(t)); was <= n.queued && (Served(n, p, was) <==> Served(s, p, was))
  {
    var n := Next(s, Wake(t));
    if n.queued != s.queued {
      var q := s.paths[t];
      assert n.queued[|was|..] == s.queued[|was|..] + [q];
      assert s.scans[q] == t && Live(s, q);
    }
  }

  // A write of p that is reported at step i is going to be scanned, or has been put for it,
  // until p is scheduled or cancelled again, exactly if no task of p is tracked at that
  // moment, or one that is neither cancelled nor over. Otherwise it is dropped.
  lemma {:induction false} WriteIsServed(labels: seq<Label>, states: seq<State>, i: nat, j: nat, p: Path)
    requires IsRun(labels, states) && i < j <= |labels| && labels[i].Schedule? && labels[i].p == p && !InTmp(p)
    requires forall k :: i < k < j ==> Apart(labels[k], p)
    ensures states[i].queued <= states[j].queued
    ensures Served(states[j], p, states[i].queued) <==> p !in states[i].scans || Live(states[i], p)
  {
    hide IsRun;
    hide Enabled;
    hide Next;
    hide Inv;
    hide Live;
    hide Served;
    StepOf(labels, states, j - 1);
    if i == j - 1 {
      ScheduleServes(states[i], p, labels[i].t);
    } else {
      WriteIsServed(labels, states, i, j - 1, p);
      ServedStep(states[j - 1], labels[j - 1], p, states[i].queued);
    }
  }

  lemma StepOf(labels: seq<Label>, states: seq<State>, k: nat)
    requires IsRun(labels, states) && k < |labels|
    ensures |states| == |labels| + 1 && Inv(states[k])
    ensures Enabled(states[k], labels[k]) && states[k + 1] == Next(states[k], labels[k])
  {
    RunKeeps(labels, states, k);
  }

  lemma ScheduleServes(s: State, p: Path, t: Id)
    requires Inv(s) && Enabled(s, Schedule(p, t)) && !InTmp(p)
    ensures var n := Next(s, Schedule(p, t));
            n.queued == s.queued && (Served(n, p, s.queued) <==> p !in s.scans || Live(s, p))
  {
    var n := Next(s, Schedule(p, t));
    assert n.queued[|s.queued|..] == [];
  }

  // It happens that it is dropped: a file that is written, removed and written again before
  // its cancelled task wakes up is never put.
  lemma WriteIsDropped(p: Path) returns (labels: seq<Label>, states: seq<State>)
    requires !InTmp(p)
    ensures labels == [Schedule(p, 0), First(0), Cancel(p), Schedule(p, 1), Wake(0)] && IsRun(labels, states)
    ensures states[5].queued == [] && !Live(states[5], p)
  {
    labels := [Schedule(p, 0), First(0), Cancel(p), Schedule(p, 1), Wake(0)];
    var s := State(map[p := 0], map[0 := p], map[0 := Fresh(false)], Looking, []);
    var t, u, v := s.(tasks := map[0 := Asleep(false)]), s.(tasks := map[0 := Asleep(true)]),
      s.(tasks := map[0 := Returned]);
    assert Next(START, labels[0]) == s && Next(s, labels[1]) == t && Next(t, labels[2]) == u;
    assert Next(u, labels[3]) == u && Next(u, labels[4]) == v;
    hide Next;
    states := [START, s, t, u, u, v];
  }

  // ---------- The program ----------

  class DeferredScanManager {
    var scans: map<Path, Id>
    var pathsByScan: map<Id, Path>
    ghost var tasks: map<Id, Task>
    ghost var reaper: Reaper
    ghost var queued: seq<Path>

    ghost function View(): State
      reads this
    { State(scans, pathsByScan, tasks, reaper, queued) }

    constructor ()
      ensures View() == START
    {
      scans, pathsByScan, tasks, reaper, queued := map[], map[], map[], Looking, [];
    }

    // schedule_file_scan; t is the task that create_task would return.
    method ScheduleFileScan(filePath: Path, t: Id)
      requires Inv(View()) && t !in tasks
      modifies this
      ensures View() == Next(old(View()), Schedule(filePath, t)) && Inv(View())
      ensures reaper == old(reaper) && queued == old(queued)
      ensures var made := !("/tmp" <= filePath) && filePath !in old(scans);
        && scans == (if made then old(scans)[filePath := t] else old(scans))
        && pathsByScan == (if made then old(pathsByScan)[t := filePath] else old(pathsByScan))
        && tasks == (if made then old(tasks)[t := Fresh(false)] else old(tasks))
    {
      StepKeeps(View(), Schedule(filePath, t));
      if InTmp(filePath) { return; }
      if filePath in scans { return; }
      tasks := tasks[t := Fresh(false)];
      scans := scans[filePath := t];
      pathsByScan := pathsByScan[t := filePath];
    }

    // cancel_file_scan
    method CancelFileScan(filePath: Path)
      requires Inv(View())
      modifies this
      ensures View() == Next(old(View()), Cancel(filePath)) && Inv(View())
      ensures scans == old(scans) && pathsByScan == old(pathsByScan) && tasks.Keys == old(tasks).Keys
      ensures reaper == old(reaper) && queued == old(queued)
      ensures forall t :: t in tasks ==>
        tasks[t] == (if filePath in scans && scans[filePath] == t && !Over(old(View()), t)
                     then old(tasks)[t].(cancel := true) else old(tasks)[t])
    {
      StepKeeps(View(), Cancel(filePath));
      if filePath in scans {
        var t := scans[filePath];
        // Task.cancel, which does nothing to a task that is over
        tasks := match tasks[t]
          case Fresh(_) => tasks[t := Fresh(true)]
          case Asleep(_) => tasks[t := Asleep(true)]
          case _ => tasks;
      }
    }

    // The two del statements of the reaper for a task that did not end with CancelledError.
    method Forget(t: Id)
      requires Inv(View()) && Enabled(View(), Reap(t)) && tasks[t].Returned?
      modifies this
      ensures View() == Next(old(View()), Reap(t)) && Inv(View())
      ensures scans == old(scans) - {old(pathsByScan)[t]} && pathsByScan == old(pathsByScan) - {t}
      ensures tasks == old(tasks) && queued == old(queued)
      ensures reaper == (if old(reaper).todo == {t} then Looking else Reaping(old(reaper).todo - {t}))
    {
      StepKeeps(View(), Reap(t));
      scans := scans - {pathsByScan[t]};
      pathsByScan := pathsByScan - {t};
      reaper := if reaper.todo - {t} == {} then Looking else Reaping(reaper.todo - {t});
    }
  }
}
