// The timer queue of libuv's timer.c on top of the pointer heap of module HeapInl: a timer
// handle is a heap node, and its other fields are the key that the heap compares.

module Timers {

  import opened HeapInl

  const M64: nat := 0x1_0000_0000_0000_0000
  const UINT64_MAX: nat := M64 - 1
  const INT_MAX: nat := 0x7fff_ffff

  type Uint64 = n: nat | n < M64

  // The clock counts milliseconds and is taken from a 64-bit count of nanoseconds.
  const CLOCK_MAX: nat := UINT64_MAX / 1_000_000

  // The fields of uv_timer_t; hasCb says that timer_cb is not NULL.
  datatype Timer = Timer(hasCb: bool, timeout: Uint64, repeat: Uint64, startId: Uint64, closing: bool)

  type Handle = Node<Timer>

  datatype Status = Ok | Einval

  // timer_less_than
  predicate Less(a: Timer, b: Timer) {
    if a.timeout < b.timeout then true
    else if b.timeout < a.timeout then false
    else a.startId < b.startId
  }

  // The comparison is one that the heap accepts.
  lemma LessIsStrictWeakOrder()
    ensures StrictWeakOrder(Less)
  {
  }

  function Sum64(a: Uint64, b: Uint64): Uint64 { if a + b < M64 then a + b else a + b - M64 }

  // handle->loop->time + timeout in 64 bits, clamped when it wraps.
  function Clamped(time: Uint64, timeout: Uint64): Uint64 {
    var sum := Sum64(time, timeout);
    if sum < timeout then UINT64_MAX else sum
  }

  // The clamp saturates the sum, so a timer is due no earlier than asked for.
  lemma ClampedIsSaturating(time: Uint64, timeout: Uint64)
    ensures Clamped(time, timeout) == if time + timeout < M64 then time + timeout else UINT64_MAX
  {
  }

  // A repeating timer is re-armed strictly in the future, since the clock stays far below
  // the value that the clamp saturates at.
  lemma RearmedInTheFuture(time: Uint64, repeat: Uint64)
    requires repeat > 0
    ensures time < Clamped(time, repeat) <==> time != UINT64_MAX
    ensures time <= CLOCK_MAX ==> time < Clamped(time, repeat)
  {
    ClampedIsSaturating(time, repeat);
  }

  predicate Due(t: Timer, time: Uint64) { t.timeout <= time }

  // What one pass does to a fired handle.
  function Rearmed(t: Timer, time: Uint64, startId: Uint64): Timer {
    if t.repeat == 0 then t else t.(timeout := Clamped(time, t.repeat), startId := startId)
  }

  // The milliseconds until a timer is due, as uv__next_timeout reports them.
  function Wait(t: Timer, time: Uint64): int {
    if t.timeout <= time then 0 else if t.timeout - time > INT_MAX then INT_MAX else t.timeout - time
  }

  lemma WaitFollowsLess(a: Timer, b: Timer, time: Uint64)
    requires !Less(b, a)
    ensures Wait(a, time) <= Wait(b, time)
  {
  }

  // ---------- One pass over the due timers, on values ----------

  // m, a and c are the timers, the active set and the id counter before the pass.
  datatype Pass = Pass(m: map<Handle, Timer>, a: set<Handle>, c: Uint64, time: Uint64)

  ghost predicate Sane(p: Pass) {
    p.a <= p.m.Keys && p.time <= CLOCK_MAX
  }

  ghost predicate DueAtStart(p: Pass, h: Handle) { h in p.a && h in p.m && Due(p.m[h], p.time) }

  // Only due timers have fired, each once.
  ghost predicate FiredOnce(p: Pass, fired: seq<Handle>) {
    && (forall i :: 0 <= i < |fired| ==> DueAtStart(p, fired[i]))
    && (forall i, j :: 0 <= i < j < |fired| ==> fired[i] != fired[j])
  }

  // They fired in order, and what is still to fire comes after them.
  ghost predicate FiredInOrder(p: Pass, fired: seq<Handle>)
    requires FiredOnce(p, fired)
  {
    && (forall i, j :: 0 <= i < j < |fired| ==> !Less(p.m[fired[j]], p.m[fired[i]]))
    && (forall i, h :: 0 <= i < |fired| && h in p.a && DueAtStart(p, h) && h !in fired ==> !Less(p.m[h], p.m[fired[i]]))
  }

  // The id counter before each firing and after the last: every repeater takes an id.
  ghost predicate Ids(p: Pass, fired: seq<Handle>, ids: seq<Uint64>)
    requires FiredOnce(p, fired)
  {
    && |ids| == |fired| + 1 && ids[0] == p.c
    && (forall i :: 0 <= i < |fired| ==> ids[i + 1] == if p.m[fired[i]].repeat > 0 then Sum64(ids[i], 1) else ids[i])
  }

  // The timers and the active set after those firings.
  ghost predicate Reflects(p: Pass, fired: seq<Handle>, ids: seq<Uint64>, m: map<Handle, Timer>, a: set<Handle>)
    requires FiredOnce(p, fired) && |ids| == |fired| + 1
  {
    && m.Keys == p.m.Keys && (forall h :: h in m && h !in fired ==> m[h] == p.m[h])
    && a == (set h | h in p.a && h in p.m && (h !in fired || p.m[h].repeat > 0))
    && (forall i :: 0 <= i < |fired| ==> m[fired[i]] == Rearmed(p.m[fired[i]], p.time, ids[i]))
  }

  lemma OrderStep(p: Pass, fired: seq<Handle>, ids: seq<Uint64>, m: map<Handle, Timer>, a: set<Handle>, h: Handle)
    requires Sane(p) && FiredOnce(p, fired) && FiredInOrder(p, fired) && |ids| == |fired| + 1
      && Reflects(p, fired, ids, m, a)
    requires h in a && Due(m[h], p.time) && forall g :: g in a ==> !Less(m[g], m[h])
    ensures h !in fired && DueAtStart(p, h) && m[h] == p.m[h] && FiredOnce(p, fired + [h])
      && FiredInOrder(p, fired + [h])
  {
    if h in fired {
      var i :| 0 <= i < |fired| && fired[i] == h;
      RearmedInTheFuture(p.time, p.m[h].repeat);
    }
    forall g | DueAtStart(p, g) && g !in fired + [h] ensures !Less(p.m[g], p.m[h]) {
      assert g !in fired;
      assert g in a && m[g] == p.m[g];
    }
  }

  lemma ReflectStep(p: Pass, fired: seq<Handle>, ids: seq<Uint64>, m: map<Handle, Timer>, a: set<Handle>, h: Handle,
    id: Uint64)
    requires FiredOnce(p, fired) && Ids(p, fired, ids) && Reflects(p, fired, ids, m, a)
    requires h !in fired && FiredOnce(p, fired + [h]) && h in m && m[h] == p.m[h]
    requires id == if m[h].repeat > 0 then Sum64(ids[|fired|], 1) else ids[|fired|]
    ensures Ids(p, fired + [h], ids + [id])
    ensures Reflects(p, fired + [h], ids + [id], m[h := Rearmed(m[h], p.time, ids[|fired|])],
      if m[h].repeat > 0 then a else a - {h})
  {
    var f, js := fired + [h], ids + [id];
    var m' := m[h := Rearmed(m[h], p.time, ids[|fired|])];
    assert Ids(p, f, js);
    hide Ids;
    hide FiredOnce;
    forall i | 0 <= i < |f| ensures m'[f[i]] == Rearmed(p.m[f[i]], p.time, js[i]) {
      if i < |fired| { assert f[i] == fired[i] && fired[i] in fired; }
    }
    hide Rearmed;
  }

  // When the least active timer is not due, or none is active, the pass has fired them all.
  lemma PassComplete(p: Pass, fired: seq<Handle>, ids: seq<Uint64>, m: map<Handle, Timer>, a: set<Handle>)
    requires Sane(p) && FiredOnce(p, fired) && |ids| == |fired| + 1 && Reflects(p, fired, ids, m, a)
    requires forall h :: h in a && h in m ==> !Due(m[h], p.time)
    ensures forall h :: h in fired <==> DueAtStart(p, h)
  {
  }

  // The middle of a pass: what has fired, and what the handles, the active set and the
  // counter are by now.
  ghost predicate Midway(p: Pass, fired: seq<Handle>, ids: seq<Uint64>, m: map<Handle, Timer>, a: set<Handle>,
    c: Uint64) {
    && Sane(p) && FiredOnce(p, fired) && FiredInOrder(p, fired)
    && Ids(p, fired, ids) && Reflects(p, fired, ids, m, a) && c == ids[|fired|]
  }

  lemma PassBegins(p: Pass)
    requires Sane(p)
    ensures Midway(p, [], [p.c], p.m, p.a, p.c)
  {
  }

  lemma PassGoesOn(p: Pass, fired: seq<Handle>, ids: seq<Uint64>, m: map<Handle, Timer>, a: set<Handle>, c: Uint64,
    h: Handle)
    requires Midway(p, fired, ids, m, a, c)
    requires h in a && h in m && a <= m.Keys && Due(m[h], p.time) && forall g :: g in a ==> !Less(m[g], m[h])
    ensures h !in fired && DueAtStart(p, h)
    ensures var c' := if m[h].repeat > 0 then Sum64(c, 1) else c;
            Midway(p, fired + [h], ids + [c'], m[h := Rearmed(m[h], p.time, c)], if m[h].repeat > 0 then a else a - {h},
              c')
  {
    OrderStep(p, fired, ids, m, a, h);
    ReflectStep(p, fired, ids, m, a, h, if m[h].repeat > 0 then Sum64(c, 1) else c);
  }

  lemma PassEnds(p: Pass, fired: seq<Handle>, ids: seq<Uint64>, m: map<Handle, Timer>, a: set<Handle>, c: Uint64)
    requires Midway(p, fired, ids, m, a, c) && forall h :: h in a && h in m ==> !Due(m[h], p.time)
    ensures FiredOnce(p, fired) && FiredInOrder(p, fired) && forall h :: h in fired <==> DueAtStart(p, h)
    ensures Ids(p, fired, ids) && Reflects(p, fired, ids, m, a) && c == ids[|fired|]
  {
    PassComplete(p, fired, ids, m, a);
  }

  // What a pass did, in terms of the fields alone.
  lemma PassInFields(p: Pass, fired: seq<Handle>, ids: seq<Uint64>, m: map<Handle, Timer>, a: set<Handle>)
    requires Sane(p) && FiredOnce(p, fired) && FiredInOrder(p, fired) && |ids| == |fired| + 1
    requires Reflects(p, fired, ids, m, a) && forall h :: h in fired <==> DueAtStart(p, h)
    ensures m.Keys == p.m.Keys && forall h :: h in fired <==> h in p.m && h in p.a && p.m[h].timeout <= p.time
    ensures forall i, j :: 0 <= i < j < |fired| ==>
              var x, y := p.m[fired[i]], p.m[fired[j]];
              x.timeout < y.timeout || (x.timeout == y.timeout && x.startId <= y.startId)
    ensures forall h :: h in p.m && h !in fired ==> m[h] == p.m[h] && (h in a <==> h in p.a)
    ensures forall h :: h in fired && p.m[h].repeat == 0 ==> m[h] == p.m[h] && h !in a
    ensures forall h :: h in fired && p.m[h].repeat > 0 ==>
              var due := if p.time + p.m[h].repeat < M64 then p.time + p.m[h].repeat else UINT64_MAX;
              m[h].timeout == due && m[h].repeat == p.m[h].repeat && h in a
  {
  }

  class Loop {
    var time: Uint64
    var counter: Uint64         // timer_counter
    const heap: Heap<Timer>     // timer_heap
    var active: set<Handle>     // the handles with the active flag
    ghost var handles: set<Handle>

    // The fields of all handles.
    ghost function Fields(): map<Handle, Timer>
      reads this`handles, handles`key
    { map h | h in handles :: h.key }

    ghost predicate Valid()
      reads this, heap, heap.nodes, handles
    {
      && time <= CLOCK_MAX && heap.Valid(Less) && heap.nodes == active <= handles
      && (forall h :: h in active ==> h.key.hasCb && !h.key.closing)
    }

    constructor (time: Uint64)
      requires time <= CLOCK_MAX
      ensures Valid() && handles == {} && this.time == time && fresh(heap)
    {
      LessIsStrictWeakOrder();
      heap := new Heap<Timer>(Less);
      this.time, counter, active, handles := time, 0, {}, {};
    }

    // uv_timer_init
    method Init() returns (h: Handle)
      requires Valid()
      modifies this`handles
      ensures Valid() && fresh(h) && handles == old(handles) + {h}
      ensures Fields() == old(Fields())[h := Timer(false, 0, 0, 0, false)]
    {
      h := new HeapInl.Node(Timer(false, 0, 0, 0, false));
      handles := handles + {h};
    }

    // uv_timer_stop
    method Stop(h: Handle)
      requires Valid() && h in handles
      modifies this`active, heap, handles`left, handles`right, handles`parent
      ensures Valid() && active == old(active) - {h}
    {
      if h !in active {
        return;
      }
      heap.Remove(h, Less);
      active := active - {h};
    }

    // uv_timer_start
    method Start(h: Handle, hasCb: bool, timeout: Uint64, repeat: Uint64) returns (r: Status)
      requires Valid() && h in handles
      modifies this`active, this`counter, heap, handles
      ensures Valid() && (r == Einval <==> old(h.key.closing) || !hasCb)
      ensures r == Einval ==> active == old(active) && Fields() == old(Fields()) && counter == old(counter)
      ensures r == Ok ==> active == old(active) + {h} && counter == Sum64(old(counter), 1)
      ensures r == Ok ==>
                var due := if time + timeout < M64 then time + timeout else UINT64_MAX;
                Fields() == old(Fields())[h := Timer(true, due, repeat, old(counter), false)]
    {
      hide Heap.Valid;
      hide Less;
      if h.key.closing || !hasCb {
        return Einval;
      }
      if h in active {
        Stop(h);
      }
      var clamped := Sum64(time, timeout);
      if clamped < timeout {
        clamped := UINT64_MAX;
      }
      ClampedIsSaturating(time, timeout);
      h.key := Timer(hasCb, clamped, repeat, counter, false);
      counter := Sum64(counter, 1);
      heap.Insert(h, Less);
      active := active + {h};
      return Ok;
    }

    // uv_timer_again
    method Again(h: Handle) returns (r: Status)
      requires Valid() && h in handles
      modifies this`active, this`counter, heap, handles
      ensures Valid() && (r == Einval <==> !old(h.key.hasCb))
      ensures if r == Ok && old(h.key.repeat) > 0 && !old(h.key.closing)
              then && active == old(active) + {h} && counter == Sum64(old(counter), 1)
                   && Fields() == old(Fields())[h := Rearmed(old(h.key), time, old(counter))]
              else && Fields() == old(Fields()) && counter == old(counter)
                   && active == if r == Ok && old(h.key.repeat) > 0 then old(active) - {h} else old(active)
    {
      if !h.key.hasCb {
        return Einval;
      }
      if h.key.repeat > 0 {
        ClampedIsSaturating(time, h.key.repeat);
        Stop(h);
        var _ := Start(h, h.key.hasCb, h.key.repeat, h.key.repeat);
      }
      return Ok;
    }

    // uv__next_timeout
    method NextTimeout() returns (r: int)
      requires Valid()
      ensures r == -1 <==> active == {}
      ensures active != {} ==> 0 <= r <= INT_MAX && (exists h :: h in active && r == Wait(h.key, time))
      ensures forall h :: h in active ==> r <= Wait(h.key, time)
      ensures r == 0 <==> exists h :: h in active && h.key.timeout <= time
      ensures r > 0 ==> forall h :: h in active ==> time + r <= h.key.timeout
      ensures 0 < r < INT_MAX ==> exists h :: h in active && h.key.timeout == time + r
    {
      var h := heap.Min_(Less);
      if h == null {
        return -1;
      }
      forall g | g in active ensures Wait(h.key, time) <= Wait(g.key, time) {
        WaitFollowsLess(h.key, g.key, time);
      }
      if h.key.timeout <= time {
        return 0;
      }
      var diff := h.key.timeout - time;
      if diff > INT_MAX {
        diff := INT_MAX;
      }
      return diff;
    }

    // The two calls that uv__run_timers makes before the callback.
    method FireOne(h: Handle)
      requires Valid() && h in active
      modifies this`active, this`counter, heap, handles
      ensures Valid() && Fields() == old(Fields())[h := Rearmed(old(h.key), time, old(counter))]
      ensures active == if old(h.key).repeat > 0 then old(active) else old(active) - {h}
      ensures counter == if old(h.key).repeat > 0 then Sum64(old(counter), 1) else old(counter)
    {
      Stop(h);
      var _ := Again(h);
    }

    // The minimum of the heap, if it is due.
    method NextDue() returns (h: Node?<Timer>)
      requires Valid()
      ensures h == null ==> forall g :: g in active ==> !Due(g.key, time)
      ensures h != null ==> h in active && Due(h.key, time) && forall g :: g in active ==> !Less(g.key, h.key)
    {
      h := heap.Min_(Less);
      if h == null || h.key.timeout > time {
        h := null;
      }
    }

    // uv__run_timers with callbacks that leave the timers alone. fired lists the handles
    // whose callbacks run, in order; ids are the values of the id counter in between.
    method RunTimers() returns (fired: seq<Handle>, ghost ids: seq<Uint64>)
      requires Valid()
      modifies this`active, this`counter, heap, handles
      ensures Valid()
      ensures var p := old(Pass(Fields(), active, counter, time));
              // Exactly the due timers fire, each once, in the order of timer_less_than.
              && (forall h :: h in fired <==> DueAtStart(p, h)) && FiredOnce(p, fired) && FiredInOrder(p, fired)
              // One-shot timers have stopped, repeaters are armed again and carry fresh ids.
              && Ids(p, fired, ids) && Reflects(p, fired, ids, Fields(), active) && counter == ids[|fired|]
      // The same in terms of the fields alone.
      ensures var was, now := old(Fields()), Fields();
              && was.Keys == now.Keys == handles
              && (forall h :: h in fired <==> h in handles && h in old(active) && was[h].timeout <= time)
              && (forall i, j :: 0 <= i < j < |fired| ==>
                    var a, b := was[fired[i]], was[fired[j]];
                    a.timeout < b.timeout || (a.timeout == b.timeout && a.startId <= b.startId))
              && (forall h :: h in handles && h !in fired ==> now[h] == was[h] && (h in active <==> h in old(active)))
              && (forall h :: h in fired && was[h].repeat == 0 ==> now[h] == was[h] && h !in active)
              && (forall h :: h in fired && was[h].repeat > 0 ==>
                    var due := if time + was[h].repeat < M64 then time + was[h].repeat else UINT64_MAX;
                    now[h].timeout == due && now[h].repeat == was[h].repeat && h in active)
      ensures forall h :: h in active ==> h.key.timeout > time
    {
      hide Heap.Valid;
      hide Less;
      hide Midway;
      fired, ids := [], [counter];
      ghost var p := Pass(Fields(), active, counter, time);
      ghost var due := set h | h in active && Due(h.key, time);
      PassBegins(p);
      while true
        invariant Valid() && Midway(p, fired, ids, Fields(), active, counter)
        decreases due - (set h | h in fired)
      {
        var h := NextDue();
        if h == null {
          break;
        }
        PassGoesOn(p, fired, ids, Fields(), active, counter, h);
        FireOne(h);
        assert h in due - (set g | g in fired);
        fired, ids := fired + [h], ids + [counter];
      }
      PassEnds(p, fired, ids, Fields(), active, counter);
      PassInFields(p, fired, ids, Fields(), active);
    }
  }
}
