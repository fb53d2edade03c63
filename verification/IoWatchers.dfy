// The file descriptor watchers of libuv's unix/core.c and their lazy registration with
// epoll in unix/linux.c.

module IoWatchers {

  import opened Powers
  import opened Queues

  datatype Flag = In | Out | RdHup | Pri

  // uv__io_t; the masks are sets of flags.
  class Io {
    const fd: int
    var events: set<Flag>
    var pevents: set<Flag>

    // uv__io_init
    constructor (fd: int)
      requires fd >= -1
      ensures this.fd == fd && events == {} && pevents == {}
    {
      this.fd, events, pevents := fd, {}, {};
    }
  }

  lemma AllFlags(s: set<Flag>)
    ensures s - {In, Out, RdHup, Pri} == {}
  {
    forall f | f in s ensures f in {In, Out, RdHup, Pri} {
      match f
      case In =>
      case Out =>
      case RdHup =>
      case Pri =>
    }
  }

  // An entry of loop->watchers: NULL, a watcher, or one of the two entries behind the slots,
  // which hold the descriptors of the events that are being dispatched and their number.
  datatype Slot = Empty | Watcher(w: Io) | Events(fds: array<int>) | Amount(n: nat)

  datatype Op = Add | Mod | Del
  datatype Errno = Ok | Eexist | Enoent

  // ---------- next_power_of_two ----------

  const WORD: nat := 0x1_0000_0000

  // v | w and v >> k on unsigned numbers.
  function Or(v: nat, w: nat): nat {
    if v == 0 && w == 0 then 0 else 2 * Or(v / 2, w / 2) + (if v % 2 == 1 || w % 2 == 1 then 1 else 0)
  }

  function Shr(v: nat, k: nat): nat { if k == 0 then v else Shr(v / 2, k - 1) }

  predicate Bit(v: nat, i: nat) { if i == 0 then v % 2 == 1 else Bit(v / 2, i - 1) }

  // How many bits v has.
  function Bits(v: nat): nat { if v == 0 then 0 else 1 + Bits(v / 2) }

  function Spread(v: nat, k: nat): nat { Or(v, Shr(v, k)) }
  function Smear(v: nat): nat { Spread(Spread(Spread(Spread(Spread(v, 1), 2), 4), 8), 16) }

  // next_power_of_two in 32 bits.
  function NextPowerOfTwo(v: nat): nat
    requires v < WORD
  { (Smear(if v == 0 then WORD - 1 else v - 1) + 1) % WORD }

  lemma {:induction false} OrBit(v: nat, w: nat, i: nat)
    ensures Bit(Or(v, w), i) <==> Bit(v, i) || Bit(w, i)
    decreases i
  {
    if v == 0 && w == 0 {
      ZeroBit(i);
    } else if i > 0 {
      OrBit(v / 2, w / 2, i - 1);
    }
  }

  lemma {:induction false} ZeroBit(i: nat)
    ensures !Bit(0, i)
  {
    if i > 0 { ZeroBit(i - 1); }
  }

  lemma {:induction false} ShrBit(v: nat, k: nat, i: nat)
    ensures Bit(Shr(v, k), i) <==> Bit(v, i + k)
    decreases k
  {
    if k > 0 { ShrBit(v / 2, k - 1, i); }
  }

  lemma {:induction false} TopBit(v: nat, i: nat)
    ensures Bit(v, i) ==> i < Bits(v)
    ensures v > 0 && i == Bits(v) - 1 ==> Bit(v, i)
    decreases v
  {
    if v == 0 {
      ZeroBit(i);
    } else if i > 0 {
      TopBit(v / 2, i - 1);
    } else if v / 2 > 0 {
      TopBit(v / 2, 0);
    }
  }

  // The top j of n bits are ones, and there are no more than n bits.
  ghost predicate Ones(v: nat, n: nat, j: nat) {
    forall i: nat :: (i < n && i + j >= n ==> Bit(v, i)) && (i >= n ==> !Bit(v, i))
  }

  // One line of next_power_of_two doubles the ones.
  lemma SpreadDoubles(v: nat, n: nat, j: nat)
    requires Ones(v, n, j)
    ensures Ones(Spread(v, j), n, 2 * j)
  {
    forall i: nat ensures (i < n && i + 2 * j >= n ==> Bit(Spread(v, j), i)) && (i >= n ==> !Bit(Spread(v, j), i)) {
      OrBit(v, Shr(v, j), i);
      ShrBit(v, j, i);
    }
  }

  lemma {:induction false} OnesValue(v: nat, n: nat)
    requires Ones(v, n, n)
    ensures v == Pow2(n) - 1
    decreases n
  {
    if n == 0 {
      if v > 0 { TopBit(v, Bits(v) - 1); }
    } else {
      forall i: nat ensures (i < n - 1 ==> Bit(v / 2, i)) && (i >= n - 1 ==> !Bit(v / 2, i)) {
        assert Bit(v, i + 1) == Bit(v / 2, i);
      }
      OnesValue(v / 2, n - 1);
      assert Bit(v, 0);
    }
  }

  lemma SmearValue(v: nat)
    requires Bits(v) <= 32
    ensures Smear(v) == Pow2(Bits(v)) - 1
  {
    var n := Bits(v);
    forall i: nat ensures (i < n && i + 1 >= n ==> Bit(v, i)) && (i >= n ==> !Bit(v, i)) { TopBit(v, i); }
    var a := Spread(v, 1);
    SpreadDoubles(v, n, 1);
    var b := Spread(a, 2);
    SpreadDoubles(a, n, 2);
    var c := Spread(b, 4);
    SpreadDoubles(b, n, 4);
    var d := Spread(c, 8);
    SpreadDoubles(c, n, 8);
    SpreadDoubles(d, n, 16);
    OnesValue(Smear(v), n);
  }

  lemma {:induction false} BitsBound(v: nat)
    ensures v < Pow2(Bits(v)) && (v > 0 ==> Pow2(Bits(v) - 1) <= v)
  {
    if v > 0 { BitsBound(v / 2); }
  }

  lemma {:induction false} PowGrows(m: nat, n: nat)
    requires m <= n
    ensures Pow2(m) <= Pow2(n) && (m < n ==> 2 * Pow2(m) <= Pow2(n))
    decreases n
  {
    if m < n { PowGrows(m, n - 1); }
  }

  lemma Pow32()
    ensures Pow2(31) == 0x8000_0000 && Pow2(32) == WORD
  {
    assert Pow2(4) == 16 && Pow2(8) == 256 && Pow2(12) == 4096 && Pow2(16) == 65536;
    assert Pow2(20) == 1048576 && Pow2(24) == 16777216 && Pow2(28) == 268435456;
  }

  // next_power_of_two gives the least power of two that is not below its argument, and
  // overflows to zero exactly for zero and above 2^31.
  lemma NextPowerMeaning(v: nat)
    requires v < WORD
    ensures v == 0 || v > 0x8000_0000 <==> NextPowerOfTwo(v) == 0
    ensures NextPowerOfTwo(v) != 0 ==>
      exists n :: 0 <= n <= 31 && NextPowerOfTwo(v) == Pow2(n) && v <= Pow2(n) && (n > 0 ==> Pow2(n - 1) < v)
  {
    hide Smear;
    hide Pow2;
    var u := if v == 0 then WORD - 1 else v - 1;
    var n := Bits(u);
    Pow32();
    BitsBound(u);
    if n > 32 { PowGrows(32, n - 1); }
    if n < 32 { PowGrows(n, 31); }
    SmearValue(u);
    if n < 32 { assert NextPowerOfTwo(v) == Pow2(n); }
  }

  const INT_MAX: nat := 0x7FFF_FFFF

  // The table that uv__io_start needs for a descriptor has room for it and the two entries
  // behind it, except for the largest descriptor that uv__io_start lets pass, for which the
  // number of entries overflows to zero.
  lemma TableSize(fd: nat)
    requires fd < INT_MAX
    ensures NextPowerOfTwo(fd + 3) == 0 <==> fd == INT_MAX - 1
    ensures fd < INT_MAX - 1 ==> fd + 3 <= NextPowerOfTwo(fd + 3) <= 0x8000_0000
  {
    NextPowerMeaning(fd + 3);
    if fd < INT_MAX - 1 {
      var n :| 0 <= n <= 31 && NextPowerOfTwo(fd + 3) == Pow2(n);
      PowGrows(n, 31);
      Pow32();
    }
  }

  // ---------- The watcher table ----------

  function Count(s: seq<Slot>): nat {
    if s == [] then 0 else Count(s[..|s| - 1]) + (if s[|s| - 1].Watcher? then 1 else 0)
  }

  lemma {:induction false} CountUpdate(s: seq<Slot>, i: nat, x: Slot)
    requires i < |s|
    ensures Count(s[i := x]) == Count(s) - (if s[i].Watcher? then 1 else 0) + (if x.Watcher? then 1 else 0)
  {
    var n := |s| - 1;
    if i < n {
      assert s[i := x][..n] == s[..n][i := x];
      CountUpdate(s[..n], i, x);
    } else {
      assert s[i := x][..n] == s[..n];
    }
  }

  lemma {:induction false} CountEmpty(s: seq<Slot>, n: nat)
    requires n <= |s| && forall i :: n <= i < |s| ==> !s[i].Watcher?
    ensures Count(s) == Count(s[..n])
    decreases |s|
  {
    if n < |s| {
      CountEmpty(s[..|s| - 1], n);
      assert s[..|s| - 1][..n] == s[..n];
    } else {
      assert s[..n] == s;
    }
  }

  lemma {:induction false} CountZero(s: seq<Slot>, i: nat)
    requires i < |s| && s[i].Watcher?
    ensures Count(s) > 0
  {
    if i < |s| - 1 { CountZero(s[..|s| - 1], i); }
  }

  class Loop {
    var watchers: array<Slot>   // nwatchers slots and two fake entries; no entries at all at first
    var nwatchers: nat
    var nfds: nat
    var queue: seq<Io>          // watcher_queue
    var kernel: map<int, set<Flag>>   // what epoll has been told
    ghost var all: set<Io>      // the watchers in use

    ghost predicate TableOk()
      reads this`watchers, this`nwatchers, this`nfds, watchers
    {
      && watchers.Length == (if nwatchers == 0 then 0 else nwatchers + 2)
      && nfds == Count(watchers[..nwatchers])
      && (forall i :: 0 <= i < nwatchers ==> watchers[i].Empty? || watchers[i].Watcher?)
      && (nwatchers > 0 ==> Fakes(watchers[nwatchers], watchers[nwatchers + 1]))
    }

    // The two entries behind the slots: both NULL, or events and at most as many as there are.
    predicate Fakes(list: Slot, count: Slot) {
      (list.Empty? && count.Empty?) || (list.Events? && count.Amount? && count.n <= list.fds.Length)
    }

    // A started watcher has its slot, and only started watchers have one; but is exempt.
    ghost predicate SlotsOk(but: set<Io>)
      reads this`watchers, this`nwatchers, this`all, watchers, all`pevents
    {
      && nwatchers <= watchers.Length
      && (forall i :: 0 <= i < nwatchers && watchers[i].Watcher? ==>
            var w := watchers[i].w; w in all && w.fd == i && (w.pevents != {} || w in but))
      && (forall w :: w in all && w !in but && w.pevents != {} ==>
            0 <= w.fd < nwatchers && watchers[w.fd] == Watcher(w))
    }

    // What is queued, and what the kernel knows of what is not.
    ghost predicate QueueOk(but: set<Io>)
      reads this`queue, this`kernel, this`all, all`events, all`pevents
    {
      && Once(queue) && (forall w :: w in queue ==> w in all && (w.pevents != {} || w in but))
      && (forall w :: w in all && w !in queue && w !in but ==> w.events == w.pevents)
      && (forall w :: w in all && w.events != {} && w !in but ==>
            w.pevents != {} && w.fd in kernel && kernel[w.fd] == w.events)
    }

    ghost predicate OnePerFd()
      reads this`all
    { (forall v, w :: v in all && w in all && v.fd == w.fd ==> v == w) && (forall w :: w in all ==> w.fd >= 0) }

    // One watcher per descriptor.
    ghost predicate Valid()
      reads this, watchers, all
    { OnePerFd() && TableOk() && SlotsOk({}) && QueueOk({}) }

    // What is left to do for the watcher that is exempt.
    lemma SlotsClose(w: Io)
      requires SlotsOk({w}) && w in all && w.pevents != {}
      requires 0 <= w.fd < nwatchers && watchers[w.fd] == Watcher(w)
      ensures SlotsOk({})
    {
    }

    lemma SlotsCloseEmpty(w: Io)
      requires SlotsOk({w}) && w in all && w.pevents == {}
      requires 0 <= w.fd < nwatchers ==> watchers[w.fd] != Watcher(w)
      ensures SlotsOk({})
    {
    }

    lemma QueueClose(w: Io)
      requires QueueOk({w}) && w in all && (w in queue ==> w.pevents != {}) && (w !in queue ==> w.events == w.pevents)
      requires w.events != {} ==> w.pevents != {} && w.fd in kernel && kernel[w.fd] == w.events
      ensures QueueOk({})
    {
    }

    // The kernel agrees with every started watcher.
    ghost predicate Synchronised()
      reads this, all
    {
      forall w :: w in all && w.pevents != {} ==>
        w.fd in kernel && kernel[w.fd] == w.pevents && w.events == w.pevents
    }

    constructor ()
      ensures Valid() && all == {} && nfds == 0 && queue == []
    {
      watchers := new Slot[0];
      nwatchers, nfds, queue, kernel, all := 0, 0, [], map[], {};
    }

    // maybe_resize: every slot and the two entries behind them keep their values. It ends in
    // abort(), which ok excludes, exactly if the number of entries overflows.
    method MaybeResize(len: nat) returns (ok: bool)
      requires TableOk() && 0 < len <= INT_MAX
      modifies this`watchers, this`nwatchers
      ensures ok <==> len <= old(nwatchers) || len < INT_MAX
      ensures !ok ==> watchers == old(watchers) && nwatchers == old(nwatchers)
      ensures TableOk() && (ok ==> nwatchers >= len) && nwatchers >= old(nwatchers)
      ensures watchers == old(watchers) || fresh(watchers)
      ensures forall i :: 0 <= i < old(nwatchers) ==> watchers[i] == old(watchers[i])
      ensures forall i :: old(nwatchers) <= i < nwatchers ==> watchers[i] == Empty
      ensures nwatchers > 0 && old(nwatchers) > 0 ==>
                watchers[nwatchers] == old(watchers[nwatchers])
                  && watchers[nwatchers + 1] == old(watchers[nwatchers + 1])
    {
      hide Count;
      if len <= nwatchers { return true; }
      var list, count := Empty, Empty;
      if watchers.Length != 0 { list, count := watchers[nwatchers], watchers[nwatchers + 1]; }
      TableSize(len - 1);
      var entries := NextPowerOfTwo(len + 2);
      // uv__reallocf frees the old table and yields NULL
      if entries == 0 { return false; }
      var n := entries - 2;
      var grown := Grow(n);
      CountEmpty(grown[..n], nwatchers);
      assert grown[..n][..nwatchers] == watchers[..nwatchers];
      grown[n], grown[n + 1] := list, count;
      assert grown[..n] == old(watchers[..nwatchers]) + grown[nwatchers..n];
      watchers := grown;
      nwatchers := n;
      ok := true;
    }

    // uv__reallocf to n slots and two more entries, and the loop that clears the new slots.
    method Grow(n: nat) returns (grown: array<Slot>)
      requires nwatchers <= watchers.Length && nwatchers <= n
      ensures fresh(grown) && grown.Length == n + 2
      ensures forall k :: 0 <= k < n ==> grown[k] == if k < nwatchers then watchers[k] else Empty
    {
      grown := new Slot[n + 2](_ => Empty);
      for i := 0 to nwatchers
        invariant forall k :: 0 <= k < i ==> grown[k] == watchers[k]
        invariant forall k :: i <= k < n ==> grown[k] == Empty
      {
        grown[i] := watchers[i];
      }
    }

    // uv__io_init has made w.
    ghost method Use(w: Io)
      requires Valid() && w.fd >= 0 && w.events == {} && w.pevents == {}
        && w !in all && forall v :: v in all ==> v.fd != w.fd
      modifies this`all
      ensures Valid() && all == old(all) + {w}
    {
      all := all + {w};
    }

    // uv__io_start. It ends in abort(), which ok excludes, exactly for the descriptor
    // 2^31 - 2 when the table has no slot for it.
    method Start(w: Io, events: set<Flag>) returns (ok: bool)
      requires Valid() && w in all && events != {} && w.fd < INT_MAX
      modifies this`watchers, this`nwatchers, this`nfds, this`queue, watchers, w`pevents
      ensures ok <==> w.fd < old(nwatchers) || w.fd < INT_MAX - 1
      ensures ok ==> Valid() && w.pevents == old(w.pevents) + events
      ensures ok ==> queue == if w.events == w.pevents || w in old(queue) then old(queue) else old(queue) + [w]
    {
      hide TableOk;
      hide SlotsOk;
      hide QueueOk;
      Widen(w, events);
      ghost var slots, n := watchers[..], nwatchers;
      SlotsAre(w);
      ok := MaybeResize(w.fd + 1);
      if !ok { return; }
      TableSlots();
      assert SlotsOk({w}) by { SlotsMoved(slots, n, w); }
      if w.events != w.pevents {
        FinishStart(w);
      } else {
        SlotsClose(w);
        QueueClose(w);
      }
    }

    // The condition on the slots, for a table that is about to be moved.
    ghost predicate SlotsIn(slots: seq<Slot>, n: nat, w: Io)
      reads this`all, all`pevents
    {
      && n <= |slots|
      && (forall i :: 0 <= i < n && slots[i].Watcher? ==>
            var v := slots[i].w; v in all && v.fd == i && (v.pevents != {} || v == w))
      && (forall v :: v in all && v != w && v.pevents != {} ==> 0 <= v.fd < n && slots[v.fd] == Watcher(v))
    }

    lemma SlotsAre(w: Io)
      requires SlotsOk({w})
      ensures SlotsIn(watchers[..], nwatchers, w)
    {
    }

    lemma SlotsMoved(slots: seq<Slot>, n: nat, w: Io)
      requires SlotsIn(slots, n, w) && n <= nwatchers <= watchers.Length
      requires forall i :: 0 <= i < nwatchers ==> watchers[i] == if i < n then slots[i] else Empty
      ensures SlotsOk({w})
    {
    }

    // w->pevents |= events
    method Widen(w: Io, events: set<Flag>)
      requires Valid() && w in all && events != {}
      modifies w`pevents
      ensures w.pevents == old(w.pevents) + events && w.pevents != {}
      ensures OnePerFd() && TableOk() && SlotsOk({w}) && QueueOk({w})
      ensures w.events != {} ==>
        w.fd < nwatchers && watchers[w.fd] == Watcher(w) && w.fd in kernel && kernel[w.fd] == w.events
    {
      hide TableOk;
      w.pevents := w.pevents + events;
    }

    // The rest of uv__io_start, when the mask is not what the kernel has.
    method FinishStart(w: Io)
      requires OnePerFd() && TableOk() && SlotsOk({w}) && QueueOk({w}) && w in all && w.pevents != {}
        && 0 <= w.fd < nwatchers
      requires w.events != {} ==> w.fd in kernel && kernel[w.fd] == w.events
      modifies this`nfds, this`queue, watchers
      ensures Valid() && queue == if w in old(queue) then old(queue) else old(queue) + [w]
    {
      hide TableOk;
      hide Once;
      TableSlots();
      Enqueue(w);
      assert QueueOk({w});
      QueueClose(w);
      hide QueueOk;
      if watchers[w.fd] == Empty { Occupy(w); }
      assert SlotsOk({w});
      SlotsClose(w);
    }

    lemma TableSlots()
      requires TableOk()
      ensures nwatchers <= watchers.Length
        && forall i :: 0 <= i < nwatchers ==> watchers[i] == Empty || watchers[i].Watcher?
    {
    }

    // if (QUEUE_EMPTY(&w->watcher_queue)) QUEUE_INSERT_TAIL(&loop->watcher_queue, ...)
    method Enqueue(w: Io)
      requires Once(queue)
      modifies this`queue
      ensures Once(queue) && forall v :: v in queue <==> v in old(queue) || v == w
      ensures queue == if w in old(queue) then old(queue) else old(queue) + [w]
    {
      if w !in queue { queue := queue + [w]; }
    }

    // QUEUE_REMOVE(&w->watcher_queue)
    method Dequeue(w: Io)
      requires Once(queue)
      modifies this`queue
      ensures Once(queue) && forall v :: v in queue <==> v in old(queue) && v != w
      ensures queue == Without(old(queue), w)
    {
      queue := Without(queue, w);
      WithoutMembers(old(queue), w);
    }

    // loop->watchers[w->fd] = w and loop->nfds++
    method Occupy(w: Io)
      requires TableOk() && 0 <= w.fd < nwatchers && watchers[w.fd] == Empty
      modifies watchers, this`nfds
      ensures TableOk() && nfds == old(nfds) + 1
      ensures forall i :: 0 <= i < watchers.Length ==> watchers[i] == if i == w.fd then Watcher(w) else old(watchers[i])
    {
      hide Count;
      CountUpdate(watchers[..nwatchers], w.fd, Watcher(w));
      ghost var t := watchers[..nwatchers][w.fd := Watcher(w)];
      watchers[w.fd] := Watcher(w);
      assert watchers[..nwatchers] == t;
      nfds := nfds + 1;
    }

    // loop->watchers[w->fd] = NULL and loop->nfds--
    method Vacate(w: Io)
      requires TableOk() && 0 <= w.fd < nwatchers && watchers[w.fd] == Watcher(w)
      modifies watchers, this`nfds
      ensures TableOk() && nfds == old(nfds) - 1
      ensures forall i :: 0 <= i < watchers.Length ==> watchers[i] == if i == w.fd then Empty else old(watchers[i])
    {
      CountZero(watchers[..nwatchers], w.fd);
      hide Count;
      CountUpdate(watchers[..nwatchers], w.fd, Empty);
      ghost var t := watchers[..nwatchers][w.fd := Empty];
      watchers[w.fd] := Empty;
      assert watchers[..nwatchers] == t;
      nfds := nfds - 1;
    }

    // uv__io_stop
    method Stop(w: Io, events: set<Flag>)
      requires Valid() && events != {} && (w in all || w.fd == -1)
      modifies this`nfds, this`queue, watchers, w`events, w`pevents
      ensures Valid() && forall i :: nwatchers <= i < watchers.Length ==> watchers[i] == old(watchers[i])
      ensures w in all ==> w.pevents == old(w.pevents) - events
      ensures w in all ==> w.events == if w.pevents == {} then {} else old(w.events)
      ensures w in all ==> queue == if w.pevents == {} then Without(old(queue), w)
                else if w in old(queue) then old(queue) else old(queue) + [w]
      ensures w !in all ==> w.pevents == old(w.pevents) && w.events == old(w.events)
      ensures w !in all ==> nfds == old(nfds) && queue == old(queue) && watchers[..] == old(watchers[..])
    {
      if w.fd == -1 { return; }
      if w.fd >= nwatchers {
        WithoutMembers(queue, w);
        return;
      }
      hide TableOk;
      hide SlotsOk;
      hide Once;
      Narrow(w, events);
      if w.pevents == {} {
        hide QueueOk;
        FinishStop(w);
      } else {
        Enqueue(w);
        QueueClose(w);
      }
    }

    // w->pevents &= ~events
    method Narrow(w: Io, events: set<Flag>)
      requires Valid() && w in all && w.fd < nwatchers
      modifies w`pevents
      ensures w.pevents == old(w.pevents) - events
      ensures OnePerFd() && TableOk() && SlotsOk({w}) && QueueOk({w}) && (w.pevents != {} ==> SlotsOk({}))
      ensures w.events != {} ==> w.fd in kernel && kernel[w.fd] == w.events
    {
      hide TableOk;
      w.pevents := w.pevents - events;
    }

    // The rest of uv__io_stop, when no event is wanted any more.
    method FinishStop(w: Io)
      requires OnePerFd() && TableOk() && SlotsOk({w}) && QueueOk({w}) && w in all && w.pevents == {}
        && 0 <= w.fd < nwatchers
      modifies this`nfds, this`queue, watchers, w`events
      ensures Valid() && forall i :: nwatchers <= i < watchers.Length ==> watchers[i] == old(watchers[i])
      ensures w.events == {} && queue == Without(old(queue), w)
    {
      hide TableOk;
      hide Once;
      Dequeue(w);
      w.events := {};
      assert QueueOk({w});
      QueueClose(w);
      hide QueueOk;
      if watchers[w.fd] == Watcher(w) { Vacate(w); }
      assert SlotsOk({w});
      SlotsCloseEmpty(w);
    }

    // epoll_ctl on the kernel's table.
    method EpollCtl(op: Op, fd: int, mask: set<Flag>) returns (e: Errno)
      modifies this`kernel
      ensures e == (if op == Add && fd in old(kernel) then Eexist else if op != Add && fd !in old(kernel) then Enoent
        else Ok)
      ensures kernel == if e != Ok then old(kernel) else if op == Del then old(kernel) - {fd}
        else old(kernel)[fd := mask]
    {
      if op == Add && fd in kernel { return Eexist; }
      if op != Add && fd !in kernel { return Enoent; }
      kernel := if op == Del then kernel - {fd} else kernel[fd := mask];
      e := Ok;
    }

    // The head of the queue.
    method TakeNext() returns (w: Io)
      requires Valid() && queue != []
      modifies this`queue
      ensures OnePerFd() && TableOk() && SlotsOk({}) && QueueOk({w}) && old(queue) == [w] + queue
      ensures w in all && w !in queue && w.pevents != {} && 0 <= w.fd < nwatchers
      ensures w.events != {} ==> w.fd in kernel && kernel[w.fd] == w.events
    {
      hide TableOk;
      w := queue[0];
      assert w in queue;
      assert forall v :: v in queue <==> v == w || v in queue[1..];
      queue := queue[1..];
    }

    // One round of the registration loop of uv__io_poll. Neither abort() is reached.
    method RegisterNext()
      requires Valid() && queue != []
      modifies this`queue, this`kernel, all`events
      ensures Valid() && queue == old(queue)[1..]
      ensures var w := old(queue)[0];
              w in all && w.events == w.pevents && kernel == old(kernel)[w.fd := w.pevents]
    {
      hide TableOk;
      hide SlotsOk;
      hide Once;
      var w := TakeNext();
      var op := if w.events == {} then Add else Mod;
      var e := EpollCtl(op, w.fd, w.pevents);
      if e != Ok {
        assert e == Eexist && op == Add;
        e := EpollCtl(Mod, w.fd, w.pevents);
        assert e == Ok;
      }
      w.events := w.pevents;
      QueueClose(w);
    }

    // The beginning of uv__io_poll: without descriptors there is nothing queued; else, after
    // the loop, the kernel has the mask of every started watcher.
    method Register() returns (polls: bool)
      requires Valid()
      modifies this`queue, this`kernel, all`events
      ensures Valid() && queue == [] && polls == (nfds > 0)
      ensures Synchronised()
      ensures forall fd :: (forall w :: w in old(queue) ==> w.fd != fd) ==>
        (fd in kernel <==> fd in old(kernel)) && (fd in kernel ==> kernel[fd] == old(kernel)[fd])
    {
      if nfds == 0 {
        NothingQueued();
        return false;
      }
      while queue != []
        invariant Valid() && forall w :: w in queue ==> w in old(queue)
        invariant forall fd :: (forall w :: w in old(queue) ==> w.fd != fd) ==>
          (fd in kernel <==> fd in old(kernel)) && (fd in kernel ==> kernel[fd] == old(kernel)[fd])
        decreases |queue|
      {
        RegisterNext();
      }
      assert Synchronised();
      polls := true;
    }

    lemma NothingQueued()
      requires Valid() && nfds == 0
      ensures queue == [] && forall w :: w in all ==> w.pevents == {} && w.events == {}
    {
      assert queue != [] ==> queue[0] in queue;
      forall w | w in all ensures w.pevents == {} {
        if w.pevents != {} {
          assert watchers[..nwatchers][w.fd] == Watcher(w);
          CountZero(watchers[..nwatchers], w.fd);
        }
      }
    }

    // An event for fd: the kernel is told to forget descriptors that nobody watches.
    method Dispatch(fd: nat) returns (w: Slot)
      requires Valid() && fd < nwatchers
      modifies this`kernel
      ensures Valid() && w == watchers[fd] && kernel == if w == Empty then old(kernel) - {fd} else old(kernel)
    {
      w := watchers[fd];
      if w == Empty {
        var e := EpollCtl(Del, fd, {});
      }
    }

    // uv__io_poll before and after the loop over the events it has got.
    method Publish(events: array<int>, n: nat)
      requires Valid() && nwatchers > 0 && n <= events.Length
      modifies watchers
      ensures Valid() && watchers[nwatchers] == Events(events) && watchers[nwatchers + 1] == Amount(n)
      ensures watchers[..nwatchers] == old(watchers[..nwatchers])
    {
      ghost var slots := watchers[..nwatchers];
      watchers[nwatchers], watchers[nwatchers + 1] := Events(events), Amount(n);
      assert watchers[..nwatchers] == slots;
    }

    method Retract()
      requires Valid() && nwatchers > 0
      modifies watchers
      ensures Valid() && watchers[nwatchers] == Empty && watchers[nwatchers + 1] == Empty
      ensures watchers[..nwatchers] == old(watchers[..nwatchers])
    {
      ghost var slots := watchers[..nwatchers];
      watchers[nwatchers], watchers[nwatchers + 1] := Empty, Empty;
      assert watchers[..nwatchers] == slots;
    }

    // The descriptors of the events that are being dispatched.
    ghost function Batch(): set<array<int>>
      reads this`watchers, this`nwatchers, watchers
    { if nwatchers < watchers.Length && watchers[nwatchers].Events? then {watchers[nwatchers].fds} else {} }

    // No event that is still to be dispatched is for fd.
    ghost predicate Forgotten(fd: int)
      reads this`watchers, this`nwatchers, watchers, Batch()
    {
      nwatchers + 1 < watchers.Length && watchers[nwatchers].Events? && watchers[nwatchers + 1].Amount? ==>
        var a, n := watchers[nwatchers].fds, watchers[nwatchers + 1].n;
        forall i :: 0 <= i < n && i < a.Length ==> a[i] != fd
    }

    // uv__io_close. A watcher with descriptor -1 was never started and is left alone.
    method Close(w: Io)
      requires Valid() && nwatchers > 0 && (w in all || w.fd == -1)
      modifies this`nfds, this`queue, this`kernel, this`all, watchers, w`events, w`pevents, Batch()
      ensures Valid() && all == old(all) - {w}
      ensures w.fd != -1 ==> w.fd !in kernel && Forgotten(w.fd)
      ensures kernel == old(kernel) - (if w.fd == -1 then {} else {w.fd})
    {
      hide Once;
      hide Fakes;
      AllFlags(w.pevents);
      Stop(w, {In, Out, RdHup, Pri});
      if w.fd == -1 {
        assert w !in all;
        return;
      }
      assert Batch() == old(Batch());
      Forget(w);
    }

    // The rest of uv__io_close, for a watcher that has stopped.
    method Forget(w: Io)
      requires Valid() && nwatchers > 0 && w in all && w.pevents == {}
      modifies this`kernel, this`all, Batch()
      ensures Valid() && all == old(all) - {w} && kernel == old(kernel) - {w.fd} && Forgotten(w.fd)
    {
      hide Once;
      hide Forgotten;
      InvalidateFd(w.fd);
      assert TableOk() && SlotsOk({w});
      assert QueueOk({w});
      Drop(w);
    }

    method Drop(w: Io)
      requires OnePerFd() && TableOk() && SlotsOk({w}) && QueueOk({w}) && w in all && w.pevents == {}
      requires w !in queue && (0 <= w.fd < nwatchers ==> watchers[w.fd] != Watcher(w))
      modifies this`all
      ensures Valid() && all == old(all) - {w}
    {
      hide Once;
      all := all - {w};
    }

    // uv__platform_invalidate_fd
    method InvalidateFd(fd: int)
      requires TableOk() && nwatchers > 0 && fd >= 0
      modifies this`kernel, Batch()
      ensures kernel == old(kernel) - {fd} && Forgotten(fd)
      ensures forall a :: a in Batch() ==> forall i :: 0 <= i < a.Length ==>
        a[i] == old(a[i]) || (old(a[i]) == fd && a[i] == -1)
    {
      if watchers[nwatchers].Events? {
        var events, n := watchers[nwatchers].fds, watchers[nwatchers + 1].n;
        for i := 0 to n
          invariant kernel == old(kernel)
          invariant forall k :: 0 <= k < events.Length ==>
            events[k] == if k < i && old(events[k]) == fd then -1 else old(events[k])
        {
          if events[i] == fd { events[i] := -1; }
        }
      }
      assert fd !in kernel ==> kernel - {fd} == kernel;
      var e := EpollCtl(Del, fd, {});
    }
  }
}
