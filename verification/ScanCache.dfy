// The result cache of clamdavdb/clamavdb.py: ClamAVDB.scan_file compares a file's size and
// whole-second modification time with those stored beside the last verdict. Files change at
// any moment, several calls overlap, and rows may be removed at any time.

module ScanCaches {

  import opened Wrappers

  type Path = string
  type Verdict = string
  type Id = int

  // What lstat shows. Only regular files and links are scanned.
  datatype Stat = Stat(scannable: bool, size: int, seconds: int)

  // The history of every path: version k as lstat sees it (None when there is no file), and
  // what clamd says about it. clamd is a function of the version that it reads.
  datatype World = World(stat: (Path, nat) -> Option<Stat>, verdict: (Path, nat) -> Verdict)

  // What the cache compares.
  predicate SameStat(a: Option<Stat>, b: Option<Stat>) {
    a.Some? && b.Some? && a.value.size == b.value.size && a.value.seconds == b.value.seconds
  }

  // What the cache needs: when the scannable version j looks like the later version k, then
  // every version r between them that clamd may have read in its place has the verdict of k.
  ghost predicate Harmless(w: World) {
    forall p, j: nat, r: nat, k: nat ::
      j <= r < k && w.stat(p, j).Some? && w.stat(p, j).value.scannable && SameStat(w.stat(p, j), w.stat(p, k))
      ==> w.verdict(p, r) == w.verdict(p, k)
  }

  // The stronger assumption that two versions of a path differ in size or in seconds.
  ghost predicate Distinguishable(w: World) {
    forall p, j, k :: SameStat(w.stat(p, j), w.stat(p, k)) ==> j == k
  }

  // A row of the files table. statAt and readAt are the versions that its stat and its
  // verdict come from, kept for the statements only.
  datatype Row = Row(size: int, seconds: int, verdict: Verdict, statAt: nat, readAt: nat)

  datatype Outcome = Result(verdict: Verdict) | FileNotFound | NotRegular

  // A call of scan_file, between its steps; start is the version at its beginning.
  datatype Call =
    | Begun(p: Path, cacheOk: bool, start: nat)
    | Statted(p: Path, cacheOk: bool, start: nat, stat: Stat, statAt: nat)
    | Missed(p: Path, start: nat)                                // on the way to ClambScanMgr.scan
    | Scanning(p: Path, start: nat, stat: Stat, statAt: nat)     // scan has its own stat
    | Answered(p: Path, start: nat, row: Row)                    // clamd has answered
    | Ended(p: Path, start: nat, end: nat, outcome: Outcome)

  datatype State = State(current: map<Path, nat>, files: map<Path, Row>, calls: map<Id, Call>)

  function Now(s: State, p: Path): nat { if p in s.current then s.current[p] else 0 }

  datatype Label =
    | Change(p: Path)                       // someone writes, replaces or removes the file
    | RemoveRow(p: Path)                    // remove_file
    | CallScan(c: Id, p: Path, cacheOk: bool)
    | Step(c: Id)                           // the next step of a call

  predicate Enabled(s: State, a: Label) {
    match a
    case CallScan(c, _, _) => c !in s.calls
    case Step(c) => c in s.calls && !s.calls[c].Ended?
    case _ => true
  }

  function Finish(s: State, c: Id, p: Path, start: nat, o: Outcome): State {
    s.(calls := s.calls[c := Ended(p, start, Now(s, p), o)])
  }

  // The steps of scan_file, with those of ClambScanMgr.scan in the middle.
  function CallStep(w: World, s: State, c: Id): State
    requires c in s.calls
  {
    match s.calls[c]
    case Begun(p, cacheOk, start) =>
      var stat := w.stat(p, Now(s, p));
      if stat.None? then Finish(s, c, p, start, FileNotFound)
      else s.(calls := s.calls[c := Statted(p, cacheOk, start, stat.value, Now(s, p))])
    case Statted(p, cacheOk, start, stat, statAt) =>
      if cacheOk && p in s.files && s.files[p].size == stat.size && s.files[p].seconds == stat.seconds
      then Finish(s, c, p, start, Result(s.files[p].verdict))
      else s.(calls := s.calls[c := Missed(p, start)])
    case Missed(p, start) =>
      var stat := w.stat(p, Now(s, p));
      if stat.None? then Finish(s, c, p, start, FileNotFound)
      else if !stat.value.scannable then Finish(s, c, p, start, NotRegular)
      else s.(calls := s.calls[c := Scanning(p, start, stat.value, Now(s, p))])
    case Scanning(p, start, stat, statAt) =>
      s.(calls := s.calls[c := Answered(p, start,
        Row(stat.size, stat.seconds, w.verdict(p, Now(s, p)), statAt, Now(s, p)))])
    case Answered(p, start, row) => Finish(s.(files := s.files[p := row]), c, p, start, Result(row.verdict))
    case Ended(_, _, _, _) => s
  }

  function Next(w: World, s: State, a: Label): State
    requires Enabled(s, a)
  {
    match a
    case Change(p) => s.(current := s.current[p := Now(s, p) + 1])
    case RemoveRow(p) => s.(files := s.files - {p})
    case CallScan(c, p, cacheOk) => s.(calls := s.calls[c := Begun(p, cacheOk, Now(s, p))])
    case Step(c) => CallStep(w, s, c)
  }

  // ---------- The invariant ----------

  // A row was statted no later than it was read, both have happened, and what was statted
  // was scannable.
  ghost predicate RowOk(w: World, p: Path, r: Row, now: nat) {
    && r.statAt <= r.readAt <= now && r.verdict == w.verdict(p, r.readAt)
    && w.stat(p, r.statAt) == Some(Stat(true, r.size, r.seconds))
  }

  // What a call returned was true of a version that was current during the call.
  ghost predicate OutcomeOk(w: World, p: Path, start: nat, end: nat, o: Outcome) {
    match o
    case Result(v) => exists k :: start <= k <= end && v == w.verdict(p, k)
    case FileNotFound => exists k :: start <= k <= end && w.stat(p, k) == None
    case NotRegular => exists k :: start <= k <= end && w.stat(p, k).Some? && !w.stat(p, k).value.scannable
  }

  ghost predicate CallOk(w: World, c: Call, now: nat) {
    c.start <= now &&
    match c
    case Begun(_, _, _) => true
    case Statted(p, _, start, stat, statAt) => start <= statAt <= now && w.stat(p, statAt) == Some(stat)
    case Missed(_, _) => true
    case Scanning(p, start, stat, statAt) => start <= statAt <= now && w.stat(p, statAt) == Some(stat) && stat.scannable
    case Answered(p, start, row) => RowOk(w, p, row, now) && start <= row.statAt
    case Ended(p, start, end, o) => end <= now && OutcomeOk(w, p, start, end, o)
  }

  ghost predicate Inv(w: World, s: State) {
    && (forall p :: p in s.files ==> RowOk(w, p, s.files[p], Now(s, p)))
    && (forall c :: c in s.calls ==> CallOk(w, s.calls[c], Now(s, s.calls[c].p)))
  }

  // A hit: the verdict was read since the call began, or it is the one of the version that
  // the call has statted.
  lemma HitIsFresh(w: World, s: State, c: Id)
    requires Harmless(w) && Inv(w, s) && c in s.calls && s.calls[c].Statted?
    requires var p, stat := s.calls[c].p, s.calls[c].stat;
             p in s.files && s.files[p].size == stat.size && s.files[p].seconds == stat.seconds
    ensures var p, start := s.calls[c].p, s.calls[c].start;
            OutcomeOk(w, p, start, Now(s, p), Result(s.files[p].verdict))
  {
    var call := s.calls[c];
    var row := s.files[call.p];
    assert RowOk(w, call.p, row, Now(s, call.p)) && CallOk(w, call, Now(s, call.p));
    if row.readAt >= call.start {
      assert row.verdict == w.verdict(call.p, row.readAt);
    } else {
      assert SameStat(w.stat(call.p, row.statAt), w.stat(call.p, call.statAt));
      assert row.verdict == w.verdict(call.p, call.statAt);
    }
  }

  // What a step of a call does to the call itself.
  lemma CallMoves(w: World, s: State, c: Id)
    requires Harmless(w) && Inv(w, s) && c in s.calls
    ensures var s' := CallStep(w, s, c);
            && s'.current == s.current && c in s'.calls && s'.calls[c].p == s.calls[c].p
            && CallOk(w, s'.calls[c], Now(s, s.calls[c].p))
  {
    var call := s.calls[c];
    assert CallOk(w, call, Now(s, call.p));
    if call.Statted? && call.cacheOk && call.p in s.files
       && s.files[call.p].size == call.stat.size && s.files[call.p].seconds == call.stat.seconds {
      HitIsFresh(w, s, c);
    }
  }

  lemma CallStepKeeps(w: World, s: State, c: Id)
    requires Harmless(w) && Inv(w, s) && c in s.calls
    ensures Inv(w, CallStep(w, s, c))
  {
    var s' := CallStep(w, s, c);
    CallMoves(w, s, c);
    assert s.calls[c].Answered? ==> CallOk(w, s.calls[c], Now(s, s.calls[c].p));
    assert s.calls[c].Answered? ==> RowOk(w, s.calls[c].p, s.calls[c].row, Now(s, s.calls[c].p));
    assert forall d :: d in s'.calls && d != c ==> d in s.calls && s'.calls[d] == s.calls[d];
    hide OutcomeOk;
    hide CallOk;
    hide RowOk;
    forall p | p in s'.files ensures RowOk(w, p, s'.files[p], Now(s', p)) {
      assert RowOk(w, p, s'.files[p], Now(s, p));
    }
    hide CallStep;
  }

  // Time only goes forward.
  lemma LaterOk(w: World, c: Call, now: nat, later: nat)
    requires CallOk(w, c, now) && now <= later
    ensures CallOk(w, c, later)
  {
  }

  lemma StepKeeps(w: World, s: State, a: Label)
    requires Harmless(w) && Inv(w, s) && Enabled(s, a)
    ensures Inv(w, Next(w, s, a))
  {
    var s' := Next(w, s, a);
    match a
    case Step(c) => CallStepKeeps(w, s, c);
    case Change(q) =>
      forall d | d in s'.calls ensures CallOk(w, s'.calls[d], Now(s', s'.calls[d].p)) {
        LaterOk(w, s.calls[d], Now(s, s.calls[d].p), Now(s', s.calls[d].p));
      }
    case RemoveRow(_) =>
      forall d | d in s'.calls ensures CallOk(w, s'.calls[d], Now(s', s'.calls[d].p)) {
        assert CallOk(w, s.calls[d], Now(s, s.calls[d].p));
      }
    case CallScan(c, p, _) =>
      forall d | d in s'.calls ensures CallOk(w, s'.calls[d], Now(s', s'.calls[d].p)) {
        if d != c { assert CallOk(w, s.calls[d], Now(s, s.calls[d].p)); }
      }
  }

  const START: State := State(map[], map[], map[])

  // No call has begun; the table may hold rows of earlier sessions.
  ghost predicate Initial(w: World, s: State) {
    s.calls == map[] && forall p :: p in s.files ==> RowOk(w, p, s.files[p], Now(s, p))
  }

  ghost predicate IsRun(w: World, labels: seq<Label>, states: seq<State>) {
    && |states| == |labels| + 1 && Initial(w, states[0])
    && (forall i :: 0 <= i < |labels| ==>
          Enabled(states[i], labels[i]) && states[i + 1] == Next(w, states[i], labels[i]))
  }

  lemma {:induction false} RunKeeps(w: World, labels: seq<Label>, states: seq<State>, i: nat)
    requires Harmless(w) && IsRun(w, labels, states) && i <= |labels|
    ensures Inv(w, states[i])
  {
    if i > 0 {
      RunKeeps(w, labels, states, i - 1);
      StepKeeps(w, states[i - 1], labels[i - 1]);
      assert states[i - 1 + 1] == states[i];
    }
  }

  // Every call that has ended was right about a version that was current during the call.
  ghost predicate Fresh(w: World, s: State) {
    forall c :: c in s.calls && s.calls[c].Ended? ==>
      var call := s.calls[c];
      call.start <= call.end <= Now(s, call.p) && OutcomeOk(w, call.p, call.start, call.end, call.outcome)
  }

  ghost predicate AlwaysFresh(w: World) {
    forall labels, states, i :: IsRun(w, labels, states) && 0 <= i <= |labels| ==> Fresh(w, states[i])
  }

  // Over all interleavings of writers, removals and calls: every verdict that scan_file
  // returns, cached or not, is the one of a version that was current during the call, and a
  // call that raises has met a missing or an unsuitable file during the call. This holds
  // exactly for the histories in which versions that look alike do no harm.
  lemma VerdictsAreFresh(w: World)
    ensures AlwaysFresh(w) <==> Harmless(w)
  {
    if Harmless(w) {
      forall labels, states, i | IsRun(w, labels, states) && 0 <= i <= |labels| ensures Fresh(w, states[i]) {
        FreshWhenHarmless(w, labels, states, i);
      }
    } else {
      var p, j: nat, r: nat, k: nat :|
        j <= r < k && w.stat(p, j).Some? && w.stat(p, j).value.scannable && SameStat(w.stat(p, j), w.stat(p, k))
        && w.verdict(p, r) != w.verdict(p, k);
      var labels, states := StaleRun(w, p, j, r, k);
      assert !Fresh(w, states[|labels|]);
    }
  }

  lemma FreshWhenHarmless(w: World, labels: seq<Label>, states: seq<State>, i: nat)
    requires Harmless(w) && IsRun(w, labels, states) && i <= |labels|
    ensures Fresh(w, states[i])
  {
    RunKeeps(w, labels, states, i);
    forall c | c in states[i].calls && states[i].calls[c].Ended?
      ensures CallOk(w, states[i].calls[c], Now(states[i], states[i].calls[c].p))
    {
    }
  }

  // In particular when no two versions of a path look alike.
  lemma FreshWhenDistinguishable(w: World)
    requires Distinguishable(w)
    ensures AlwaysFresh(w)
  {
    assert Harmless(w);
    VerdictsAreFresh(w);
  }

  lemma RunGrows(w: World, labels: seq<Label>, states: seq<State>, a: Label)
    requires IsRun(w, labels, states) && Enabled(states[|labels|], a)
    ensures IsRun(w, labels + [a], states + [Next(w, states[|labels|], a)])
  {
    var more := states + [Next(w, states[|labels|], a)];
    forall i | 0 <= i < |labels| + 1
      ensures Enabled(more[i], (labels + [a])[i]) && more[i + 1] == Next(w, more[i], (labels + [a])[i])
    {
      if i < |labels| { assert more[i + 1] == states[i + 1]; }
    }
  }

  lemma OneMore(w: World, labels: seq<Label>, states: seq<State>, a: Label)
      returns (labels': seq<Label>, states': seq<State>)
    requires IsRun(w, labels, states) && Enabled(states[|labels|], a)
    ensures IsRun(w, labels', states') && states'[|labels'|] == Next(w, states[|labels|], a)
  {
    RunGrows(w, labels, states, a);
    labels', states' := labels + [a], states + [Next(w, states[|labels|], a)];
  }

  // The file p changes until its version is n.
  lemma {:induction false} Ages(w: World, labels: seq<Label>, states: seq<State>, p: Path, n: nat)
      returns (labels': seq<Label>, states': seq<State>)
    requires IsRun(w, labels, states) && Now(states[|labels|], p) <= n
    ensures IsRun(w, labels', states') && Now(states'[|labels'|], p) == n
    ensures states'[|labels'|].files == states[|labels|].files && states'[|labels'|].calls == states[|labels|].calls
    decreases n
  {
    labels', states' := labels, states;
    if Now(states[|labels|], p) < n {
      labels', states' := Ages(w, labels, states, p, n - 1);
      RunGrows(w, labels', states', Change(p));
      labels', states' := labels' + [Change(p)], states' + [Next(w, states'[|labels'|], Change(p))];
    }
  }

  // Version j is statted, version r read, and a call that begins at version k gets its verdict.
  lemma StaleRun(w: World, p: Path, j: nat, r: nat, k: nat) returns (labels: seq<Label>, states: seq<State>)
    requires j <= r < k && w.stat(p, j).Some? && w.stat(p, j).value.scannable && SameStat(w.stat(p, j), w.stat(p, k))
    ensures IsRun(w, labels, states) && 1 in states[|labels|].calls
    ensures states[|labels|].calls[1] == Ended(p, k, k, Result(w.verdict(p, r)))
    ensures w.verdict(p, r) != w.verdict(p, k) ==> !Fresh(w, states[|labels|])
  {
    labels, states := [], [START];
    labels, states := Ages(w, labels, states, p, j);
    labels, states := StatFirst(w, labels, states, p, j);
    labels, states := Ages(w, labels, states, p, r);
    labels, states := StoreFirst(w, labels, states, p, j, r);
    labels, states := Ages(w, labels, states, p, k);
    labels, states := HitSecond(w, labels, states, p, k);
  }

  // A call has statted version j for its scan.
  lemma StatFirst(w: World, labels0: seq<Label>, states0: seq<State>, p: Path, j: nat)
      returns (labels: seq<Label>, states: seq<State>)
    requires IsRun(w, labels0, states0) && states0[|labels0|].files == map[] && states0[|labels0|].calls == map[]
    requires Now(states0[|labels0|], p) == j && w.stat(p, j).Some? && w.stat(p, j).value.scannable
    ensures IsRun(w, labels, states) && Now(states[|labels|], p) == j && states[|labels|].files == map[]
    ensures states[|labels|].calls == map[0 := Scanning(p, j, w.stat(p, j).value, j)]
  {
    hide IsRun;
    labels, states := OneMore(w, labels0, states0, CallScan(0, p, true));
    assert states[|labels|].calls == map[0 := Begun(p, true, j)];
    labels, states := OneMore(w, labels, states, Step(0));
    assert states[|labels|].calls == map[0 := Statted(p, true, j, w.stat(p, j).value, j)];
    labels, states := OneMore(w, labels, states, Step(0));
    assert states[|labels|].calls == map[0 := Missed(p, j)];
    labels, states := OneMore(w, labels, states, Step(0));
  }

  // clamd reads version r for it, and the row is stored.
  lemma StoreFirst(w: World, labels0: seq<Label>, states0: seq<State>, p: Path, j: nat, r: nat)
      returns (labels: seq<Label>, states: seq<State>)
    requires IsRun(w, labels0, states0) && w.stat(p, j).Some? && Now(states0[|labels0|], p) == r
    requires states0[|labels0|].calls == map[0 := Scanning(p, j, w.stat(p, j).value, j)]
    ensures IsRun(w, labels, states) && Now(states[|labels|], p) == r && states[|labels|].calls.Keys == {0}
    ensures p in states[|labels|].files
    ensures states[|labels|].files[p] == Row(w.stat(p, j).value.size, w.stat(p, j).value.seconds, w.verdict(p, r), j, r)
  {
    hide IsRun;
    labels, states := OneMore(w, labels0, states0, Step(0));
    assert states[|labels|].calls[0].Answered?;
    labels, states := OneMore(w, labels, states, Step(0));
  }

  // Another call takes a row that looks like the present version k.
  lemma HitSecond(w: World, labels0: seq<Label>, states0: seq<State>, p: Path, k: nat)
      returns (labels: seq<Label>, states: seq<State>)
    requires IsRun(w, labels0, states0) && states0[|labels0|].calls.Keys == {0} && Now(states0[|labels0|], p) == k
    requires w.stat(p, k).Some? && p in states0[|labels0|].files
    requires states0[|labels0|].files[p].size == w.stat(p, k).value.size
    requires states0[|labels0|].files[p].seconds == w.stat(p, k).value.seconds
    ensures IsRun(w, labels, states) && 1 in states[|labels|].calls
    ensures states[|labels|].calls[1] == Ended(p, k, k, Result(states0[|labels0|].files[p].verdict))
  {
    hide IsRun;
    labels, states := OneMore(w, labels0, states0, CallScan(1, p, true));
    assert states[|labels|].calls[1] == Begun(p, true, k);
    labels, states := OneMore(w, labels, states, Step(1));
    assert states[|labels|].calls[1] == Statted(p, true, k, w.stat(p, k).value, k);
    labels, states := OneMore(w, labels, states, Step(1));
  }

  // For instance, a change that keeps size and second of version 0 is missed.
  lemma StaleWithoutDistinction(w: World, p: Path)
    requires SameStat(w.stat(p, 0), w.stat(p, 1)) && w.stat(p, 0).value.scannable && w.verdict(p, 0) != w.verdict(p, 1)
    ensures !AlwaysFresh(w)
  {
    var labels, states := StaleRun(w, p, 0, 0, 1);
    assert !Fresh(w, states[|labels|]);
  }

  // ---------- The program ----------

  // ClamAVDB, with the state of all calls as history. A method is what a call does between
  // two points at which others may run.
  class ClamAVDB {
    var files: map<Path, Row>
    ghost var state: State

    ghost predicate Valid()
      reads this
    { files == state.files }

    // sqlite3.connect: the rows are those of earlier sessions.
    constructor (rows: map<Path, Row>, ghost w: World, ghost current: map<Path, nat>)
      requires Initial(w, State(current, rows, map[]))
      ensures Valid() && state == State(current, rows, map[]) && Inv(w, state)
    {
      files, state := rows, State(current, rows, map[]);
    }

    // __getitem__, with None for KeyError. What it returns was read from a version that had
    // appeared, or looked like the one statted, no later than now.
    method GetItem(p: Path, ghost w: World) returns (r: Option<Row>)
      requires Valid() && Inv(w, state)
      ensures r.None? <==> p !in state.files
      ensures r.Some? ==> r.value == state.files[p] && RowOk(w, p, r.value, Now(state, p))
    {
      r := if p in files then Some(files[p]) else None;
    }

    // remove_file
    method RemoveFile(p: Path)
      requires Valid()
      modifies this
      ensures Valid() && state == old(state).(files := old(state).files - {p})
    {
      files := files - {p};
      state := state.(files := files);
    }

    // scan_file behind its lstat, up to the return of a hit or the call of scan.
    method Lookup(w: World, ghost c: Id, p: Path, cacheOk: bool, stat: Stat) returns (hit: Option<Verdict>)
      requires Valid() && Inv(w, state) && c in state.calls && state.calls[c].Statted?
      requires state.calls[c].p == p && state.calls[c].cacheOk == cacheOk && state.calls[c].stat == stat
      modifies this
      ensures Valid() && state == CallStep(w, old(state), c)
      ensures files == old(files) && c in state.calls && state.calls.Keys == old(state).calls.Keys
      ensures hit.Some? <==> cacheOk && p in files && files[p].size == stat.size && files[p].seconds == stat.seconds
      ensures hit.Some? ==> hit.value == files[p].verdict
      ensures if hit.Some? then state.calls[c].Ended?
        && state.calls[c].outcome == Result(hit.value) else state.calls[c].Missed?
    {
      hit := None;
      ghost var start := state.calls[c].start;
      if cacheOk {
        var cached := GetItem(p, w);
        if cached.Some? && stat.size == cached.value.size && stat.seconds == cached.value.seconds {
          hit := Some(cached.value.verdict);
        }
      }
      state := if hit.Some? then Finish(state, c, p, start, Result(hit.value))
        else state.(calls := state.calls[c := Missed(p, start)]);
    }

    // scan_file behind the answer of clamd: the row replaces any other, and its verdict is returned.
    method StoreResult(w: World, ghost c: Id, p: Path, row: Row) returns (verdict: Verdict)
      requires Valid() && c in state.calls && state.calls[c].Answered? && state.calls[c].p == p
        && state.calls[c].row == row
      modifies this
      ensures Valid() && state == CallStep(w, old(state), c) && verdict == row.verdict
      ensures p in files && files[p] == row && files == old(files)[p := row]
      ensures state.calls == old(state).calls[c := Ended(p, old(state).calls[c].start, Now(state, p), Result(verdict))]
    {
      ghost var start := state.calls[c].start;
      files := files[p := row];
      state := Finish(state.(files := files), c, p, start, Result(row.verdict));
      verdict := row.verdict;
    }
  }
}
