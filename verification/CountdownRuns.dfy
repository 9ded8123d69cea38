// Whole runs of the wheel: ticks with tasks added and removed between them.
module CountdownRuns {
  import opened Arith
  import opened Wheel
  import opened WheelIndex
  import opened Countdown
  import opened WheelLists

  datatype Op = TickOp | AddOp(task: Task) | RemoveOp(key: OptionalKey)

  // The timers of one key, in order.
  function Of(f: seq<Timer>, key: Key): seq<Timer> {
    if f == [] then [] else if f[0].task.key == Keyed(key) then [f[0]] + Of(f[1..], key) else Of(f[1..], key)
  }

  function Others(f: seq<Timer>, key: Key): seq<Timer> {
    if f == [] then [] else if f[0].task.key == Keyed(key) then Others(f[1..], key) else [f[0]] + Others(f[1..], key)
  }

  function AddList(f: seq<Timer>, task: Task, interval: nat): seq<Timer>
    requires interval > 0
  {
    if task.key.Keyed? && Of(f, task.key.id) != [] then f else f + [Timer(task, task.delay / interval)]
  }

  function RemoveList(f: seq<Timer>, key: OptionalKey): seq<Timer> {
    if key.Keyed? then Others(f, key.id) else f
  }

  predicate Allowed(op: Op, interval: nat) {
    op.AddOp? ==> PatientTask(op.task, interval)
  }

  lemma {:induction false} OthersWaiting(f: seq<Timer>, key: Key, interval: nat)
    requires Waiting(f, interval)
    ensures Waiting(Others(f, key), interval)
  {
    if f == [] {
    } else {
      OthersWaiting(f[1..], key, interval);
    }
  }

  // The list after one operation, and the tasks it fired.
  function Apply(f: seq<Timer>, op: Op, interval: nat, N: nat): (r: (seq<Timer>, seq<Task>))
    requires interval > 0 && N > 0
  {
    match op
    case TickOp => (TickList(f, interval, N), TickFires(f, interval, N))
    case AddOp(task) => (AddList(f, task, interval), [])
    case RemoveOp(key) => (RemoveList(f, key), [])
  }

  // Every tick of the run comes to an end.
  predicate CanRun(f: seq<Timer>, ops: seq<Op>, interval: nat, N: nat)
    requires interval > 0 && N > 0
    decreases |ops|
  {
    ops == [] || ((ops[0].TickOp? ==> CanTickList(f, interval))
                  && CanRun(Apply(f, ops[0], interval, N).0, ops[1..], interval, N))
  }

  function Run(f: seq<Timer>, ops: seq<Op>, interval: nat, N: nat): (r: (seq<Timer>, seq<Task>))
    requires interval > 0 && N > 0
    decreases |ops|
  {
    if ops == [] then (f, [])
    else
      var one := Apply(f, ops[0], interval, N);
      var rest := Run(one.0, ops[1..], interval, N);
      (rest.0, one.1 + rest.1)
  }

  ghost function ApplyWheel(w: State, op: Op): (r: State)
    requires w.Shaped() && (op.TickOp? ==> CanTick(w))
    ensures r.Shaped() && |r.slots| == |w.slots| && r.interval == w.interval
  {
    match op
    case TickOp => Tick(w)
    case AddOp(task) => Add(w, task)
    case RemoveOp(key) => Remove(w, key)
  }

  // ---- each operation refines its list form --------------------------------------

  lemma {:induction false} OfInLanes(w: State, f: seq<Timer>, key: Key)
    requires Carries(w, f)
    ensures Of(f, key) != [] <==> exists j, p :: Holds(w.slots, j, p, key)
  {
    var N := |w.slots|;
    if Of(f, key) != [] {
      var j, p := OfInLane(f, key, w.cur, N);
      assert Holds(w.slots, j, p, key);
    }
    if j, p :| Holds(w.slots, j, p, key) {
      LaneInOf(f, key, j, w.cur, N, p);
    }
  }

  lemma {:induction false} OfInLane(f: seq<Timer>, key: Key, cur: nat, N: nat) returns (j: nat, p: nat)
    requires N > 0 && Of(f, key) != []
    ensures j < N && p < |Lane(f, j, cur, N)| && Lane(f, j, cur, N)[p].task.key == Keyed(key)
  {
    if f[0].task.key == Keyed(key) {
      j, p := Place(f[0].left, cur, N), 0;
    } else {
      j, p := OfInLane(f[1..], key, cur, N);
      if Place(f[0].left, cur, N) == j {
        p := p + 1;
      }
    }
  }

  lemma {:induction false} LaneInOf(f: seq<Timer>, key: Key, j: nat, cur: nat, N: nat, p: nat)
    requires N > 0 && p < |Lane(f, j, cur, N)| && Lane(f, j, cur, N)[p].task.key == Keyed(key)
    ensures Of(f, key) != []
  {
    if f[0].task.key != Keyed(key) {
      LaneInOf(f[1..], key, j, cur, N, if Place(f[0].left, cur, N) == j then p - 1 else p);
    }
  }

  lemma IndexedOf(w: State, f: seq<Timer>, key: Key)
    requires Carries(w, f) && Valid(w)
    ensures key in w.timer <==> Of(f, key) != []
  {
    OfInLanes(w, f, key);
    if key in w.timer {
      var p :| Holds(w.slots, w.timer[key], p, key);
    }
  }

  lemma AddRefines(w: State, f: seq<Timer>, task: Task)
    requires Carries(w, f) && Valid(w)
    ensures Carries(Add(w, task), AddList(f, task, w.interval)) && Add(w, task).fired == w.fired
  {
    if task.key.Keyed? {
      IndexedOf(w, f, task.key.id);
    }
    if !Indexable(w.timer, task.key) {
      CarriesPush(w, f, task);
    }
  }

  function Dropped(s: seq<Entry>, key: Key): seq<Entry> {
    if s == [] then [] else if s[0].task.key == Keyed(key) then Dropped(s[1..], key) else [s[0]] + Dropped(s[1..], key)
  }

  lemma {:induction false} LaneOthers(f: seq<Timer>, key: Key, j: nat, cur: nat, N: nat)
    requires N > 0
    ensures Lane(Others(f, key), j, cur, N) == Dropped(Lane(f, j, cur, N), key)
  {
    if f == [] {
    } else {
      LaneOthers(f[1..], key, j, cur, N);
      if f[0].task.key != Keyed(key) {
        assert Others(f, key)[1..] == Others(f[1..], key);
      }
      var l := Lane(f, j, cur, N);
      if Place(f[0].left, cur, N) == j {
        assert l[1..] == Lane(f[1..], j, cur, N);
      }
    }
  }

  lemma {:induction false} DroppedOnce(s: seq<Entry>, key: Key)
    requires forall p, q :: 0 <= p < q < |s| && s[p].task.key == Keyed(key) ==> s[q].task.key != Keyed(key)
    ensures var p := Position(s, Keyed(key)); Dropped(s, key) == if p == |s| then s else Without(s, p)
  {
    if s == [] {
    } else {
      assert s == [s[0]] + s[1..];
      DroppedOnce(s[1..], key);
      if s[0].task.key == Keyed(key) {
        assert forall q :: 0 < q < |s| ==> s[q].task.key != Keyed(key);
        assert Position(s[1..], Keyed(key)) == |s[1..]|;
      }
    }
  }

  // A list with indexed keys holds each key at most once.
  lemma KeyOnce(w: State, j: nat, key: Key)
    requires Valid(w) && j < |w.slots|
    ensures var s := w.slots[j];
            forall p, q :: 0 <= p < q < |s| && s[p].task.key == Keyed(key) ==> s[q].task.key != Keyed(key)
    ensures Position(w.slots[j], Keyed(key)) < |w.slots[j]| ==> key in w.timer && w.timer[key] == j
  {
    var s := w.slots[j];
    forall p: nat, q: nat | p < q < |s| && s[p].task.key == Keyed(key) ensures s[q].task.key != Keyed(key) {
      assert Holds(w.slots, j, p, key);
      assert s[q].task.key == Keyed(key) ==> Holds(w.slots, j, q, key);
    }
    var p := Position(s, Keyed(key));
    if p < |s| {
      assert Holds(w.slots, j, p, key);
    }
  }

  lemma RemoveRefines(w: State, f: seq<Timer>, key: OptionalKey)
    requires Carries(w, f) && Valid(w)
    ensures Carries(Remove(w, key), RemoveList(f, key)) && Remove(w, key).fired == w.fired
  {
    hide Lane, Others, Indexed, Dropped;
    if key.Keyed? {
      RemoveKeeps(w, key);
      forall j | 0 <= j < |w.slots|
        ensures Remove(w, key).slots[j] == Lane(Others(f, key.id), j, w.cur, |w.slots|)
      {
        LaneOthers(f, key.id, j, w.cur, |w.slots|);
        KeyOnce(w, j, key.id);
        DroppedOnce(w.slots[j], key.id);
      }
    }
  }

  lemma OpRefines(w: State, f: seq<Timer>, op: Op)
    requires Valid(w) && Carries(w, f)
    ensures CanTick(w) <==> CanTickList(f, w.interval)
    ensures (op.TickOp? ==> CanTick(w)) ==>
              && Valid(ApplyWheel(w, op))
              && Carries(ApplyWheel(w, op), Apply(f, op, w.interval, |w.slots|).0)
              && ApplyWheel(w, op).fired == w.fired + Apply(f, op, w.interval, |w.slots|).1
  {
    hide Indexed, Lane, TickFires, TickList;
    CanTickExactly(w, f);
    match op
    case TickOp =>
      if CanTick(w) {
        TickRefines(w, f);
        TickKeeps(w);
      }
    case AddOp(task) =>
      AddRefines(w, f, task);
      AddKeeps(w, task);
    case RemoveOp(key) =>
      RemoveRefines(w, f, key);
      RemoveKeeps(w, key);
  }

  // Every tick of the run on the wheel comes to an end.
  ghost predicate CanRunWheel(w: State, ops: seq<Op>)
    requires w.Shaped()
    decreases |ops|
  {
    ops == [] || ((ops[0].TickOp? ==> CanTick(w)) && CanRunWheel(ApplyWheel(w, ops[0]), ops[1..]))
  }

  ghost function RunWheel(w: State, ops: seq<Op>): (r: State)
    requires w.Shaped() && CanRunWheel(w, ops)
    ensures r.Shaped() && |r.slots| == |w.slots| && r.interval == w.interval
    decreases |ops|
  {
    if ops == [] then w else RunWheel(ApplyWheel(w, ops[0]), ops[1..])
  }

  // Over any run the wheel never leaves the list: its ticks end where those of the list do,
  // and it fires what the list fires, in order.
  lemma {:induction false} RunRefines(w: State, f: seq<Timer>, ops: seq<Op>)
    requires Valid(w) && Carries(w, f)
    ensures CanRunWheel(w, ops) <==> CanRun(f, ops, w.interval, |w.slots|)
    ensures CanRunWheel(w, ops) ==>
              && Valid(RunWheel(w, ops))
              && Carries(RunWheel(w, ops), Run(f, ops, w.interval, |w.slots|).0)
              && RunWheel(w, ops).fired == w.fired + Run(f, ops, w.interval, |w.slots|).1
    decreases |ops|
  {
    hide Indexed, Lane, Apply, ApplyWheel, CanTickList;
    if ops == [] {
    } else {
      OpRefines(w, f, ops[0]);
      if ops[0].TickOp? ==> CanTick(w) {
        RunRefines(ApplyWheel(w, ops[0]), Apply(f, ops[0], w.interval, |w.slots|).0, ops[1..]);
      }
    }
  }

  // When no repeated keyed task waits less than one interval, every run is possible.
  lemma {:induction false} PatientRuns(f: seq<Timer>, ops: seq<Op>, interval: nat, N: nat)
    requires interval > 0 && N > 0 && Waiting(f, interval)
    requires forall i :: 0 <= i < |ops| ==> Allowed(ops[i], interval)
    ensures CanRun(f, ops, interval, N)
    decreases |ops|
  {
    if ops == [] {
    } else {
      ApplyWaiting(f, ops[0], interval, N);
      PatientRuns(Apply(f, ops[0], interval, N).0, ops[1..], interval, N);
    }
  }

  lemma ApplyWaiting(f: seq<Timer>, op: Op, interval: nat, N: nat)
    requires interval > 0 && N > 0 && Waiting(f, interval) && Allowed(op, interval)
    ensures CanTickList(f, interval) && Waiting(Apply(f, op, interval, N).0, interval)
  {
    TickWaiting(f, Late(f, interval, N), interval, N);
    match op
    case TickOp =>
    case AddOp(task) =>
    case RemoveOp(key) =>
      if key.Keyed? {
        OthersWaiting(f, key.id, interval);
      }
  }

  // ---- when one key fires ----------------------------------------------------------

  function TasksOf(s: seq<Task>, key: Key): seq<Task> {
    if s == [] then [] else if s[0].key == Keyed(key) then [s[0]] + TasksOf(s[1..], key) else TasksOf(s[1..], key)
  }

  lemma {:induction false} OfAppend(f: seq<Timer>, g: seq<Timer>, key: Key)
    ensures Of(f + g, key) == Of(f, key) + Of(g, key)
  {
    if f == [] {
      assert f + g == g;
    } else {
      assert (f + g)[1..] == f[1..] + g;
      OfAppend(f[1..], g, key);
    }
  }

  lemma {:induction false} TasksOfAppend(f: seq<Task>, g: seq<Task>, key: Key)
    ensures TasksOf(f + g, key) == TasksOf(f, key) + TasksOf(g, key)
  {
    if f == [] {
      assert f + g == g;
    } else {
      assert (f + g)[1..] == f[1..] + g;
      TasksOfAppend(f[1..], g, key);
    }
  }

  // A tick treats the timers of a key as if they were alone, except for the lateness and
  // for tasks that come back due.
  lemma {:induction false} TickOf(f: seq<Timer>, late: bool, behind: bool, interval: nat, N: nat, key: Key)
    requires interval > 0 && N > 0 && Zeros(Of(f, key), interval) == []
    ensures Of(Stays(f, N), key) == Stays(Of(f, key), N)
    ensures Of(Comeback(f, late, interval, N), key) == Comeback(Of(f, key), late, interval, N)
    ensures Of(ZeroBack(f, interval, N), key) == [] && TasksOf(Again(f, behind, interval, N), key) == []
    ensures TasksOf(Fires(f), key) == Fires(Of(f, key))
  {
    if f == [] {
    } else {
      var t, rest := f[0], f[1..];
      if t.task.key == Keyed(key) {
        assert Of(f, key)[0] == t && Of(f, key)[1..] == Of(rest, key);
      }
      TickOf(rest, late, behind || Relinks(t, interval, N), interval, N, key);
      if ZeroDue(t, interval) {
        AgainSilent(t, rest, behind, interval, N, key);
        assert ZeroBack(f, interval, N)[1..] == ZeroBack(rest, interval, N);
      }
      if Returns(t, interval) {
        assert Comeback(f, late, interval, N)[1..] == Comeback(rest, late, interval, N);
      }
      if t.left > 0 || t.task.key.NoKey? {
        assert Stays(f, N)[1..] == Stays(rest, N);
      }
      if t.left == 0 {
        assert Fires(f)[1..] == Fires(rest);
      }
    }
  }

  lemma AgainSilent(t: Timer, rest: seq<Timer>, behind: bool, interval: nat, N: nat, key: Key)
    requires interval > 0 && N > 0 && ZeroDue(t, interval) && t.task.key != Keyed(key)
    ensures TasksOf(Again([t] + rest, behind, interval, N), key) == []
  {
    var once, twice := [t.task], [t.task, t.task];
    assert once[1..] == [] && twice[1..] == once;
    assert TasksOf(once, key) == TasksOf(once[1..], key) && TasksOf(twice, key) == TasksOf(twice[1..], key);
    assert [t.task] + [] == once && [t.task] + [t.task] == twice;
    assert ([t] + rest)[0] == t && ([t] + rest)[1..] == rest;
  }

  lemma {:induction false} OthersOf(f: seq<Timer>, other: Key, key: Key)
    requires other != key
    ensures Of(Others(f, other), key) == Of(f, key)
  {
    if f == [] {
    } else {
      OthersOf(f[1..], other, key);
      if f[0].task.key != Keyed(other) {
        assert Others(f, other)[1..] == Others(f[1..], other);
      }
    }
  }

  predicate Touches(op: Op, key: Key) {
    (op.AddOp? && op.task.key == Keyed(key)) || op == RemoveOp(Keyed(key))
  }

  function TicksIn(ops: seq<Op>): nat {
    if ops == [] then 0 else (if ops[0].TickOp? then 1 else 0) + TicksIn(ops[1..])
  }

  // How often a task fires in a given number of ticks when `left` pass before its first
  // firing and, if it is repeated, every n-th after that.
  function Firings(ticks: nat, left: nat, repeated: bool, n: nat): nat
    requires repeated ==> n > 0
  {
    if ticks <= left then 0 else if repeated then 1 + (ticks - left - 1) / n else 1
  }

  lemma {:induction false} OfKeyed(f: seq<Timer>, key: Key)
    ensures forall i :: 0 <= i < |Of(f, key)| ==> Of(f, key)[i].task.key == Keyed(key)
  {
    if f == [] {
    } else {
      OfKeyed(f[1..], key);
    }
  }

  lemma ApplyOf(f: seq<Timer>, op: Op, interval: nat, N: nat, key: Key)
    requires interval > 0 && N > 0 && Zeros(Of(f, key), interval) == [] && !Touches(op, key)
    ensures var r := Apply(f, op, interval, N);
            if op.TickOp? then
              && Of(r.0, key) == Stays(Of(f, key), N) + Comeback(Of(f, key), Late(f, interval, N), interval, N)
              && TasksOf(r.1, key) == Fires(Of(f, key))
            else Of(r.0, key) == Of(f, key) && r.1 == []
  {
    hide Stays, Comeback, ZeroBack, Fires, Again, Late;
    match op
    case TickOp =>
      var late := Late(f, interval, N);
      TickOf(f, late, false, interval, N, key);
      OfAppend(Stays(f, N) + Comeback(f, late, interval, N), ZeroBack(f, interval, N), key);
      OfAppend(Stays(f, N), Comeback(f, late, interval, N), key);
      TasksOfAppend(Fires(f), Again(f, false, interval, N), key);
    case AddOp(task) => OfAppend(f, [Timer(task, task.delay / interval)], key);
    case RemoveOp(k) =>
      if k.Keyed? {
        OthersOf(f, k.id, key);
      }
  }

  lemma {:induction false} AbsentSilent(f: seq<Timer>, ops: seq<Op>, interval: nat, N: nat, key: Key)
    requires interval > 0 && N > 0 && Of(f, key) == []
    requires forall i :: 0 <= i < |ops| ==> !Touches(ops[i], key)
    ensures TasksOf(Run(f, ops, interval, N).1, key) == []
    decreases |ops|
  {
    if ops == [] {
    } else {
      var one := Apply(f, ops[0], interval, N);
      ApplyOf(f, ops[0], interval, N, key);
      TasksOfAppend(one.1, Run(one.0, ops[1..], interval, N).1, key);
      AbsentSilent(one.0, ops[1..], interval, N, key);
    }
  }

  // One tick of a single timer, and what it leaves of the closed form.
  lemma {:induction false} OneTick(t: Timer, late: bool, interval: nat, N: nat, ticks: nat)
    requires interval > 0 && N > 0 && t.task.key.Keyed? && ticks > 0
    requires t.task.repeated ==> (t.task.delay / interval) % N != 0
    ensures t.task.repeated ==> t.task.delay / interval > 0
    ensures Zeros([t], interval) == []
    ensures var n := t.task.delay / interval;
            var after := Stays([t], N) + Comeback([t], late, interval, N);
            if t.left > 0 then
              && after == [t.(left := t.left - 1)] && Fires([t]) == []
              && Firings(ticks, t.left, t.task.repeated, n) == Firings(ticks - 1, t.left - 1, t.task.repeated, n)
            else if t.task.repeated then
              && after == [t.(left := n - 1)] && Fires([t]) == [t.task]
              && Firings(ticks, 0, true, n) == 1 + Firings(ticks - 1, n - 1, true, n)
            else after == [] && Fires([t]) == [t.task] && Firings(ticks, 0, false, n) == 1
  {
    DivModUnique(0, 0, 0, N);
    DelayCounts(t.task.delay, interval);
    assert [t][1..] == [];
    var n := t.task.delay / interval;
    if t.left == 0 && t.task.repeated {
      assert [t][0] == t;
      if ticks - 1 < n {
        DivModUnique(ticks - 1, 0, ticks - 1, n);
      } else {
        AddMultiple(ticks - 1 - n, 1, n);
      }
    }
  }

  // While nobody adds or removes the key, its task fires first on tick left + 1 and, when
  // repeated with a period that is no whole number of revolutions, every n ticks after.
  lemma {:induction false} FiringTimes(f: seq<Timer>, ops: seq<Op>, interval: nat, N: nat, key: Key, t: Timer)
    requires interval > 0 && N > 0 && Of(f, key) == [t]
    requires forall i :: 0 <= i < |ops| ==> !Touches(ops[i], key)
    requires t.task.repeated ==> (t.task.delay / interval) % N != 0
    ensures t.task.repeated ==> t.task.delay / interval > 0
    ensures |TasksOf(Run(f, ops, interval, N).1, key)|
         == Firings(TicksIn(ops), t.left, t.task.repeated, t.task.delay / interval)
    decreases |ops|
  {
    hide Stays, Comeback, Fires, Late, Apply, Zeros;
    DivModUnique(0, 0, 0, N);
    if ops == [] {
    } else {
      OfKeyed(f, key);
      assert t.task.key == Keyed(key) by { assert Of(f, key)[0] == t; }
      var late := Late(f, interval, N);
      OneTick(t, late, interval, N, 1 + TicksIn(ops[1..]));
      var one := Apply(f, ops[0], interval, N);
      ApplyOf(f, ops[0], interval, N, key);
      TasksOfAppend(one.1, Run(one.0, ops[1..], interval, N).1, key);
      if !ops[0].TickOp? {
        FiringTimes(one.0, ops[1..], interval, N, key, t);
      } else if t.left == 0 && !t.task.repeated {
        AbsentSilent(one.0, ops[1..], interval, N, key);
      } else {
        FiringTimes(one.0, ops[1..], interval, N, key, Of(one.0, key)[0]);
      }
    }
  }

  // Waiting longer never means firing more often.
  lemma FiringsFall(ticks: nat, left: nat, left': nat, n: nat)
    requires n > 0 && left <= left'
    ensures Firings(ticks, left', true, n) <= Firings(ticks, left, true, n)
  {
    if ticks > left' {
      QuotientGrows(ticks - left' - 1, ticks - left - 1, n);
    }
  }

  lemma QuotientGrows(a: nat, b: nat, n: nat)
    requires n > 0 && a <= b
    ensures a / n <= b / n
  {
    var d := b - a + a % n;
    assert b == (a / n) * n + d;
    AddMultiple(d, a / n, n);
  }

  lemma OnePeriod(ticks: nat, n: nat)
    requires n > 0 && ticks > 0
    ensures Firings(ticks, 0, true, n) == 1 + Firings(ticks - 1, n - 1, true, n)
  {
    if ticks - 1 < n {
      DivModUnique(ticks - 1, 0, ticks - 1, n);
    } else {
      AddMultiple(ticks - 1 - n, 1, n);
    }
  }

  // One tick of a repeated timer, and what it leaves of the bounds.
  lemma {:induction false} AfterTick(t: Timer, late: bool, interval: nat, N: nat, ticks: nat) returns (t': Timer)
    requires interval > 0 && N > 0 && t.task.key.Keyed? && t.task.repeated && t.task.delay >= interval && ticks > 0
    ensures Zeros([t], interval) == [] && t'.task == t.task && t.task.delay / interval > 0
    ensures Stays([t], N) + Comeback([t], late, interval, N) == [t']
    ensures Fires([t]) == if t.left == 0 then [t.task] else []
    ensures var n := t.task.delay / interval;
            && Firings(ticks, t.left, true, n + N) <= |Fires([t])| + Firings(ticks - 1, t'.left, true, n + N)
            && |Fires([t])| + Firings(ticks - 1, t'.left, true, n) <= Firings(ticks, t.left, true, n)
  {
    var n := t.task.delay / interval;
    DelayCounts(t.task.delay, interval);
    assert [t][1..] == [] && [t][0] == t;
    if t.left == 0 {
      t' := Reentry(t.task, late, interval, N);
      assert Stays([t], N) == [] && Comeback([t], late, interval, N) == [t'];
      assert [] + [t'] == [t'];
      OnePeriod(ticks, n);
      OnePeriod(ticks, n + N);
      FiringsFall(ticks - 1, n - 1, t'.left, n);
      FiringsFall(ticks - 1, t'.left, n + N - 1, n + N);
    } else {
      t' := t.(left := t.left - 1);
      assert Stays([t], N) == [t'] && Comeback([t], late, interval, N) == [];
    }
  }

  lemma NoTicks(left: nat, n: nat)
    requires n > 0
    ensures Firings(0, left, true, n) == 0
  {
  }

  // Whatever its period, a repeated task fires at least every n + N ticks and at most every
  // n: a revolution is lost only when the task comes back to the walked slot as its last.
  lemma {:induction false} FiringBounds(f: seq<Timer>, ops: seq<Op>, interval: nat, N: nat, key: Key, t: Timer)
    requires interval > 0 && N > 0 && Of(f, key) == [t] && t.task.repeated && t.task.delay >= interval
    requires forall i :: 0 <= i < |ops| ==> !Touches(ops[i], key)
    ensures var n := t.task.delay / interval;
            && n > 0
            && Firings(TicksIn(ops), t.left, true, n + N)
               <= |TasksOf(Run(f, ops, interval, N).1, key)|
               <= Firings(TicksIn(ops), t.left, true, n)
    decreases |ops|
  {
    hide Stays, Comeback, Fires, Late, Apply, Zeros, Firings;
    DelayCounts(t.task.delay, interval);
    if ops == [] {
      NoTicks(t.left, t.task.delay / interval);
      NoTicks(t.left, t.task.delay / interval + N);
    } else {
      OfKeyed(f, key);
      assert t.task.key == Keyed(key) by { assert Of(f, key)[0] == t; }
      var late := Late(f, interval, N);
      var t' := AfterTick(t, late, interval, N, 1 + TicksIn(ops[1..]));
      var one := Apply(f, ops[0], interval, N);
      ApplyOf(f, ops[0], interval, N, key);
      TasksOfAppend(one.1, Run(one.0, ops[1..], interval, N).1, key);
      if ops[0].TickOp? {
        FiringBounds(one.0, ops[1..], interval, N, key, t');
      } else {
        FiringBounds(one.0, ops[1..], interval, N, key, t);
      }
    }
  }

  // Alone in the list, a task whose period is a whole number of revolutions loses one on
  // every firing.
  lemma AloneIsLate(task: Task, interval: nat, N: nat)
    requires interval > 0 && N > 0 && task.key.Keyed? && task.repeated && task.delay >= interval
    requires (task.delay / interval) % N == 0
    ensures TickList([Timer(task, 0)], interval, N) == [Timer(task, task.delay / interval - 1 + N)]
  {
    var f := [Timer(task, 0)];
    assert f[1..] == [];
    var late := Late(f, interval, N);
    var t' := AfterTick(f[0], late, interval, N, 1);
    assert late;
    assert ZeroBack(f, interval, N) == [];
    assert [t'] + [] == [t'];
  }

  // ---- tasks without a key ----------------------------------------------------------------

  function Keyless(f: seq<Timer>): seq<Timer> {
    if f == [] then [] else if f[0].task.key.NoKey? then [f[0]] + Keyless(f[1..]) else Keyless(f[1..])
  }

  function KeylessTasks(s: seq<Task>): nat {
    if s == [] then 0 else (if s[0].key.NoKey? then 1 else 0) + KeylessTasks(s[1..])
  }

  // The firings of tasks that each fire `left` ticks on and then once every revolution.
  function Rounds(f: seq<Timer>, ticks: nat, N: nat): nat
    requires N > 0
  {
    if f == [] then 0 else Firings(ticks, f[0].left, true, N) + Rounds(f[1..], ticks, N)
  }

  lemma {:induction false} KeylessAppend(f: seq<Timer>, g: seq<Timer>)
    ensures Keyless(f + g) == Keyless(f) + Keyless(g)
  {
    if f == [] {
      assert f + g == g;
    } else {
      assert (f + g)[1..] == f[1..] + g;
      KeylessAppend(f[1..], g);
    }
  }

  lemma {:induction false} KeylessTasksAppend(f: seq<Task>, g: seq<Task>)
    ensures KeylessTasks(f + g) == KeylessTasks(f) + KeylessTasks(g)
  {
    if f == [] {
      assert f + g == g;
    } else {
      assert (f + g)[1..] == f[1..] + g;
      KeylessTasksAppend(f[1..], g);
    }
  }

  lemma {:induction false} TickKeyless(f: seq<Timer>, late: bool, behind: bool, interval: nat, N: nat)
    requires interval > 0 && N > 0
    ensures Keyless(Stays(f, N)) == Stays(Keyless(f), N)
    ensures Keyless(Comeback(f, late, interval, N)) == [] && Keyless(ZeroBack(f, interval, N)) == []
    ensures KeylessTasks(Fires(f)) == |Fires(Keyless(f))| && KeylessTasks(Again(f, behind, interval, N)) == 0
  {
    if f == [] {
    } else {
      var t, rest := f[0], f[1..];
      TickKeyless(rest, late, behind || Relinks(t, interval, N), interval, N);
      if t.task.key.NoKey? {
        assert Keyless(f)[0] == t && Keyless(f)[1..] == Keyless(rest);
      }
      if t.left > 0 || t.task.key.NoKey? {
        assert Stays(f, N)[1..] == Stays(rest, N);
      }
      if t.left == 0 {
        assert Fires(f)[1..] == Fires(rest);
      }
      if Returns(t, interval) {
        assert Comeback(f, late, interval, N)[1..] == Comeback(rest, late, interval, N);
      }
      if ZeroDue(t, interval) {
        assert ZeroBack(f, interval, N)[1..] == ZeroBack(rest, interval, N);
        AgainKeyed(t, rest, behind, interval, N);
      }
    }
  }

  lemma AgainKeyed(t: Timer, rest: seq<Timer>, behind: bool, interval: nat, N: nat)
    requires interval > 0 && N > 0 && ZeroDue(t, interval)
    ensures KeylessTasks(Again([t] + rest, behind, interval, N)) == 0
  {
    var once, twice := [t.task], [t.task, t.task];
    assert once[1..] == [] && twice[1..] == once;
    assert KeylessTasks(once) == 0 && KeylessTasks(twice) == KeylessTasks(once);
    assert [t.task] + [] == once && [t.task] + [t.task] == twice;
    assert ([t] + rest)[0] == t && ([t] + rest)[1..] == rest;
  }

  lemma {:induction false} RoundsTick(g: seq<Timer>, ticks: nat, N: nat)
    requires N > 0 && ticks > 0 && forall i :: 0 <= i < |g| ==> g[i].task.key.NoKey?
    ensures |Fires(g)| + Rounds(Stays(g, N), ticks - 1, N) == Rounds(g, ticks, N)
  {
    if g == [] {
    } else {
      RoundsTick(g[1..], ticks, N);
      assert Stays(g, N)[1..] == Stays(g[1..], N);
      if g[0].left == 0 {
        OnePeriod(ticks, N);
      }
    }
  }

  lemma {:induction false} AllKeyless(f: seq<Timer>)
    ensures forall i :: 0 <= i < |Keyless(f)| ==> Keyless(f)[i].task.key.NoKey?
  {
    if f == [] {
    } else {
      AllKeyless(f[1..]);
    }
  }

  lemma {:induction false} KeylessOthers(f: seq<Timer>, key: Key)
    ensures Keyless(Others(f, key)) == Keyless(f)
  {
    if f == [] {
    } else {
      KeylessOthers(f[1..], key);
      if f[0].task.key != Keyed(key) {
        assert Others(f, key)[1..] == Others(f[1..], key);
      }
    }
  }

  lemma {:induction false} NoRounds(f: seq<Timer>, N: nat)
    requires N > 0
    ensures Rounds(f, 0, N) == 0
  {
    if f == [] {
    } else {
      NoRounds(f[1..], N);
    }
  }

  // Tasks without a key, repeated or not, fire first after their delay and then once every
  // revolution for ever, and no removal stops them.
  lemma {:induction false} KeylessFire(f: seq<Timer>, ops: seq<Op>, interval: nat, N: nat)
    requires interval > 0 && N > 0
    requires forall i :: 0 <= i < |ops| ==> !(ops[i].AddOp? && ops[i].task.key.NoKey?)
    ensures KeylessTasks(Run(f, ops, interval, N).1) == Rounds(Keyless(f), TicksIn(ops), N)
    decreases |ops|
  {
    hide Stays, Comeback, ZeroBack, Fires, Again, Late, Rounds, Keyless, Others;
    if ops == [] {
      NoRounds(Keyless(f), N);
    } else {
      var one := Apply(f, ops[0], interval, N);
      KeylessTasksAppend(one.1, Run(one.0, ops[1..], interval, N).1);
      KeylessFire(one.0, ops[1..], interval, N);
      KeylessApply(f, ops[0], interval, N);
      if ops[0].TickOp? {
        AllKeyless(f);
        RoundsTick(Keyless(f), TicksIn(ops), N);
      }
    }
  }

  lemma KeylessApply(f: seq<Timer>, op: Op, interval: nat, N: nat)
    requires interval > 0 && N > 0 && !(op.AddOp? && op.task.key.NoKey?)
    ensures var r := Apply(f, op, interval, N);
            if op.TickOp? then Keyless(r.0) == Stays(Keyless(f), N) && KeylessTasks(r.1) == |Fires(Keyless(f))|
            else Keyless(r.0) == Keyless(f) && KeylessTasks(r.1) == 0
  {
    hide Stays, Comeback, ZeroBack, Fires, Again, Late, Others;
    match op
    case TickOp =>
      var late := Late(f, interval, N);
      TickKeyless(f, late, false, interval, N);
      KeylessAppend(Stays(f, N) + Comeback(f, late, interval, N), ZeroBack(f, interval, N));
      KeylessAppend(Stays(f, N), Comeback(f, late, interval, N));
      KeylessTasksAppend(Fires(f), Again(f, false, interval, N));
    case AddOp(task) =>
      var t := [Timer(task, task.delay / interval)];
      KeylessAppend(f, t);
      assert t[1..] == [];
    case RemoveOp(k) =>
      if k.Keyed? {
        KeylessOthers(f, k.id);
      }
  }

  lemma {:induction false} OthersNone(f: seq<Timer>, key: Key)
    ensures Of(Others(f, key), key) == []
  {
    if f == [] {
    } else {
      OthersNone(f[1..], key);
      if f[0].task.key != Keyed(key) {
        assert Others(f, key)[1..] == Others(f[1..], key);
      }
    }
  }

  // ---- the same for the wheel ----------------------------------------------------------

  // A task added to a wheel under a free key is the one timer of its key in the list.
  lemma AddedTimer(w: State, task: Task) returns (f: seq<Timer>)
    requires Valid(w) && task.key.Keyed? && task.key.id !in w.timer
    ensures Valid(Add(w, task)) && Carries(Add(w, task), f) && Add(w, task).fired == w.fired
    ensures Of(f, task.key.id) == [Timer(task, w.Ticks(task))]
  {
    hide Lane, Indexed;
    f := SomeListCarried(w);
    IndexedOf(w, f, task.key.id);
    AddKeeps(w, task);
    AddRefines(w, f, task);
    var t := Timer(task, w.Ticks(task));
    OfAppend(f, [t], task.key.id);
    assert Of([t], task.key.id) == [t] by {
      assert [t][1..] == [];
    }
    f := AddList(f, task, w.interval);
  }

  // How often the key fires from here to the end of the run.
  ghost function FiredBy(w: State, ops: seq<Op>, key: Key): nat
    requires w.Shaped() && CanRunWheel(w, ops)
  {
    var fired := RunWheel(w, ops).fired;
    if |w.fired| <= |fired| then |TasksOf(fired[|w.fired|..], key)| else 0
  }

  lemma FiredByList(w: State, f: seq<Timer>, ops: seq<Op>, key: Key)
    requires Valid(w) && Carries(w, f) && CanRunWheel(w, ops)
    ensures w.fired <= RunWheel(w, ops).fired
    ensures FiredBy(w, ops, key) == |TasksOf(Run(f, ops, w.interval, |w.slots|).1, key)|
  {
    hide Lane, Indexed, Run, RunWheel, CanRunWheel;
    RunRefines(w, f, ops);
    var more := Run(f, ops, w.interval, |w.slots|).1;
    assert (w.fired + more)[|w.fired|..] == more;
  }

  // A task just added under a free key fires first on tick n + 1 and, when repeated with n
  // no multiple of the slot number, every n ticks after that, whatever else is added,
  // removed and fired meanwhile.
  lemma AddedTaskFires(w: State, task: Task, ops: seq<Op>)
    requires Valid(w) && task.key.Keyed? && task.key.id !in w.timer
    requires CanRunWheel(Add(w, task), ops) && forall i :: 0 <= i < |ops| ==> !Touches(ops[i], task.key.id)
    requires task.repeated ==> w.Ticks(task) % |w.slots| != 0
    ensures task.repeated ==> w.Ticks(task) > 0
    ensures FiredBy(Add(w, task), ops, task.key.id) == Firings(TicksIn(ops), w.Ticks(task), task.repeated, w.Ticks(task))
  {
    hide Lane, Indexed, Run, FiredBy, Firings, TicksIn, CanRunWheel, RunWheel, Of, Touches;
    var f := AddedTimer(w, task);
    FiringTimes(f, ops, w.interval, |w.slots|, task.key.id, Timer(task, w.Ticks(task)));
    FiredByList(Add(w, task), f, ops, task.key.id);
  }

  // With any period of at least one tick it fires at most every n and at least every n + N
  // ticks after that.
  lemma AddedTaskBounds(w: State, task: Task, ops: seq<Op>)
    requires Valid(w) && task.key.Keyed? && task.key.id !in w.timer
    requires CanRunWheel(Add(w, task), ops) && forall i :: 0 <= i < |ops| ==> !Touches(ops[i], task.key.id)
    requires task.repeated && task.delay >= w.interval
    ensures var n := w.Ticks(task);
            && n > 0
            && Firings(TicksIn(ops), n, true, n + |w.slots|)
               <= FiredBy(Add(w, task), ops, task.key.id)
               <= Firings(TicksIn(ops), n, true, n)
  {
    hide Lane, Indexed, Run, FiredBy, Firings, TicksIn, CanRunWheel, RunWheel, Of, Touches;
    var f := AddedTimer(w, task);
    FiringBounds(f, ops, w.interval, |w.slots|, task.key.id, Timer(task, w.Ticks(task)));
    FiredByList(Add(w, task), f, ops, task.key.id);
  }

  // A removed task never fires again, until its key is added anew.
  lemma RemovedTaskSilent(w: State, key: Key, ops: seq<Op>)
    requires Valid(w) && forall i :: 0 <= i < |ops| ==> !Touches(ops[i], key)
    requires CanRunWheel(Remove(w, Keyed(key)), ops)
    ensures FiredBy(Remove(w, Keyed(key)), ops, key) == 0
  {
    hide Lane, Indexed, Run, FiredBy, CanRunWheel, RunWheel, Of, Touches, Remove;
    var f := SomeListCarried(w);
    RemoveRefines(w, f, Keyed(key));
    RemoveKeeps(w, Keyed(key));
    OthersNone(f, key);
    AbsentSilent(Others(f, key), ops, w.interval, |w.slots|, key);
    SameWheel(w, Keyed(key));
    FiredByList(Remove(w, Keyed(key)), Others(f, key), ops, key);
  }

  lemma SameWheel(w: State, key: OptionalKey)
    requires w.Shaped()
    ensures |Remove(w, key).slots| == |w.slots| && Remove(w, key).interval == w.interval
  {
  }
}
