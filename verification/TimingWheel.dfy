// The wheel as util/timewheel.go keeps it: task objects linked into slot lists that are
// edited while they are walked. Every method is tied to the values of module Wheel.
module TimingWheel {
  import opened Arith
  import opened Wheel
  import opened WheelIndex
  import opened WheelClock

  class TWTask {
    const key: OptionalKey
    const delay: nat
    const repeated: bool
    var circle: nat

    constructor (key: OptionalKey, delay: nat, repeated: bool)
      ensures Value() == Task(key, delay, repeated)
    {
      this.key, this.delay, this.repeated, circle := key, delay, repeated, 0;
    }

    function Value(): Task {
      Task(key, delay, repeated)
    }

    function AsEntry(): Entry
      reads this
    {
      Entry(Value(), circle)
    }
  }

  // A call of the user's Callback.
  datatype Call = Call(task: Task, ms: nat)

  function Called(log: seq<Call>): (r: seq<Task>)
    ensures |r| == |log| && forall i :: 0 <= i < |log| ==> r[i] == log[i].task
  {
    seq(|log|, i requires 0 <= i < |log| => log[i].task)
  }

  type Lists = seq<seq<TWTask>>

  ghost function TasksIn(s: Lists): set<TWTask> {
    set j, p | 0 <= j < |s| && 0 <= p < |s[j]| :: s[j][p]
  }

  // No task object is linked twice.
  ghost predicate Distinct(s: Lists) {
    forall i, j, p, q :: 0 <= i < |s| && 0 <= j < |s| && 0 <= p < |s[i]| && 0 <= q < |s[j]| ==>
      s[i][p] == s[j][q] ==> i == j && p == q
  }

  lemma PushDistinct(s: Lists, j: nat, t: TWTask)
    requires Distinct(s) && j < |s| && t !in TasksIn(s)
    ensures var s' := s[j := s[j] + [t]]; Distinct(s') && TasksIn(s') == TasksIn(s) + {t}
  {
    var s' := s[j := s[j] + [t]];
    forall x | x in TasksIn(s) + {t} ensures x in TasksIn(s') {
      if x == t {
        assert s'[j][|s[j]|] == t;
      } else {
        var i, p :| 0 <= i < |s| && 0 <= p < |s[i]| && s[i][p] == x;
        assert s'[i][p] == x;
      }
    }
    forall x | x in TasksIn(s') ensures x in TasksIn(s) + {t} {
      var i, p :| 0 <= i < |s'| && 0 <= p < |s'[i]| && s'[i][p] == x;
    }
  }

  lemma WithoutDistinct(s: Lists, j: nat, p: nat)
    requires Distinct(s) && j < |s| && p < |s[j]|
    ensures var s' := s[j := Without(s[j], p)]; Distinct(s') && TasksIn(s') == TasksIn(s) - {s[j][p]}
  {
    var s' := s[j := Without(s[j], p)];
    forall x | x in TasksIn(s) - {s[j][p]} ensures x in TasksIn(s') {
      var i, q :| 0 <= i < |s| && 0 <= q < |s[i]| && s[i][q] == x;
      assert s'[i][if i == j && q > p then q - 1 else q] == x;
    }
    forall x | x in TasksIn(s') ensures x in TasksIn(s) - {s[j][p]} {
      var i, q :| 0 <= i < |s'| && 0 <= q < |s'[i]| && s'[i][q] == x;
      assert s[i][if i == j && q >= p then q + 1 else q] == x;
    }
  }

  ghost predicate Lengths(s: Lists, e: Slots) {
    |e| == |s| && forall j :: 0 <= j < |s| ==> |e[j]| == |s[j]|
  }

  // The lists show exactly these entries.
  ghost predicate Shows(s: Lists, e: Slots)
    reads TasksIn(s)
  {
    && Lengths(s, e)
    && (forall j, p :: 0 <= j < |s| && 0 <= p < |s[j]| ==> s[j][p] in TasksIn(s) && e[j][p] == s[j][p].AsEntry())
  }

  lemma ShowsOne(s: Lists, e: Slots, f: Slots)
    requires Shows(s, e) && Shows(s, f)
    ensures e == f
  {
    forall j | 0 <= j < |s| ensures e[j] == f[j] {
    }
  }

  ghost function Entries(t: seq<TWTask>): (e: seq<Entry>)
    reads t
    ensures |e| == |t| && forall p :: 0 <= p < |t| ==> e[p] == t[p].AsEntry()
  {
    if t == [] then [] else [t[0].AsEntry()] + Entries(t[1..])
  }

  ghost function Shown(s: Lists): (e: Slots)
    reads TasksIn(s)
    ensures Shows(s, e)
  {
    if s == [] then []
    else
      assert forall p :: 0 <= p < |s[0]| ==> s[0][p] in TasksIn(s);
      assert TasksIn(s[1..]) <= TasksIn(s) by {
        assert forall j, p :: 0 <= j < |s[1..]| && 0 <= p < |s[1..][j]| ==> s[1..][j][p] == s[j + 1][p];
      }
      [Entries(s[0])] + Shown(s[1..])
  }

  lemma ShowsPush(s: Lists, e: Slots, j: nat, t: TWTask)
    requires Shows(s, e) && j < |s|
    ensures Shows(s[j := s[j] + [t]], e[j := e[j] + [t.AsEntry()]])
  {
    var s': Lists, e': Slots := s[j := s[j] + [t]], e[j := e[j] + [t.AsEntry()]];
    forall i, p | 0 <= i < |s'| && 0 <= p < |s'[i]| ensures e'[i][p] == s'[i][p].AsEntry() {
      if p < |s[i]| {
        assert e[i][p] == s[i][p].AsEntry();
      }
    }
  }

  lemma ShowsWithout(s: Lists, e: Slots, j: nat, p: nat)
    requires Shows(s, e) && j < |s| && p < |s[j]|
    ensures Shows(s[j := Without(s[j], p)], e[j := Without(e[j], p)])
  {
    var s': Lists, e': Slots := s[j := Without(s[j], p)], e[j := Without(e[j], p)];
    forall i, q | 0 <= i < |s'| && 0 <= q < |s'[i]| ensures e'[i][q] == s'[i][q].AsEntry() {
      var q' := if i == j && q >= p then q + 1 else q;
      assert s'[i][q] == s[i][q'] && e'[i][q] == e[i][q'];
    }
  }

  // One task changed its circle.
  lemma ShowsCircle(s: Lists, e: Slots, j: nat, p: nat)
    requires Distinct(s) && j < |s| && p < |s[j]| && Lengths(s, e)
    requires forall i, q :: 0 <= i < |s| && 0 <= q < |s[i]| && s[i][q] != s[j][p] ==> e[i][q] == s[i][q].AsEntry()
    ensures Shows(s, e[j := e[j][p := s[j][p].AsEntry()]])
  {
    var e': Slots := e[j := e[j][p := s[j][p].AsEntry()]];
    forall i, q | 0 <= i < |s| && 0 <= q < |s[i]| ensures s[i][q] in TasksIn(s) && e'[i][q] == s[i][q].AsEntry() {
    }
  }

  lemma NextStep(k: Walk)
    requires k.Shaped() && !k.Done() && Terminating(k)
    ensures k.Step().Shaped() && Terminating(k.Step()) && WalkAll(k) == WalkAll(k.Step())
    ensures Below(WalkMeasure(k.Step()), WalkMeasure(k))
  {
    StepDecreases(k);
  }

  lemma NoStep(k: Walk)
    requires k.Shaped() && k.Done()
    ensures WalkAll(k) == k.w
  {
  }

  class TimeWheel {
    const interval: nat
    const slotNum: nat
    const slots: array<seq<TWTask>>
    var timer: map<Key, nat>
    var currentIdx: nat
    var oldMs: nat
    var log: seq<Call>

    ghost function Tasks(): set<TWTask>
      reads this, slots
    {
      TasksIn(slots[..])
    }

    ghost predicate Linked()
      reads this, slots
    {
      interval > 0 && slots.Length == slotNum && currentIdx < slotNum && Distinct(slots[..])
    }

    ghost function View(): (r: State)
      requires Linked()
      reads this, slots, Tasks()
      ensures r.Shaped() && r.interval == interval && |r.slots| == slotNum && r.cur == currentIdx
      ensures r.timer == timer && r.fired == Called(log)
      ensures Shows(slots[..], r.slots)
    {
      State(interval, Shown(slots[..]), timer, currentIdx, Called(log))
    }

    ghost predicate Valid()
      reads this, slots, Tasks()
    {
      Linked() && WheelIndex.Valid(View())
    }

    // What adding relies on.
    predicate Ready()
      reads this
    {
      interval > 0 && slots.Length == slotNum && currentIdx < slotNum
    }

    // A wheel without slots can be made, but it can neither tick nor take a task.
    constructor Init(interval: nat, slotNum: nat)
      requires interval > 0
      ensures fresh(slots) && slots.Length == slotNum && Tasks() == {} && oldMs == 0
      ensures slotNum > 0 ==> Valid() && View() == State(interval, seq(slotNum, _ => []), map[], 0, [])
    {
      this.interval, this.slotNum := interval, slotNum;
      slots := new seq<TWTask>[slotNum](_ => []);
      timer, currentIdx, oldMs, log := map[], 0, 0, [];
      new;
      if slotNum > 0 {
        assert View().slots == seq(slotNum, _ => []);
      }
    }

    // An object may be added while it is linked, if it has no key: then it is linked twice,
    // with one circle for both, and the wheel shows no list of entries any more.
    method AddTask(task: TWTask) returns (ok: bool)
      requires Ready()
      modifies this`timer, slots, task`circle
      ensures Ready() && (ok <==> !Indexable(old(timer), task.key))
      ensures ok ==> LinkedLast(task, old(slots[..]), old(timer))
      ensures !ok ==> unchanged(this) && unchanged(slots) && task.circle == old(task.circle)
      ensures old(Linked()) && (ok ==> task !in old(Tasks())) ==>
                && Linked() && View() == Wheel.Add(old(View()), task.Value())
                && Tasks() == if ok then old(Tasks()) + {task} else old(Tasks())
    {
      ok := !(task.key.Keyed? && task.key.id in timer);
      if ok {
        PushBack(task);
      }
    }

    // The object is the last of the slot its delay leads to, and its key is indexed there.
    ghost predicate LinkedLast(task: TWTask, s: Lists, index: map<Key, nat>)
      reads this, slots, task
    {
      && Ready() && |s| == slotNum
      && exists j: nat, circle: nat ::
           && Encodes(j, circle, task.delay) && task.circle == circle
           && slots[..] == s[j := s[j] + [task]]
           && timer == if task.key.Keyed? then index[task.key.id := j] else index
    }

    // Slot and circle together stand for the delay in intervals: the slots from the pointer
    // on, and a revolution for each of the circles.
    predicate Encodes(idx: nat, circle: nat, delay: nat)
      reads this
    {
      Ready() && idx < slotNum && (idx + slotNum - currentIdx) % slotNum + circle * slotNum == delay / interval
    }

    // The second half of AddTask: the task is linked and its key indexed.
    method PushBack(task: TWTask)
      requires Ready()
      modifies this`timer, slots, task`circle
      ensures LinkedLast(task, old(slots[..]), old(timer))
      ensures old(Linked() && task !in Tasks()) ==>
                Linked() && View() == old(View()).PushBack(task.Value()) && Tasks() == old(Tasks()) + {task}
    {
      hide Shown, Called;
      ghost var linked, s := Linked() && task !in Tasks(), slots[..];
      ghost var w := if linked then View() else State(1, [[]], map[], 0, []);
      var idx, circle := GetIdxAndCircle(task.delay);
      task.circle := circle;
      assert linked ==> Shows(s, w.slots) by {
        assert linked ==> forall j, p :: 0 <= j < |s| && 0 <= p < |s[j]| ==> s[j][p] != task;
      }
      slots[idx] := slots[idx] + [task];
      timer := if task.key.Keyed? then timer[task.key.id := idx] else timer;
      assert slots[..] == s[idx := s[idx] + [task]] && Encodes(idx, circle, task.delay);
      if linked {
        ghost var r := w.PushBack(task.Value());
        OnePlace(idx, circle, task.delay / interval, currentIdx, slotNum);
        assert r.slots == w.slots[idx := w.slots[idx] + [Entry(task.Value(), circle)]];
        PushDistinct(s, idx, task);
        ShowsPush(s, w.slots, idx, task);
        ShowsOne(slots[..], View().slots, r.slots);
      }
    }

    method GetIdxAndCircle(taskDuration: nat) returns (idx: nat, circle: nat)
      requires Ready()
      ensures Encodes(idx, circle, taskDuration)
    {
      var tmpVal := taskDuration / interval;
      circle := tmpVal / slotNum;
      idx := (currentIdx + tmpVal) % slotNum;
      PlaceEncodes(tmpVal, currentIdx, slotNum);
    }

    // Takes one keyed element out of its list and its key out of the index.
    method Unlink(j: nat, item: nat)
      requires Linked() && j < slotNum && item < |slots[j]| && slots[j][item].key.Keyed?
      modifies this`timer, slots
      ensures Linked() && Tasks() == old(Tasks()) - {old(slots[j][item])}
      ensures View() == old(View().(slots := View().slots[j := Without(View().slots[j], item)],
                                    timer := timer - {slots[j][item].key.id}))
    {
      hide Shown, Called;
      ghost var w, s := View(), slots[..];
      timer := timer - {slots[j][item].key.id};
      slots[j] := Without(slots[j], item);
      assert slots[..] == s[j := Without(s[j], item)];
      WithoutDistinct(s, j, item);
      assert Shows(s, w.slots);
      ShowsWithout(s, w.slots, j, item);
      ShowsOne(slots[..], View().slots, w.slots[j := Without(w.slots[j], item)]);
    }

    method RemoveTask(key: OptionalKey)
      requires Valid()
      modifies this`timer, slots
      ensures Valid() && Tasks() <= old(Tasks())
      ensures View() == Wheel.Remove(old(View()), key)
    {
      if key.Keyed? && key.id in timer {
        RemoveKeeps(View(), key);
        SearchAndUnlink(timer[key.id], key);
      }
    }

    // The loop of RemoveTask: Next of a removed element is nil, so the walk stops at the
    // first removal.
    method SearchAndUnlink(idx: nat, key: OptionalKey)
      requires Linked() && idx < slotNum && key.Keyed?
      modifies this`timer, slots
      ensures Linked() && Tasks() <= old(Tasks())
      ensures View() == var w, p := old(View()), Position(old(View()).slots[idx], key);
                        if p == |w.slots[idx]| then w
                        else w.(slots := w.slots[idx := Without(w.slots[idx], p)], timer := w.timer - {key.id})
    {
      ghost var w := View();
      var item: nat := 0;
      while item < |slots[idx]|
        invariant item <= |slots[idx]|
        invariant forall q :: 0 <= q < item ==> w.slots[idx][q].task.key != key
      {
        if slots[idx][item].key == key {
          Unlink(idx, item);
          return;
        }
        item := item + 1;
      }
    }

    // One tick. The saved successor of a fired element is nil exactly when the element is
    // the last of the list before it is unlinked and re-added.
    method Tick(ms: nat)
      requires Valid() && CanTick(View())
      modifies this`timer, this`log, this`currentIdx, slots, Tasks()
      ensures Valid() && Tasks() <= old(Tasks())
      ensures View() == Wheel.Tick(old(View()))
      ensures old(log) <= log && forall i :: |old(log)| <= i < |log| ==> log[i].ms == ms
    {
      hide Shows, Distinct, TasksIn, Indexed, WalkMeasure, WalkAll, Walk.Step;
      ghost var start := Walk(View(), 0, false);
      assert start.Rest() == start.w.Current();
      TickKeeps(View());
      var item: nat := 0;
      var stopped := false;
      ghost var k := start;
      SameLength();
      while !stopped && item < |slots[currentIdx]|
        invariant Linked() && Tasks() <= old(Tasks()) && currentIdx == old(currentIdx)
        invariant old(log) <= log && forall i :: |old(log)| <= i < |log| ==> log[i].ms == ms
        invariant k == Walk(View(), item, stopped) && k.Shaped() && Terminating(k)
        invariant |slots[currentIdx]| == |k.w.Current()| && WalkAll(k) == WalkAll(start)
        decreases WalkMeasure(k).due, WalkMeasure(k).kept, WalkMeasure(k).turn
      {
        NextStep(k);
        item, stopped := Visit(item, ms);
        k := k.Step();
        SameLength();
      }
      NoStep(k);
      if currentIdx >= slotNum - 1 {
        currentIdx := 0;
      } else {
        currentIdx := currentIdx + 1;
      }
    }

    method Lower(item: nat)
      requires Linked() && item < |slots[currentIdx]| && slots[currentIdx][item].circle > 0
      modifies slots[currentIdx][item]
      ensures Linked() && Tasks() == old(Tasks())
      ensures View() == old(Walk(View(), item, false).Step().w)
    {
      hide Shown, Called;
      ghost var k, s := Walk(View(), item, false), slots[..];
      var task := slots[currentIdx][item];
      task.circle := task.circle - 1;
      assert Shows(s, View().slots) && Lengths(s, k.w.slots);
      ShowsCircle(s, k.w.slots, currentIdx, item);
      ShowsOne(s, View().slots, k.Step().w.slots);
    }

    lemma SameLength()
      requires Linked()
      ensures |slots[currentIdx]| == |View().Current()|
    {
    }

    // What the user's callback is given; it does not touch the wheel.
    method Callback(task: TWTask, ms: nat)
      requires Linked()
      modifies this`log
      ensures Linked() && Tasks() == old(Tasks()) && log == old(log) + [Call(task.Value(), ms)]
      ensures View() == old(View().(fired := View().fired + [task.Value()]))
    {
      log := log + [Call(task.Value(), ms)];
      assert Called(log) == Called(old(log)) + [task.Value()];
      ShowsOne(slots[..], View().slots, old(View()).slots);
    }

    // A fired keyed task leaves the walked slot and, when repeated, is added anew.
    method Relink(item: nat)
      requires Linked() && item < |slots[currentIdx]| && slots[currentIdx][item].key.Keyed?
      modifies this`timer, slots, slots[currentIdx][item]
      ensures Linked() && Tasks() <= old(Tasks())
      ensures var w, task := old(View()), old(slots[currentIdx][item]);
              var unlinked := w.WithCurrent(Without(w.Current(), item)).(timer := w.timer - {task.key.id});
              View() == if task.repeated then Wheel.Add(unlinked, task.Value()) else unlinked
    {
      hide Distinct;
      var task := slots[currentIdx][item];
      Unlink(currentIdx, item);
      if task.repeated {
        var ok := AddTask(task);
      }
    }

    // The body of the loop in Tick.
    method Visit(item: nat, ms: nat) returns (next: nat, stopped: bool)
      requires Linked() && item < |slots[currentIdx]|
      modifies this`timer, this`log, slots, Tasks()
      ensures Linked() && Tasks() <= old(Tasks())
      ensures Walk(View(), next, stopped) == old(Walk(View(), item, false).Step())
      ensures old(log) <= log && forall i :: |old(log)| <= i < |log| ==> log[i].ms == ms
    {
      hide Distinct, Indexable;
      var task := slots[currentIdx][item];
      assert task in Tasks();
      if task.circle > 0 {
        Lower(item);
        return item + 1, false;
      }
      Callback(task, ms);
      var last := item + 1 == |slots[currentIdx]|;
      if task.key.Keyed? {
        Relink(item);
        return item, last;
      }
      return item + 1, false;
    }

    // Catches up with the clock, one tick per whole interval.
    method Update(ms: nat)
      requires Valid() && CanUpdate(Clock(View(), oldMs), ms)
      modifies this, slots, Tasks()
      ensures Valid() && Tasks() <= old(Tasks())
      ensures Clock(View(), oldMs) == WheelClock.Update(Clock(old(View()), old(oldMs)), ms)
      ensures old(log) <= log && forall i :: |old(log)| <= i < |log| ==> log[i].ms == ms
    {
      hide Shows, Distinct, TasksIn, Indexed, TickMany, Wheel.Tick, CanTicks;
      ghost var start := Clock(View(), oldMs);
      if oldMs <= 0 {
        oldMs := ms;
        assert View() == start.w;
        return;
      }
      ghost var due := TicksDue(oldMs, ms, interval);
      if oldMs > ms {
        oldMs := ms;
      }
      ghost var since, n: nat := oldMs, 0;
      TickManyStart(start.w, due);
      assert View() == start.w;
      while ms - oldMs >= interval
        invariant Valid() && Tasks() <= old(Tasks())
        invariant oldMs == since + n * interval <= ms
        invariant n <= due && CanTicks(start.w, n) && View() == TickMany(start.w, n)
        invariant old(log) <= log && forall i :: |old(log)| <= i < |log| ==> log[i].ms == ms
        decreases ms - oldMs
      {
        MoreDue(ms - since, n, interval);
        TickManyNext(start.w, n, due);
        oldMs := oldMs + interval;
        Tick(ms);
        n := n + 1;
      }
      DivModUnique(ms - since, n, ms - oldMs, interval);
    }
  }

  lemma TickManyStart(w: State, n: nat)
    requires w.Shaped()
    ensures CanTicks(w, 0) && TickMany(w, 0) == w
  {
  }

  lemma MoreDue(span: nat, n: nat, interval: nat)
    requires interval > 0 && span - n * interval >= interval
    ensures n < span / interval
  {
    AddMultiple(span - n * interval, n, interval);
    if span / interval <= n {
      assert (span - n * interval) / interval == 0;
      DivModUnique(span - n * interval, 0, (span - n * interval) % interval, interval);
    }
  }

  // The slot and circle of a delay, seen from the pointer, encode it.
  lemma PlaceEncodes(n: nat, cur: nat, N: nat)
    requires cur < N
    ensures ((cur + n) % N + N - cur) % N + (n / N) * N == n
  {
    var idx := (cur + n) % N;
    DivModUnique(cur + n, (cur + n) / N, idx, N);
    assert idx + N - cur == n + (1 - (cur + n) / N) * N;
    AddMultiple(n, 1 - (cur + n) / N, N);
  }

  // And nothing else does.
  lemma OnePlace(idx: nat, circle: nat, n: nat, cur: nat, N: nat)
    requires cur < N && idx < N && (idx + N - cur) % N + circle * N == n
    ensures idx == (cur + n) % N && circle == n / N
  {
    var d := (idx + N - cur) % N;
    DivModUnique(n, circle, d, N);
    ModOfSum(cur, idx + N - cur, N);
    AddMultiple(cur + d, circle, N);
    AddMultiple(idx, 1, N);
    DivModUnique(idx, 0, idx, N);
  }

  // An interval of 0 yields no wheel. The slot number is handed to the allocator as is.
  method NewTimeWheel(interval: nat, slotNum: nat) returns (tw: TimeWheel?)
    ensures tw == null <==> interval == 0
    ensures tw != null ==> fresh(tw) && fresh(tw.slots) && tw.slots.Length == slotNum && tw.Tasks() == {} && tw.oldMs == 0
    ensures tw != null && slotNum > 0 ==>
              tw.Valid() && tw.View() == State(interval, seq(slotNum, _ => []), map[], 0, [])
  {
    if interval <= 0 {
      return null;
    }
    tw := new TimeWheel.Init(interval, slotNum);
  }
}
