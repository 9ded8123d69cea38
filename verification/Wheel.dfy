// Values behind the hashed timing wheel of util/timewheel.go: what one task in a
// slot list is, what the wheel holds, and what one walk over a slot list does.
module Wheel {
  import opened Arith

  // Stands for any comparable Go value used as a timer key; only equality matters.
  type Key = int

  datatype OptionalKey = NoKey | Keyed(id: Key)

  datatype Task = Task(key: OptionalKey, delay: nat, repeated: bool)

  // A list element: the task and the revolutions it still has to wait.
  datatype Entry = Entry(task: Task, circle: nat)

  // A repeated keyed task has to wait at least one interval.
  predicate PatientTask(task: Task, interval: nat) {
    task.key.Keyed? && task.repeated ==> task.delay >= interval
  }

  type Slots = seq<seq<Entry>>

  datatype State = State(interval: nat, slots: Slots, timer: map<Key, nat>, cur: nat, fired: seq<Task>) {

    ghost predicate Shaped() {
      && interval > 0
      && cur < |slots|
    }

    // Ticks a task with this delay waits in full before the tick that fires it.
    function Ticks(task: Task): nat
      requires interval > 0
    {
      task.delay / interval
    }

    function SlotOf(n: nat): (j: nat)
      requires Shaped()
      ensures j < |slots|
    {
      (cur + n) % |slots|
    }

    // The walked slot.
    function Current(): seq<Entry>
      requires Shaped()
    {
      slots[cur]
    }

    function WithCurrent(s: seq<Entry>): (r: State)
      requires Shaped()
      ensures r.Shaped() && |r.slots| == |slots| && r.slots[cur] == s
    {
      this.(slots := slots[cur := s])
    }

    function PushBack(task: Task): (r: State)
      requires Shaped()
      ensures r.Shaped() && |r.slots| == |slots| && r.interval == interval && r.cur == cur
    {
      var n := Ticks(task);
      var j := SlotOf(n);
      var index := if task.key.Keyed? then timer[task.key.id := j] else timer;
      this.(slots := slots[j := slots[j] + [Entry(task, n / |slots|)]], timer := index)
    }
  }

  predicate Indexable(timer: map<Key, nat>, key: OptionalKey) {
    key.Keyed? && key.id in timer
  }

  function Add(w: State, task: Task): (r: State)
    requires w.Shaped()
    ensures r.Shaped() && |r.slots| == |w.slots| && r.interval == w.interval && r.cur == w.cur
  {
    if Indexable(w.timer, task.key) then w else w.PushBack(task)
  }

  function Without<T>(s: seq<T>, p: nat): (r: seq<T>)
    requires p < |s|
    ensures |r| == |s| - 1
    ensures forall q :: 0 <= q < p ==> r[q] == s[q]
    ensures forall q :: p <= q < |r| ==> r[q] == s[q + 1]
  {
    s[..p] + s[p + 1..]
  }

  // Where the slot list holds the key, or its length.
  function Position(s: seq<Entry>, key: OptionalKey): (p: nat)
    ensures p <= |s|
    ensures p < |s| ==> s[p].task.key == key
    ensures forall q :: 0 <= q < p ==> s[q].task.key != key
  {
    if s == [] || s[0].task.key == key then 0 else 1 + Position(s[1..], key)
  }

  function Remove(w: State, key: OptionalKey): (r: State)
    requires w.Shaped()
    ensures r.Shaped() && |r.slots| == |w.slots| && r.interval == w.interval && r.cur == w.cur
  {
    if !Indexable(w.timer, key) || w.timer[key.id] >= |w.slots| then w
    else
      var j := w.timer[key.id];
      var p := Position(w.slots[j], key);
      if p == |w.slots[j]| then w
      else w.(slots := w.slots[j := Without(w.slots[j], p)], timer := w.timer - {key.id})
  }

  // ---- the walk ----------------------------------------------------------

  predicate Due(e: Entry) { e.circle == 0 }

  // A due repeated task that waits less than one interval comes back to the slot
  // being walked, due again.
  predicate ZeroWait(interval: nat, e: Entry)
    requires interval > 0
  {
    Due(e) && e.task.key.Keyed? && e.task.repeated && e.task.delay < interval
  }

  function ZeroWaits(interval: nat, s: seq<Entry>): (n: nat)
    requires interval > 0
    ensures n <= |s|
  {
    if s == [] then 0 else (if ZeroWait(interval, s[0]) then 1 else 0) + ZeroWaits(interval, s[1..])
  }

  function OtherDue(interval: nat, s: seq<Entry>): nat
    requires interval > 0
  {
    if s == [] then 0
    else (if Due(s[0]) && !ZeroWait(interval, s[0]) then 1 else 0) + OtherDue(interval, s[1..])
  }

  lemma {:induction false} CountsAppend(interval: nat, s: seq<Entry>, e: Entry)
    requires interval > 0
    ensures ZeroWaits(interval, s + [e]) == ZeroWaits(interval, s) + ZeroWaits(interval, [e])
    ensures OtherDue(interval, s + [e]) == OtherDue(interval, s) + OtherDue(interval, [e])
  {
    if s == [] {
      assert s + [e] == [e];
    } else {
      assert (s + [e])[1..] == s[1..] + [e];
      CountsAppend(interval, s[1..], e);
    }
  }

  // A cursor in the walked slot. `stopped` is the nil successor of a removed last element.
  datatype Walk = Walk(w: State, pos: nat, stopped: bool) {

    ghost predicate Shaped() {
      w.Shaped() && pos <= |w.Current()|
    }

    function Rest(): seq<Entry>
      requires Shaped()
    {
      w.Current()[pos..]
    }

    predicate Done()
      requires Shaped()
    {
      stopped || pos == |w.Current()|
    }

    function Fire(e: Entry): (r: State)
      requires w.Shaped()
      ensures r.Shaped() && |r.slots| == |w.slots| && r.interval == w.interval && r.cur == w.cur
      ensures r.slots == w.slots && r.timer == w.timer
    {
      w.(fired := w.fired + [e.task])
    }

    // One turn of the loop: the element is passed over, fires and stays (no key), or
    // fires, is unlinked and possibly re-added, before the saved successor is visited.
    function Step(): (r: Walk)
      requires Shaped() && !Done()
      ensures r.Shaped() && |r.w.slots| == |w.slots| && r.w.interval == w.interval && r.w.cur == w.cur
    {
      var s := w.Current();
      var e := s[pos];
      if e.circle > 0 then
        Walk(w.WithCurrent(s[pos := e.(circle := e.circle - 1)]), pos + 1, false)
      else if e.task.key.NoKey? then
        Walk(Fire(e), pos + 1, false)
      else
        var unlinked := Fire(e).WithCurrent(Without(s, pos)).(timer := w.timer - {e.task.key.id});
        Walk(if e.task.repeated then Add(unlinked, e.task) else unlinked, pos, pos + 1 == |s|)
    }
  }

  // What one step leaves to be visited.
  lemma {:induction false} StepRest(k: Walk)
    requires k.Shaped() && !k.Done()
    ensures var e := k.Rest()[0]; var r := k.Step();
            if Due(e) && e.task.key.Keyed? && e.task.repeated && k.w.Ticks(e.task) % |k.w.slots| == 0
            then r.Rest() == k.Rest()[1..] + [Entry(e.task, k.w.Ticks(e.task) / |k.w.slots|)]
            else r.Rest() == k.Rest()[1..]
    ensures k.Step().stopped <==> (Due(k.Rest()[0]) && k.Rest()[0].task.key.Keyed? && |k.Rest()| == 1)
  {
    var s := k.w.Current();
    var e := s[k.pos];
    var N := |k.w.slots|;
    if Due(e) && e.task.key.Keyed? {
      var rest := Without(s, k.pos);
      assert rest[k.pos..] == k.Rest()[1..];
      if e.task.repeated {
        var n := k.w.Ticks(e.task);
        SameSlot(k.w.cur, n, N);
        if n % N == 0 {
          assert (rest + [Entry(e.task, n / N)])[k.pos..] == rest[k.pos..] + [Entry(e.task, n / N)];
        }
      }
    } else if !Due(e) {
      assert s[k.pos := e.(circle := e.circle - 1)][k.pos + 1..] == s[k.pos + 1..];
    }
  }

  lemma SameSlot(cur: nat, n: nat, N: nat)
    requires cur < N
    ensures (cur + n) % N == cur <==> n % N == 0
  {
    var m := n % N;
    ModOfSum(cur, n, N);
    if cur + m >= N {
      DivModUnique(cur + m, 1, cur + m - N, N);
    } else {
      DivModUnique(cur + m, 0, cur + m, N);
    }
  }

  // Exactly the walks with at most one zero-wait task ahead of the cursor reach the
  // end of the list; this measure drops on each of their steps.
  datatype Measure = Measure(due: nat, kept: nat, turn: nat)

  function RestMeasure(interval: nat, s: seq<Entry>): Measure
    requires interval > 0
  {
    if s == [] then Measure(0, 0, 0)
    else Measure(1 + OtherDue(interval, s), |s| - ZeroWaits(interval, s), if ZeroWait(interval, s[0]) then 1 else 0)
  }

  predicate Below(m: Measure, n: Measure) {
    m.due < n.due || (m.due == n.due && (m.kept < n.kept || (m.kept == n.kept && m.turn < n.turn)))
  }

  function WalkMeasure(k: Walk): Measure
    requires k.Shaped()
  {
    if k.Done() then Measure(0, 0, 0) else RestMeasure(k.w.interval, k.Rest())
  }

  ghost predicate Terminating(k: Walk)
    requires k.Shaped()
  {
    k.Done() || ZeroWaits(k.w.interval, k.Rest()) <= 1
  }

  lemma {:induction false} DropHead(interval: nat, s: seq<Entry>)
    requires interval > 0 && s != [] && !ZeroWait(interval, s[0])
    ensures ZeroWaits(interval, s[1..]) == ZeroWaits(interval, s)
    ensures Below(RestMeasure(interval, s[1..]), RestMeasure(interval, s))
  {
  }

  lemma {:induction false} RotateHead(interval: nat, s: seq<Entry>, back: Entry)
    requires interval > 0 && |s| > 1 && ZeroWaits(interval, s) <= 1 && Due(s[0])
    requires if ZeroWait(interval, s[0]) then ZeroWait(interval, back) else !Due(back)
    ensures ZeroWaits(interval, s[1..] + [back]) == ZeroWaits(interval, s)
    ensures Below(RestMeasure(interval, s[1..] + [back]), RestMeasure(interval, s))
  {
    CountsAppend(interval, s[1..], back);
    assert (s[1..] + [back])[0] == s[1];
  }

  lemma {:induction false} StepDecreases(k: Walk)
    requires k.Shaped() && !k.Done() && Terminating(k)
    ensures Terminating(k.Step())
    ensures Below(WalkMeasure(k.Step()), WalkMeasure(k))
  {
    hide ZeroWaits, OtherDue, Walk.Step;
    StepRest(k);
    var rest, e, r := k.Rest(), k.Rest()[0], k.Step();
    if !r.Done() {
      if r.Rest() != rest[1..] {
        var back := Entry(e.task, k.w.Ticks(e.task) / |k.w.slots|);
        ReaddWait(k.w.interval, e.task, |k.w.slots|);
        RotateHead(k.w.interval, rest, back);
      } else {
        DropHead(k.w.interval, rest);
      }
    }
  }

  // A task whose wait is a whole number of revolutions is put back due only when it
  // waits less than one interval.
  lemma ReaddWait(interval: nat, task: Task, N: nat)
    requires interval > 0 && N > 0 && (task.delay / interval) % N == 0
    ensures task.delay < interval <==> (task.delay / interval) / N == 0
  {
    var n := task.delay / interval;
    assert task.delay == n * interval + task.delay % interval;
    if task.delay < interval {
      DivModUnique(task.delay, 0, task.delay, interval);
      DivModUnique(0, 0, 0, N);
    } else {
      if n == 0 {
        assert false;
      }
      MultipleIsPositive(n, N);
    }
  }

  // The state the walk ends in.
  ghost function WalkAll(k: Walk): (r: State)
    requires k.Shaped() && Terminating(k)
    ensures r.Shaped() && |r.slots| == |k.w.slots| && r.interval == k.w.interval && r.cur == k.w.cur
    decreases WalkMeasure(k).due, WalkMeasure(k).kept, WalkMeasure(k).turn
  {
    if k.Done() then k.w else StepDecreases(k); WalkAll(k.Step())
  }

  // ---- termination, exactly ------------------------------------------------

  ghost function After(k: Walk, steps: nat): (r: Walk)
    requires k.Shaped()
    ensures r.Shaped()
    decreases steps
  {
    if steps == 0 || k.Done() then k else After(k.Step(), steps - 1)
  }

  lemma {:induction false} TerminatingEnds(k: Walk) returns (steps: nat)
    requires k.Shaped() && Terminating(k)
    ensures After(k, steps).Done() && After(k, steps).w == WalkAll(k)
    decreases WalkMeasure(k).due, WalkMeasure(k).kept, WalkMeasure(k).turn
  {
    if k.Done() {
      steps := 0;
    } else {
      StepDecreases(k);
      var s := TerminatingEnds(k.Step());
      steps := s + 1;
    }
  }

  lemma {:induction false} ZeroWaitsGoOn(k: Walk, steps: nat)
    requires k.Shaped() && !Terminating(k)
    ensures !After(k, steps).Done()
    decreases steps
  {
    hide Walk.Step, OtherDue;
    if steps == 0 {
    } else {
      StepRest(k);
      var rest, e, I := k.Rest(), k.Rest()[0], k.w.interval;
      assert rest == [e] + rest[1..];
      if ZeroWait(I, e) {
        assert k.w.Ticks(e.task) == 0;
        assert ZeroWait(I, Entry(e.task, 0));
      }
      CountsAppend(I, rest[1..], Entry(e.task, k.w.Ticks(e.task) / |k.w.slots|));
      ZeroWaitsGoOn(k.Step(), steps - 1);
    }
  }

  // The slot walk ends if and only if at most one due repeated keyed task of the slot
  // waits less than one interval.
  lemma WalkEndsExactly(w: State)
    requires w.Shaped()
    ensures (exists steps :: After(Walk(w, 0, false), steps).Done()) <==> ZeroWaits(w.interval, w.Current()) <= 1
  {
    var k := Walk(w, 0, false);
    assert k.Rest() == w.Current();
    if Terminating(k) {
      var steps := TerminatingEnds(k);
    } else {
      forall steps: nat ensures !After(k, steps).Done() {
        ZeroWaitsGoOn(k, steps);
      }
    }
  }

  // ---- one tick --------------------------------------------------------------

  function NextSlot(cur: nat, N: nat): (r: nat)
    requires cur < N
    ensures r == (cur + 1) % N
  {
    if cur >= N - 1 then 0 else cur + 1
  }

  ghost predicate CanTick(w: State) {
    w.Shaped() && ZeroWaits(w.interval, w.Current()) <= 1
  }

  ghost function Tick(w: State): (r: State)
    requires CanTick(w)
    ensures r.Shaped() && |r.slots| == |w.slots| && r.interval == w.interval
  {
    assert Walk(w, 0, false).Rest() == w.Current();
    WalkAll(Walk(w, 0, false)).(cur := NextSlot(w.cur, |w.slots|))
  }
}
