// What the wheel is a fast form of: one list of countdowns in insertion order.
module Countdown {
  import opened Arith
  import opened Wheel

  // `left` ticks pass without firing; the tick after them fires the task.
  datatype Timer = Timer(task: Task, left: nat)

  // ---- the list itself -----------------------------------------------------

  // The tasks this tick fires, in order.
  function Fires(f: seq<Timer>): seq<Task> {
    if f == [] then [] else if f[0].left == 0 then [f[0].task] + Fires(f[1..]) else Fires(f[1..])
  }

  // Everything but fired keyed tasks stays, one tick closer. A fired task without a key
  // is never unlinked and comes round again after a revolution of N slots.
  function Stays(f: seq<Timer>, N: nat): seq<Timer>
    requires N > 0
  {
    if f == [] then []
    else if f[0].left > 0 then [f[0].(left := f[0].left - 1)] + Stays(f[1..], N)
    else if f[0].task.key.NoKey? then [f[0].(left := N - 1)] + Stays(f[1..], N)
    else Stays(f[1..], N)
  }

  predicate Reenters(t: Timer) {
    t.left == 0 && t.task.key.Keyed? && t.task.repeated
  }

  // Fires now and is added anew to wait at least one tick.
  predicate Returns(t: Timer, interval: nat) {
    Reenters(t) && t.task.delay >= interval
  }

  // Fires now and is added anew to the walked slot, due again.
  predicate ZeroDue(t: Timer, interval: nat) {
    Reenters(t) && t.task.delay < interval
  }

  function Zeros(f: seq<Timer>, interval: nat): seq<Timer> {
    if f == [] then [] else if ZeroDue(f[0], interval) then [f[0]] + Zeros(f[1..], interval) else Zeros(f[1..], interval)
  }

  // The lists a tick comes to an end for.
  predicate CanTickList(f: seq<Timer>, interval: nat) {
    |Zeros(f, interval)| <= 1
  }

  // In the walked slot.
  predicate Here(t: Timer, N: nat)
    requires N > 0
  {
    t.left % N == 0
  }

  predicate NoneHere(f: seq<Timer>, N: nat)
    requires N > 0
  {
    forall i :: 0 <= i < |f| ==> !Here(f[i], N)
  }

  // Fires now and is added anew to the walked slot, for a later revolution.
  predicate Relinks(t: Timer, interval: nat, N: nat)
    requires interval > 0 && N > 0
  {
    Returns(t, interval) && (t.task.delay / interval) % N == 0
  }

  predicate SomeRelinks(f: seq<Timer>, interval: nat, N: nat)
    requires interval > 0 && N > 0
  {
    f != [] && (Relinks(f[0], interval, N) || SomeRelinks(f[1..], interval, N))
  }

  function LastRelinks(f: seq<Timer>, interval: nat, N: nat): bool
    requires interval > 0 && N > 0
  {
    f != [] && if Relinks(f[0], interval, N) then NoneHere(f[1..], N) else LastRelinks(f[1..], interval, N)
  }

  // A repeated task whose period is a whole number of revolutions loses one revolution
  // when nothing follows it in the walked slot.
  function Late(f: seq<Timer>, interval: nat, N: nat): bool
    requires interval > 0 && N > 0
  {
    Zeros(f, interval) == [] && LastRelinks(f, interval, N)
  }

  function Reentry(task: Task, late: bool, interval: nat, N: nat): Timer
    requires interval > 0 && N > 0 && task.delay >= interval
  {
    var n := task.delay / interval;
    DelayCounts(task.delay, interval);
    Timer(task, if late && n % N == 0 then n - 1 + N else n - 1)
  }

  lemma DelayCounts(delay: nat, interval: nat)
    requires interval > 0
    ensures delay / interval >= 1 <==> delay >= interval
  {
    assert delay == (delay / interval) * interval + delay % interval;
    if delay < interval {
      DivModUnique(delay, 0, delay, interval);
    } else if delay / interval == 0 {
      assert false;
    }
  }

  function Comeback(f: seq<Timer>, late: bool, interval: nat, N: nat): seq<Timer>
    requires interval > 0 && N > 0
  {
    if f == [] then []
    else if Returns(f[0], interval) then [Reentry(f[0].task, late, interval, N)] + Comeback(f[1..], late, interval, N)
    else Comeback(f[1..], late, interval, N)
  }

  // A task that waits no tick at all is left for the next revolution.
  function ZeroBack(f: seq<Timer>, interval: nat, N: nat): seq<Timer>
    requires N > 0
  {
    if f == [] then []
    else if ZeroDue(f[0], interval) then [f[0].(left := N - 1)] + ZeroBack(f[1..], interval, N)
    else ZeroBack(f[1..], interval, N)
  }

  // Before that it fires once more if anything is `behind` it in the walked slot, and a
  // third time if something was added there after it.
  function Again(f: seq<Timer>, behind: bool, interval: nat, N: nat): seq<Task>
    requires interval > 0 && N > 0
  {
    if f == [] then []
    else if !ZeroDue(f[0], interval) then Again(f[1..], behind || Relinks(f[0], interval, N), interval, N)
    else if !behind && NoneHere(f[1..], N) then []
    else [f[0].task] + if SomeRelinks(f[1..], interval, N) then [f[0].task] else []
  }

  // ---- one tick of the list --------------------------------------------------

  function TickFires(f: seq<Timer>, interval: nat, N: nat): seq<Task>
    requires interval > 0 && N > 0
  {
    Fires(f) + Again(f, false, interval, N)
  }

  function TickList(f: seq<Timer>, interval: nat, N: nat): seq<Timer>
    requires interval > 0 && N > 0
  {
    Stays(f, N) + Comeback(f, Late(f, interval, N), interval, N) + ZeroBack(f, interval, N)
  }

  // ---- the wheel carries the list --------------------------------------------

  // The slot list a wheel with this pointer keeps for slot j.
  function Lane(f: seq<Timer>, j: nat, cur: nat, N: nat): seq<Entry>
    requires N > 0
  {
    if f == [] then []
    else if Place(f[0].left, cur, N) == j then [Entry(f[0].task, f[0].left / N)] + Lane(f[1..], j, cur, N)
    else Lane(f[1..], j, cur, N)
  }

  // The slot that is reached in so many ticks.
  function Place(left: nat, cur: nat, N: nat): (j: nat)
    requires N > 0
    ensures j < N
  {
    (cur + left) % N
  }

  ghost predicate Carries(w: State, f: seq<Timer>) {
    && w.Shaped()
    && forall j :: 0 <= j < |w.slots| ==> w.slots[j] == Lane(f, j, w.cur, |w.slots|)
  }

  lemma {:induction false} LaneAppend(f: seq<Timer>, g: seq<Timer>, j: nat, cur: nat, N: nat)
    requires N > 0
    ensures Lane(f + g, j, cur, N) == Lane(f, j, cur, N) + Lane(g, j, cur, N)
  {
    if f == [] {
      assert f + g == g;
    } else {
      assert (f + g)[1..] == f[1..] + g;
      LaneAppend(f[1..], g, j, cur, N);
    }
  }

  lemma {:induction false} LaneAround(p: seq<Timer>, t: seq<Timer>, q: seq<Timer>, j: nat, cur: nat, N: nat)
    requires N > 0
    ensures Lane(p + t + q, j, cur, N) == Lane(p, j, cur, N) + Lane(t, j, cur, N) + Lane(q, j, cur, N)
  {
    LaneAppend(p + t, q, j, cur, N);
    LaneAppend(p, t, j, cur, N);
  }

  lemma {:induction false} CarriesPush(w: State, f: seq<Timer>, task: Task)
    requires Carries(w, f)
    ensures Carries(w.PushBack(task), f + [Timer(task, w.Ticks(task))])
  {
    var t := Timer(task, w.Ticks(task));
    forall j | 0 <= j < |w.slots|
      ensures w.PushBack(task).slots[j] == Lane(f + [t], j, w.cur, |w.slots|)
    {
      LaneAppend(f, [t], j, w.cur, |w.slots|);
    }
  }

  // The walk seen on the list, before the pointer moves on: `left` counts from the
  // walked slot.
  function SweptHead(t: Timer, N: nat): Timer
    requires N > 0
  {
    if t.left > 0 && t.left % N == 0 then MultipleIsPositive(t.left, N); t.(left := t.left - N) else t
  }

  function Swept(f: seq<Timer>, N: nat): seq<Timer>
    requires N > 0
  {
    if f == [] then []
    else if f[0].left == 0 && f[0].task.key.Keyed? then Swept(f[1..], N)
    else [SweptHead(f[0], N)] + Swept(f[1..], N)
  }

  function Back(f: seq<Timer>, late: bool, interval: nat, N: nat): seq<Timer>
    requires interval > 0 && N > 0
  {
    if f == [] then []
    else if Returns(f[0], interval) then [Relinked(f[0].task, late, interval, N)] + Back(f[1..], late, interval, N)
    else Back(f[1..], late, interval, N)
  }

  function Relinked(task: Task, late: bool, interval: nat, N: nat): Timer
    requires interval > 0 && N > 0 && task.delay >= interval
  {
    var n := task.delay / interval;
    DelayCounts(task.delay, interval);
    if n % N == 0 && !late then MultipleIsPositive(n, N); Timer(task, n - N) else Timer(task, n)
  }

  // A re-linked task at the end of the list changes nothing before it, except that it
  // is there to be walked.
  lemma {:induction false} SweptAppend(f: seq<Timer>, t: Timer, late: bool, behind: bool, interval: nat, N: nat)
    requires interval > 0 && N > 0 && t.left > 0
    ensures Swept(f + [t], N) == Swept(f, N) + Swept([t], N)
    ensures Back(f + [t], late, interval, N) == Back(f, late, interval, N)
    ensures Fires(f + [t]) == Fires(f) && Zeros(f + [t], interval) == Zeros(f, interval)
    ensures SomeRelinks(f + [t], interval, N) == SomeRelinks(f, interval, N)
    ensures LastRelinks(f + [t], interval, N) <==> !Here(t, N) && LastRelinks(f, interval, N)
    ensures Again(f + [t], behind, interval, N) == Again(f, behind || Here(t, N), interval, N)
  {
    if f == [] {
      assert f + [t] == [t] && [t][1..] == [];
    } else {
      assert (f + [t])[1..] == f[1..] + [t];
      SweptAppend(f[1..], t, late, behind || Relinks(f[0], interval, N), interval, N);
      NoneHereAppend(f[1..], t, N);
    }
  }

  lemma NoneHereAppend(f: seq<Timer>, t: Timer, N: nat)
    requires N > 0
    ensures NoneHere(f + [t], N) <==> NoneHere(f, N) && !Here(t, N)
  {
    if NoneHere(f + [t], N) {
      assert (f + [t])[|f|] == t;
      forall i | 0 <= i < |f| ensures !Here(f[i], N) {
        assert (f + [t])[i] == f[i];
      }
    }
  }

  // The one task that comes back due is at the end of the walked slot.
  lemma {:induction false} ZeroAppend(f: seq<Timer>, t: Timer, late: bool, behind: bool, interval: nat, N: nat)
    requires interval > 0 && N > 0 && ZeroDue(t, interval) && Zeros(f, interval) == []
    ensures Swept(f + [t], N) == Swept(f, N)
    ensures Back(f + [t], late, interval, N) == Back(f, late, interval, N)
    ensures Fires(f + [t]) == Fires(f) + [t.task] && Zeros(f + [t], interval) == [t]
    ensures Again(f + [t], behind, interval, N) == if behind || SomeRelinks(f, interval, N) then [t.task] else []
  {
    if f == [] {
      assert f + [t] == [t] && [t][1..] == [];
    } else {
      assert (f + [t])[1..] == f[1..] + [t];
      ZeroAppend(f[1..], t, late, behind || Relinks(f[0], interval, N), interval, N);
    }
  }

  lemma {:induction false} NoneHereIdle(f: seq<Timer>, late: bool, behind: bool, interval: nat, N: nat)
    requires interval > 0 && N > 0 && NoneHere(f, N)
    ensures Swept(f, N) == f && Fires(f) == [] && Zeros(f, interval) == []
    ensures Back(f, late, interval, N) == [] && Again(f, behind, interval, N) == []
    ensures !SomeRelinks(f, interval, N) && !LastRelinks(f, interval, N)
  {
    if f == [] {
    } else {
      assert !Here(f[0], N) && f[0].left != 0 by {
        DivModUnique(0, 0, 0, N);
      }
      assert f == [f[0]] + f[1..];
      NoneHereIdle(f[1..], late, behind, interval, N);
    }
  }

  lemma {:induction false} LaneHere(f: seq<Timer>, cur: nat, N: nat)
    requires cur < N
    ensures Lane(f, cur, cur, N) == [] <==> NoneHere(f, N)
  {
    if f == [] {
    } else {
      SameSlot(cur, f[0].left, N);
      LaneHere(f[1..], cur, N);
      assert NoneHere(f, N) <==> !Here(f[0], N) && NoneHere(f[1..], N);
    }
  }

  // The state of a walk over the list: `p` is behind the cursor, `q` ahead of it.
  ghost predicate Sweeps(k: Walk, p: seq<Timer>, q: seq<Timer>) {
    && k.Shaped()
    && Carries(k.w, p + q)
    && k.pos == |Lane(p, k.w.cur, k.w.cur, |k.w.slots|)|
  }

  lemma {:induction false} SweepsRest(k: Walk, p: seq<Timer>, q: seq<Timer>)
    requires Sweeps(k, p, q)
    ensures k.Rest() == Lane(q, k.w.cur, k.w.cur, |k.w.slots|)
    ensures k.pos == |k.w.Current()| <==> NoneHere(q, |k.w.slots|)
  {
    LaneAppend(p, q, k.w.cur, k.w.cur, |k.w.slots|);
    LaneHere(q, k.w.cur, |k.w.slots|);
  }

  lemma {:induction false} SkipElsewhere(k: Walk, p: seq<Timer>, q: seq<Timer>)
    requires Sweeps(k, p, q) && q != [] && q[0].left % |k.w.slots| != 0
    ensures Sweeps(k, p + [q[0]], q[1..])
  {
    assert p + q == p + [q[0]] + q[1..];
    LaneAppend(p, [q[0]], k.w.cur, k.w.cur, |k.w.slots|);
    SameSlot(k.w.cur, q[0].left, |k.w.slots|);
  }

  // In the walked slot the cursor stands on the head of `q`.
  lemma {:induction false} HeadHere(k: Walk, p: seq<Timer>, q: seq<Timer>)
    requires Sweeps(k, p, q) && q != [] && q[0].left % |k.w.slots| == 0
    ensures k.pos < |k.w.Current()| && k.w.Current()[k.pos] == Entry(q[0].task, q[0].left / |k.w.slots|)
    ensures k.w.Current() == Lane(p, k.w.cur, k.w.cur, |k.w.slots|) + [k.w.Current()[k.pos]]
                             + Lane(q[1..], k.w.cur, k.w.cur, |k.w.slots|)
  {
    assert p + q == p + [q[0]] + q[1..];
    LaneAround(p, [q[0]], q[1..], k.w.cur, k.w.cur, |k.w.slots|);
    SameSlot(k.w.cur, q[0].left, |k.w.slots|);
  }

  lemma {:induction false} StepLowers(k: Walk, p: seq<Timer>, q: seq<Timer>)
    requires Sweeps(k, p, q) && !k.stopped && q != []
    requires q[0].left % |k.w.slots| == 0 && q[0].left > 0
    ensures !k.Done() && q[0].left >= |k.w.slots|
    ensures Sweeps(k.Step(), p + [q[0].(left := q[0].left - |k.w.slots|)], q[1..]) && !k.Step().stopped
    ensures k.Step().w.fired == k.w.fired
  {
    var N, cur, h := |k.w.slots|, k.w.cur, q[0];
    HeadHere(k, p, q);
    MultipleIsPositive(h.left, N);
    var h' := h.(left := h.left - N);
    AddMultiple(h'.left, 1, N);
    AddMultiple(cur + h'.left, 1, N);
    SameSlot(cur, h.left, N);
    assert p + q == p + [h] + q[1..];
    forall j | 0 <= j < N
      ensures k.Step().w.slots[j] == Lane(p + [h'] + q[1..], j, cur, N)
    {
      LaneAround(p, [h], q[1..], j, cur, N);
      LaneAround(p, [h'], q[1..], j, cur, N);
    }
    LaneAppend(p, [h'], cur, cur, N);
  }

  lemma {:induction false} StepRefires(k: Walk, p: seq<Timer>, q: seq<Timer>)
    requires Sweeps(k, p, q) && !k.stopped && q != []
    requires q[0].left == 0 && q[0].task.key.NoKey?
    ensures !k.Done()
    ensures Sweeps(k.Step(), p + [q[0]], q[1..]) && !k.Step().stopped
    ensures k.Step().w.fired == k.w.fired + [q[0].task]
  {
    var N, cur, h := |k.w.slots|, k.w.cur, q[0];
    DivModUnique(0, 0, 0, N);
    HeadHere(k, p, q);
    SameSlot(cur, h.left, N);
    assert p + q == p + [h] + q[1..];
    LaneAppend(p, [h], cur, cur, N);
  }

  lemma {:induction false} StepUnlinks(k: Walk, p: seq<Timer>, q: seq<Timer>)
    requires Sweeps(k, p, q) && !k.stopped && q != []
    requires q[0].left == 0 && q[0].task.key.Keyed?
    ensures !k.Done()
    ensures k.Step().w.fired == k.w.fired + [q[0].task]
    ensures k.Step().pos == k.pos
    ensures k.Step().stopped <==> NoneHere(q[1..], |k.w.slots|)
    ensures var t := Timer(q[0].task, k.w.Ticks(q[0].task));
            Carries(k.Step().w, p + (if q[0].task.repeated then q[1..] + [t] else q[1..]))
  {
    var N, cur, h := |k.w.slots|, k.w.cur, q[0];
    DivModUnique(0, 0, 0, N);
    HeadHere(k, p, q);
    SameSlot(cur, h.left, N);
    LaneHere(q[1..], cur, N);
    assert p + q == p + [h] + q[1..];
    var s, e := k.w.Current(), k.w.Current()[k.pos];
    var unlinked := k.Fire(e).WithCurrent(Without(s, k.pos)).(timer := k.w.timer - {h.task.key.id});
    assert Without(s, k.pos) == Lane(p, cur, cur, N) + Lane(q[1..], cur, cur, N);
    forall j | 0 <= j < N
      ensures unlinked.slots[j] == Lane(p + q[1..], j, cur, N)
    {
      LaneAround(p, [h], q[1..], j, cur, N);
      LaneAppend(p, q[1..], j, cur, N);
    }
    if h.task.repeated {
      CarriesPush(unlinked, p + q[1..], h.task);
      assert p + q[1..] + [Timer(h.task, k.w.Ticks(h.task))] == p + (q[1..] + [Timer(h.task, k.w.Ticks(h.task))]);
    }
  }

  function SweptList(p: seq<Timer>, q: seq<Timer>, interval: nat, N: nat): seq<Timer>
    requires interval > 0 && N > 0
  {
    p + Swept(q, N) + Back(q, Late(q, interval, N), interval, N) + Zeros(q, interval)
  }

  // The walk goes from (p, q) to (p', q'), with these tasks fired.
  predicate Passes(p: seq<Timer>, q: seq<Timer>, fired: seq<Task>, p': seq<Timer>, q': seq<Timer>, interval: nat, N: nat)
    requires interval > 0 && N > 0
  {
    && TickFires(q, interval, N) == fired + TickFires(q', interval, N)
    && SweptList(p, q, interval, N) == SweptList(p', q', interval, N)
    && |Zeros(q', interval)| == |Zeros(q, interval)|
  }

  // The walk ends in (p, q), with these tasks fired.
  predicate Ends(p: seq<Timer>, q: seq<Timer>, fired: seq<Task>, p': seq<Timer>, interval: nat, N: nat)
    requires interval > 0 && N > 0
  {
    TickFires(q, interval, N) == fired && SweptList(p, q, interval, N) == p'
  }

  lemma {:induction false} PassHead(p: seq<Timer>, q: seq<Timer>, h: Timer, interval: nat, N: nat)
    requires interval > 0 && N > 0 && q != [] && !Reenters(q[0]) && Swept([q[0]], N) == [h]
    ensures Passes(p, q, if q[0].left == 0 then [q[0].task] else [], p + [h], q[1..], interval, N)
  {
    assert [q[0]][1..] == [];
    assert Swept(q, N) == [h] + Swept(q[1..], N);
  }

  lemma {:induction false} ElsewherePasses(p: seq<Timer>, q: seq<Timer>, interval: nat, N: nat)
    requires interval > 0 && N > 0 && q != [] && q[0].left % N != 0
    ensures Passes(p, q, [], p + [q[0]], q[1..], interval, N)
  {
    DivModUnique(0, 0, 0, N);
    assert [q[0]][1..] == [];
    PassHead(p, q, q[0], interval, N);
  }

  lemma {:induction false} LoweredPasses(p: seq<Timer>, q: seq<Timer>, interval: nat, N: nat)
    requires interval > 0 && N > 0 && q != [] && q[0].left % N == 0 && q[0].left >= N
    ensures Passes(p, q, [], p + [q[0].(left := q[0].left - N)], q[1..], interval, N)
  {
    assert [q[0]][1..] == [];
    PassHead(p, q, q[0].(left := q[0].left - N), interval, N);
  }

  lemma {:induction false} RefiredPasses(p: seq<Timer>, q: seq<Timer>, interval: nat, N: nat)
    requires interval > 0 && N > 0 && q != [] && q[0].left == 0 && q[0].task.key.NoKey?
    ensures Passes(p, q, [q[0].task], p + [q[0]], q[1..], interval, N)
  {
    assert [q[0]][1..] == [];
    PassHead(p, q, q[0], interval, N);
  }

  lemma {:induction false} WalkedLast(p: seq<Timer>, q: seq<Timer>, interval: nat, N: nat)
    requires interval > 0 && N > 0 && NoneHere(q, N)
    ensures Ends(p, q, [], p + q, interval, N)
  {
    NoneHereIdle(q, Late(q, interval, N), false, interval, N);
    assert p + q + [] + [] == p + q;
  }

  lemma {:induction false} DropHead(p: seq<Timer>, q: seq<Timer>, interval: nat, N: nat)
    requires interval > 0 && N > 0 && q != [] && q[0].left == 0 && q[0].task.key.Keyed? && !q[0].task.repeated
    ensures Passes(p, q, [q[0].task], p, q[1..], interval, N)
  {
    var late := Late(q[1..], interval, N);
    assert Late(q, interval, N) == late;
    assert Swept(q, N) == Swept(q[1..], N);
    assert Back(q, late, interval, N) == Back(q[1..], late, interval, N);
  }

  // Stopping at a re-linked head, the last of the walked slot.
  lemma {:induction false} RelinkLast(p: seq<Timer>, q: seq<Timer>, t: Timer, interval: nat, N: nat)
    requires interval > 0 && N > 0 && q != [] && Reenters(q[0])
    requires t == Timer(q[0].task, q[0].task.delay / interval) && NoneHere(q[1..], N)
    ensures Ends(p, q, [q[0].task], p + (q[1..] + [t]), interval, N)
  {
    var late := Late(q, interval, N);
    NoneHereIdle(q[1..], late, true, interval, N);
    NoneHereIdle(q[1..], late, false, interval, N);
    DelayCounts(q[0].task.delay, interval);
    assert Swept(q, N) == q[1..] && Again(q, false, interval, N) == [];
    if ZeroDue(q[0], interval) {
      assert Back(q, late, interval, N) == [] && Zeros(q, interval) == [t];
    } else {
      assert Back(q, late, interval, N) == [t] && Zeros(q, interval) == [];
    }
  }

  // A task added anew as the last of the list is walked again unless it is late.
  lemma RelinkedSwept(h: Timer, t: Timer, late: bool, interval: nat, N: nat)
    requires interval > 0 && N > 0 && Returns(h, interval) && t == Timer(h.task, h.task.delay / interval)
    requires Here(t, N) ==> !late
    ensures t.left > 0 && (Relinks(h, interval, N) <==> Here(t, N))
    ensures Swept([t], N) == [Relinked(h.task, late, interval, N)]
  {
    DelayCounts(h.task.delay, interval);
    assert [t][1..] == [];
  }

  lemma MoveRight(p: seq<Timer>, s: seq<Timer>, r: Timer, b: seq<Timer>, z: seq<Timer>)
    ensures p + s + ([r] + b) + z == p + (s + [r]) + b + z
  {
  }

  lemma FiresFirst(x: Task, f: seq<Task>, a: seq<Task>)
    ensures [x] + f + a == [x] + (f + a)
  {
  }

  // Walking on past a re-linked head.
  lemma {:induction false} RelinkHead(p: seq<Timer>, q: seq<Timer>, t: Timer, interval: nat, N: nat)
    requires interval > 0 && N > 0 && q != [] && Returns(q[0], interval)
    requires t == Timer(q[0].task, q[0].task.delay / interval) && !NoneHere(q[1..], N)
    ensures Passes(p, q, [q[0].task], p, q[1..] + [t], interval, N)
  {
    hide Here, Relinks, Relinked, NoneHere, SweptHead, Swept, Back, Fires, Again, Zeros, LastRelinks;
    var late := Late(q, interval, N);
    HeadOut(q, late, interval, N);
    RelinkedSwept(q[0], t, false, interval, N);
    SweptAppend(q[1..], t, late, false, interval, N);
    assert Late(q[1..] + [t], interval, N) == late;
    RelinkedSwept(q[0], t, late, interval, N);
    MoveRight(p, Swept(q[1..], N), Relinked(q[0].task, late, interval, N), Back(q[1..], late, interval, N), Zeros(q, interval));
    FiresFirst(q[0].task, Fires(q[1..]), Again(q, false, interval, N));
  }

  // What the head of a list that returns contributes.
  lemma HeadOut(q: seq<Timer>, late: bool, interval: nat, N: nat)
    requires interval > 0 && N > 0 && q != [] && Returns(q[0], interval)
    ensures Swept(q, N) == Swept(q[1..], N) && Zeros(q, interval) == Zeros(q[1..], interval)
    ensures Back(q, late, interval, N) == [Relinked(q[0].task, late, interval, N)] + Back(q[1..], late, interval, N)
    ensures Fires(q) == [q[0].task] + Fires(q[1..])
    ensures Again(q, false, interval, N) == Again(q[1..], Relinks(q[0], interval, N), interval, N)
    ensures LastRelinks(q, interval, N) == if Relinks(q[0], interval, N) then NoneHere(q[1..], N) else LastRelinks(q[1..], interval, N)
  {
  }

  // Walking on past the head that comes back due: it will be the last of the slot.
  lemma {:induction false} ZeroHead(p: seq<Timer>, q: seq<Timer>, interval: nat, N: nat)
    requires interval > 0 && N > 0 && q != [] && ZeroDue(q[0], interval) && CanTickList(q, interval)
    requires !NoneHere(q[1..], N)
    ensures Passes(p, q, [q[0].task], p, q[1..] + [q[0]], interval, N)
  {
    ZeroAppend(q[1..], q[0], false, false, interval, N);
    assert Swept(q, N) == Swept(q[1..], N);
  }

  // `w` is where a walk from (p, q) has to end.
  ghost predicate Outcome(w: State, k: Walk, p: seq<Timer>, q: seq<Timer>)
    requires k.w.interval > 0 && |k.w.slots| > 0
  {
    && w.fired == k.w.fired + TickFires(q, k.w.interval, |k.w.slots|)
    && Carries(w, SweptList(p, q, k.w.interval, |k.w.slots|))
  }

  lemma {:induction false} SweepsEnd(k: Walk, p: seq<Timer>)
    requires Sweeps(k, p, [])
    ensures k.Done() && Outcome(k.w, k, p, [])
  {
    SweepsRest(k, p, []);
    WalkedLast(p, [], k.w.interval, |k.w.slots|);
  }

  lemma OutcomePasses(w: State, k: Walk, p: seq<Timer>, q: seq<Timer>, fired: seq<Task>, k': Walk, p': seq<Timer>,
                      q': seq<Timer>)
    requires k.w.interval > 0 && |k.w.slots| > 0 && k'.w.interval == k.w.interval && |k'.w.slots| == |k.w.slots|
    requires Passes(p, q, fired, p', q', k.w.interval, |k.w.slots|)
    requires k'.w.fired == k.w.fired + fired && Outcome(w, k', p', q')
    ensures Outcome(w, k, p, q)
  {
    hide SweptList, TickFires, Carries;
  }

  // The head fires and is added anew.
  lemma {:induction false} WalkRelinks(k: Walk, p: seq<Timer>, q: seq<Timer>)
    requires Sweeps(k, p, q) && !k.stopped && CanTickList(q, k.w.interval) && Terminating(k)
    requires q != [] && Reenters(q[0])
    ensures Outcome(WalkAll(k), k, p, q)
    decreases WalkMeasure(k).due, WalkMeasure(k).kept, WalkMeasure(k).turn, |q|, 0
  {
    hide Carries, Lane, Passes, SweptList, TickFires, Walk.Step, ZeroWaits, OtherDue, RestMeasure, NoneHere;
    var N, I := |k.w.slots|, k.w.interval;
    var t := Timer(q[0].task, k.w.Ticks(q[0].task));
    DivModUnique(0, 0, 0, N);
    DelayCounts(q[0].task.delay, I);
    StepUnlinks(k, p, q);
    StepDecreases(k);
    if k.Step().stopped {
      RelinkLast(p, q, t, I, N);
    } else {
      if Returns(q[0], I) {
        RelinkHead(p, q, t, I, N);
      } else {
        ZeroHead(p, q, I, N);
      }
      assert |Zeros(q[1..] + [t], I)| == |Zeros(q, I)| by {
        PassesZeros(p, q, [q[0].task], p, q[1..] + [t], I, N);
      }
      WalkSweeps(k.Step(), p, q[1..] + [t]);
      OutcomePasses(WalkAll(k), k, p, q, [q[0].task], k.Step(), p, q[1..] + [t]);
    }
  }

  lemma PassesZeros(p: seq<Timer>, q: seq<Timer>, fired: seq<Task>, p': seq<Timer>, q': seq<Timer>, interval: nat, N: nat)
    requires interval > 0 && N > 0 && Passes(p, q, fired, p', q', interval, N)
    ensures |Zeros(q', interval)| == |Zeros(q, interval)|
  {
  }

  lemma {:induction false} WalkSweeps(k: Walk, p: seq<Timer>, q: seq<Timer>)
    requires Sweeps(k, p, q) && !k.stopped && CanTickList(q, k.w.interval) && Terminating(k)
    ensures Outcome(WalkAll(k), k, p, q)
    decreases WalkMeasure(k).due, WalkMeasure(k).kept, WalkMeasure(k).turn, |q|, 1
  {
    hide Carries, Lane, Passes, SweptList, TickFires, Walk.Step, ZeroWaits, OtherDue, RestMeasure, NoneHere, Zeros;
    var N, I := |k.w.slots|, k.w.interval;
    if q == [] {
      SweepsEnd(k, p);
    } else if q[0].left % N != 0 {
      SkipElsewhere(k, p, q);
      ElsewherePasses(p, q, I, N);
      PassesZeros(p, q, [], p + [q[0]], q[1..], I, N);
      WalkSweeps(k, p + [q[0]], q[1..]);
      OutcomePasses(WalkAll(k), k, p, q, [], k, p + [q[0]], q[1..]);
    } else if q[0].left > 0 {
      StepLowers(k, p, q);
      StepDecreases(k);
      var h' := q[0].(left := q[0].left - N);
      LoweredPasses(p, q, I, N);
      PassesZeros(p, q, [], p + [h'], q[1..], I, N);
      WalkSweeps(k.Step(), p + [h'], q[1..]);
      OutcomePasses(WalkAll(k), k, p, q, [], k.Step(), p + [h'], q[1..]);
    } else if q[0].task.key.NoKey? {
      StepRefires(k, p, q);
      StepDecreases(k);
      RefiredPasses(p, q, I, N);
      PassesZeros(p, q, [q[0].task], p + [q[0]], q[1..], I, N);
      WalkSweeps(k.Step(), p + [q[0]], q[1..]);
      OutcomePasses(WalkAll(k), k, p, q, [q[0].task], k.Step(), p + [q[0]], q[1..]);
    } else if q[0].task.repeated {
      WalkRelinks(k, p, q);
    } else {
      WalkDrops(k, p, q);
    }
  }

  // The head fires for the last time.
  lemma {:induction false} WalkDrops(k: Walk, p: seq<Timer>, q: seq<Timer>)
    requires Sweeps(k, p, q) && !k.stopped && CanTickList(q, k.w.interval) && Terminating(k)
    requires q != [] && q[0].left == 0 && q[0].task.key.Keyed? && !q[0].task.repeated
    ensures Outcome(WalkAll(k), k, p, q)
    decreases WalkMeasure(k).due, WalkMeasure(k).kept, WalkMeasure(k).turn, |q|, 0
  {
    hide Carries, Lane, Passes, SweptList, TickFires, Walk.Step, ZeroWaits, OtherDue, RestMeasure, NoneHere, Zeros;
    var N, I := |k.w.slots|, k.w.interval;
    DivModUnique(0, 0, 0, N);
    StepUnlinks(k, p, q);
    StepDecreases(k);
    DropHead(p, q, I, N);
    PassesZeros(p, q, [q[0].task], p, q[1..], I, N);
    if k.Step().stopped {
      WalkedLast(p, q[1..], I, N);
      DoneOutcome(k.Step(), p, q[1..]);
      assert WalkAll(k) == WalkAll(k.Step()) == k.Step().w;
    } else {
      WalkSweeps(k.Step(), p, q[1..]);
    }
    OutcomePasses(WalkAll(k), k, p, q, [q[0].task], k.Step(), p, q[1..]);
  }

  lemma DoneOutcome(k: Walk, p: seq<Timer>, q: seq<Timer>)
    requires k.w.interval > 0 && |k.w.slots| > 0 && Carries(k.w, p + q)
    requires Ends(p, q, [], p + q, k.w.interval, |k.w.slots|)
    ensures Outcome(k.w, k, p, q)
  {
  }

  // ---- the pointer moves on ----------------------------------------------------

  function Moved(g: seq<Timer>, N: nat): seq<Timer>
    requires N > 0
  {
    if g == [] then []
    else [g[0].(left := if g[0].left % N == 0 then g[0].left + N - 1 else Closer(g[0].left, N))] + Moved(g[1..], N)
  }

  function Closer(left: nat, N: nat): nat
    requires N > 0 && left % N != 0
  {
    DivModUnique(0, 0, 0, N);
    left - 1
  }

  lemma SamePlace(cur: nat, left: nat, N: nat)
    requires cur < N
    ensures var left' := if left % N == 0 then left + N - 1 else Closer(left, N);
            (NextSlot(cur, N) + left') % N == (cur + left) % N && left' / N == left / N
  {
    var cur' := NextSlot(cur, N);
    var d, r := left / N, left % N;
    assert left == d * N + r;
    if r == 0 {
      DivModUnique(left + N - 1, d, N - 1, N);
    } else {
      DivModUnique(left - 1, d, r - 1, N);
    }
    var left' := if r == 0 then left + N - 1 else Closer(left, N);
    ModOfSum(left', cur + 1, N);
    assert (left' + cur') % N == (left' + cur + 1) % N;
    if r == 0 {
      assert left' + cur + 1 == (cur + left) + 1 * N;
      AddMultiple(cur + left, 1, N);
    }
  }

  lemma {:induction false} LaneMoved(g: seq<Timer>, j: nat, cur: nat, N: nat)
    requires cur < N
    ensures Lane(Moved(g, N), j, NextSlot(cur, N), N) == Lane(g, j, cur, N)
  {
    if g == [] {
    } else {
      SamePlace(cur, g[0].left, N);
      assert Moved(g, N)[1..] == Moved(g[1..], N);
      LaneMoved(g[1..], j, cur, N);
    }
  }

  lemma {:induction false} MovedAppend(f: seq<Timer>, g: seq<Timer>, N: nat)
    requires N > 0
    ensures Moved(f + g, N) == Moved(f, N) + Moved(g, N)
  {
    if f == [] {
      assert f + g == g;
    } else {
      assert (f + g)[1..] == f[1..] + g;
      MovedAppend(f[1..], g, N);
    }
  }

  lemma {:induction false} SweptMoved(f: seq<Timer>, N: nat)
    requires N > 0
    ensures Moved(Swept(f, N), N) == Stays(f, N)
  {
    if f == [] {
    } else {
      SweptMoved(f[1..], N);
      DivModUnique(0, 0, 0, N);
      if f[0].left > 0 && f[0].left % N == 0 {
        MultipleIsPositive(f[0].left, N);
        AddMultiple(f[0].left - N, 1, N);
      }
    }
  }

  lemma {:induction false} BackMoved(f: seq<Timer>, late: bool, interval: nat, N: nat)
    requires interval > 0 && N > 0
    ensures Moved(Back(f, late, interval, N), N) == Comeback(f, late, interval, N)
  {
    if f == [] {
    } else {
      BackMoved(f[1..], late, interval, N);
      if Returns(f[0], interval) {
        RelinkedMoved(f[0].task, late, interval, N);
      }
    }
  }

  lemma {:induction false} ZerosMoved(f: seq<Timer>, interval: nat, N: nat)
    requires N > 0
    ensures Moved(Zeros(f, interval), N) == ZeroBack(f, interval, N)
  {
    if f == [] {
    } else {
      ZerosMoved(f[1..], interval, N);
      DivModUnique(0, 0, 0, N);
    }
  }

  lemma RelinkedMoved(task: Task, late: bool, interval: nat, N: nat)
    requires interval > 0 && N > 0 && task.delay >= interval
    ensures var r := Relinked(task, late, interval, N);
            Reentry(task, late, interval, N)
            == r.(left := if r.left % N == 0 then r.left + N - 1 else Closer(r.left, N))
  {
    var n := task.delay / interval;
    DelayCounts(task.delay, interval);
    if n % N == 0 {
      MultipleIsPositive(n, N);
      AddMultiple(n - N, 1, N);
    }
  }

  lemma {:induction false} ZeroWaitsLane(f: seq<Timer>, cur: nat, interval: nat, N: nat)
    requires interval > 0 && cur < N
    ensures ZeroWaits(interval, Lane(f, cur, cur, N)) == |Zeros(f, interval)|
  {
    if f == [] {
    } else {
      ZeroWaitsLane(f[1..], cur, interval, N);
      SameSlot(cur, f[0].left, N);
      DivModUnique(0, 0, 0, N);
      var l := Lane(f, cur, cur, N);
      if f[0].left % N == 0 {
        assert l[1..] == Lane(f[1..], cur, cur, N);
        if f[0].left > 0 {
          MultipleIsPositive(f[0].left, N);
        }
      }
    }
  }

  // A tick of the wheel ends exactly when the list has at most one countdown that comes
  // back due.
  lemma CanTickExactly(w: State, f: seq<Timer>)
    requires Carries(w, f)
    ensures CanTick(w) <==> CanTickList(f, w.interval)
  {
    ZeroWaitsLane(f, w.cur, w.interval, |w.slots|);
  }

  // One tick of the wheel that ends is one tick of the list: the same tasks fire in the same
  // order, and the new wheel carries the new list.
  lemma {:induction false} TickRefines(w: State, f: seq<Timer>)
    requires Carries(w, f) && CanTick(w)
    ensures Tick(w).fired == w.fired + TickFires(f, w.interval, |w.slots|)
    ensures Carries(Tick(w), TickList(f, w.interval, |w.slots|))
  {
    hide Swept, Back, Zeros, ZeroWaits, TickFires;
    var N, I, late := |w.slots|, w.interval, Late(f, w.interval, |w.slots|);
    var k := Walk(w, 0, false);
    CanTickExactly(w, f);
    assert k.Rest() == w.Current();
    assert [] + f == f;
    WalkSweeps(k, [], f);
    var g := SweptList([], f, I, N);
    assert g == Swept(f, N) + Back(f, late, I, N) + Zeros(f, I);
    MovedAppend(Swept(f, N) + Back(f, late, I, N), Zeros(f, I), N);
    MovedAppend(Swept(f, N), Back(f, late, I, N), N);
    SweptMoved(f, N);
    BackMoved(f, late, I, N);
    ZerosMoved(f, I, N);
    forall j | 0 <= j < N
      ensures Tick(w).slots[j] == Lane(TickList(f, I, N), j, NextSlot(w.cur, N), N)
    {
      LaneMoved(g, j, w.cur, N);
    }
  }
}
