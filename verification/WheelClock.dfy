// The catch-up loop of the wheel: how many ticks a sequence of updates performs.
module WheelClock {
  import opened Arith
  import opened Wheel
  import opened WheelLists

  // Each of n ticks comes to an end.
  ghost predicate CanTicks(w: State, n: nat)
    requires w.Shaped()
    decreases n
  {
    n == 0 || (CanTick(w) && CanTicks(Tick(w), n - 1))
  }

  ghost function TickMany(w: State, n: nat): (r: State)
    requires w.Shaped() && CanTicks(w, n)
    ensures r.Shaped() && r.interval == w.interval && |r.slots| == |w.slots|
    decreases n
  {
    if n == 0 then w else TickMany(Tick(w), n - 1)
  }

  lemma {:induction false} TickManyAdds(w: State, m: nat, n: nat)
    requires w.Shaped()
    ensures CanTicks(w, m + n) <==> CanTicks(w, m) && CanTicks(TickMany(w, m), n)
    ensures CanTicks(w, m + n) ==> TickMany(TickMany(w, m), n) == TickMany(w, m + n)
    decreases m
  {
    if m == 0 {
    } else if CanTick(w) {
      TickManyAdds(Tick(w), m - 1, n);
    }
  }

  lemma TickManyNext(w: State, n: nat, all: nat)
    requires w.Shaped() && CanTicks(w, all) && n < all
    ensures CanTicks(w, n) && CanTick(TickMany(w, n))
    ensures CanTicks(w, n + 1) && TickMany(w, n + 1) == Tick(TickMany(w, n))
  {
    TickManyAdds(w, n + 1, all - n - 1);
    TickManyAdds(w, n, 1);
    var u := TickMany(w, n);
    assert CanTicks(u, 1) && TickMany(u, 1) == TickMany(Tick(u), 0);
  }

  // A wheel of patient tasks can tick for ever.
  lemma {:induction false} PatientTicks(w: State, n: nat)
    requires w.Shaped() && Patient(w)
    ensures CanTicks(w, n) && Patient(TickMany(w, n))
    decreases n
  {
    if n == 0 {
    } else {
      PatientTick(w);
      PatientTicks(Tick(w), n - 1);
    }
  }

  // ---- updates -----------------------------------------------------------------------

  datatype Clock = Clock(w: State, oldMs: nat)

  function Min(a: nat, b: nat): nat { if a < b then a else b }

  // How many ticks an update makes up for.
  function TicksDue(oldMs: nat, ms: nat, interval: nat): nat
    requires interval > 0
  {
    if oldMs == 0 then 0 else (ms - Min(oldMs, ms)) / interval
  }

  ghost predicate CanUpdate(c: Clock, ms: nat) {
    c.w.Shaped() && CanTicks(c.w, TicksDue(c.oldMs, ms, c.w.interval))
  }

  // The first update only sets the clock; a later one makes up for the whole intervals
  // that passed and keeps the remainder.
  ghost function Update(c: Clock, ms: nat): (r: Clock)
    requires CanUpdate(c, ms)
    ensures r.w.Shaped() && r.w.interval == c.w.interval
  {
    if c.oldMs == 0 then c.(oldMs := ms)
    else
      var n := TicksDue(c.oldMs, ms, c.w.interval);
      Clock(TickMany(c.w, n), Min(c.oldMs, ms) + n * c.w.interval)
  }

  // Whether the clock was behind or ahead of it, an update leaves it less than one interval
  // behind. A first one, and one that goes back, performs no tick.
  lemma UpdateReaches(c: Clock, ms: nat)
    requires CanUpdate(c, ms)
    ensures var r := Update(c, ms); r.oldMs <= ms < r.oldMs + c.w.interval
    ensures c.oldMs == 0 || ms <= c.oldMs ==> Update(c, ms) == Clock(c.w, ms)
  {
    var I, since := c.w.interval, Min(c.oldMs, ms);
    var n := (ms - since) / I;
    assert ms - since == n * I + (ms - since) % I;
    if ms <= c.oldMs {
      DivModUnique(0, 0, 0, I);
    }
  }

  // Making up for the time in two goes performs the same ticks and keeps the same rest.
  lemma SplitTime(from: nat, t1: nat, t2: nat, I: nat)
    requires I > 0 && from <= t1 <= t2
    ensures var m := (t1 - from) / I;
            var mid := from + m * I;
            && from <= mid <= t1
            && (t2 - from) / I == m + (t2 - mid) / I
            && from + ((t2 - from) / I) * I == mid + ((t2 - mid) / I) * I
  {
    var m := (t1 - from) / I;
    assert t1 - from == m * I + (t1 - from) % I;
    assert m * I >= 0;
    var mid := from + m * I;
    var n := (t2 - mid) / I;
    AddMultiple(t2 - mid, m, I);
    assert (m + n) * I == m * I + n * I;
  }

  // Splitting an update in two changes nothing: both come to an end when the one does, with
  // the same wheel and the same tasks fired.
  lemma UpdateComposes(c: Clock, t1: nat, t2: nat)
    requires 0 < c.oldMs <= t1 <= t2 && c.w.Shaped()
    ensures CanUpdate(c, t2) <==> CanUpdate(c, t1) && CanUpdate(Update(c, t1), t2)
    ensures CanUpdate(c, t2) ==> Update(Update(c, t1), t2) == Update(c, t2)
  {
    var I := c.w.interval;
    SplitTime(c.oldMs, t1, t2, I);
    var m := (t1 - c.oldMs) / I;
    var n := (t2 - (c.oldMs + m * I)) / I;
    TickManyAdds(c.w, m, n);
    assert CanUpdate(c, t1) <==> CanTicks(c.w, m);
    if CanTicks(c.w, m) {
      assert Update(c, t1) == Clock(TickMany(c.w, m), c.oldMs + m * I);
    }
  }

  ghost predicate CanUpdates(c: Clock, times: seq<nat>)
    decreases |times|
  {
    times == [] || (CanUpdate(c, times[0]) && CanUpdates(Update(c, times[0]), times[1..]))
  }

  ghost function Updates(c: Clock, times: seq<nat>): (r: Clock)
    requires CanUpdates(c, times)
    decreases |times|
  {
    if times == [] then c else Updates(Update(c, times[0]), times[1..])
  }

  // How many whole intervals fit, and the time after that many.
  function Intervals(from: nat, to: nat, I: nat): nat
    requires I > 0 && from <= to
  {
    (to - from) / I
  }

  function Later(from: nat, n: nat, I: nat): (t: nat)
    ensures t >= from
  {
    assert n * I >= 0;
    from + n * I
  }

  // The updates end exactly when n ticks do, and then perform these and leave this clock.
  ghost predicate Performs(c: Clock, times: seq<nat>, n: nat, oldMs: nat)
    requires c.w.Shaped()
  {
    && (CanUpdates(c, times) <==> CanTicks(c.w, n))
    && (CanTicks(c.w, n) ==> Updates(c, times) == Clock(TickMany(c.w, n), oldMs))
  }

  // A fresh clock driven with non-decreasing positive times performs exactly
  // floor((last - first) / interval) ticks, however the updates are spaced, and all of the
  // updates come to an end exactly when these ticks do.
  lemma {:induction false} UpdatesTotal(c: Clock, times: seq<nat>)
    requires c.w.Shaped() && c.oldMs == 0 && times != [] && times[0] > 0
    requires forall i, j :: 0 <= i <= j < |times| ==> times[i] <= times[j]
    ensures var first, last := times[0], times[|times| - 1];
            var n := Intervals(first, last, c.w.interval);
            Performs(c, times, n, Later(first, n, c.w.interval))
  {
    var started := Update(c, times[0]);
    if |times| == 1 {
      DivModUnique(0, 0, 0, c.w.interval);
    } else {
      UpdatesCollapse(started, times[1..]);
    }
  }

  lemma {:induction false} UpdatesCollapse(c: Clock, times: seq<nat>)
    requires c.w.Shaped() && times != [] && 0 < c.oldMs <= times[0]
    requires forall i, j :: 0 <= i <= j < |times| ==> times[i] <= times[j]
    ensures CanUpdates(c, times) <==> CanUpdate(c, times[|times| - 1])
    ensures CanUpdates(c, times) ==> Updates(c, times) == Update(c, times[|times| - 1])
    decreases |times|
  {
    hide CanUpdate, CanTicks, TickMany;
    var last := times[|times| - 1];
    if |times| == 1 {
      assert times[1..] == [];
    } else {
      UpdateComposes(c, times[0], last);
      if CanUpdate(c, times[0]) {
        var c' := Update(c, times[0]);
        SplitTime(c.oldMs, times[0], times[0], c.w.interval);
        UpdatesCollapse(c', times[1..]);
      }
    }
  }

  // ---- when the clock goes back --------------------------------------------------------

  // Further non-decreasing times: the ticks count on from the clock, or from the first of the
  // times if that is before it.
  lemma UpdatesFrom(c: Clock, times: seq<nat>)
    requires c.w.Shaped() && c.oldMs > 0 && times != [] && times[0] > 0
    requires forall i, j :: 0 <= i <= j < |times| ==> times[i] <= times[j]
    ensures var since := Min(c.oldMs, times[0]);
            var n := Intervals(since, times[|times| - 1], c.w.interval);
            Performs(c, times, n, Later(since, n, c.w.interval))
  {
    if c.oldMs <= times[0] {
      UpdatesCollapse(c, times);
    } else {
      UpdateReaches(c, times[0]);
      var back := Clock(c.w, times[0]);
      assert CanUpdate(c, times[0]) && Update(c, times[0]) == back;
      if |times| == 1 {
        assert times[1..] == [];
        DivModUnique(0, 0, 0, c.w.interval);
      } else {
        UpdatesCollapse(back, times[1..]);
      }
    }
  }

  lemma {:induction false} UpdatesAppend(c: Clock, a: seq<nat>, b: seq<nat>)
    ensures CanUpdates(c, a + b) <==> CanUpdates(c, a) && CanUpdates(Updates(c, a), b)
    ensures CanUpdates(c, a + b) ==> Updates(c, a + b) == Updates(Updates(c, a), b)
    decreases |a|
  {
    if a == [] {
      assert a + b == b;
    } else {
      assert (a + b)[0] == a[0] && (a + b)[1..] == a[1..] + b;
      if CanUpdate(c, a[0]) {
        UpdatesAppend(Update(c, a[0]), a[1..], b);
      }
    }
  }

  // A run with one step back performs the ticks of its two parts, the second counted from
  // where the clock stood or from the step back if that is earlier. A step back within the
  // rest of an interval changes nothing.
  lemma UpdatesStepBack(c: Clock, up: seq<nat>, back: seq<nat>)
    requires c.w.Shaped() && c.oldMs == 0 && up != [] && back != [] && up[0] > 0 && back[0] > 0
    requires forall i, j :: 0 <= i <= j < |up| ==> up[i] <= up[j]
    requires forall i, j :: 0 <= i <= j < |back| ==> back[i] <= back[j]
    ensures var I := c.w.interval;
            var m := Intervals(up[0], up[|up| - 1], I);
            var since := Min(Later(up[0], m, I), back[0]);
            var n := Intervals(since, back[|back| - 1], I);
            Performs(c, up + back, m + n, Later(since, n, I))
  {
    hide Performs, CanTicks, TickMany, Intervals, Later;
    var I := c.w.interval;
    var m := Intervals(up[0], up[|up| - 1], I);
    var mid := Later(up[0], m, I);
    var since := Min(mid, back[0]);
    var n := Intervals(since, back[|back| - 1], I);
    UpdatesTotal(c, up);
    if CanTicks(c.w, m) {
      UpdatesFrom(Clock(TickMany(c.w, m), mid), back);
    }
    Joined(c, up, m, mid, back, n, Later(since, n, I));
  }

  lemma Joined(c: Clock, a: seq<nat>, m: nat, mid: nat, b: seq<nat>, n: nat, end: nat)
    requires c.w.Shaped() && Performs(c, a, m, mid)
    requires CanTicks(c.w, m) ==> Performs(Clock(TickMany(c.w, m), mid), b, n, end)
    ensures Performs(c, a + b, m + n, end)
  {
    hide CanTicks, TickMany, CanUpdates, Updates;
    UpdatesAppend(c, a, b);
    TickManyAdds(c.w, m, n);
  }
}
