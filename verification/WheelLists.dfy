// Every wheel carries some list, and which wheels are slow enough to walk.
module WheelLists {
  import opened Arith
  import opened Wheel
  import opened Countdown

  // No repeated keyed task waits less than one interval.
  ghost predicate Patient(w: State) {
    forall j, p :: 0 <= j < |w.slots| && 0 <= p < |w.slots[j]| ==> PatientTask(w.slots[j][p].task, w.interval)
  }

  ghost predicate Waiting(f: seq<Timer>, interval: nat) {
    forall i :: 0 <= i < |f| ==> PatientTask(f[i].task, interval)
  }

  // ---- every wheel carries some list ------------------------------------------------

  function Unrolled(s: seq<Entry>, j: nat, cur: nat, N: nat): seq<Timer>
    requires cur < N && j < N
  {
    if s == [] then []
    else [Timer(s[0].task, (j + N - cur) % N + s[0].circle * N)] + Unrolled(s[1..], j, cur, N)
  }

  lemma UnrolledPlace(j: nat, circle: nat, cur: nat, N: nat)
    requires cur < N && j < N
    ensures var left := (j + N - cur) % N + circle * N; (cur + left) % N == j && left / N == circle
  {
    var d := (j + N - cur) % N;
    DivModUnique(d, 0, d, N);
    AddMultiple(d, circle, N);
    ModOfSum(cur, j + N - cur, N);
    assert cur + (d + circle * N) == (cur + d) + circle * N;
    AddMultiple(cur + d, circle, N);
    DivModUnique(j + N, 1, j, N);
  }

  lemma {:induction false} UnrolledLane(s: seq<Entry>, j: nat, i: nat, cur: nat, N: nat)
    requires cur < N && j < N && i < N
    ensures Lane(Unrolled(s, j, cur, N), i, cur, N) == if i == j then s else []
  {
    if s == [] {
    } else {
      UnrolledLane(s[1..], j, i, cur, N);
      UnrolledPlace(j, s[0].circle, cur, N);
      assert Unrolled(s, j, cur, N)[1..] == Unrolled(s[1..], j, cur, N);
    }
  }

  function UnrolledAll(slots: Slots, n: nat, cur: nat): seq<Timer>
    requires cur < |slots| && n <= |slots|
  {
    if n == 0 then [] else UnrolledAll(slots, n - 1, cur) + Unrolled(slots[n - 1], n - 1, cur, |slots|)
  }

  lemma NoLane(j: nat, cur: nat, N: nat)
    requires N > 0
    ensures Lane([], j, cur, N) == []
  {
  }

  lemma EmptyEnds(s: seq<Entry>)
    ensures s + [] == s && [] + s == s
  {
  }

  lemma {:induction false} UnrolledAllLane(slots: Slots, n: nat, cur: nat, i: nat)
    requires cur < |slots| && n <= |slots| && i < |slots|
    ensures Lane(UnrolledAll(slots, n, cur), i, cur, |slots|) == if i < n then slots[i] else []
  {
    hide Unrolled, Lane;
    if n == 0 {
      NoLane(i, cur, |slots|);
    } else {
      UnrolledAllLane(slots, n - 1, cur, i);
      UnrolledLane(slots[n - 1], n - 1, i, cur, |slots|);
      LaneAppend(UnrolledAll(slots, n - 1, cur), Unrolled(slots[n - 1], n - 1, cur, |slots|), i, cur, |slots|);
      EmptyEnds(slots[i]);
      EmptyEnds([]);
    }
  }

  // The list of a wheel, and any other list it carries, holds the wheel's tasks.
  lemma SomeListCarried(w: State) returns (f: seq<Timer>)
    requires w.Shaped()
    ensures Carries(w, f)
  {
    f := UnrolledAll(w.slots, |w.slots|, w.cur);
    forall i | 0 <= i < |w.slots| ensures w.slots[i] == Lane(f, i, w.cur, |w.slots|) {
      UnrolledAllLane(w.slots, |w.slots|, w.cur, i);
    }
  }

  lemma {:induction false} LaneHolds(f: seq<Timer>, i: nat, cur: nat, N: nat) returns (p: nat)
    requires cur < N && i < |f|
    ensures var l := Lane(f, Place(f[i].left, cur, N), cur, N); p < |l| && l[p].task == f[i].task
  {
    hide Place;
    if i == 0 {
      p := 0;
    } else {
      p := LaneHolds(f[1..], i - 1, cur, N);
      if Place(f[0].left, cur, N) == Place(f[i].left, cur, N) {
        p := p + 1;
      }
    }
  }

  lemma {:induction false} LaneFrom(f: seq<Timer>, j: nat, cur: nat, N: nat, p: nat) returns (i: nat)
    requires cur < N && p < |Lane(f, j, cur, N)|
    ensures i < |f| && Lane(f, j, cur, N)[p].task == f[i].task
  {
    hide Place;
    if Place(f[0].left, cur, N) == j && p == 0 {
      i := 0;
    } else {
      i := LaneFrom(f[1..], j, cur, N, if Place(f[0].left, cur, N) == j then p - 1 else p);
      i := i + 1;
    }
  }

  lemma PatientWaits(w: State, f: seq<Timer>)
    requires Carries(w, f)
    ensures Patient(w) <==> Waiting(f, w.interval)
  {
    var N := |w.slots|;
    if Patient(w) {
      forall i | 0 <= i < |f| ensures PatientTask(f[i].task, w.interval) {
        var p := LaneHolds(f, i, w.cur, N);
        assert PatientTask(w.slots[Place(f[i].left, w.cur, N)][p].task, w.interval);
      }
    } else {
      var j, p :| 0 <= j < N && 0 <= p < |w.slots[j]| && !PatientTask(w.slots[j][p].task, w.interval);
      var i := LaneFrom(f, j, w.cur, N, p);
      assert !PatientTask(f[i].task, w.interval);
    }
  }

  lemma {:induction false} TickWaiting(f: seq<Timer>, late: bool, interval: nat, N: nat)
    requires interval > 0 && N > 0 && Waiting(f, interval)
    ensures Waiting(Stays(f, N), interval) && Waiting(Comeback(f, late, interval, N), interval)
    ensures Zeros(f, interval) == [] && ZeroBack(f, interval, N) == []
  {
    if f == [] {
    } else {
      TickWaiting(f[1..], late, interval, N);
    }
  }

  // A wheel of patient tasks can always tick, and stays one.
  lemma {:induction false} PatientTick(w: State)
    requires w.Shaped() && Patient(w)
    ensures CanTick(w) && Patient(Tick(w))
  {
    var f := SomeListCarried(w);
    PatientWaits(w, f);
    TickWaiting(f, Late(f, w.interval, |w.slots|), w.interval, |w.slots|);
    CanTickExactly(w, f);
    TickRefines(w, f);
    PatientWaits(Tick(w), TickList(f, w.interval, |w.slots|));
  }
}
