// The key index of the wheel and its slot lists always tell the same story.
module WheelIndex {
  import opened Wheel

  predicate Holds(slots: Slots, j: nat, p: nat, k: Key) {
    j < |slots| && p < |slots[j]| && slots[j][p].task.key == Keyed(k)
  }

  // timer[k] == j exactly when slot j holds one task with key k and no other slot does.
  ghost predicate Indexed(slots: Slots, timer: map<Key, nat>) {
    && (forall j, p, k :: Holds(slots, j, p, k) ==> k in timer && timer[k] == j)
    && (forall k :: k in timer ==> exists p :: Holds(slots, timer[k], p, k))
    && (forall j, p, q, k :: Holds(slots, j, p, k) && Holds(slots, j, q, k) ==> p == q)
  }

  ghost predicate Valid(w: State) {
    w.Shaped() && Indexed(w.slots, w.timer)
  }

  lemma PushKeeps(slots: Slots, timer: map<Key, nat>, j: nat, e: Entry)
    requires Indexed(slots, timer) && j < |slots| && !Indexable(timer, e.task.key)
    ensures Indexed(slots[j := slots[j] + [e]], if e.task.key.Keyed? then timer[e.task.key.id := j] else timer)
  {
    var slots' := slots[j := slots[j] + [e]];
    var timer' := if e.task.key.Keyed? then timer[e.task.key.id := j] else timer;
    forall i, p, k | Holds(slots', i, p, k)
      ensures k in timer' && timer'[k] == i
      ensures Holds(slots, i, p, k) || (i == j && p == |slots[j]| && e.task.key == Keyed(k))
    {
      if !(i == j && p == |slots[j]|) {
        assert Holds(slots, i, p, k);
      }
    }
    forall k | k in timer' ensures exists p :: Holds(slots', timer'[k], p, k) {
      if e.task.key == Keyed(k) {
        assert Holds(slots', j, |slots[j]|, k);
      } else {
        var p :| Holds(slots, timer[k], p, k);
        assert Holds(slots', timer'[k], p, k);
      }
    }
  }

  lemma RemovalKeeps(slots: Slots, timer: map<Key, nat>, j: nat, p: nat, k: Key)
    requires Indexed(slots, timer) && Holds(slots, j, p, k)
    ensures Indexed(slots[j := Without(slots[j], p)], timer - {k})
  {
    var slots', timer' := slots[j := Without(slots[j], p)], timer - {k};
    forall i: nat, q: nat, h: Key | Holds(slots', i, q, h)
      ensures h in timer' && timer'[h] == i
      ensures Holds(slots, i, if i == j && q >= p then q + 1 else q, h)
    {
      var q': nat := if i == j && q >= p then q + 1 else q;
      assert Holds(slots, i, q', h);
      assert Holds(slots, j, p, k);
    }
    forall h | h in timer' ensures exists q :: Holds(slots', timer'[h], q, h) {
      var q: nat :| Holds(slots, timer[h], q, h);
      assert timer[h] == j ==> q != p;
      var q': nat := if timer[h] == j && q > p then q - 1 else q;
      assert Holds(slots', timer'[h], q', h);
    }
  }

  lemma CircleKeeps(slots: Slots, timer: map<Key, nat>, j: nat, p: nat, circle: nat)
    requires Indexed(slots, timer) && j < |slots| && p < |slots[j]|
    ensures Indexed(slots[j := slots[j][p := slots[j][p].(circle := circle)]], timer)
  {
    var slots' := slots[j := slots[j][p := slots[j][p].(circle := circle)]];
    assert forall i, q, k :: Holds(slots', i, q, k) <==> Holds(slots, i, q, k);
  }

  lemma AddKeeps(w: State, task: Task)
    requires Valid(w)
    ensures Valid(Add(w, task))
  {
    if !Indexable(w.timer, task.key) {
      var n := w.Ticks(task);
      PushKeeps(w.slots, w.timer, w.SlotOf(n), Entry(task, n / |w.slots|));
    }
  }

  // Removing a present key takes out its one task, wherever it waits.
  lemma RemoveKeeps(w: State, key: OptionalKey)
    requires Valid(w)
    ensures Valid(Remove(w, key))
    ensures !Indexable(Remove(w, key).timer, key)
    ensures Indexable(w.timer, key) ==>
              var j := w.timer[key.id];
              j < |w.slots| && Position(w.slots[j], key) < |w.slots[j]| && Remove(w, key).timer == w.timer - {key.id}
  {
    if Indexable(w.timer, key) {
      var j := w.timer[key.id];
      var q :| Holds(w.slots, j, q, key.id);
      RemovalKeeps(w.slots, w.timer, j, Position(w.slots[j], key), key.id);
    }
  }

  lemma StepKeeps(k: Walk)
    requires k.Shaped() && !k.Done() && Valid(k.w)
    ensures Valid(k.Step().w)
  {
    var w, e := k.w, k.w.Current()[k.pos];
    if e.circle > 0 {
      CircleKeeps(w.slots, w.timer, w.cur, k.pos, e.circle - 1);
    } else if e.task.key.Keyed? {
      assert Holds(w.slots, w.cur, k.pos, e.task.key.id);
      RemovalKeeps(w.slots, w.timer, w.cur, k.pos, e.task.key.id);
      var unlinked := k.Fire(e).WithCurrent(Without(w.Current(), k.pos)).(timer := w.timer - {e.task.key.id});
      AddKeeps(unlinked, e.task);
    }
  }

  lemma {:induction false} WalkKeeps(k: Walk)
    requires k.Shaped() && Terminating(k) && Valid(k.w)
    ensures Valid(WalkAll(k))
    decreases WalkMeasure(k).due, WalkMeasure(k).kept, WalkMeasure(k).turn
  {
    if !k.Done() {
      StepDecreases(k);
      StepKeeps(k);
      WalkKeeps(k.Step());
    }
  }

  lemma TickKeeps(w: State)
    requires Valid(w) && CanTick(w)
    ensures Valid(Tick(w))
  {
    assert Walk(w, 0, false).Rest() == w.Current();
    WalkKeeps(Walk(w, 0, false));
  }
}
