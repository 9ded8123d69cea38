// Session ids of socket/sessionmanager.go: 40 bits of seconds, 16 bits of sequence, 8 bits
// of server key.
module SessionIds {
  import opened Arith

  const SECOND := 0x100_0000      // the second starts at bit 24
  const SLOT := 0x100             // the sequence at bit 8
  const MAX_SEQUENCE := 0xffff
  const MAX_KEY := 0xff
  const CLOCK_END := 0x100_0000_0000   // 2^40 seconds
  const WORD := 0x1_0000_0000_0000_0000

  // The three fields share no bit, so putting them together with "or" is adding them; the
  // shift of the second drops what leaves the 64 bits.
  function Pack(second: nat, sequence: nat, key: nat): nat {
    (second * SECOND) % WORD + (sequence % (MAX_SEQUENCE + 1)) * SLOT + key % SLOT
  }

  datatype Generator = Generator(last: nat, sequence: nat)

  // One call at clock reading `now`: the new state and the id, 0 for none.
  function Generate(g: Generator, key: nat, now: nat): (r: (Generator, nat)) {
    var g' := if g.last == 0 then g.(last := now) else g;
    if key > MAX_KEY then (g', 0)
    else if g'.last == now then
      var next := g'.(sequence := g'.sequence + 1);
      if next.sequence > MAX_SEQUENCE then (next, 0) else (next, Pack(next.last, next.sequence, key))
    else (Generator(now, 1), Pack(now, 1, key))
  }

  lemma PackDecodes(second: nat, sequence: nat, key: nat)
    requires second < CLOCK_END && 1 <= sequence <= MAX_SEQUENCE && key <= MAX_KEY
    ensures var id := Pack(second, sequence, key);
            id > 0 && id / SECOND == second && id / SLOT % (MAX_SEQUENCE + 1) == sequence && id % SLOT == key
    ensures Pack(second, sequence, key) == second * SECOND + sequence * SLOT + key
  {
    DivModUnique(second * SECOND, 0, second * SECOND, WORD);
    DivModUnique(sequence, 0, sequence, MAX_SEQUENCE + 1);
    DivModUnique(key, 0, key, SLOT);
    var id := second * SECOND + sequence * SLOT + key;
    DivModUnique(id, second, sequence * SLOT + key, SECOND);
    DivModUnique(id, second * (MAX_SEQUENCE + 1) + sequence, key, SLOT);
    DivModUnique(second * (MAX_SEQUENCE + 1) + sequence, second, sequence, MAX_SEQUENCE + 1);
  }

  // ---- runs of one manager ---------------------------------------------------------------

  function Ids(g: Generator, key: nat, times: seq<nat>): (r: seq<nat>)
    ensures |r| == |times|
    decreases |times|
  {
    if times == [] then []
    else
      var one := Generate(g, key, times[0]);
      [one.1] + Ids(one.0, key, times[1..])
  }

  // A clock that never goes back and stays below 2^40 seconds.
  predicate Clock(times: seq<nat>) {
    && (forall i :: 0 <= i < |times| ==> 0 < times[i] < CLOCK_END)
    && forall i, j :: 0 <= i <= j < |times| ==> times[i] <= times[j]
  }

  // An id belongs to the state (second, sequence) or a later one.
  ghost predicate Behind(g: Generator, id: nat, key: nat) {
    id != 0 ==> exists second, sequence :: IsId(id, second, sequence, key) && Later(g, second, sequence)
  }

  predicate Later(g: Generator, second: nat, sequence: nat) {
    && second < CLOCK_END && 1 <= sequence <= MAX_SEQUENCE
    && (second > g.last || (second == g.last && sequence > g.sequence))
  }

  predicate IsId(id: nat, second: nat, sequence: nat, key: nat) {
    id == Pack(second, sequence, key)
  }

  lemma BehindGrows(g: Generator, id: nat, key: nat, other: nat)
    requires key <= MAX_KEY && Behind(g, id, key) && id != 0
    requires g.last < CLOCK_END && 1 <= g.sequence <= MAX_SEQUENCE && other == Pack(g.last, g.sequence, key)
    ensures other < id
  {
    var second, sequence :| IsId(id, second, sequence, key) && Later(g, second, sequence);
    PackDecodes(second, sequence, key);
    PackDecodes(g.last, g.sequence, key);
  }

  lemma {:induction false} IdsBehind(g: Generator, key: nat, times: seq<nat>)
    requires key <= MAX_KEY && Clock(times) && g.last > 0 && (times != [] ==> g.last <= times[0])
    ensures forall i :: 0 <= i < |times| ==> Behind(g, Ids(g, key, times)[i], key)
    decreases |times|
  {
    if times == [] {
    } else {
      var one := Generate(g, key, times[0]);
      IdsBehind(one.0, key, times[1..]);
      assert one.1 != 0 ==> IsId(one.1, one.0.last, one.0.sequence, key);
      var ids := Ids(g, key, times);
      forall i | 0 <= i < |times| ensures Behind(g, ids[i], key) {
        if i > 0 {
          assert Behind(one.0, Ids(one.0, key, times[1..])[i - 1], key);
        }
      }
    }
  }

  predicate Growing(ids: seq<nat>) {
    forall i, j :: 0 <= i < j < |ids| && ids[i] != 0 && ids[j] != 0 ==> ids[i] < ids[j]
  }

  // All ids but 0 grow strictly, from any state a manager can be created in.
  lemma {:induction false} IdsGrow(g: Generator, key: nat, times: seq<nat>)
    requires key <= MAX_KEY && Clock(times) && (g.sequence == 0 || (g.last > 0 && (times != [] ==> g.last <= times[0])))
    ensures Growing(Ids(g, key, times))
    decreases |times|
  {
    if times == [] {
    } else {
      var one := Generate(g, key, times[0]);
      assert one.0.last == times[0];
      IdsGrow(one.0, key, times[1..]);
      IdsBehind(one.0, key, times[1..]);
      var ids, rest := Ids(g, key, times), Ids(one.0, key, times[1..]);
      forall i, j | 0 <= i < j < |ids| && ids[i] != 0 && ids[j] != 0 ensures ids[i] < ids[j] {
        assert ids[j] == rest[j - 1];
        if i == 0 {
          assert ids[0] == one.1 == Pack(one.0.last, one.0.sequence, key);
          assert Behind(one.0, rest[j - 1], key);
          BehindGrows(one.0, ids[j], key, ids[0]);
        } else {
          assert ids[i] == rest[i - 1] && Growing(rest);
        }
      }
    }
  }

  // Every id names the second it was made in, and the key.
  lemma {:induction false} IdsDecode(g: Generator, key: nat, times: seq<nat>)
    requires key <= MAX_KEY && Clock(times)
    ensures var ids := Ids(g, key, times);
            forall i :: 0 <= i < |times| && ids[i] != 0 ==>
              ids[i] / SECOND == times[i] && 1 <= ids[i] / SLOT % (MAX_SEQUENCE + 1) && ids[i] % SLOT == key
    decreases |times|
  {
    if times == [] {
    } else {
      var one := Generate(g, key, times[0]);
      IdsDecode(one.0, key, times[1..]);
      if one.1 != 0 {
        PackDecodes(one.0.last, one.0.sequence, key);
      }
    }
  }

  // Managers with different keys never share an id.
  lemma KeysApart(g: Generator, h: Generator, key: nat, other: nat, times: seq<nat>, others: seq<nat>, i: nat, j: nat)
    requires key <= MAX_KEY && other <= MAX_KEY && key != other && Clock(times) && Clock(others)
    requires i < |times| && j < |others| && Ids(g, key, times)[i] != 0
    ensures Ids(g, key, times)[i] != Ids(h, other, others)[j]
  {
    IdsDecode(g, key, times);
    IdsDecode(h, other, others);
  }

  function Issued(ids: seq<nat>, second: nat): nat {
    if ids == [] then 0 else (if ids[0] != 0 && ids[0] / SECOND == second then 1 else 0) + Issued(ids[1..], second)
  }

  // At most 65535 ids are issued in any one second.
  lemma IdsPerSecond(g: Generator, key: nat, times: seq<nat>, second: nat)
    requires key <= MAX_KEY && Clock(times)
    requires g.sequence == 0 || (g.last > 0 && (times != [] ==> g.last <= times[0]))
    ensures Issued(Ids(g, key, times), second) <= MAX_SEQUENCE
  {
    if times != [] {
      var one := Generate(g, key, times[0]);
      assert one.0.last == times[0];
      IdsLeft(one.0, key, times[1..], second);
      assert Ids(g, key, times)[1..] == Ids(one.0, key, times[1..]);
      if one.1 != 0 {
        PackDecodes(one.0.last, one.0.sequence, key);
      }
    }
  }

  // What a manager in mid-second still has to give.
  lemma {:induction false} IdsLeft(g: Generator, key: nat, times: seq<nat>, second: nat)
    requires key <= MAX_KEY && Clock(times)
    requires g.last > 0 && (times != [] ==> g.last <= times[0])
    ensures Issued(Ids(g, key, times), second)
         <= if second < g.last || (second == g.last && g.sequence >= MAX_SEQUENCE) then 0
            else if second == g.last then MAX_SEQUENCE - g.sequence else MAX_SEQUENCE
    decreases |times|
  {
    if times == [] {
    } else {
      var one := Generate(g, key, times[0]);
      IdsLeft(one.0, key, times[1..], second);
      assert Ids(g, key, times)[1..] == Ids(one.0, key, times[1..]);
      if one.1 != 0 {
        PackDecodes(one.0.last, one.0.sequence, key);
      }
    }
  }

  // ---- every id, exactly ---------------------------------------------------------------------

  // How often this second has been seen.
  function Seen(times: seq<nat>, second: nat): nat {
    if times == [] then 0 else (if times[0] == second then 1 else 0) + Seen(times[1..], second)
  }

  function Given(g: Generator, second: nat): nat {
    if g.last == second then g.sequence else 0
  }

  lemma {:induction false} IdsFrom(g: Generator, key: nat, times: seq<nat>, i: nat)
    requires key <= MAX_KEY && Clock(times) && i < |times|
    requires g.sequence == 0 || 0 < g.last <= times[0]
    ensures var n := Given(g, times[i]) + Seen(times[..i], times[i]);
            Ids(g, key, times)[i] == if n < MAX_SEQUENCE then Pack(times[i], n + 1, key) else 0
    decreases |times|
  {
    var now := times[0];
    var one := Generate(g, key, now);
    assert one.0 == Generator(now, Given(g, now) + 1);
    if i == 0 {
      assert times[..0] == [];
    } else {
      var rest := times[1..];
      IdsFrom(one.0, key, rest, i - 1);
      assert times[..i][0] == now && times[..i][1..] == rest[..i - 1];
      assert rest[i - 1] == times[i];
    }
  }

  lemma {:induction false} NoIds(g: Generator, key: nat, times: seq<nat>)
    requires key > MAX_KEY
    ensures forall i :: 0 <= i < |times| ==> Ids(g, key, times)[i] == 0
    decreases |times|
  {
    if times == [] {
    } else {
      NoIds(Generate(g, key, times[0]).0, key, times[1..]);
    }
  }

  // The ids of a new manager: 0 exactly when the key is above 255 or 65535 ids were asked for
  // in the same second before, and otherwise second, number within the second and key.
  lemma IdsExactly(g: Generator, key: nat, times: seq<nat>, i: nat)
    requires Clock(times) && i < |times| && g.sequence == 0
    ensures var n := Seen(times[..i], times[i]);
            Ids(g, key, times)[i]
            == if key > 255 || n >= 65535 then 0 else times[i] * 16777216 + (n + 1) * 256 + key
  {
    var n := Seen(times[..i], times[i]);
    if key > MAX_KEY {
      NoIds(g, key, times);
    } else {
      IdsFrom(g, key, times, i);
      if n < MAX_SEQUENCE {
        PackDecodes(times[i], n + 1, key);
      }
    }
  }

  // ---- the manager ---------------------------------------------------------------------------

  class Session {
    var id: nat
  }

  class NetSessionManager {
    const genKey: nat
    var lastTimeStamp: nat
    var sequence: nat
    var sessionMap: map<nat, Session>
    // The latest clock reading, 0 before the first.
    ghost var clock: nat

    function State(): Generator
      reads this
    {
      Generator(lastTimeStamp, sequence)
    }

    // Every id in use was made by this manager, at or before its present state.
    ghost predicate Valid()
      reads this
    {
      && clock < CLOCK_END
      && (clock == 0 ==> sequence == 0 && sessionMap == map[])
      && (clock > 0 && genKey <= MAX_KEY ==> lastTimeStamp == clock && sequence >= 1)
      && forall id :: id in sessionMap && id != 0 ==> genKey <= MAX_KEY && Used(id)
    }

    // What every id made so far is like.
    ghost predicate Used(id: nat)
      reads this
    {
      && clock > 0 && id % SLOT == genKey && id / SECOND <= clock
      && (id / SECOND == clock ==> id / SLOT % (MAX_SEQUENCE + 1) <= sequence)
    }

    // The time the manager is made at is in milliseconds, unlike all later readings.
    constructor (genKey: nat, milliseconds: nat)
      ensures Valid() && clock == 0 && this.genKey == genKey && sessionMap == map[]
      ensures State() == Generator(milliseconds, 0)
    {
      this.genKey, lastTimeStamp, sequence, sessionMap, clock := genKey, milliseconds, 0, map[], 0;
    }

    method GenSessionId(now: nat) returns (id: nat)
      requires Valid() && 0 < now < CLOCK_END && clock <= now
      modifies this`lastTimeStamp, this`sequence, this`clock
      ensures Valid() && clock == now
      ensures (State(), id) == Generate(old(State()), genKey, now)
      ensures id != 0 ==> !old(Used(id)) && Used(id) && id !in sessionMap
      ensures forall other :: old(Used(other)) ==> Used(other)
    {
      if lastTimeStamp == 0 {
        lastTimeStamp := now;
      }
      clock := now;
      if genKey > MAX_KEY {
        return 0;
      }
      if lastTimeStamp == now {
        sequence := sequence + 1;
      } else {
        lastTimeStamp := now;
        sequence := 1;
      }
      if sequence > MAX_SEQUENCE {
        return 0;
      }
      id := Pack(lastTimeStamp, sequence, genKey);
      PackDecodes(lastTimeStamp, sequence, genKey);
    }

    // The duplicate check can only find 0, the id of a session made when a second ran out
    // of ids.
    method Add(s: Session, now: nat) returns (panicked: bool)
      requires Valid() && 0 < now < CLOCK_END && clock <= now
      modifies this, s
      ensures Valid() && clock == now
      ensures s.id == Generate(old(State()), genKey, now).1
      ensures s.id != 0 ==> Used(s.id)
      ensures forall other :: old(Used(other)) ==> Used(other) && (other == 0 || other != s.id)
      ensures panicked <==> s.id in old(sessionMap)
      ensures panicked ==> s.id == 0 && sessionMap == old(sessionMap)
      ensures !panicked ==> sessionMap == old(sessionMap)[s.id := s]
    {
      var uuid := GenSessionId(now);
      s.id := uuid;
      if uuid in sessionMap {
        return true;
      }
      sessionMap := sessionMap[uuid := s];
      return false;
    }

    method Remove(s: Session)
      requires Valid()
      modifies this`sessionMap
      ensures Valid() && sessionMap == old(sessionMap) - {s.id}
    {
      sessionMap := sessionMap - {s.id};
    }

    // A session is only found under an id this manager made, with its own key.
    method GetSession(id: nat) returns (s: Session?)
      requires Valid()
      ensures s == null <==> id !in sessionMap
      ensures s != null ==> sessionMap[id] == s && (id != 0 ==> Used(id) && id % SLOT == genKey <= MAX_KEY)
    {
      if id in sessionMap {
        return sessionMap[id];
      }
      return null;
    }
  }
}
