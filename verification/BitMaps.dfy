// The bitmap of util/bitmap.go against a set of numbers, and what its counter counts.
module BitMaps {
  import opened Arith

  // ---- bits of a byte ------------------------------------------------------------------

  function Mask(pos: nat): bv8
    requires pos < 8
  {
    match pos
    case 0 => 1
    case 1 => 2
    case 2 => 4
    case 3 => 8
    case 4 => 16
    case 5 => 32
    case 6 => 64
    case 7 => 128
  }

  lemma MaskIsShift(pos: nat)
    requires pos < 8
    ensures (1 as bv8) << pos == Mask(pos)
  {
  }

  predicate Bit(b: bv8, pos: nat)
    requires pos < 8
  {
    b & ((1 as bv8) << pos) != 0
  }

  function BitCount(b: bv8): nat {
    One(Bit(b, 0)) + One(Bit(b, 1)) + One(Bit(b, 2)) + One(Bit(b, 3))
    + One(Bit(b, 4)) + One(Bit(b, 5)) + One(Bit(b, 6)) + One(Bit(b, 7))
  }

  // bites[index] |= 1 << pos, and &^ for removal
  function Set(b: bv8, pos: nat): bv8
    requires pos < 8
  {
    b | ((1 as bv8) << pos)
  }

  function Cleared(b: bv8, pos: nat): bv8
    requires pos < 8
  {
    b & !((1 as bv8) << pos)
  }

  lemma SetOther(b: bv8, pos: nat, q: nat)
    requires pos < 8 && q < 8
    ensures Bit(Set(b, pos), q) <==> q == pos || Bit(b, q)
  {
    MaskIsShift(pos);
    MaskIsShift(q);
    MasksApart(pos, q);
  }

  lemma ClearOther(b: bv8, pos: nat, q: nat)
    requires pos < 8 && q < 8
    ensures Bit(Cleared(b, pos), q) <==> q != pos && Bit(b, q)
  {
    MaskIsShift(pos);
    MaskIsShift(q);
    MasksApart(pos, q);
  }

  // Two masks share no bit.
  lemma MasksApart(pos: nat, q: nat)
    requires pos < 8 && q < 8
    ensures Mask(pos) != 0 && (q != pos ==> Mask(pos) & Mask(q) == 0)
  {
  }

  // One bit more or less is one more or less to count.
  lemma CountOther(b: bv8, c: bv8, pos: nat)
    requires pos < 8 && forall q :: 0 <= q < 8 && q != pos ==> (Bit(c, q) <==> Bit(b, q))
    ensures BitCount(c) + One(Bit(b, pos)) == BitCount(b) + One(Bit(c, pos))
  {
    hide Bit, One;
    assert forall q :: 0 <= q < 8 && q != pos ==> One(Bit(c, q)) == One(Bit(b, q));
  }

  lemma SetBit(b: bv8, pos: nat)
    requires pos < 8
    ensures forall q :: 0 <= q < 8 ==> (Bit(Set(b, pos), q) <==> q == pos || Bit(b, q))
    ensures BitCount(Set(b, pos)) == BitCount(b) + One(!Bit(b, pos))
  {
    hide Bit, Set;
    forall q | 0 <= q < 8 ensures Bit(Set(b, pos), q) <==> q == pos || Bit(b, q) {
      SetOther(b, pos, q);
    }
    CountOther(b, Set(b, pos), pos);
  }

  lemma ClearBit(b: bv8, pos: nat)
    requires pos < 8
    ensures forall q :: 0 <= q < 8 ==> (Bit(Cleared(b, pos), q) <==> q != pos && Bit(b, q))
    ensures BitCount(Cleared(b, pos)) + One(Bit(b, pos)) == BitCount(b)
  {
    hide Bit, Cleared;
    forall q | 0 <= q < 8 ensures Bit(Cleared(b, pos), q) <==> q != pos && Bit(b, q) {
      ClearOther(b, pos, q);
    }
    CountOther(b, Cleared(b, pos), pos);
  }

  lemma ShiftOut(b: bv8)
    ensures BitCount(b) == One(b & 1 != 0) + BitCount(b >> 1)
    ensures b > 0 ==> b >> 1 < b
    ensures b == 0 ==> BitCount(b) == 0
  {
  }

  // ---- bits of a slice -----------------------------------------------------------------

  // The numbers whose bit is set.
  function BitSet(s: seq<bv8>): set<nat> {
    set n: nat | n < 8 * |s| && Bit(s[n / 8], n % 8)
  }

  // Number n is the lowest bit of byte n / 8 once that is shifted right by n % 8.
  lemma BitSetLayout(s: seq<bv8>, n: nat)
    ensures n in BitSet(s) <==> n / 8 < |s| && (s[n / 8] >> (n % 8)) & 1 == 1
  {
    if n / 8 < |s| {
      ShiftedBit(s[n / 8], n % 8);
    }
  }

  lemma ShiftedBit(b: bv8, pos: nat)
    requires pos < 8
    ensures Bit(b, pos) <==> (b >> pos) & 1 == 1
  {
    match pos
    case 0 =>
    case 1 =>
    case 2 =>
    case 3 =>
    case 4 =>
    case 5 =>
    case 6 =>
    case _ =>
  }

  function Count(s: seq<bv8>): nat {
    if s == [] then 0 else Count(s[..|s| - 1]) + BitCount(s[|s| - 1])
  }

  lemma {:induction false} CountUpdate(s: seq<bv8>, i: nat, b: bv8)
    requires i < |s|
    ensures Count(s[i := b]) + BitCount(s[i]) == Count(s) + BitCount(b)
  {
    var n := |s| - 1;
    if i < n {
      assert s[i := b][..n] == s[..n][i := b];
      CountUpdate(s[..n], i, b);
    } else {
      assert s[i := b][..n] == s[..n];
    }
  }

  // The numbers of the first k bits of byte n.
  function LastBits(n: nat, b: bv8, k: nat): set<nat>
    requires k <= 8
  {
    if k == 0 then {}
    else if Bit(b, k - 1) then LastBits(n, b, k - 1) + {8 * n + k - 1}
    else LastBits(n, b, k - 1)
  }

  function FirstBits(b: bv8, k: nat): nat
    requires k <= 8
  {
    if k == 0 then 0 else FirstBits(b, k - 1) + One(Bit(b, k - 1))
  }

  lemma {:induction false} LastBitsSize(n: nat, b: bv8, k: nat)
    requires k <= 8
    ensures |LastBits(n, b, k)| == FirstBits(b, k)
    ensures forall x :: x in LastBits(n, b, k) ==> 8 * n <= x < 8 * n + k
    ensures forall q :: 0 <= q < k ==> (8 * n + q in LastBits(n, b, k) <==> Bit(b, q))
  {
    hide Bit;
    if k == 0 {
    } else {
      LastBitsSize(n, b, k - 1);
      var before, x := LastBits(n, b, k - 1), 8 * n + k - 1;
      assert x !in before;
      assert LastBits(n, b, k) == if Bit(b, k - 1) then before + {x} else before;
      forall q | 0 <= q < k ensures 8 * n + q in LastBits(n, b, k) <==> Bit(b, q) {
        assert q < k - 1 ==> 8 * n + q != x;
      }
    }
  }

  lemma {:induction false} EightBits(b: bv8)
    ensures FirstBits(b, 8) == One(Bit(b, 0)) + One(Bit(b, 1)) + One(Bit(b, 2)) + One(Bit(b, 3))
                             + One(Bit(b, 4)) + One(Bit(b, 5)) + One(Bit(b, 6)) + One(Bit(b, 7))
  {
    hide Bit;
    assert FirstBits(b, 2) == FirstBits(b, 0) + One(Bit(b, 0)) + One(Bit(b, 1));
    assert FirstBits(b, 4) == FirstBits(b, 2) + One(Bit(b, 2)) + One(Bit(b, 3));
    assert FirstBits(b, 6) == FirstBits(b, 4) + One(Bit(b, 4)) + One(Bit(b, 5));
    assert FirstBits(b, 8) == FirstBits(b, 6) + One(Bit(b, 6)) + One(Bit(b, 7));
  }

  lemma {:induction false} AllBits(b: bv8)
    ensures FirstBits(b, 8) == BitCount(b)
  {
    hide FirstBits;
    EightBits(b);
  }

  lemma BitSetLast(s: seq<bv8>)
    requires s != []
    ensures var n := |s| - 1;
            BitSet(s) == BitSet(s[..n]) + LastBits(n, s[n], 8) && BitSet(s[..n]) !! LastBits(n, s[n], 8)
  {
    hide Bit;
    var n := |s| - 1;
    var last := LastBits(n, s[n], 8);
    LastBitsSize(n, s[n], 8);
    forall x: nat | x < 8 * |s| ensures x in BitSet(s) <==> x in BitSet(s[..n]) || x in last {
      if x < 8 * n {
        assert x / 8 < n;
      } else {
        DivModUnique(x, n, x - 8 * n, 8);
        assert x == 8 * n + (x - 8 * n);
      }
    }
  }

  // The count is the size of the set.
  lemma {:induction false} CountIsSize(s: seq<bv8>)
    ensures Count(s) == |BitSet(s)|
  {
    hide Bit, BitCount;
    if s == [] {
      assert BitSet(s) == {};
    } else {
      var n := |s| - 1;
      CountIsSize(s[..n]);
      BitSetLast(s);
      LastBitsSize(n, s[n], 8);
      AllBits(s[n]);
    }
  }

  lemma BitSetUpdate(s: seq<bv8>, num: nat, b: bv8, on: bool)
    requires num / 8 < |s|
    requires forall q :: 0 <= q < 8 ==> (Bit(b, q) <==> if q == num % 8 then on else Bit(s[num / 8], q))
    ensures BitSet(s[num / 8 := b]) == if on then BitSet(s) + {num} else BitSet(s) - {num}
  {
    var t := s[num / 8 := b];
    assert num == 8 * (num / 8) + num % 8 && num < 8 * |s|;
    forall n: nat | n < 8 * |s| ensures n in BitSet(t) <==> if n == num then on else n in BitSet(s) {
      assert n == 8 * (n / 8) + n % 8 && n / 8 < |s|;
    }
  }

  lemma BitSetAdd(s: seq<bv8>, num: nat)
    requires num / 8 < |s|
    ensures var t := s[num / 8 := Set(s[num / 8], num % 8)];
            BitSet(t) == BitSet(s) + {num} && |BitSet(t)| == |BitSet(s)| + One(num !in BitSet(s))
  {
    SetBit(s[num / 8], num % 8);
    BitSetUpdate(s, num, Set(s[num / 8], num % 8), true);
    if num in BitSet(s) {
      assert BitSet(s) + {num} == BitSet(s);
    }
  }

  lemma BitSetRemove(s: seq<bv8>, num: nat)
    requires num / 8 < |s|
    ensures var t := s[num / 8 := Cleared(s[num / 8], num % 8)];
            BitSet(t) == BitSet(s) - {num} && |BitSet(t)| == |BitSet(s)| - One(num in BitSet(s))
  {
    ClearBit(s[num / 8], num % 8);
    BitSetUpdate(s, num, Cleared(s[num / 8], num % 8), false);
    if num !in BitSet(s) {
      assert BitSet(s) - {num} == BitSet(s);
    }
  }

  // ---- the bitmap ------------------------------------------------------------------------

  // int32 arithmetic
  function Int32(x: int): int {
    (x + 0x8000_0000) % 0x1_0000_0000 - 0x8000_0000
  }

  lemma Int32Adds(x: int, d: int)
    ensures Int32(Int32(x) + d) == Int32(x + d)
  {
    var y := x + 0x8000_0000;
    ModOfSum(d, y, 0x1_0000_0000);
    assert d + y == x + d + 0x8000_0000;
  }

  ghost function UpTo(s: set<nat>, max: nat): set<nat> {
    set n | n in s && n <= max
  }

  lemma UpToChanges(s: set<nat>, max: nat, num: nat)
    requires num <= max
    ensures UpTo(s + {num}, max) == UpTo(s, max) + {num}
    ensures UpTo(s - {num}, max) == UpTo(s, max) - {num}
    ensures num in UpTo(s, max) <==> num in s
  {
  }

  lemma NotUpTo(s: set<nat>, max: nat, num: nat)
    requires num > max
    ensures num !in UpTo(s, max)
  {
  }

  class BitMap {
    var bites: array<bv8>
    const max: nat
    var curNum: int
    // Adds of a present number less removals of an absent one since the last count.
    ghost var drift: int

    ghost predicate Valid()
      reads this, bites
    {
      curNum == Int32(|BitSet(bites[..])| + drift)
    }

    // The numbers the bitmap answers for.
    ghost function Contents(): set<nat>
      reads this, bites
    {
      UpTo(BitSet(bites[..]), max)
    }

    // What Add, Remove and IsExist rely on: a slice too short for a number they are given
    // makes them panic. A new bitmap has room for all numbers up to its maximum.
    ghost predicate Room(num: nat)
      reads this
    {
      num <= max ==> num / 8 < bites.Length
    }

    constructor (max: nat)
      ensures Valid() && this.max == max && fresh(bites) && bites.Length == max / 8 + 1 && drift == 0
      ensures Contents() == {} && curNum == 0 && forall num :: Room(num)
    {
      this.max := max;
      bites := new bv8[max / 8 + 1](_ => 0);
      curNum, drift := 0, 0;
      new;
      assert forall i :: 0 <= i < bites.Length ==> bites[..][i] == 0;
      assert BitSet(bites[..]) == {};
    }

    method Add(num: nat)
      requires Valid() && Room(num)
      modifies this, bites
      ensures Valid() && bites == old(bites)
      ensures Contents() == if num <= max then old(Contents()) + {num} else old(Contents())
      ensures drift == old(drift) + One(num <= max && num in old(Contents()))
    {
      hide BitSet, Set, Cleared, Int32, UpTo;
      if max < num {
        NotUpTo(BitSet(bites[..]), max, num);
        return;
      }
      UpToChanges(BitSet(bites[..]), max, num);
      var index, pos := num / 8, num % 8;
      ghost var s := bites[..];
      BitSetAdd(s, num);
      bites[index] := Set(bites[index], pos);
      assert bites[..] == s[index := Set(s[index], pos)];
      Int32Adds(|BitSet(s)| + drift, 1);
      drift := drift + One(num in BitSet(s));
      curNum := Int32(curNum + 1);
    }

    method Remove(num: nat)
      requires Valid() && Room(num)
      modifies this, bites
      ensures Valid() && bites == old(bites)
      ensures Contents() == old(Contents()) - {num}
      ensures drift == old(drift) - One(num <= max && num !in old(Contents()))
    {
      hide BitSet, Set, Cleared, Int32, UpTo;
      if max < num {
        NotUpTo(BitSet(bites[..]), max, num);
        return;
      }
      UpToChanges(BitSet(bites[..]), max, num);
      var index, pos := num / 8, num % 8;
      ghost var s := bites[..];
      BitSetRemove(s, num);
      bites[index] := Cleared(bites[index], pos);
      assert bites[..] == s[index := Cleared(s[index], pos)];
      Int32Adds(|BitSet(s)| + drift, -1);
      drift := drift - One(num !in BitSet(s));
      curNum := Int32(curNum - 1);
    }

    method IsExist(num: nat) returns (r: bool)
      requires Room(num)
      ensures r <==> num in Contents()
    {
      if max < num {
        return false;
      }
      assert num < 8 * bites.Length;
      return Bit(bites[num / 8], num % 8);
    }

    // The slice is taken over, not copied, and its bits are counted anew.
    method SetBites(b: array<bv8>)
      modifies this
      ensures Valid() && bites == b && drift == 0
      ensures curNum == Int32(|BitSet(b[..])|)
    {
      bites := b;
      CntNumProcess();
    }

    // The inner loop of CntNumProcess over one byte.
    method CountByte(b: bv8, ghost before: nat)
      requires curNum == Int32(before)
      modifies this`curNum
      ensures curNum == Int32(before + BitCount(b))
    {
      hide Int32, BitCount;
      var tmpVal := b;
      ghost var counted := 0;
      while tmpVal > 0
        invariant counted + BitCount(tmpVal) == BitCount(b)
        invariant curNum == Int32(before + counted)
        decreases tmpVal
      {
        ShiftOut(tmpVal);
        if tmpVal & 1 > 0 {
          Int32Adds(before + counted, 1);
          counted := counted + 1;
          curNum := Int32(curNum + 1);
        }
        tmpVal := tmpVal >> 1;
      }
      ShiftOut(tmpVal);
    }

    method CntNumProcess()
      modifies this`curNum, this`drift
      ensures Valid() && drift == 0
    {
      hide BitSet, BitCount;
      curNum, drift := 0, 0;
      assert bites[..0] == [] && Int32(0) == 0;
      for idx := 0 to bites.Length
        invariant curNum == Int32(Count(bites[..idx]))
        invariant drift == 0
      {
        CountByte(bites[idx], Count(bites[..idx]));
        assert bites[..idx + 1][..idx] == bites[..idx];
      }
      assert bites[..bites.Length] == bites[..];
      CountIsSize(bites[..]);
    }
  }
}
