// Service ids and registry keys of service/etcddesc.go: printing, splitting and parsing.
module ServiceIds {
  import opened Decimals

  const INT32_MIN := -0x8000_0000
  const INT32_MAX := 0x7fff_ffff

  predicate Int32(n: int) {
    INT32_MIN <= n <= INT32_MAX
  }

  // ---- splitting and parsing ---------------------------------------------------------------

  // strings.Split at a one character separator
  function Split(s: string, sep: char): (r: seq<string>)
    ensures |r| >= 1
  {
    if s == "" then [""]
    else if s[0] == sep then [""] + Split(s[1..], sep)
    else
      var rest := Split(s[1..], sep);
      [[s[0]] + rest[0]] + rest[1..]
  }

  datatype Parsed = Good(n: int) | Bad

  // strconv.ParseInt(s, 10, 32)
  function Str2Num(s: string): Parsed {
    var signed := s != "" && (s[0] == '-' || s[0] == '+');
    var digits := if signed then s[1..] else s;
    if !AllDigits(digits) then Bad
    else
      var v: int := NumberOf(digits);
      var n := if signed && s[0] == '-' then -v else v;
      if Int32(n) then Good(n) else Bad
  }

  // The results ParseServiceID names; what was not parsed yet stays 0.
  datatype Service = Service(serverType: int, zone: int, index: int, failed: bool)

  function ParseServiceID(sid: string): Service {
    var str := Split(sid, '#');
    if |str| < 2 then Service(0, 0, 0, true)
    else
      var prop := Split(str[1], '@');
      if |prop| < 3 then Service(0, 0, 0, true)
      else
        var zone, serverType, index := Str2Num(prop[0]), Str2Num(prop[1]), Str2Num(prop[2]);
        if zone.Bad? then Service(0, 0, 0, true)
        else if serverType.Bad? then Service(0, zone.n, 0, true)
        else if index.Bad? then Service(serverType.n, zone.n, 0, true)
        else Service(serverType.n, zone.n, index.n, false)
  }

  function GenServiceID(name: string, zone: int, serverType: int, index: int): string {
    name + "#" + Decimal(zone) + "@" + Decimal(serverType) + "@" + Decimal(index)
  }

  function GenServicePrefix(name: string): string {
    "server/" + name
  }

  function GenDiscoveryServicePrefix(name: string, zone: int): string {
    if zone > 0 then "server/" + name + "#" + Decimal(zone) else "server/" + name + "#"
  }

  function GenService(key: string): string {
    var list := Split(key, '/');
    if |list| >= 2 then list[1] else ""
  }

  // ---- lemmas on the pieces ------------------------------------------------------------------

  lemma {:induction false} SplitAt(a: string, b: string, sep: char)
    requires sep !in a
    ensures Split(a + [sep] + b, sep) == [a] + Split(b, sep)
  {
    var s := a + [sep] + b;
    if a == "" {
      assert s[0] == sep && s[1..] == b;
    } else {
      SplitAt(a[1..], b, sep);
      assert s[1..] == a[1..] + [sep] + b && s[0] == a[0];
      assert [a[0]] + a[1..] == a;
    }
  }

  lemma {:induction false} SplitNone(a: string, sep: char)
    requires sep !in a
    ensures Split(a, sep) == [a]
  {
    if a == "" {
    } else {
      SplitNone(a[1..], sep);
      assert [a[0]] + a[1..] == a;
    }
  }

  // The first piece is the whole string only if the separator is absent.
  lemma {:induction false} SplitFirst(a: string, sep: char)
    ensures Split(a, sep)[0] == a <==> sep !in a
    ensures |Split(a, sep)[0]| <= |a|
  {
    if a == "" {
    } else {
      SplitFirst(a[1..], sep);
      if a[0] != sep {
        var first := Split(a[1..], sep)[0];
        assert Split(a, sep)[0] == [a[0]] + first;
        assert a == [a[0]] + a[1..];
        assert Split(a, sep)[0][1..] == first;
      }
    }
  }

  lemma DecimalParses(n: int)
    ensures Str2Num(Decimal(n)) == if Int32(n) then Good(n) else Bad
  {
    DigitsValue(if n < 0 then -n else n);
    var s := Decimal(n);
    if n < 0 {
      assert s[1..] == Digits(-n);
    }
  }

  lemma DecimalPlain(n: int)
    ensures forall c :: c in Decimal(n) ==> c == '-' || '0' <= c <= '9'
  {
    DigitsValue(if n < 0 then -n else n);
  }

  // ---- ids ---------------------------------------------------------------------------------

  function Numbers(z: string, t: string, i: string): string {
    z + ['@'] + (t + ['@'] + i)
  }

  predicate Plain(s: string) {
    '#' !in s && '@' !in s && '/' !in s
  }

  lemma PlainDecimal(n: int)
    ensures Plain(Decimal(n))
  {
    DecimalPlain(n);
  }

  lemma NumbersSplit(z: string, t: string, i: string)
    requires Plain(z) && Plain(t) && Plain(i)
    ensures Split(Numbers(z, t, i), '@') == [z, t, i]
    ensures '#' !in Numbers(z, t, i) && '/' !in Numbers(z, t, i)
  {
    SplitAt(z, t + ['@'] + i, '@');
    SplitAt(t, i, '@');
    SplitNone(i, '@');
    assert [z] + ([t] + [i]) == [z, t, i];
  }

  lemma IDParts(name: string, zone: int, serverType: int, index: int)
    ensures GenServiceID(name, zone, serverType, index)
         == name + ['#'] + Numbers(Decimal(zone), Decimal(serverType), Decimal(index))
  {
  }

  // For a name without '#', the id reads back as printed if and only if all three numbers
  // fit 32 bits.
  lemma ServiceIDReadsBack(name: string, zone: int, serverType: int, index: int)
    requires '#' !in name
    ensures ParseServiceID(GenServiceID(name, zone, serverType, index)) == Service(serverType, zone, index, false)
       <==> Int32(zone) && Int32(serverType) && Int32(index)
  {
    hide Split, Str2Num, Decimal, GenServiceID, Numbers;
    var z, t, i := Decimal(zone), Decimal(serverType), Decimal(index);
    PlainDecimal(zone);
    PlainDecimal(serverType);
    PlainDecimal(index);
    NumbersSplit(z, t, i);
    IDParts(name, zone, serverType, index);
    SplitAt(name, Numbers(z, t, i), '#');
    SplitNone(Numbers(z, t, i), '#');
    DecimalParses(zone);
    DecimalParses(serverType);
    DecimalParses(index);
  }

  // ---- every text ----------------------------------------------------------------------------

  // A sign or none, then digits that make a number within 32 bits; nothing else parses.
  lemma NumberParsesExactly(s: string, n: int)
    ensures Str2Num(s) == Good(n)
       <==> Int32(n) && exists sign, digits :: IsNumber(s, sign, digits, n)
  {
    if Str2Num(s) == Good(n) {
      if s[0] == '-' || s[0] == '+' {
        assert s == [s[0]] + s[1..];
        assert IsNumber(s, [s[0]], s[1..], n);
      } else {
        assert s == "" + s;
        assert IsNumber(s, "", s, n);
      }
    }
    if Int32(n) {
      forall sign, digits | IsNumber(s, sign, digits, n) ensures Str2Num(s) == Good(n) {
        SignedParses(s, sign, digits, n);
      }
    }
  }

  predicate IsNumber(s: string, sign: string, digits: string, n: int) {
    && (sign == "" || sign == "+" || sign == "-") && s == sign + digits && AllDigits(digits)
    && n == if sign == "-" then -(NumberOf(digits) as int) else NumberOf(digits)
  }

  lemma SignedParses(s: string, sign: string, digits: string, n: int)
    requires IsNumber(s, sign, digits, n) && Int32(n)
    ensures Str2Num(s) == Good(n)
  {
    assert Digit(digits[0]);
    if sign == "" {
      assert s == digits;
    } else {
      assert s[0] == sign[0] && s[1..] == digits;
    }
  }

  lemma Behind(c: char, first: string, tail: string)
    ensures [c] + (first + tail) == ([c] + first) + tail
  {
  }

  // A text is its first piece, and behind the separator the text of the others.
  lemma {:induction false} SplitCons(s: string, sep: char) returns (tail: string)
    ensures var r := Split(s, sep);
            && sep !in r[0] && s == r[0] + tail && (|r| == 1 <==> tail == "")
            && (tail != "" ==> tail[0] == sep && Split(tail[1..], sep) == r[1..])
  {
    if s == "" || s[0] == sep {
      tail := s;
    } else {
      tail := SplitCons(s[1..], sep);
      Behind(s[0], Split(s[1..], sep)[0], tail);
      assert s == [s[0]] + s[1..];
    }
  }

  lemma {:induction false} SplitHead(a: string, b: string, sep: char)
    requires sep !in a && (b == "" || b[0] == sep)
    ensures Split(a + b, sep)[0] == a && |Split(a + b, sep)| >= if b == "" then 1 else 2
  {
    if b == "" {
      assert a + b == a;
      SplitNone(a, sep);
    } else {
      assert a + b == a + [sep] + b[1..];
      SplitAt(a, b[1..], sep);
    }
  }

  // The text up to the second '#' is name#body.
  predicate Framed(sid: string, name: string, body: string, rest: string) {
    '#' !in name && '#' !in body && (rest == "" || rest[0] == '#') && sid == name + ['#'] + (body + rest)
  }

  lemma FramedSplits(sid: string, name: string, body: string, rest: string)
    requires Framed(sid, name, body, rest)
    ensures |Split(sid, '#')| >= 2 && Split(sid, '#')[1] == body
  {
    SplitAt(name, body + rest, '#');
    SplitHead(body, rest, '#');
  }

  // Three pieces of the body, and what may follow the third.
  predicate Pieces(body: string, z: string, t: string, i: string, more: string) {
    '@' !in z && '@' !in t && '@' !in i && (more == "" || more[0] == '@') && body == z + ['@'] + (t + ['@'] + (i + more))
  }

  lemma PiecesSplit(body: string, z: string, t: string, i: string, more: string)
    requires Pieces(body, z, t, i, more)
    ensures var r := Split(body, '@'); |r| >= 3 && r[0] == z && r[1] == t && r[2] == i
  {
    hide Split;
    SplitAt(z, t + ['@'] + (i + more), '@');
    SplitAt(t, i + more, '@');
    SplitHead(i, more, '@');
  }

  function OutOfNumbers(zone: Parsed, serverType: Parsed, index: Parsed): Service {
    if zone.Bad? then Service(0, 0, 0, true)
    else if serverType.Bad? then Service(0, zone.n, 0, true)
    else if index.Bad? then Service(serverType.n, zone.n, 0, true)
    else Service(serverType.n, zone.n, index.n, false)
  }

  // Zone, type and index stand behind the first '#' with '@' between them, and whatever
  // follows another '@' or '#' is ignored. The numbers before the first bad one are returned.
  lemma ParseReads(sid: string, name: string, body: string, rest: string, z: string, t: string, i: string, more: string)
    requires Framed(sid, name, body, rest) && Pieces(body, z, t, i, more)
    ensures ParseServiceID(sid) == OutOfNumbers(Str2Num(z), Str2Num(t), Str2Num(i))
  {
    hide Split, Str2Num;
    FramedSplits(sid, name, body, rest);
    PiecesSplit(body, z, t, i, more);
  }

  // Every other text is an error without any number: a text without '#', and one with fewer
  // than two '@' behind it.
  lemma ParseRejects(sid: string)
    requires forall name, body, rest, z, t, i, more :: Framed(sid, name, body, rest) ==> !Pieces(body, z, t, i, more)
    ensures ParseServiceID(sid) == Service(0, 0, 0, true)
  {
    hide Split, Str2Num;
    var r := Split(sid, '#');
    if |r| >= 2 {
      var name, body, rest := TextFramed(sid);
      if |Split(body, '@')| >= 3 {
        var z, t, i, more := BodyPieces(body);
      }
    }
  }

  lemma TextFramed(sid: string) returns (name: string, body: string, rest: string)
    requires |Split(sid, '#')| >= 2
    ensures Framed(sid, name, body, rest) && body == Split(sid, '#')[1]
  {
    hide Split;
    var tail := SplitCons(sid, '#');
    name := Split(sid, '#')[0];
    rest := SplitCons(tail[1..], '#');
    body := Split(tail[1..], '#')[0];
    assert tail == ['#'] + tail[1..];
  }

  lemma BodyPieces(body: string) returns (z: string, t: string, i: string, more: string)
    requires |Split(body, '@')| >= 3
    ensures Pieces(body, z, t, i, more)
  {
    hide Split;
    var r := Split(body, '@');
    var tail := SplitCons(body, '@');
    z := r[0];
    var later := SplitCons(tail[1..], '@');
    t := Split(tail[1..], '@')[0];
    more := SplitCons(later[1..], '@');
    i := Split(later[1..], '@')[0];
    assert tail == ['@'] + tail[1..] && later == ['@'] + later[1..];
  }

  // A key that names no service gives none.
  lemma NoService(key: string)
    requires '/' !in key
    ensures GenService(key) == ""
  {
    SplitNone(key, '/');
  }

  // The texts as they stand in the registry.
  lemma KeyTexts()
    ensures GenServicePrefix(GenServiceID("gate", 1, 2, 3)) == "server/gate#1@2@3"
    ensures GenDiscoveryServicePrefix("gate", 1) == "server/gate#1" && GenDiscoveryServicePrefix("gate", 0) == "server/gate#"
  {
    assert Decimal(1) == "1" && Decimal(2) == "2" && Decimal(3) == "3";
  }

  lemma SecondPiece(head: string, tail: string)
    requires '/' !in head
    ensures |Split(head + ['/'] + tail, '/')| >= 2
    ensures Split(head + ['/'] + tail, '/')[1] == tail <==> '/' !in tail
  {
    SplitAt(head, tail, '/');
    SplitFirst(tail, '/');
  }

  lemma SlashInID(name: string, zone: int, serverType: int, index: int)
    ensures '/' in GenServiceID(name, zone, serverType, index) <==> '/' in name
  {
    hide Numbers, Decimal, GenServiceID;
    IDParts(name, zone, serverType, index);
    PlainDecimal(zone);
    PlainDecimal(serverType);
    PlainDecimal(index);
    NumbersSplit(Decimal(zone), Decimal(serverType), Decimal(index));
  }

  // The registered key gives its id back if and only if the name has no '/'.
  lemma KeyGivesID(name: string, zone: int, serverType: int, index: int)
    ensures var sid := GenServiceID(name, zone, serverType, index);
            GenService(GenServicePrefix(sid)) == sid <==> '/' !in name
  {
    hide GenServiceID, Split;
    var sid := GenServiceID(name, zone, serverType, index);
    SlashInID(name, zone, serverType, index);
    assert GenServicePrefix(sid) == "server" + ['/'] + sid;
    SplitAt("server", sid, '/');
    SecondPiece("server", sid);
  }

  // ---- discovery ---------------------------------------------------------------------------

  // Before the separator the strings must agree.
  lemma {:induction false} PrefixCut(a: string, x: string, b: string, y: string, sep: char)
    requires sep !in a && sep !in b
    ensures a + [sep] + x <= b + [sep] + y <==> a == b && x <= y
  {
    var s, t := a + [sep] + x, b + [sep] + y;
    if s <= t {
      assert forall i :: 0 <= i < |s| ==> s[i] == t[i];
      assert forall i :: 0 <= i < |b| ==> t[i] == b[i];
      assert t[|a|] == sep;
      assert |b| <= |a|;
      assert forall i :: 0 <= i < |a| ==> s[i] == a[i];
      assert s[|b|] == sep;
      assert |a| <= |b|;
      assert a == s[..|a|] && b == t[..|b|];
      assert x == s[|a| + 1..] && y == t[|b| + 1..];
    }
    if a == b && x <= y {
      assert t == a + [sep] + x + y[|x|..];
    }
  }

  lemma {:induction false} PrefixStops(x: string, y: string, tail: string)
    requires '@' !in x && (tail == "" || tail[0] == '@')
    ensures x <= y + tail <==> x <= y
  {
    if x <= y + tail {
      assert forall i :: 0 <= i < |x| ==> x[i] == (y + tail)[i];
      assert tail != "" ==> (y + tail)[|y|] == '@';
      assert |x| <= |y|;
    }
  }

  lemma {:induction false} FoundIn(path: string, name: string, z: string, other: string, y: string, tail: string)
    requires '#' !in path && '#' !in name && '#' !in other && '@' !in z && tail != "" && tail[0] == '@'
    ensures path + name + ['#'] + z <= path + other + ['#'] + (y + tail) <==> name == other && z <= y
  {
    PrefixCut(path + name, z, path + other, y + tail, '#');
    assert (path + name)[|path|..] == name && (path + other)[|path|..] == other;
    PrefixStops(z, y, tail);
  }

  // A discovery prefix finds a registered service exactly when the names agree and, for a
  // zone above 0, the decimal of the service's zone begins with the decimal of that zone.
  lemma DiscoveryFinds(name: string, zone: int, other: string, otherZone: int, serverType: int, index: int)
    requires '#' !in name && '#' !in other
    ensures GenDiscoveryServicePrefix(name, zone) <= GenServicePrefix(GenServiceID(other, otherZone, serverType, index))
       <==> name == other && (zone > 0 ==> Decimal(zone) <= Decimal(otherZone))
  {
    hide Decimal, GenDiscoveryServicePrefix, GenServicePrefix, GenServiceID;
    var z := if zone > 0 then Decimal(zone) else "";
    KeyShapes(name, zone, other, otherZone, serverType, index);
    PlainDecimal(zone);
    FoundIn("server/", name, z, other, Decimal(otherZone), Tail(serverType, index));
  }

  function Tail(serverType: int, index: int): string {
    "@" + Decimal(serverType) + "@" + Decimal(index)
  }

  lemma KeyShapes(name: string, zone: int, other: string, otherZone: int, serverType: int, index: int)
    ensures GenDiscoveryServicePrefix(name, zone) == "server/" + name + ['#'] + (if zone > 0 then Decimal(zone) else "")
    ensures GenServicePrefix(GenServiceID(other, otherZone, serverType, index))
         == "server/" + other + ['#'] + (Decimal(otherZone) + Tail(serverType, index))
    ensures Tail(serverType, index)[0] == '@'
  {
    hide Decimal;
  }
}
