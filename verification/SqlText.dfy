// Reading the pieces of a generated statement back from its text: names, literals, and lists.
module SqlText {
  import opened Decimals
  import opened Quoting

  // What was read, and the text behind it.
  datatype Reading<T> = Got(value: T, rest: string) | Failed {
    predicate IsFailure() { Failed? }
    function PropagateFailure<U>(): Reading<U> requires Failed? { Failed }
    function Extract(): (T, string) requires Got? { (value, rest) }
  }

  function ReadWord(word: string, s: string): Reading<()> {
    if word <= s then Got((), s[|word|..]) else Failed
  }

  lemma WordReads(word: string, rest: string)
    ensures ReadWord(word, word + rest) == Got((), rest)
  {
  }

  // ---- names -----------------------------------------------------------------------------

  // What ends a column or table name.
  predicate Delimiter(c: char) {
    c == ' ' || c == '=' || c == '+' || c == ',' || c == '(' || c == ')' || c == '\''
  }

  predicate Name(s: string) {
    s != "" && forall i :: 0 <= i < |s| ==> !Delimiter(s[i])
  }

  function NameLength(s: string): (n: nat)
    ensures n <= |s|
  {
    if s == "" || Delimiter(s[0]) then 0 else 1 + NameLength(s[1..])
  }

  function ReadName(s: string): Reading<string> {
    var n := NameLength(s);
    if n == 0 then Failed else Got(s[..n], s[n..])
  }

  lemma {:induction false} NameEnds(name: string, rest: string)
    requires (forall i :: 0 <= i < |name| ==> !Delimiter(name[i])) && (rest == "" || Delimiter(rest[0]))
    ensures NameLength(name + rest) == |name|
  {
    if name == "" {
      assert name + rest == rest;
    } else {
      assert (name + rest)[0] == name[0] && (name + rest)[1..] == name[1..] + rest;
      NameEnds(name[1..], rest);
    }
  }

  lemma NameReads(name: string, rest: string)
    requires Name(name) && (rest == "" || Delimiter(rest[0]))
    ensures ReadName(name + rest) == Got(name, rest)
  {
    NameEnds(name, rest);
  }

  // A name with a plus behind it ends at the plus.
  lemma PlusFollows(name: string, s: string)
    requires Name(name) && name + "+" <= s
    ensures NameLength(s) < |s| && s[NameLength(s)] == '+'
  {
    var rest := s[|name|..];
    assert rest[0] == s[|name|] == (name + "+")[|name|];
    assert s == name + rest;
    NameEnds(name, rest);
  }

  // Whether the column is added to itself.
  function ReadIncrement(column: string, s: string): (bool, string) {
    if column + "+" <= s then (true, s[|column| + 1..]) else (false, s)
  }

  // ---- values ----------------------------------------------------------------------------

  function DigitCount(s: string): (n: nat)
    ensures n <= |s| && forall i :: 0 <= i < n ==> Digit(s[i])
  {
    if s == "" || !Digit(s[0]) then 0 else 1 + DigitCount(s[1..])
  }

  function ReadValue(s: string): Reading<Value> {
    if s != "" && s[0] == '\'' then
      match LexLiteral(s)
      case Lexed(text, rest) => Got(Text(text), rest)
      case NoLiteral => Failed
    else
      var negative := s != "" && s[0] == '-';
      var digits := if negative then s[1..] else s;
      var n := DigitCount(digits);
      if n == 0 then Failed
      else Got(Number(if negative then -(NumberOf(digits[..n]) as int) else NumberOf(digits[..n])), digits[n..])
  }

  lemma {:induction false} DigitsEnd(digits: string, rest: string)
    requires (forall i :: 0 <= i < |digits| ==> Digit(digits[i])) && (rest == "" || !Digit(rest[0]))
    ensures DigitCount(digits + rest) == |digits|
  {
    if digits == "" {
      assert digits + rest == rest;
    } else {
      assert (digits + rest)[0] == digits[0] && (digits + rest)[1..] == digits[1..] + rest;
      DigitsEnd(digits[1..], rest);
    }
  }

  // Where a value may end.
  predicate Ends(rest: string) {
    rest == "" || (rest[0] != '\'' && !Digit(rest[0]))
  }

  lemma NumberReads(n: int, rest: string)
    requires Ends(rest)
    ensures ReadValue(Decimal(n) + rest) == Got(Number(n), rest)
  {
    hide LexLiteral, Digits, NumberOf, DigitCount;
    var digits := Digits(if n < 0 then -n else n);
    DigitsEnd(digits, rest);
    DigitsValue(if n < 0 then -n else n);
    assert (digits + rest)[..|digits|] == digits && (digits + rest)[|digits|..] == rest;
    assert Digit(digits[0]);
    if n < 0 {
      Associate("-", digits, rest);
      assert ("-" + (digits + rest))[1..] == digits + rest;
    }
  }

  // Every value reads back from where it is printed.
  lemma ValueReads(v: Value, rest: string)
    requires Ends(rest)
    ensures ReadValue(ParseStr(v) + rest) == Got(v, rest)
  {
    hide LexLiteral, Decimal;
    match v
    case Text(s) => QuotedLexes(s, rest);
    case Number(n) => NumberReads(n, rest);
  }

  // ---- lists -----------------------------------------------------------------------------

  function ReadList<T>(read: string -> Reading<T>, glue: string, s: string): Reading<seq<T>>
    decreases |s|
  {
    var first :- read(s);
    if glue <= first.1 && glue != "" && |first.1| <= |s| then
      var others :- ReadList(read, glue, first.1[|glue|..]);
      Got([first.0] + others.0, others.1)
    else Got([first.0], first.1)
  }

  function ShowAll<T>(show: T -> string, items: seq<T>): (r: seq<string>)
    ensures |r| == |items| && forall i :: 0 <= i < |r| ==> r[i] == show(items[i])
  {
    seq(|items|, i requires 0 <= i < |items| => show(items[i]))
  }

  // The reader undoes the printer on x before anything that can follow it in the list.
  ghost predicate Undoes<T(!new)>(read: string -> Reading<T>, show: T -> string, glue: string, tail: string, x: T) {
    forall rest :: glue <= rest || rest == tail ==> read(show(x) + rest) == Got(x, rest)
  }

  lemma {:induction false} ListReads<T(!new)>(read: string -> Reading<T>, show: T -> string, glue: string, items: seq<T>,
                                              tail: string)
    requires items != [] && glue != "" && !(glue <= tail)
    requires forall i :: 0 <= i < |items| ==> Undoes(read, show, glue, tail, items[i])
    ensures ReadList(read, glue, Join(ShowAll(show, items), glue) + tail) == Got(items, tail)
  {
    var parts := ShowAll(show, items);
    var x := items[0];
    if |items| == 1 {
      assert read(show(x) + tail) == Got(x, tail);
      assert [x] == items;
    } else {
      assert parts[1..] == ShowAll(show, items[1..]);
      var others := Join(parts[1..], glue) + tail;
      var rest := glue + others;
      assert Join(parts, glue) + tail == show(x) + rest;
      assert read(show(x) + rest) == Got(x, rest);
      assert rest[|glue|..] == others;
      ListReads(read, show, glue, items[1..], tail);
      assert [x] + items[1..] == items;
    }
  }

  lemma JoinNothing(glue: string)
    ensures Join([], glue) == ""
  {
  }

  // Joining one part more.
  lemma {:induction false} JoinMore(parts: seq<string>, last: string, glue: string)
    ensures Join(parts + [last], glue) == if parts == [] then last else Join(parts, glue) + glue + last
  {
    var all := parts + [last];
    if |parts| > 0 {
      assert all[0] == parts[0] && all[1..] == parts[1..] + [last];
      JoinMore(parts[1..], last, glue);
    } else {
      assert all == [last];
    }
  }
}
