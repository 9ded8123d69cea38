// Printing values for MySQL: utils_ParseStr and utils_Implode of socket/mysql/sqler.go,
// against the string literals of section 9.1.1 of the MySQL 5.7 Reference Manual.
module Quoting {
  import opened Decimals

  datatype Value = Number(n: int) | Text(s: string)

  // ---- strings -------------------------------------------------------------------------

  // strings.Replace of every occurrence of one character
  function ReplaceAll(s: string, c: char, subst: string): string {
    if s == "" then "" else (if s[0] == c then subst else [s[0]]) + ReplaceAll(s[1..], c, subst)
  }

  function Quoted(s: string): string {
    "'" + ReplaceAll(ReplaceAll(s, '\\', "\\\\"), '\'', "\\'") + "'"
  }

  function ParseStr(v: Value): (s: string)
    ensures s != ""
  {
    match v
    case Number(n) => Decimal(n)
    case Text(s) => Quoted(s)
  }

  function Escaped(c: char): string {
    if c == '\\' then "\\\\" else if c == '\'' then "\\'" else [c]
  }

  function EscapedAll(s: string): string {
    if s == "" then "" else Escaped(s[0]) + EscapedAll(s[1..])
  }

  lemma {:induction false} ReplaceAppend(a: string, b: string, c: char, subst: string)
    ensures ReplaceAll(a + b, c, subst) == ReplaceAll(a, c, subst) + ReplaceAll(b, c, subst)
  {
    if a == "" {
      assert a + b == b;
    } else {
      assert (a + b)[1..] == a[1..] + b;
      ReplaceAppend(a[1..], b, c, subst);
    }
  }

  // The two chained replacements act on each character by itself.
  lemma {:induction false} ChainIsEscape(s: string)
    ensures ReplaceAll(ReplaceAll(s, '\\', "\\\\"), '\'', "\\'") == EscapedAll(s)
  {
    if s == "" {
    } else {
      ChainIsEscape(s[1..]);
      var head := if s[0] == '\\' then "\\\\" else [s[0]];
      ReplaceAppend(head, ReplaceAll(s[1..], '\\', "\\\\"), '\'', "\\'");
      assert ReplaceAll(head, '\'', "\\'") == Escaped(s[0]) by {
        assert head[1..] == if s[0] == '\\' then "\\" else "";
        assert "\\"[1..] == "";
      }
    }
  }

  // ---- reading a literal back ------------------------------------------------------------

  datatype Lexed = Lexed(text: string, rest: string) | NoLiteral {
    function Push(s: string): Lexed {
      if NoLiteral? then NoLiteral else Lexed(s + text, rest)
    }
  }

  function Unescape(c: char): string {
    match c
    case '0' => ['\U{0000}']
    case 'b' => ['\U{0008}']
    case 'n' => "\n"
    case 'r' => "\r"
    case 't' => "\t"
    case 'Z' => ['\U{001A}']
    case '%' => "\\%"
    case '_' => "\\_"
    case _ => [c]
  }

  // Behind the opening quote, with backslash escapes on.
  function LexBody(s: string): Lexed {
    if s == "" then NoLiteral
    else if s[0] == '\\' then if |s| < 2 then NoLiteral else LexBody(s[2..]).Push(Unescape(s[1]))
    else if s[0] == '\'' then
      if |s| >= 2 && s[1] == '\'' then LexBody(s[2..]).Push("'") else Lexed("", s[1..])
    else LexBody(s[1..]).Push([s[0]])
  }

  function LexLiteral(s: string): Lexed {
    if s != "" && s[0] == '\'' then LexBody(s[1..]) else NoLiteral
  }

  lemma EscapedFirst(c: char, tail: string)
    ensures LexBody(Escaped(c) + tail) == LexBody(tail).Push([c])
  {
    var t := Escaped(c) + tail;
    if c == '\\' || c == '\'' {
      assert t[0] == '\\' && t[1] == c && t[2..] == tail;
      assert Unescape(c) == [c];
    } else {
      assert t[0] == c && t[1..] == tail;
    }
  }

  lemma ClosingQuote(rest: string)
    requires rest == "" || rest[0] != '\''
    ensures LexBody("'" + rest) == Lexed("", rest)
  {
    var t := "'" + rest;
    assert t[0] == '\'' && t[1..] == rest;
  }

  lemma Associate(a: string, b: string, c: string)
    ensures a + b + c == a + (b + c)
  {
  }

  lemma {:induction false} EscapedLexes(s: string, rest: string)
    requires rest == "" || rest[0] != '\''
    ensures LexBody(EscapedAll(s) + ("'" + rest)) == Lexed(s, rest)
  {
    hide LexBody, Escaped;
    if s == "" {
      assert "" + ("'" + rest) == "'" + rest;
      ClosingQuote(rest);
    } else {
      EscapedLexes(s[1..], rest);
      Associate(Escaped(s[0]), EscapedAll(s[1..]), "'" + rest);
      EscapedFirst(s[0], EscapedAll(s[1..]) + ("'" + rest));
      assert [s[0]] + s[1..] == s;
    }
  }

  // ---- what is escaped, and how -----------------------------------------------------------

  // Each backslash gone, and the character behind it taken as it is.
  function Stripped(s: string): string {
    if s == "" then ""
    else if s[0] == '\\' && |s| > 1 then [s[1]] + Stripped(s[2..])
    else [s[0]] + Stripped(s[1..])
  }

  function Specials(s: string): nat {
    if s == "" then 0 else (if s[0] == '\\' || s[0] == '\'' then 1 else 0) + Specials(s[1..])
  }

  // Exactly the quotes and backslashes get a backslash in front, and nothing else changes.
  lemma {:induction false} EscapedOnce(s: string)
    ensures Stripped(EscapedAll(s)) == s && |EscapedAll(s)| == |s| + Specials(s)
  {
    if s == "" {
    } else {
      EscapedOnce(s[1..]);
      var t, rest := EscapedAll(s), EscapedAll(s[1..]);
      if s[0] == '\\' || s[0] == '\'' {
        assert t[0] == '\\' && t[1] == s[0] && t[2..] == rest;
      } else {
        assert t[0] == s[0] && t[1..] == rest;
      }
      assert [s[0]] + s[1..] == s;
    }
  }

  lemma QuotedShape(s: string)
    ensures var q := Quoted(s);
            && |q| == |s| + Specials(s) + 2 && q[0] == '\'' && q[|q| - 1] == '\''
            && Stripped(q[1..|q| - 1]) == s
  {
    hide ReplaceAll, EscapedAll, Stripped;
    ChainIsEscape(s);
    EscapedOnce(s);
    var q := Quoted(s);
    assert q[1..|q| - 1] == EscapedAll(s);
  }

  // Every string survives printing and reading.
  lemma QuotedLexes(s: string, rest: string)
    requires rest == "" || rest[0] != '\''
    ensures LexLiteral(Quoted(s) + rest) == Lexed(s, rest)
  {
    hide LexBody, EscapedAll, ReplaceAll;
    ChainIsEscape(s);
    EscapedLexes(s, rest);
    Associate(EscapedAll(s), "'", rest);
    assert (Quoted(s) + rest)[1..] == EscapedAll(s) + "'" + rest;
  }

  // ---- lists -----------------------------------------------------------------------------

  function Join(parts: seq<string>, glue: string): string {
    if parts == [] then "" else if |parts| == 1 then parts[0] else parts[0] + glue + Join(parts[1..], glue)
  }

  function Printed(items: seq<Value>): (r: seq<string>)
    ensures |r| == |items| && forall i :: 0 <= i < |r| ==> r[i] == ParseStr(items[i])
  {
    seq(|items|, i requires 0 <= i < |items| => ParseStr(items[i]))
  }

  method Implode(items: seq<Value>, glue: string) returns (r: string)
    ensures r == Join(Printed(items), glue)
  {
    var tmp := [];
    for i := 0 to |items|
      invariant tmp == Printed(items)[..i]
    {
      tmp := tmp + [ParseStr(items[i])];
    }
    assert Printed(items)[..|items|] == Printed(items);
    return Join(tmp, glue);
  }

  datatype LexedList = Strings(items: seq<string>) | NoList

  // Literals with commas between them, to the end of the text.
  function LexList(s: string): LexedList
    decreases |s|
  {
    match LexLiteral(s)
    case NoLiteral => NoList
    case Lexed(text, rest) =>
      if rest == "" then Strings([text])
      else if rest[0] != ',' || |rest| >= |s| then NoList
      else match LexList(rest[1..])
        case NoList => NoList
        case Strings(items) => Strings([text] + items)
  }

  function Texts(list: seq<string>): seq<Value> {
    seq(|list|, i requires 0 <= i < |list| => Text(list[i]))
  }

  // A printed list of strings reads back as that list.
  lemma {:induction false} ListLexes(list: seq<string>)
    requires list != []
    ensures LexList(Join(Printed(Texts(list)), ",")) == Strings(list)
  {
    hide LexLiteral, Quoted;
    var parts := Printed(Texts(list));
    assert parts[0] == Quoted(list[0]);
    if |list| == 1 {
      QuotedLexes(list[0], "");
      assert parts[0] + "" == parts[0];
    } else {
      var rest := list[1..];
      assert parts[1..] == Printed(Texts(rest));
      var tail := Join(parts[1..], ",");
      QuotedLexes(list[0], "," + tail);
      assert Join(parts, ",") == Quoted(list[0]) + ("," + tail);
      assert ("," + tail)[1..] == tail;
      ListLexes(rest);
      assert [list[0]] + rest == list;
    }
  }
}
