// UpdateBatch of socket/mysql/sqler.go: a list of row updates compiled into one statement
// with a CASE expression per column (section 12.5 of the MySQL 5.7 Reference Manual).
module BatchUpdate {
  import opened Quoting

  type Column = string

  // One update: the columns of a row with their values, keys included.
  type Item = map<Column, Value>

  // ---- the generated statement -----------------------------------------------------------

  datatype Condition = Condition(column: Column, value: Value)

  datatype When = When(conditions: seq<Condition>, result: Value)

  datatype Assignment = Assignment(column: Column, increment: bool, whens: seq<When>)

  datatype Statement = Statement(table: string, sets: seq<Assignment>, key: Column, ids: seq<Value>)

  // A missing entry of a Go map prints as nil does.
  const NIL := Text("<nil>")

  function Lookup(item: Item, column: Column): (v: Value)
    ensures column !in item ==> v == Text("<nil>")
  {
    if column in item then item[column] else NIL
  }

  function KeyConditions(item: Item, keys: seq<Column>): (r: seq<Condition>)
    ensures |r| == |keys| && forall i :: 0 <= i < |r| ==> r[i] == Condition(keys[i], Lookup(item, keys[i]))
  {
    seq(|keys|, i requires 0 <= i < |keys| => Condition(keys[i], Lookup(item, keys[i])))
  }

  // The branches of a column, in the order of the data.
  function Whens(data: seq<Item>, keys: seq<Column>, column: Column): seq<When> {
    if data == [] then []
    else
      var before := Whens(data[..|data| - 1], keys, column);
      var item := data[|data| - 1];
      if column in item then before + [When(KeyConditions(item, keys), item[column])] else before
  }

  // The columns some item assigns.
  function Assigned(data: seq<Item>, keys: seq<Column>): set<Column> {
    set item, c | item in data && c in item && c !in keys :: c
  }

  function Sets(data: seq<Item>, keys: seq<Column>, inc: seq<Column>, order: seq<Column>): (r: seq<Assignment>)
    ensures |r| == |order|
    ensures forall i :: 0 <= i < |r| ==> r[i] == Assignment(order[i], order[i] in inc, Whens(data, keys, order[i]))
  {
    seq(|order|, i requires 0 <= i < |order| => Assignment(order[i], order[i] in inc, Whens(data, keys, order[i])))
  }

  function Compiled(table: string, data: seq<Item>, keys: seq<Column>, inc: seq<Column>, order: seq<Column>): Statement
    requires keys != []
  {
    Statement(table,
              Sets(data, keys, inc, order),
              keys[0],
              seq(|data|, i requires 0 <= i < |data| => Lookup(data[i], keys[0])))
  }

  // Some order in which a Go map may hand out its keys.
  predicate Lists(order: seq<Column>, columns: set<Column>) {
    (set c | c in order) == columns && forall i, j :: 0 <= i < j < |order| ==> order[i] != order[j]
  }

  // ---- its text --------------------------------------------------------------------------

  function PrintCondition(c: Condition): (s: string)
    ensures s != ""
  {
    c.column + "=" + ParseStr(c.value)
  }

  function PrintConditions(cs: seq<Condition>): string {
    if cs == [] then ""
    else
      var before := PrintConditions(cs[..|cs| - 1]);
      And(before) + PrintCondition(cs[|cs| - 1])
  }

  function And(before: string): string {
    if |before| != 0 then before + " and " else before
  }

  function PrintWhen(w: When): string {
    "when " + PrintConditions(w.conditions) + " then " + ParseStr(w.result) + " "
  }

  function PrintWhens(ws: seq<When>): string {
    if ws == [] then "case " else PrintWhens(ws[..|ws| - 1]) + PrintWhen(ws[|ws| - 1])
  }

  function PrintAssignment(a: Assignment): (s: string)
    ensures s != ""
  {
    a.column + "=" + (if a.increment then a.column + "+" else "") + PrintWhens(a.whens) + "end"
  }

  function PrintSets(sets: seq<Assignment>): string {
    if sets == [] then ""
    else
      var before := PrintSets(sets[..|sets| - 1]);
      Comma(before, ", ") + PrintAssignment(sets[|sets| - 1])
  }

  function PrintIds(ids: seq<Value>): string {
    if ids == [] then ""
    else
      var before := PrintIds(ids[..|ids| - 1]);
      Comma(before, ",") + ParseStr(ids[|ids| - 1])
  }

  function Comma(before: string, comma: string): string {
    if |before| == 0 then before else before + comma
  }

  function Print(s: Statement): string {
    "update " + s.table + " set " + PrintSets(s.sets) + " where " + s.key + " in (" + PrintIds(s.ids) + ")"
  }

  // ---- the builder -------------------------------------------------------------------------

  lemma ConditionsNext(cs: seq<Condition>, i: nat)
    requires i < |cs|
    ensures PrintConditions(cs[..i + 1]) == And(PrintConditions(cs[..i])) + PrintCondition(cs[i])
  {
    assert cs[..i + 1][..i] == cs[..i];
  }

  method ConditionText(item: Item, keys: seq<Column>) returns (ifstr: string)
    ensures ifstr == PrintConditions(KeyConditions(item, keys))
  {
    hide PrintConditions;
    ifstr := "";
    ghost var cs := KeyConditions(item, keys);
    NoConditions();
    assert cs[..0] == [];
    for i := 0 to |keys|
      invariant ifstr == PrintConditions(cs[..i])
    {
      ConditionsNext(cs, i);
      if |ifstr| != 0 {
        ifstr := ifstr + " and ";
      }
      ifstr := ifstr + (keys[i] + "=" + ParseStr(Lookup(item, keys[i])));
    }
    assert cs[..|keys|] == cs;
  }

  lemma NoConditions()
    ensures PrintConditions([]) == ""
  {
  }

  // What `cases` holds after the given items.
  ghost predicate Cased(cases: map<Column, string>, data: seq<Item>, keys: seq<Column>) {
    && cases.Keys == Assigned(data, keys)
    && forall c :: c in cases ==> cases[c] == PrintWhens(Whens(data, keys, c))
  }

  lemma OneMoreWhen(data: seq<Item>, item: Item, keys: seq<Column>, k: Column)
    ensures var ws := Whens(data, keys, k);
            Whens(data + [item], keys, k)
            == if k in item then ws + [When(KeyConditions(item, keys), item[k])] else ws
    ensures PrintWhens(Whens(data + [item], keys, k))
         == PrintWhens(Whens(data, keys, k)) + if k in item then PrintWhen(When(KeyConditions(item, keys), item[k])) else ""
  {
    assert (data + [item])[..|data|] == data;
  }

  lemma {:induction false} NoWhens(data: seq<Item>, keys: seq<Column>, k: Column)
    requires k !in keys && k !in Assigned(data, keys)
    ensures Whens(data, keys, k) == []
  {
    if data == [] {
    } else {
      var init := data[..|data| - 1];
      assert Assigned(init, keys) <= Assigned(data, keys);
      assert data[|data| - 1] in data;
      NoWhens(init, keys, k);
    }
  }

  // The inner loop over one item, in whatever order its map hands out the columns.
  method AddCases(cases: map<Column, string>, ghost data: seq<Item>, item: Item, keys: seq<Column>)
    returns (r: map<Column, string>)
    requires Cased(cases, data, keys)
    ensures Cased(r, data + [item], keys)
  {
    hide PrintWhens, PrintWhen, Whens, Assigned, KeyConditions;
    r := cases;
    var left := item.Keys;
    ghost var done := {};
    while left != {}
      invariant left <= item.Keys && done <= item.Keys - left
      invariant forall c :: c in item ==> (c in left || c in keys || c in done) && (c in done ==> c !in keys)
      invariant forall c :: c in r <==> c in cases || c in done
      invariant forall c :: c in done ==> r[c] == PrintWhens(Whens(data + [item], keys, c))
      invariant forall c :: c in cases && c !in done ==> r[c] == cases[c]
      decreases |left|
    {
      var k :| k in left;
      left := left - {k};
      if k !in keys {
        var ifstr := ConditionText(item, keys);
        var before := if k in r then r[k] else "case ";
        FirstOrNext(cases, data, item, keys, k);
        done := done + {k};
        r := r[k := before + ("when " + ifstr + " then " + ParseStr(item[k]) + " ")];
      }
    }
    assert forall c :: c in done <==> c in item && c !in keys;
    CasedNext(cases, r, data, item, keys);
  }

  lemma FirstOrNext(cases: map<Column, string>, data: seq<Item>, item: Item, keys: seq<Column>, k: Column)
    requires Cased(cases, data, keys) && k in item && k !in keys
    ensures PrintWhens(Whens(data + [item], keys, k))
         == (if k in cases then cases[k] else "case ")
            + ("when " + PrintConditions(KeyConditions(item, keys)) + " then " + ParseStr(item[k]) + " ")
  {
    OneMoreWhen(data, item, keys, k);
    if k !in cases {
      NoWhens(data, keys, k);
    }
  }

  lemma AssignedNext(data: seq<Item>, item: Item, keys: seq<Column>)
    ensures forall c :: c in Assigned(data + [item], keys) <==> c in Assigned(data, keys) || (c in item && c !in keys)
  {
    forall c ensures c in Assigned(data + [item], keys) <==> c in Assigned(data, keys) || (c in item && c !in keys) {
      if c in Assigned(data, keys) {
        var i :| i in data && c in i && c !in keys;
        assert i in data + [item];
      }
      if c in item && c !in keys {
        assert item in data + [item];
      }
    }
  }

  lemma CasedNext(cases: map<Column, string>, r: map<Column, string>, data: seq<Item>, item: Item, keys: seq<Column>)
    requires Cased(cases, data, keys)
    requires forall c :: c in r <==> c in cases || (c in item && c !in keys)
    requires forall c :: c in item && c !in keys ==> r[c] == PrintWhens(Whens(data + [item], keys, c))
    requires forall c :: c in cases && (c !in item || c in keys) ==> r[c] == cases[c]
    ensures Cased(r, data + [item], keys)
  {
    hide Whens, PrintWhens, PrintWhen, KeyConditions;
    AssignedNext(data, item, keys);
    forall c | c in r ensures r[c] == PrintWhens(Whens(data + [item], keys, c)) {
      OneMoreWhen(data, item, keys, c);
    }
  }

  lemma NothingYet(keys: seq<Column>)
    ensures Cased(map[], [], keys) && PrintIds([]) == ""
  {
  }

  lemma IdsNext(ids: seq<Value>, i: nat)
    requires i < |ids|
    ensures PrintIds(ids[..i + 1]) == Comma(PrintIds(ids[..i]), ",") + ParseStr(ids[i])
  {
    assert ids[..i + 1][..i] == ids[..i];
  }

  // The whole builder. The order of the assignments is that of a Go map: some order.
  method UpdateBatch(table: string, data: seq<Item>, keys: seq<Column>, inc: seq<Column>) returns (r: string)
    requires keys != []
    ensures exists order :: Lists(order, Assigned(data, keys)) && r == Print(Compiled(table, data, keys, inc, order))
  {
    hide Whens, PrintWhens, PrintWhen, PrintSets, Sets, Assigned, PrintIds;
    NothingYet(keys);
    var cases: map<Column, string> := map[];
    var ids := "";
    ghost var st := Compiled(table, data, keys, inc, []);
    for i := 0 to |data|
      invariant Cased(cases, data[..i], keys)
      invariant ids == PrintIds(st.ids[..i])
    {
      assert data[..i + 1] == data[..i] + [data[i]];
      IdsNext(st.ids, i);
      var keyval := ParseStr(Lookup(data[i], keys[0]));
      ids := Comma(ids, ",") + keyval;
      cases := AddCases(cases, data[..i], data[i], keys);
    }
    assert data[..|data|] == data && st.ids[..|data|] == st.ids;
    var s, order := PrintCases(cases, data, keys, inc);
    st := Compiled(table, data, keys, inc, order);
    r := "update " + table + " set " + s + " where " + keys[0] + " in (" + ids + ")";
  }

  method PrintCases(cases: map<Column, string>, ghost data: seq<Item>, keys: seq<Column>, inc: seq<Column>)
    returns (s: string, ghost order: seq<Column>)
    requires Cased(cases, data, keys) && keys != []
    ensures Lists(order, Assigned(data, keys))
    ensures s == PrintSets(Sets(data, keys, inc, order))
  {
    hide Whens, PrintWhens, PrintWhen, PrintSets, Assigned, Lists;
    s := "";
    order := [];
    NoSets(data, keys, inc);
    var left := cases.Keys;
    ghost var done := {};
    while left != {}
      invariant left <= cases.Keys && done == cases.Keys - left
      invariant Lists(order, done)
      invariant s == PrintSets(Sets(data, keys, inc, order))
      decreases |left|
    {
      var k :| k in left;
      left := left - {k};
      SetsNext(data, keys, inc, order, k);
      ListsNext(order, done, k);
      done := done + {k};
      s := Comma(s, ", ") + (k + "=" + (if k in inc then k + "+" else "") + cases[k] + "end");
      order := order + [k];
    }
    assert done == cases.Keys;
  }

  lemma NoSets(data: seq<Item>, keys: seq<Column>, inc: seq<Column>)
    ensures PrintSets(Sets(data, keys, inc, [])) == "" && Lists([], {})
  {
  }

  lemma SetsNext(data: seq<Item>, keys: seq<Column>, inc: seq<Column>, order: seq<Column>, k: Column)
    ensures PrintSets(Sets(data, keys, inc, order + [k]))
         == Comma(PrintSets(Sets(data, keys, inc, order)), ", ")
            + (k + "=" + (if k in inc then k + "+" else "") + PrintWhens(Whens(data, keys, k)) + "end")
  {
    var sets := Sets(data, keys, inc, order + [k]);
    assert sets[..|order|] == Sets(data, keys, inc, order);
  }

  lemma ListsNext(order: seq<Column>, columns: set<Column>, k: Column)
    requires Lists(order, columns) && k !in columns
    ensures Lists(order + [k], columns + {k})
  {
    assert forall c :: c in order + [k] <==> c in order || c == k;
  }
}
