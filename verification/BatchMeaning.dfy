// What the statement compiled by UpdateBatch does to a table, against updating the rows one
// by one.
module BatchMeaning {
  import opened Quoting
  import opened BatchUpdate

  datatype Cell = Null | Num(n: int) | Str(s: string)

  type Row = map<Column, Cell>

  // The database: when a cell compares equal to a literal, what storing a literal yields,
  // and addition.
  datatype Db = Db(matches: (Cell, Value) -> bool, stored: Value -> Cell, plus: (Cell, Cell) -> Cell)

  function At(row: Row, c: Column): Cell {
    if c in row then row[c] else Null
  }

  // ---- running the compiled statement ------------------------------------------------

  predicate Holds(db: Db, row: Row, cs: seq<Condition>) {
    forall i :: 0 <= i < |cs| ==> db.matches(At(row, cs[i].column), cs[i].value)
  }

  // The first branch that holds, or NULL.
  function Case(db: Db, row: Row, ws: seq<When>): Cell {
    if ws == [] then Null
    else if Holds(db, row, ws[0].conditions) then db.stored(ws[0].result)
    else Case(db, row, ws[1..])
  }

  function Combined(db: Db, increment: bool, was: Cell, operand: Cell): Cell {
    if increment then db.plus(was, operand) else operand
  }

  // Assignments run from left to right and see what those before them stored.
  function Assign(db: Db, row: Row, sets: seq<Assignment>): Row
    decreases |sets|
  {
    if sets == [] then row
    else
      var a := sets[0];
      Assign(db, row[a.column := Combined(db, a.increment, At(row, a.column), Case(db, row, a.whens))], sets[1..])
  }

  predicate InList(db: Db, row: Row, key: Column, ids: seq<Value>) {
    exists i :: 0 <= i < |ids| && db.matches(At(row, key), ids[i])
  }

  function Run(db: Db, s: Statement, row: Row): Row {
    if InList(db, row, s.key, s.ids) then Assign(db, row, s.sets) else row
  }

  // ---- running single-row updates --------------------------------------------------------

  predicate Matches(db: Db, row: Row, item: Item, keys: seq<Column>) {
    forall i :: 0 <= i < |keys| ==> db.matches(At(row, keys[i]), Lookup(item, keys[i]))
  }

  // The assignments of one Update, in some order of the item's columns.
  function AssignItem(db: Db, row: Row, item: Item, inc: seq<Column>, order: seq<Column>): Row
    requires forall c :: c in order ==> c in item
    decreases |order|
  {
    if order == [] then row
    else
      var c := order[0];
      AssignItem(db, row[c := Combined(db, c in inc, At(row, c), db.stored(item[c]))], item, inc, order[1..])
  }

  // One update statement per item: its own columns, where its keys match.
  datatype Single = Single(item: Item, order: seq<Column>)

  predicate Orders(s: Single, keys: seq<Column>) {
    Lists(s.order, ItemColumns(s.item, keys))
  }

  function ItemColumns(item: Item, keys: seq<Column>): set<Column> {
    set c | c in item && c !in keys
  }

  function RunSingle(db: Db, s: Single, keys: seq<Column>, inc: seq<Column>, row: Row): Row
    requires Orders(s, keys)
  {
    assert forall c :: c in s.order ==> c in ItemColumns(s.item, keys);
    if Matches(db, row, s.item, keys) then AssignItem(db, row, s.item, inc, s.order) else row
  }

  function RunSingles(db: Db, ss: seq<Single>, keys: seq<Column>, inc: seq<Column>, row: Row): Row
    requires forall i :: 0 <= i < |ss| ==> Orders(ss[i], keys)
  {
    if ss == [] then row else RunSingles(db, ss[1..], keys, inc, RunSingle(db, ss[0], keys, inc, row))
  }

  // ---- closed forms ------------------------------------------------------------------------

  // A row with the given columns replaced.
  function With(row: Row, columns: set<Column>, value: Column -> Cell): Row {
    map c | c in row.Keys + columns :: if c in columns then value(c) else row[c]
  }

  lemma WithOne(row: Row, columns: set<Column>, c: Column, value: Column -> Cell)
    requires c !in columns
    ensures With(row[c := value(c)], columns, value) == With(row, {c} + columns, value)
  {
  }

  lemma OrderSet(order: seq<Column>)
    requires order != [] && forall i, j :: 0 <= i < j < |order| ==> order[i] != order[j]
    ensures (set c | c in order) == {order[0]} + set c | c in order[1..]
    ensures order[0] !in order[1..]
  {
  }

  predicate SameKeys(row: Row, row': Row, keys: seq<Column>) {
    forall i :: 0 <= i < |keys| ==> At(row, keys[i]) == At(row', keys[i])
  }

  lemma {:induction false} CaseSame(db: Db, row: Row, row': Row, keys: seq<Column>, ws: seq<When>)
    requires SameKeys(row, row', keys)
    requires forall w :: w in ws ==> OnKeys(w, keys)
    ensures Case(db, row, ws) == Case(db, row', ws)
  {
    if ws == [] {
    } else {
      assert ws[0] in ws;
      assert forall w :: w in ws[1..] ==> w in ws;
      CaseSame(db, row, row', keys, ws[1..]);
      assert Holds(db, row, ws[0].conditions) == Holds(db, row', ws[0].conditions);
    }
  }

  predicate OnKeys(w: When, keys: seq<Column>) {
    |w.conditions| == |keys| && forall i :: 0 <= i < |keys| ==> w.conditions[i].column == keys[i]
  }

  lemma {:induction false} WhensOnKeys(data: seq<Item>, keys: seq<Column>, c: Column)
    ensures forall w :: w in Whens(data, keys, c) ==> OnKeys(w, keys)
  {
    if data == [] {
    } else {
      WhensOnKeys(data[..|data| - 1], keys, c);
    }
  }

  function CaseOf(db: Db, row: Row, data: seq<Item>, keys: seq<Column>, c: Column): Cell {
    Case(db, row, Whens(data, keys, c))
  }

  function BatchValue(db: Db, row: Row, data: seq<Item>, keys: seq<Column>, inc: seq<Column>): Column -> Cell {
    c => Combined(db, c in inc, At(row, c), CaseOf(db, row, data, keys, c))
  }

  // Whatever the order of the columns, every assignment sees the row as it was: key columns
  // are never assigned, and each other column only once.
  lemma {:induction false} AssignClosed(db: Db, row: Row, was: Row, data: seq<Item>, keys: seq<Column>, inc: seq<Column>,
                                        order: seq<Column>)
    requires SameKeys(row, was, keys)
    requires forall c :: c in order ==> c !in keys && At(row, c) == At(was, c)
    requires forall i, j :: 0 <= i < j < |order| ==> order[i] != order[j]
    ensures Assign(db, row, Sets(data, keys, inc, order))
         == With(row, (set c | c in order), BatchValue(db, was, data, keys, inc))
    decreases |order|
  {
    if order != [] {
      var c := order[0];
      var sets := Sets(data, keys, inc, order);
      assert sets[1..] == Sets(data, keys, inc, order[1..]);
      WhensOnKeys(data, keys, c);
      CaseSame(db, row, was, keys, Whens(data, keys, c));
      var value := BatchValue(db, was, data, keys, inc);
      var row' := row[c := value(c)];
      OrderSet(order);
      AssignClosed(db, row', was, data, keys, inc, order[1..]);
      WithOne(row, (set d | d in order[1..]), c, value);
      assert Assign(db, row, sets) == Assign(db, row', sets[1..]);
    } else {
      assert With(row, {}, BatchValue(db, was, data, keys, inc)) == row;
      assert (set d: Column | d in order) == {};
    }
  }

  lemma {:induction false} AssignItemClosed(db: Db, row: Row, was: Row, item: Item, inc: seq<Column>, order: seq<Column>)
    requires forall c :: c in order ==> c in item && At(row, c) == At(was, c)
    requires forall i, j :: 0 <= i < j < |order| ==> order[i] != order[j]
    ensures AssignItem(db, row, item, inc, order) == With(row, (set c | c in order), ItemValue(db, was, item, inc))
    decreases |order|
  {
    if order != [] {
      var c := order[0];
      var value := ItemValue(db, was, item, inc);
      var row' := row[c := value(c)];
      OrderSet(order);
      AssignItemClosed(db, row', was, item, inc, order[1..]);
      assert c in order && At(row, c) == At(was, c) && Lookup(item, c) == item[c];
      assert value(c) == Combined(db, c in inc, At(row, c), db.stored(item[c]));
      assert AssignItem(db, row, item, inc, order) == AssignItem(db, row', item, inc, order[1..]);
      WithOne(row, (set d | d in order[1..]), c, value);
    } else {
      assert With(row, {}, ItemValue(db, was, item, inc)) == row;
      assert (set d: Column | d in order) == {};
    }
  }

  function ItemValue(db: Db, row: Row, item: Item, inc: seq<Column>): Column -> Cell {
    c => Combined(db, c in inc, At(row, c), db.stored(Lookup(item, c)))
  }

  // ---- which branch a row takes ------------------------------------------------------------

  // No row matches the keys of two items.
  predicate AtMostOne(db: Db, row: Row, data: seq<Item>, keys: seq<Column>) {
    forall i, j :: 0 <= i < j < |data| ==> !(Matches(db, row, data[i], keys) && Matches(db, row, data[j], keys))
  }

  predicate Hit(db: Db, row: Row, ws: seq<When>) {
    exists i :: 0 <= i < |ws| && Holds(db, row, ws[i].conditions)
  }

  lemma {:induction false} CaseAppend(db: Db, row: Row, ws: seq<When>, w: When)
    ensures Case(db, row, ws + [w])
         == if Hit(db, row, ws) then Case(db, row, ws)
            else if Holds(db, row, w.conditions) then db.stored(w.result) else Null
    ensures Hit(db, row, ws + [w]) <==> Hit(db, row, ws) || Holds(db, row, w.conditions)
    ensures !Hit(db, row, ws) ==> Case(db, row, ws) == Null
  {
    var all := ws + [w];
    assert all[|ws|] == w && forall i :: 0 <= i < |ws| ==> all[i] == ws[i];
    if ws != [] {
      assert all[1..] == ws[1..] + [w];
      CaseAppend(db, row, ws[1..], w);
      assert Hit(db, row, ws) <==> Holds(db, row, ws[0].conditions) || Hit(db, row, ws[1..]);
    } else {
      assert all[1..] == [];
    }
  }

  lemma MatchesHolds(db: Db, row: Row, item: Item, keys: seq<Column>)
    ensures Holds(db, row, KeyConditions(item, keys)) <==> Matches(db, row, item, keys)
  {
    var cs := KeyConditions(item, keys);
    assert forall i :: 0 <= i < |keys| ==> cs[i] == Condition(keys[i], Lookup(item, keys[i]));
  }

  // The branches of a column stand for the items that have it, in order.
  lemma {:induction false} HitByItem(db: Db, row: Row, data: seq<Item>, keys: seq<Column>, c: Column)
    ensures Hit(db, row, Whens(data, keys, c)) <==> exists j :: 0 <= j < |data| && c in data[j] && Matches(db, row, data[j], keys)
  {
    if data == [] {
    } else {
      var n := |data| - 1;
      var init, item := data[..n], data[n];
      HitByItem(db, row, init, keys, c);
      assert forall j :: 0 <= j < n ==> init[j] == data[j];
      MatchesHolds(db, row, item, keys);
      if c in item {
        CaseAppend(db, row, Whens(init, keys, c), When(KeyConditions(item, keys), item[c]));
      }
    }
  }

  lemma {:induction false} CaseNone(db: Db, row: Row, data: seq<Item>, keys: seq<Column>, c: Column)
    requires forall j :: 0 <= j < |data| && c in data[j] ==> !Matches(db, row, data[j], keys)
    ensures CaseOf(db, row, data, keys, c) == Null
  {
    HitByItem(db, row, data, keys, c);
    CaseAppend(db, row, Whens(data, keys, c), When([], NIL));
  }

  lemma {:induction false} CaseOne(db: Db, row: Row, data: seq<Item>, keys: seq<Column>, c: Column, i: nat)
    requires i < |data| && Matches(db, row, data[i], keys) && AtMostOne(db, row, data, keys) && c in data[i]
    ensures CaseOf(db, row, data, keys, c) == db.stored(data[i][c])
    decreases |data|
  {
    var n := |data| - 1;
    var init, item := data[..n], data[n];
    HitByItem(db, row, init, keys, c);
    MatchesHolds(db, row, item, keys);
    assert forall j :: 0 <= j < n ==> init[j] == data[j];
    if c in item {
      CaseAppend(db, row, Whens(init, keys, c), When(KeyConditions(item, keys), item[c]));
    }
    if i < n {
      CaseOne(db, row, init, keys, c, i);
    }
  }

  // ---- single updates in any order -------------------------------------------------------

  // `ss` updates each item of the data once, in the order p.
  predicate Arranged(ss: seq<Single>, data: seq<Item>, keys: seq<Column>, p: seq<nat>) {
    && |ss| == |data| == |p|
    && (forall k :: 0 <= k < |p| ==> p[k] < |data| && ss[k].item == data[p[k]] && Orders(ss[k], keys))
    && (forall k, l :: 0 <= k < l < |p| ==> p[k] != p[l])
    && (forall i :: 0 <= i < |data| ==> i in p)
  }

  lemma {:induction false} SinglesNone(db: Db, ss: seq<Single>, keys: seq<Column>, inc: seq<Column>, row: Row)
    requires forall k :: 0 <= k < |ss| ==> Orders(ss[k], keys) && !Matches(db, row, ss[k].item, keys)
    ensures RunSingles(db, ss, keys, inc, row) == row
  {
    if ss == [] {
    } else {
      SinglesNone(db, ss[1..], keys, inc, row);
    }
  }

  function SingleRow(db: Db, row: Row, item: Item, keys: seq<Column>, inc: seq<Column>): Row {
    With(row, ItemColumns(item, keys), ItemValue(db, row, item, inc))
  }

  lemma KeysKept(db: Db, row: Row, item: Item, keys: seq<Column>, inc: seq<Column>)
    ensures SameKeys(row, SingleRow(db, row, item, keys, inc), keys)
  {
  }

  lemma {:induction false} SinglesOne(db: Db, ss: seq<Single>, keys: seq<Column>, inc: seq<Column>, row: Row, k: nat)
    requires k < |ss| && forall l :: 0 <= l < |ss| ==> Orders(ss[l], keys)
    requires forall l :: 0 <= l < |ss| ==> (Matches(db, row, ss[l].item, keys) <==> l == k)
    ensures RunSingles(db, ss, keys, inc, row) == SingleRow(db, row, ss[k].item, keys, inc)
    decreases |ss|
  {
    if k == 0 {
      var item := ss[0].item;
      assert forall c :: c in ss[0].order ==> c in ItemColumns(item, keys);
      AssignItemClosed(db, row, row, item, inc, ss[0].order);
      var row' := SingleRow(db, row, item, keys, inc);
      KeysKept(db, row, item, keys, inc);
      assert RunSingle(db, ss[0], keys, inc, row) == row';
      forall l | 0 <= l < |ss[1..]| ensures !Matches(db, row', ss[1..][l].item, keys) {
        assert !Matches(db, row, ss[l + 1].item, keys);
      }
      SinglesNone(db, ss[1..], keys, inc, row');
    } else {
      assert RunSingle(db, ss[0], keys, inc, row) == row;
      SinglesOne(db, ss[1..], keys, inc, row, k - 1);
    }
  }

  // ---- the theorem ----------------------------------------------------------------------

  // The first key of some item is the row's.
  predicate Mentioned(db: Db, row: Row, data: seq<Item>, keys: seq<Column>)
    requires keys != []
  {
    exists i :: 0 <= i < |data| && db.matches(At(row, keys[0]), Lookup(data[i], keys[0]))
  }

  // The item matches all its keys and gives a value for every assigned column.
  predicate Covers(db: Db, row: Row, data: seq<Item>, keys: seq<Column>, i: nat)
    requires i < |data|
  {
    Matches(db, row, data[i], keys) && Assigned(data, keys) == ItemColumns(data[i], keys)
  }

  predicate Covered(db: Db, row: Row, data: seq<Item>, keys: seq<Column>)
    requires keys != []
  {
    Mentioned(db, row, data, keys) ==> exists i :: 0 <= i < |data| && Covers(db, row, data, keys, i)
  }

  lemma MentionedIsInList(db: Db, row: Row, table: string, data: seq<Item>, keys: seq<Column>, inc: seq<Column>,
                          order: seq<Column>)
    requires keys != []
    ensures var s := Compiled(table, data, keys, inc, order);
            InList(db, row, s.key, s.ids) <==> Mentioned(db, row, data, keys)
  {
    var s := Compiled(table, data, keys, inc, order);
    assert forall i :: 0 <= i < |data| ==> s.ids[i] == Lookup(data[i], keys[0]);
  }

  lemma BatchRow(db: Db, table: string, data: seq<Item>, keys: seq<Column>, inc: seq<Column>, order: seq<Column>, row: Row)
    requires keys != [] && Lists(order, Assigned(data, keys))
    ensures Run(db, Compiled(table, data, keys, inc, order), row)
         == if Mentioned(db, row, data, keys)
            then With(row, Assigned(data, keys), BatchValue(db, row, data, keys, inc)) else row
  {
    hide InList, Mentioned, With, Assign, BatchValue;
    MentionedIsInList(db, row, table, data, keys, inc, order);
    forall c | c in order ensures c !in keys {
      assert c in Assigned(data, keys);
    }
    AssignClosed(db, row, row, data, keys, inc, order);
  }

  // What the statement and the matching single update store is the same.
  lemma SameValues(db: Db, row: Row, data: seq<Item>, keys: seq<Column>, inc: seq<Column>, i: nat)
    requires i < |data| && Covers(db, row, data, keys, i) && AtMostOne(db, row, data, keys)
    ensures With(row, Assigned(data, keys), BatchValue(db, row, data, keys, inc)) == SingleRow(db, row, data[i], keys, inc)
  {
    hide Matches, AtMostOne, Assigned, Whens;
    forall c | c in Assigned(data, keys)
      ensures BatchValue(db, row, data, keys, inc)(c) == ItemValue(db, row, data[i], inc)(c)
    {
      assert c in ItemColumns(data[i], keys);
      CaseOne(db, row, data, keys, c, i);
      assert Lookup(data[i], c) == data[i][c];
    }
  }

  lemma NoneMatches(db: Db, row: Row, data: seq<Item>, keys: seq<Column>)
    requires keys != [] && !Mentioned(db, row, data, keys)
    ensures forall i :: 0 <= i < |data| ==> !Matches(db, row, data[i], keys)
  {
  }

  // The compiled statement does to a covered row what the single updates do in any order.
  lemma SameWhenCovered(db: Db, table: string, data: seq<Item>, keys: seq<Column>, inc: seq<Column>,
                        order: seq<Column>, ss: seq<Single>, p: seq<nat>, row: Row)
    requires keys != [] && Lists(order, Assigned(data, keys)) && Arranged(ss, data, keys, p)
    requires AtMostOne(db, row, data, keys) && Covered(db, row, data, keys)
    ensures Run(db, Compiled(table, data, keys, inc, order), row) == RunSingles(db, ss, keys, inc, row)
  {
    hide Run, RunSingles, Mentioned, Matches, Assigned, With, BatchValue, Lists, Compiled, AtMostOne;
    BatchRow(db, table, data, keys, inc, order, row);
    if Mentioned(db, row, data, keys) {
      var i :| 0 <= i < |data| && Covers(db, row, data, keys, i);
      assert i in p;
      var k :| 0 <= k < |p| && p[k] == i;
      OnlyThat(db, ss, data, keys, p, row, i, k);
      SinglesOne(db, ss, keys, inc, row, k);
      SameValues(db, row, data, keys, inc, i);
    } else {
      NoneMatches(db, row, data, keys);
      SinglesNone(db, ss, keys, inc, row);
    }
  }

  lemma OnlyThat(db: Db, ss: seq<Single>, data: seq<Item>, keys: seq<Column>, p: seq<nat>, row: Row, i: nat, k: nat)
    requires Arranged(ss, data, keys, p) && AtMostOne(db, row, data, keys)
    requires i < |data| && k < |p| && p[k] == i && Matches(db, row, data[i], keys)
    ensures forall l :: 0 <= l < |ss| ==> (Matches(db, row, ss[l].item, keys) <==> l == k)
  {
    forall l | 0 <= l < |ss| && l != k ensures !Matches(db, row, ss[l].item, keys) {
      assert p[l] != i;
      assert ss[l].item == data[p[l]];
    }
  }

  // ---- exactly when ------------------------------------------------------------------------

  // NULL is no literal, and adding it gives NULL.
  ghost predicate Strict(db: Db) {
    && (forall v :: db.stored(v) != Null)
    && (forall x :: db.plus(x, Null) == Null)
  }

  lemma BatchNull(db: Db, row: Row, data: seq<Item>, keys: seq<Column>, inc: seq<Column>, c: Column)
    requires Strict(db) && c in Assigned(data, keys)
    requires forall j :: 0 <= j < |data| && c in data[j] ==> !Matches(db, row, data[j], keys)
    ensures At(With(row, Assigned(data, keys), BatchValue(db, row, data, keys, inc)), c) == Null
  {
    CaseNone(db, row, data, keys, c);
  }

  // On a row whose assigned columns hold values the statement agrees with the single
  // updates if and only if the row is covered. Otherwise it stores NULL: in every assigned
  // column of a row that only shares the first of several keys with an item, and in the
  // columns its item leaves out but another item has.
  lemma SameExactly(db: Db, table: string, data: seq<Item>, keys: seq<Column>, inc: seq<Column>,
                    order: seq<Column>, ss: seq<Single>, p: seq<nat>, row: Row)
    requires keys != [] && Lists(order, Assigned(data, keys)) && Arranged(ss, data, keys, p)
    requires AtMostOne(db, row, data, keys) && Strict(db)
    requires Assigned(data, keys) != {} && forall c :: c in Assigned(data, keys) ==> At(row, c) != Null
    ensures Run(db, Compiled(table, data, keys, inc, order), row) == RunSingles(db, ss, keys, inc, row)
       <==> Covered(db, row, data, keys)
  {
    hide Run, RunSingles, Mentioned, Matches, Assigned, With, BatchValue, Lists, Compiled, AtMostOne, Strict;
    if Covered(db, row, data, keys) {
      SameWhenCovered(db, table, data, keys, inc, order, ss, p, row);
    } else {
      BatchRow(db, table, data, keys, inc, order, row);
      if i :| 0 <= i < |data| && Matches(db, row, data[i], keys) {
        assert !Covers(db, row, data, keys, i);
        MissingColumn(db, row, data, keys, inc, i, ss, p);
      } else {
        forall l | 0 <= l < |ss| ensures !Matches(db, row, ss[l].item, keys) {
          assert ss[l].item == data[p[l]];
        }
        SinglesNone(db, ss, keys, inc, row);
        var c :| c in Assigned(data, keys);
        BatchNull(db, row, data, keys, inc, c);
      }
    }
  }

  lemma MissingColumn(db: Db, row: Row, data: seq<Item>, keys: seq<Column>, inc: seq<Column>, i: nat,
                      ss: seq<Single>, p: seq<nat>)
    requires Arranged(ss, data, keys, p) && AtMostOne(db, row, data, keys) && Strict(db)
    requires i < |data| && Matches(db, row, data[i], keys) && Assigned(data, keys) != ItemColumns(data[i], keys)
    requires forall c :: c in Assigned(data, keys) ==> At(row, c) != Null
    ensures With(row, Assigned(data, keys), BatchValue(db, row, data, keys, inc)) != RunSingles(db, ss, keys, inc, row)
  {
    hide Matches, RunSingles, Strict;
    assert ItemColumns(data[i], keys) <= Assigned(data, keys) by {
      assert data[i] in data;
    }
    var c :| c in Assigned(data, keys) && c !in ItemColumns(data[i], keys);
    assert c !in keys && c !in data[i];
    assert i in p;
    var k :| 0 <= k < |p| && p[k] == i;
    OnlyThat(db, ss, data, keys, p, row, i, k);
    SinglesOne(db, ss, keys, inc, row, k);
    BatchNull(db, row, data, keys, inc, c);
    assert At(SingleRow(db, row, data[i], keys, inc), c) == At(row, c);
  }

  // ---- whole tables ------------------------------------------------------------------------

  function RunTable(db: Db, s: Statement, table: seq<Row>): (r: seq<Row>)
    ensures |r| == |table| && forall i :: 0 <= i < |r| ==> r[i] == Run(db, s, table[i])
  {
    seq(|table|, i requires 0 <= i < |table| => Run(db, s, table[i]))
  }

  // One statement after the other, each over the whole table.
  function SinglesTable(db: Db, ss: seq<Single>, keys: seq<Column>, inc: seq<Column>, table: seq<Row>): seq<Row>
    requires forall i :: 0 <= i < |ss| ==> Orders(ss[i], keys)
    decreases |ss|
  {
    if ss == [] then table
    else
      assert Orders(ss[0], keys);
      SinglesTable(db, ss[1..], keys, inc,
        seq(|table|, i requires 0 <= i < |table| => RunSingle(db, ss[0], keys, inc, table[i])))
  }

  lemma {:induction false} SinglesRowByRow(db: Db, ss: seq<Single>, keys: seq<Column>, inc: seq<Column>, table: seq<Row>)
    requires forall i :: 0 <= i < |ss| ==> Orders(ss[i], keys)
    ensures var r := SinglesTable(db, ss, keys, inc, table);
            |r| == |table| && forall i :: 0 <= i < |r| ==> r[i] == RunSingles(db, ss, keys, inc, table[i])
    decreases |ss|
  {
    if ss == [] {
    } else {
      var next := seq(|table|, i requires 0 <= i < |table| => RunSingle(db, ss[0], keys, inc, table[i]));
      SinglesRowByRow(db, ss[1..], keys, inc, next);
    }
  }

  // No cell compares equal to the keys of two items.
  ghost predicate DistinctKeys(db: Db, data: seq<Item>, key: Column) {
    forall i, j, cell :: 0 <= i < j < |data| ==>
      !(db.matches(cell, Lookup(data[i], key)) && db.matches(cell, Lookup(data[j], key)))
  }

  // With one key column, distinct keys and the same columns in every item, the compiled
  // statement turns any table into what the single updates make of it, whatever their
  // order and whatever order Go's maps hand out the columns in.
  lemma BatchMeansSingles(db: Db, name: string, data: seq<Item>, key: Column, inc: seq<Column>,
                          order: seq<Column>, ss: seq<Single>, p: seq<nat>, table: seq<Row>)
    requires Lists(order, Assigned(data, [key])) && Arranged(ss, data, [key], p)
    requires DistinctKeys(db, data, key)
    requires forall i :: 0 <= i < |data| ==> ItemColumns(data[i], [key]) == Assigned(data, [key])
    ensures RunTable(db, Compiled(name, data, [key], inc, order), table) == SinglesTable(db, ss, [key], inc, table)
  {
    hide Run, RunSingles, Assigned, Lists, Compiled, ItemColumns;
    SinglesRowByRow(db, ss, [key], inc, table);
    forall r | 0 <= r < |table|
      ensures Run(db, Compiled(name, data, [key], inc, order), table[r]) == RunSingles(db, ss, [key], inc, table[r])
    {
      OneKeyCovers(db, data, key, table[r]);
      SameWhenCovered(db, name, data, [key], inc, order, ss, p, table[r]);
    }
  }

  lemma OneKeyCovers(db: Db, data: seq<Item>, key: Column, row: Row)
    requires DistinctKeys(db, data, key)
    requires forall i :: 0 <= i < |data| ==> ItemColumns(data[i], [key]) == Assigned(data, [key])
    ensures AtMostOne(db, row, data, [key]) && Covered(db, row, data, [key])
  {
    hide ItemColumns, Assigned;
    forall i | 0 <= i < |data|
      ensures Matches(db, row, data[i], [key]) <==> db.matches(At(row, key), Lookup(data[i], key))
    {
      assert [key][0] == key;
    }
    if Mentioned(db, row, data, [key]) {
      var i :| 0 <= i < |data| && db.matches(At(row, key), Lookup(data[i], key));
      assert Covers(db, row, data, [key], i);
    }
  }
}
