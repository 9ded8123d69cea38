// The SET list of a single-row Update, as buildData of socket/mysql/sqler.go prints it.
module SingleUpdate {
  import opened Quoting
  import opened SqlText
  import opened BatchUpdate
  import opened BatchMeaning

  datatype Setting = Setting(column: Column, increment: bool, value: Value)

  function PrintSetting(x: Setting): string {
    x.column + "=" + (if x.increment then x.column + "+" else "") + ParseStr(x.value)
  }

  function Settings(item: Item, inc: seq<Column>, order: seq<Column>): (r: seq<Setting>)
    requires forall c :: c in order ==> c in item
    ensures |r| == |order| && forall i :: 0 <= i < |r| ==> r[i] == Setting(order[i], order[i] in inc, item[order[i]])
  {
    seq(|order|, i requires 0 <= i < |order| => Setting(order[i], order[i] in inc, item[order[i]]))
  }

  // In whatever order the map hands out its columns.
  method BuildData(item: Item, inc: seq<Column>) returns (text: string)
    ensures exists order :: Lists(order, item.Keys) && (forall c :: c in order ==> c in item)
              && text == Join(ShowAll(PrintSetting, Settings(item, inc, order)), ",")
  {
    hide Lists, PrintSetting, ParseStr, Join, ShowAll;
    assert ShowAll(PrintSetting, Settings(item, inc, [])) == [];
    var dataObj := [];
    ghost var order: seq<Column> := [];
    NoColumns();
    var left := item.Keys;
    ghost var done := {};
    while left != {}
      invariant left <= item.Keys && done == item.Keys - left && Lists(order, done)
      invariant forall c :: c in order ==> c in item
      invariant dataObj == ShowAll(PrintSetting, Settings(item, inc, order))
      decreases |left|
    {
      var key :| key in left;
      left := left - {key};
      ListsNext(order, done, key);
      done := done + {key};
      SettingsNext(item, inc, order, key);
      if key in inc {
        dataObj := dataObj + [key + "=" + key + "+" + ParseStr(item[key])];
      } else {
        dataObj := dataObj + [key + "=" + ParseStr(item[key])];
      }
      order := order + [key];
    }
    assert done == item.Keys;
    return Join(dataObj, ",");
  }

  lemma NoColumns()
    ensures Lists([], {})
  {
  }

  lemma SettingsNext(item: Item, inc: seq<Column>, order: seq<Column>, key: Column)
    requires (forall c :: c in order ==> c in item) && key in item
    ensures ShowAll(PrintSetting, Settings(item, inc, order + [key]))
         == ShowAll(PrintSetting, Settings(item, inc, order))
            + [if key in inc then key + "=" + key + "+" + ParseStr(item[key]) else key + "=" + ParseStr(item[key])]
  {
    hide ParseStr;
    assert Settings(item, inc, order + [key]) == Settings(item, inc, order) + [Setting(key, key in inc, item[key])];
    assert key + "=" + "" == key + "=" && key + "=" + (key + "+") == key + "=" + key + "+";
  }

  // ---- reading it back ---------------------------------------------------------------------

  function ReadSetting(s: string): Reading<Setting> {
    var column :- ReadName(s);
    var eq :- ReadWord("=", column.1);
    var increment := ReadIncrement(column.0, eq.1);
    var value :- ReadValue(increment.1);
    Got(Setting(column.0, increment.0, value.0), value.1)
  }

  lemma SettingReads(x: Setting, rest: string)
    requires Name(x.column) && (rest == "" || rest[0] == ',')
    ensures ReadSetting(PrintSetting(x) + rest) == Got(x, rest)
  {
    hide ParseStr, ReadValue;
    var behind := ParseStr(x.value) + rest;
    var increment := if x.increment then x.column + "+" else "";
    assert PrintSetting(x) + rest == x.column + ("=" + (increment + behind));
    NameReads(x.column, "=" + (increment + behind));
    WordReads("=", increment + behind);
    NoPlus(x.column, x.value, rest);
    assert "" + behind == behind;
    ValueReads(x.value, rest);
  }

  // A value never looks like a column being added to.
  lemma NoPlus(column: Column, v: Value, rest: string)
    requires Name(column) && (rest == "" || rest[0] == ',')
    ensures !(column + "+" <= ParseStr(v) + rest)
  {
    var s := ParseStr(v) + rest;
    if v.Number? {
      NameEnds(ParseStr(v), rest);
    }
    if column + "+" <= s {
      PlusFollows(column, s);
    }
  }

  function Store(db: Db, row: Row, sets: seq<Setting>): Row
    decreases |sets|
  {
    if sets == [] then row
    else
      var a := sets[0];
      Store(db, row[a.column := Combined(db, a.increment, At(row, a.column), db.stored(a.value))], sets[1..])
  }

  lemma {:induction false} StoreIsAssignItem(db: Db, row: Row, item: Item, inc: seq<Column>, order: seq<Column>)
    requires forall c :: c in order ==> c in item
    ensures Store(db, row, Settings(item, inc, order)) == AssignItem(db, row, item, inc, order)
    decreases |order|
  {
    if order == [] {
    } else {
      var c := order[0];
      assert Settings(item, inc, order)[1..] == Settings(item, inc, order[1..]);
      StoreIsAssignItem(db, row[c := Combined(db, c in inc, At(row, c), db.stored(item[c]))], item, inc, order[1..]);
    }
  }

  // The text reads back to settings that store what the single update is said to store.
  lemma SettingsMean(db: Db, row: Row, item: Item, inc: seq<Column>, order: seq<Column>, text: string)
    requires item != map[] && Lists(order, item.Keys) && forall c :: c in item ==> Name(c)
    requires (forall c :: c in order ==> c in item) && text == Join(ShowAll(PrintSetting, Settings(item, inc, order)), ",")
    ensures var sets := ReadList(ReadSetting, ",", text);
            sets.Got? && sets.rest == "" && Store(db, row, sets.value) == AssignItem(db, row, item, inc, order)
  {
    hide ReadSetting, PrintSetting, Name;
    var sets := Settings(item, inc, order);
    var c :| c in item;
    assert c in order;
    forall i | 0 <= i < |sets| ensures Undoes(ReadSetting, PrintSetting, ",", "", sets[i]) {
      forall more | "," <= more || more == "" ensures ReadSetting(PrintSetting(sets[i]) + more) == Got(sets[i], more) {
        assert order[i] in order;
        SettingReads(sets[i], more);
      }
    }
    ListReads(ReadSetting, PrintSetting, ",", sets, "");
    assert text + "" == text;
    StoreIsAssignItem(db, row, item, inc, order);
  }
}
