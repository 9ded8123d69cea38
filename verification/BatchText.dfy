// From the text UpdateBatch returns back to the statement it stands for, and so to what
// running that text does to a table.
module BatchText {
  import opened Quoting
  import opened SqlText
  import opened BatchUpdate
  import opened BatchMeaning

  // ---- reading ---------------------------------------------------------------------------

  function ReadCondition(s: string): Reading<Condition> {
    var column :- ReadName(s);
    var eq :- ReadWord("=", column.1);
    var value :- ReadValue(eq.1);
    Got(Condition(column.0, value.0), value.1)
  }

  function ReadWhen(s: string): Reading<When> {
    var word :- ReadWord("when ", s);
    var conditions :- ReadList(ReadCondition, " and ", word.1);
    var thenWord :- ReadWord(" then ", conditions.1);
    var result :- ReadValue(thenWord.1);
    var space :- ReadWord(" ", result.1);
    Got(When(conditions.0, result.0), space.1)
  }

  // All branches up to the end of the CASE.
  function ReadWhens(s: string): Reading<seq<When>>
    decreases |s|
  {
    if "end" <= s then Got([], s[3..])
    else
      var first :- ReadWhen(s);
      if |first.1| >= |s| then Failed
      else
        var others :- ReadWhens(first.1);
        Got([first.0] + others.0, others.1)
  }

  function ReadAssignment(s: string): Reading<Assignment> {
    var column :- ReadName(s);
    var eq :- ReadWord("=", column.1);
    var increment := ReadIncrement(column.0, eq.1);
    var word :- ReadWord("case ", increment.1);
    var whens :- ReadWhens(word.1);
    Got(Assignment(column.0, increment.0, whens.0), whens.1)
  }

  function ReadStatement(s: string): Reading<Statement> {
    var update :- ReadWord("update ", s);
    var table :- ReadName(update.1);
    var setWord :- ReadWord(" set ", table.1);
    var sets :- ReadList(ReadAssignment, ", ", setWord.1);
    var where :- ReadWord(" where ", sets.1);
    var key :- ReadName(where.1);
    var inWord :- ReadWord(" in (", key.1);
    var ids :- ReadList(ReadValue, ",", inWord.1);
    var close :- ReadWord(")", ids.1);
    Got(Statement(table.0, sets.0, key.0, ids.0), close.1)
  }

  // ---- the printed lists are joined lists ----------------------------------------------------

  lemma {:induction false} ConditionsJoin(cs: seq<Condition>)
    ensures PrintConditions(cs) == Join(ShowAll(PrintCondition, cs), " and ")
    ensures cs != [] ==> PrintConditions(cs) != ""
  {
    hide PrintCondition, Join;
    if cs == [] {
      assert ShowAll(PrintCondition, cs) == [];
      JoinNothing(" and ");
    } else {
      var init, last := cs[..|cs| - 1], cs[|cs| - 1];
      ConditionsJoin(init);
      JoinMore(ShowAll(PrintCondition, init), PrintCondition(last), " and ");
      assert ShowAll(PrintCondition, cs) == ShowAll(PrintCondition, init) + [PrintCondition(last)];
    }
  }

  lemma {:induction false} SetsJoin(sets: seq<Assignment>)
    ensures PrintSets(sets) == Join(ShowAll(PrintAssignment, sets), ", ")
    ensures sets != [] ==> PrintSets(sets) != ""
  {
    hide PrintAssignment, Join;
    if sets == [] {
      assert ShowAll(PrintAssignment, sets) == [];
      JoinNothing(", ");
    } else {
      var init, last := sets[..|sets| - 1], sets[|sets| - 1];
      SetsJoin(init);
      JoinMore(ShowAll(PrintAssignment, init), PrintAssignment(last), ", ");
      assert ShowAll(PrintAssignment, sets) == ShowAll(PrintAssignment, init) + [PrintAssignment(last)];
    }
  }

  lemma {:induction false} IdsJoin(ids: seq<Value>)
    ensures PrintIds(ids) == Join(ShowAll(ParseStr, ids), ",")
    ensures ids != [] ==> PrintIds(ids) != ""
  {
    hide ParseStr, Join;
    if ids == [] {
      assert ShowAll(ParseStr, ids) == [];
      JoinNothing(",");
    } else {
      var init, last := ids[..|ids| - 1], ids[|ids| - 1];
      IdsJoin(init);
      JoinMore(ShowAll(ParseStr, init), ParseStr(last), ",");
      assert ShowAll(ParseStr, ids) == ShowAll(ParseStr, init) + [ParseStr(last)];
    }
  }

  // ---- reading back ----------------------------------------------------------------------------

  lemma ConditionReads(c: Condition, rest: string)
    requires Name(c.column) && Ends(rest)
    ensures ReadCondition(PrintCondition(c) + rest) == Got(c, rest)
  {
    var behind := ParseStr(c.value) + rest;
    assert PrintCondition(c) + rest == c.column + ("=" + behind);
    NameReads(c.column, "=" + behind);
    WordReads("=", behind);
    ValueReads(c.value, rest);
  }

  lemma Regroup(a: string, b: string, c: string, d: string, e: string, f: string)
    ensures a + b + c + d + e + f == a + (b + (c + (d + (e + f))))
  {
  }

  predicate NamedWhen(w: When) {
    w.conditions != [] && forall i :: 0 <= i < |w.conditions| ==> Name(w.conditions[i].column)
  }

  lemma WhenReads(w: When, rest: string)
    requires NamedWhen(w)
    ensures ReadWhen(PrintWhen(w) + rest) == Got(w, rest)
  {
    hide ReadCondition, PrintCondition, PrintConditions, ReadList, ReadValue, ParseStr;
    var end := ParseStr(w.result) + (" " + rest);
    var tail := " then " + end;
    ConditionsJoin(w.conditions);
    forall i | 0 <= i < |w.conditions| ensures Undoes(ReadCondition, PrintCondition, " and ", tail, w.conditions[i]) {
      forall more | " and " <= more || more == tail
        ensures ReadCondition(PrintCondition(w.conditions[i]) + more) == Got(w.conditions[i], more)
      {
        assert more[0] == ' ';
        ConditionReads(w.conditions[i], more);
      }
    }
    assert tail[1] == 't';
    ListReads(ReadCondition, PrintCondition, " and ", w.conditions, tail);
    Regroup("when ", PrintConditions(w.conditions), " then ", ParseStr(w.result), " ", rest);
    WordReads("when ", PrintConditions(w.conditions) + tail);
    WordReads(" then ", end);
    ValueReads(w.result, " " + rest);
    WordReads(" ", rest);
  }

  // The branches in reading order.
  function Branches(ws: seq<When>): string {
    if ws == [] then "" else PrintWhen(ws[0]) + Branches(ws[1..])
  }

  lemma {:induction false} BranchesMore(ws: seq<When>, w: When)
    ensures Branches(ws + [w]) == Branches(ws) + PrintWhen(w)
  {
    hide PrintWhen;
    if ws == [] {
      assert ws + [w] == [w] && [w][1..] == [];
      assert Branches([w]) == PrintWhen(w) + "";
    } else {
      assert (ws + [w])[0] == ws[0] && (ws + [w])[1..] == ws[1..] + [w];
      BranchesMore(ws[1..], w);
    }
  }

  lemma {:induction false} WhensAreBranches(ws: seq<When>)
    ensures PrintWhens(ws) == "case " + Branches(ws)
  {
    hide PrintWhen;
    if ws != [] {
      var init, last := ws[..|ws| - 1], ws[|ws| - 1];
      WhensAreBranches(init);
      BranchesMore(init, last);
      Grouped("case ", Branches(init), PrintWhen(last));
      assert ws == init + [last];
    } else {
      assert "case " + "" == "case ";
    }
  }

  lemma Grouped(a: string, b: string, c: string)
    ensures a + b + c == a + (b + c)
  {
  }

  lemma WhenStarts(w: When, rest: string)
    ensures !("end" <= PrintWhen(w) + rest) && |rest| < |PrintWhen(w) + rest|
  {
    hide PrintConditions, ParseStr;
    var s := PrintWhen(w) + rest;
    Regroup("when ", PrintConditions(w.conditions), " then ", ParseStr(w.result), " ", rest);
    assert s[0] == 'w' && "end"[0] == 'e';
  }

  lemma {:induction false} BranchesRead(ws: seq<When>, rest: string)
    requires forall i :: 0 <= i < |ws| ==> NamedWhen(ws[i])
    ensures ReadWhens(Branches(ws) + ("end" + rest)) == Got(ws, rest)
  {
    hide ReadWhen, PrintWhen;
    if ws == [] {
      assert "" + ("end" + rest) == "end" + rest;
    } else {
      var behind := Branches(ws[1..]) + ("end" + rest);
      Grouped(PrintWhen(ws[0]), Branches(ws[1..]), "end" + rest);
      WhenStarts(ws[0], behind);
      WhenReads(ws[0], behind);
      BranchesRead(ws[1..], rest);
      assert [ws[0]] + ws[1..] == ws;
    }
  }

  lemma IncrementReads(column: Column, increment: bool, rest: string)
    requires "case " <= rest && Name(column)
    ensures ReadIncrement(column, (if increment then column + "+" else "") + rest) == (increment, rest)
  {
    assert "" + rest == rest;
    if increment {
      assert column + "+" <= column + "+" + rest;
    } else {
      assert rest == "case" + rest[4..] && rest[4] == ' ';
      NameEnds("case", rest[4..]);
      if column + "+" <= rest {
        PlusFollows(column, rest);
      }
    }
  }

  predicate NamedAssignment(a: Assignment) {
    Name(a.column) && forall i :: 0 <= i < |a.whens| ==> NamedWhen(a.whens[i])
  }

  lemma AssignmentReads(a: Assignment, rest: string)
    requires NamedAssignment(a)
    ensures ReadAssignment(PrintAssignment(a) + rest) == Got(a, rest)
  {
    hide ReadWhens, Branches, PrintWhens;
    var body := Branches(a.whens) + ("end" + rest);
    var behind := "case " + body;
    var increment := if a.increment then a.column + "+" else "";
    WhensAreBranches(a.whens);
    assert PrintAssignment(a) + rest == a.column + ("=" + (increment + behind));
    NameReads(a.column, "=" + (increment + behind));
    WordReads("=", increment + behind);
    IncrementReads(a.column, a.increment, behind);
    WordReads("case ", body);
    BranchesRead(a.whens, rest);
  }

  // Something is assigned to something, under names that end where they should.
  predicate Named(s: Statement) {
    && Name(s.table) && Name(s.key) && s.sets != [] && s.ids != []
    && forall i :: 0 <= i < |s.sets| ==> NamedAssignment(s.sets[i])
  }

  lemma SetsRead(sets: seq<Assignment>, tail: string)
    requires sets != [] && (forall i :: 0 <= i < |sets| ==> NamedAssignment(sets[i])) && !(", " <= tail)
    ensures ReadList(ReadAssignment, ", ", PrintSets(sets) + tail) == Got(sets, tail)
  {
    hide ReadAssignment, PrintAssignment;
    SetsJoin(sets);
    forall i | 0 <= i < |sets| ensures Undoes(ReadAssignment, PrintAssignment, ", ", tail, sets[i]) {
      forall more ensures ReadAssignment(PrintAssignment(sets[i]) + more) == Got(sets[i], more) {
        AssignmentReads(sets[i], more);
      }
    }
    ListReads(ReadAssignment, PrintAssignment, ", ", sets, tail);
  }

  lemma IdsRead(ids: seq<Value>, tail: string)
    requires ids != [] && tail != "" && tail[0] == ')'
    ensures ReadList(ReadValue, ",", PrintIds(ids) + tail) == Got(ids, tail)
  {
    hide ReadValue, ParseStr;
    IdsJoin(ids);
    forall i | 0 <= i < |ids| ensures Undoes(ReadValue, ParseStr, ",", tail, ids[i]) {
      forall more | "," <= more || more == tail ensures ReadValue(ParseStr(ids[i]) + more) == Got(ids[i], more) {
        ValueReads(ids[i], more);
      }
    }
    ListReads(ReadValue, ParseStr, ",", ids, tail);
  }

  // A statement is the only one its text can stand for, whatever its values contain.
  lemma StatementReads(s: Statement)
    requires Named(s)
    ensures ReadStatement(Print(s)) == Got(s, "")
  {
    hide ReadList, PrintSets, PrintIds, ReadName;
    var ids := PrintIds(s.ids) + ")";
    var inWord := " in (" + ids;
    var where := " where " + (s.key + inWord);
    var setWord := " set " + (PrintSets(s.sets) + where);
    assert Print(s) == "update " + (s.table + setWord);
    WordReads("update ", s.table + setWord);
    NameReads(s.table, setWord);
    WordReads(" set ", PrintSets(s.sets) + where);
    assert where[0] == ' ';
    SetsRead(s.sets, where);
    WordReads(" where ", s.key + inWord);
    NameReads(s.key, inWord);
    WordReads(" in (", ids);
    IdsRead(s.ids, ")");
    WordReads(")", "");
  }

  // The text UpdateBatch returns, read back and run on any table, does what the single
  // updates do one after the other, in any order. Without a column to assign it is no
  // statement.
  lemma TextMeansSingles(db: Db, name: string, data: seq<Item>, key: Column, inc: seq<Column>, order: seq<Column>,
                         text: string, ss: seq<Single>, p: seq<nat>, table: seq<Row>)
    requires Lists(order, Assigned(data, [key])) && text == Print(Compiled(name, data, [key], inc, order))
    requires Name(name) && Name(key) && forall c :: c in Assigned(data, [key]) ==> Name(c)
    requires DistinctKeys(db, data, key) && Arranged(ss, data, [key], p)
    requires forall i :: 0 <= i < |data| ==> ItemColumns(data[i], [key]) == Assigned(data, [key])
    ensures var s := ReadStatement(text);
            if Assigned(data, [key]) == {} then s.Failed?
            else s.Got? && s.rest == "" && RunTable(db, s.value, table) == SinglesTable(db, ss, [key], inc, table)
  {
    hide ReadStatement, Print, RunTable, SinglesTable;
    var s := Compiled(name, data, [key], inc, order);
    if Assigned(data, [key]) == {} {
      if order != [] {
        SomethingListed(order, Assigned(data, [key]));
      }
      NothingSetFails(s);
    } else {
      CompiledNamed(name, data, [key], inc, order);
      StatementReads(s);
      BatchMeansSingles(db, name, data, key, inc, order, ss, p, table);
    }
  }

  lemma SomethingListed(order: seq<Column>, columns: set<Column>)
    requires order != [] && Lists(order, columns)
    ensures columns != {}
  {
    assert order[0] in columns;
  }

  lemma NothingSetFails(s: Statement)
    requires Name(s.table) && s.sets == []
    ensures ReadStatement(Print(s)).Failed?
  {
    hide ReadList, PrintIds, ReadName;
    var behind := " where " + (s.key + (" in (" + (PrintIds(s.ids) + ")")));
    assert Print(s) == "update " + (s.table + (" set " + ("" + behind)));
    WordReads("update ", s.table + (" set " + ("" + behind)));
    NameReads(s.table, " set " + ("" + behind));
    WordReads(" set ", "" + behind);
    assert "" + behind == behind && behind[0] == ' ';
    NoAssignment(behind);
  }

  lemma NoAssignment(s: string)
    requires s != "" && s[0] == ' '
    ensures ReadList(ReadAssignment, ", ", s).Failed?
  {
  }

  lemma CompiledNamed(name: string, data: seq<Item>, keys: seq<Column>, inc: seq<Column>, order: seq<Column>)
    requires Lists(order, Assigned(data, keys)) && Assigned(data, keys) != {} && keys != []
    requires Name(name) && (forall i :: 0 <= i < |keys| ==> Name(keys[i])) && forall c :: c in Assigned(data, keys) ==> Name(c)
    ensures Named(Compiled(name, data, keys, inc, order))
  {
    hide Name;
    var s := Compiled(name, data, keys, inc, order);
    var c :| c in Assigned(data, keys);
    assert c in order && data != [];
    forall i | 0 <= i < |s.sets| ensures NamedAssignment(s.sets[i]) {
      assert order[i] in Assigned(data, keys);
      WhensNamed(data, keys, order[i]);
    }
  }

  lemma {:induction false} WhensNamed(data: seq<Item>, keys: seq<Column>, c: Column)
    requires keys != [] && forall i :: 0 <= i < |keys| ==> Name(keys[i])
    ensures forall i :: 0 <= i < |Whens(data, keys, c)| ==> NamedWhen(Whens(data, keys, c)[i])
  {
    hide Name;
    if data == [] {
    } else {
      WhensNamed(data[..|data| - 1], keys, c);
    }
  }
}
