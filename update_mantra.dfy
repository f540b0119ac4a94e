/** `updateMantra` of the store: the SET-clause and parameter lists it
    builds, the statement text it sends, and the effect of that statement
    and of the follow-up read on the mantras table. */
module UpdateMantra {
  import opened Records

  /** The optional fields of an update request; `None` is `undefined`. */
  datatype MantraUpdate = MantraUpdate(title: Option<string>, text: Option<string>, goal: Option<int>)

  /** A value bound to one `?` placeholder. `Time(t)` stands for the ISO-8601
      text of the instant `t`. */
  datatype SqlValue = Text(s: string) | Number(n: int) | Time(t: Timestamp)

  /** One `column = value` assignment of a SET clause. */
  datatype Assignment = Assignment(column: string, value: SqlValue)

  /** The SET clause text for one column: the column can be read back from
      it, and it carries exactly one placeholder when the column has none. */
  function Clause(column: string): (clause: string)
    ensures ColumnOf(clause) == Some(column)
    ensures (forall i :: 0 <= i < |column| ==> column[i] != '?') ==> Placeholders(clause) == 1
  {
    var clause := column + " = ?";
    assert clause[..|column|] == column && clause[|clause| - 4..] == " = ?";
    assert (forall i :: 0 <= i < |column| ==> column[i] != '?') ==> Placeholders(clause) == 1 by {
      if forall i :: 0 <= i < |column| ==> column[i] != '?' {
        assert clause == (column + " = ") + "?";
        OnePlaceholderAfter(column + " = ");
      }
    }
    clause
  }

  /** The assignments an update performs, as the request describes them:
      each defined field in the order title, text, goal, then `updatedAt`. */
  function Assignments(update: MantraUpdate, now: Timestamp): seq<Assignment>
  {
    (if update.title.Some? then [Assignment("title", Text(update.title.value))] else [])
    + (if update.text.Some? then [Assignment("text", Text(update.text.value))] else [])
    + (if update.goal.Some? then [Assignment("goal", Number(update.goal.value))] else [])
    + [Assignment("updatedAt", Time(now))]
  }

  function ClausesOf(assignments: seq<Assignment>): (clauses: seq<string>)
    ensures |clauses| == |assignments|
    ensures forall i :: 0 <= i < |assignments| ==> clauses[i] == Clause(assignments[i].column)
  {
    seq(|assignments|, i requires 0 <= i < |assignments| => Clause(assignments[i].column))
  }

  function ValuesOf(assignments: seq<Assignment>): (values: seq<SqlValue>)
    ensures |values| == |assignments|
    ensures forall i :: 0 <= i < |assignments| ==> values[i] == assignments[i].value
  {
    seq(|assignments|, i requires 0 <= i < |assignments| => assignments[i].value)
  }

  /** The construction of `fields` and `values` by successive pushes. */
  method BuildUpdate(id: string, userId: string, updateData: MantraUpdate, now: Timestamp)
    returns (fields: seq<string>, values: seq<SqlValue>)
    ensures fields == ClausesOf(Assignments(updateData, now))
    ensures values == ValuesOf(Assignments(updateData, now)) + [Text(id), Text(userId)]
    ensures |values| == |fields| + 2
  {
    ClauseTexts();
    fields := [];
    values := [];
    ghost var done: seq<Assignment> := [];

    if updateData.title.Some? {
      fields := fields + ["title = ?"];
      values := values + [Text(updateData.title.value)];
      Push(done, Assignment("title", Text(updateData.title.value)));
      done := done + [Assignment("title", Text(updateData.title.value))];
    }
    assert fields == ClausesOf(done) && values == ValuesOf(done);
    if updateData.text.Some? {
      fields := fields + ["text = ?"];
      values := values + [Text(updateData.text.value)];
      Push(done, Assignment("text", Text(updateData.text.value)));
      done := done + [Assignment("text", Text(updateData.text.value))];
    }
    assert fields == ClausesOf(done) && values == ValuesOf(done);
    if updateData.goal.Some? {
      fields := fields + ["goal = ?"];
      values := values + [Number(updateData.goal.value)];
      Push(done, Assignment("goal", Number(updateData.goal.value)));
      done := done + [Assignment("goal", Number(updateData.goal.value))];
    }
    assert fields == ClausesOf(done) && values == ValuesOf(done);

    fields := fields + ["updatedAt = ?"];
    values := values + [Time(now)];
    Push(done, Assignment("updatedAt", Time(now)));
    done := done + [Assignment("updatedAt", Time(now))];
    assert done == Assignments(updateData, now);
    values := values + [Text(id)];
    values := values + [Text(userId)];
  }

  /** Appending one assignment appends its clause and its value. */
  lemma Push(done: seq<Assignment>, x: Assignment)
    ensures ClausesOf(done + [x]) == ClausesOf(done) + [Clause(x.column)]
    ensures ValuesOf(done + [x]) == ValuesOf(done) + [x.value]
  {
  }

  /** The literal clause texts are the `Clause` of their column. */
  lemma ClauseTexts()
    ensures Clause("title") == "title = ?" && Clause("text") == "text = ?"
    ensures Clause("goal") == "goal = ?" && Clause("updatedAt") == "updatedAt = ?"
  {
  }

  // ---------------------------------------------------------------------
  // What the clause list contains

  /** The position a column takes in the fixed clause order. */
  function Rank(column: string): int
  {
    if column == "title" then 0
    else if column == "text" then 1
    else if column == "goal" then 2
    else if column == "updatedAt" then 3
    else 4
  }

  function Columns(assignments: seq<Assignment>): (columns: seq<string>)
    ensures |columns| == |assignments|
    ensures forall i :: 0 <= i < |assignments| ==> columns[i] == assignments[i].column
  {
    seq(|assignments|, i requires 0 <= i < |assignments| => assignments[i].column)
  }

  lemma ColumnsOfAssignments(update: MantraUpdate, now: Timestamp)
    ensures Columns(Assignments(update, now)) ==
      (if update.title.Some? then ["title"] else [])
      + (if update.text.Some? then ["text"] else [])
      + (if update.goal.Some? then ["goal"] else [])
      + ["updatedAt"]
  {
  }

  /** A clause for title, text or goal is present exactly when that field of
      the update is defined; `updatedAt` is always present and last. */
  lemma ClausePresence(update: MantraUpdate, now: Timestamp)
    ensures var columns := Columns(Assignments(update, now));
      && (update.title.Some? <==> "title" in columns)
      && (update.text.Some? <==> "text" in columns)
      && (update.goal.Some? <==> "goal" in columns)
      && |columns| >= 1 && columns[|columns| - 1] == "updatedAt"
  {
    ColumnsOfAssignments(update, now);
    assert "title" != "text" && "title" != "goal" && "title" != "updatedAt";
    assert "text" != "goal" && "text" != "updatedAt" && "goal" != "updatedAt";
  }

  /** The clauses follow the fixed order title, text, goal, updatedAt, with
      no column twice. */
  lemma ClauseOrder(update: MantraUpdate, now: Timestamp)
    ensures var columns := Columns(Assignments(update, now));
      forall i, j :: 0 <= i < j < |columns| ==> Rank(columns[i]) < Rank(columns[j])
  {
    ColumnsOfAssignments(update, now);
    assert Rank("title") == 0 && Rank("text") == 1 && Rank("goal") == 2 && Rank("updatedAt") == 3;
  }

  /** Every clause names one of the four columns. */
  lemma KnownColumns(update: MantraUpdate, now: Timestamp)
    ensures var a := Assignments(update, now);
      forall i :: 0 <= i < |a| ==> a[i].column in {"title", "text", "goal", "updatedAt"}
  {
    ColumnsOfAssignments(update, now);
    var a := Assignments(update, now);
    forall i | 0 <= i < |a| ensures a[i].column in {"title", "text", "goal", "updatedAt"} {
      assert a[i].column == Columns(a)[i];
    }
  }

  /** The values bound to the SET clauses are the defined fields of the
      update, in clause order, then the update time. */
  lemma AssignedValues(update: MantraUpdate, now: Timestamp)
    ensures var a := Assignments(update, now);
      ValuesOf(a) ==
        (if update.title.Some? then [Text(update.title.value)] else [])
        + (if update.text.Some? then [Text(update.text.value)] else [])
        + (if update.goal.Some? then [Number(update.goal.value)] else [])
        + [Time(now)]
  {
  }

  // ---------------------------------------------------------------------
  // The statement text

  /** `parts.join(sep)`: joining parts of one placeholder each with a
      placeholder-free separator gives one placeholder per part. */
  function Join(parts: seq<string>, sep: string): (joined: string)
    ensures (forall i :: 0 <= i < |parts| ==> Placeholders(parts[i]) == 1) && Placeholders(sep) == 0
            ==> Placeholders(joined) == |parts|
  {
    if parts == [] then ""
    else if |parts| == 1 then parts[0]
    else
      var rest := Join(parts[1..], sep);
      assert forall i :: 1 <= i < |parts| ==> parts[1..][i - 1] == parts[i];
      PlaceholdersAppend(parts[0] + sep, rest);
      PlaceholdersAppend(parts[0], sep);
      parts[0] + sep + rest
  }

  /** The text line 226 sends: with one placeholder per SET clause, it holds
      two more placeholders than there are clauses. */
  function UpdateSql(fields: seq<string>): (sql: string)
    ensures (forall i :: 0 <= i < |fields| ==> Placeholders(fields[i]) == 1) ==> Placeholders(sql) == |fields| + 2
  {
    var head, body, tail := "UPDATE mantras SET ", Join(fields, ", "), " WHERE id = ? AND userId = ?";
    HeadPlaceholders();
    SeparatorPlaceholders();
    WherePlaceholders();
    PlaceholdersAppend(head, body);
    PlaceholdersAppend(head + body, tail);
    head + body + tail
  }

  /** Number of `?` placeholders in a text. */
  function Placeholders(s: string): nat
  {
    if s == [] then 0 else (if s[0] == '?' then 1 else 0) + Placeholders(s[1..])
  }

  lemma {:induction false} PlaceholdersAppend(a: string, b: string)
    ensures Placeholders(a + b) == Placeholders(a) + Placeholders(b)
  {
    if a == [] {
      assert a + b == b;
    } else {
      assert (a + b)[1..] == a[1..] + b;
      PlaceholdersAppend(a[1..], b);
    }
  }

  lemma {:induction false} NoPlaceholders(s: string)
    requires forall i :: 0 <= i < |s| ==> s[i] != '?'
    ensures Placeholders(s) == 0
  {
    if s != [] {
      NoPlaceholders(s[1..]);
    }
  }

  /** A text free of placeholders followed by one `?`. */
  lemma OnePlaceholderAfter(prefix: string)
    requires forall i :: 0 <= i < |prefix| ==> prefix[i] != '?'
    ensures Placeholders(prefix + "?") == 1
  {
    NoPlaceholders(prefix);
    PlaceholdersAppend(prefix, "?");
  }

  /** Each SET clause the builder emits holds one placeholder. */
  lemma ClausesPlaceholders(update: MantraUpdate, now: Timestamp)
    ensures var fields := ClausesOf(Assignments(update, now));
      forall i :: 0 <= i < |fields| ==> Placeholders(fields[i]) == 1
  {
    var a := Assignments(update, now);
    KnownColumns(update, now);
    forall i | 0 <= i < |a| ensures Placeholders(Clause(a[i].column)) == 1 {
      assert a[i].column in {"title", "text", "goal", "updatedAt"};
    }
  }

  lemma WhereText()
    ensures " WHERE id = ? AND userId = ?" == (" WHERE id = " + "?") + (" AND userId = " + "?")
  {
  }

  /** The WHERE clause holds two placeholders. */
  lemma WherePlaceholders()
    ensures Placeholders(" WHERE id = ? AND userId = ?") == 2
  {
    WhereText();
    OnePlaceholderAfter(" WHERE id = ");
    OnePlaceholderAfter(" AND userId = ");
    PlaceholdersAppend(" WHERE id = " + "?", " AND userId = " + "?");
  }

  /** Placeholders in the fixed parts of the statement. */
  lemma HeadPlaceholders()
    ensures Placeholders("UPDATE mantras SET ") == 0
  {
    NoPlaceholders("UPDATE mantras SET ");
  }

  lemma SeparatorPlaceholders()
    ensures Placeholders(", ") == 0
  {
    NoPlaceholders(", ");
  }

  /** The statement the builder produces has exactly one placeholder per
      bound value: one per SET clause plus the two of the WHERE clause. */
  lemma PlaceholdersMatchValues(update: MantraUpdate, now: Timestamp, fields: seq<string>, values: seq<SqlValue>,
                                id: string, userId: string)
    requires fields == ClausesOf(Assignments(update, now))
    requires values == ValuesOf(Assignments(update, now)) + [Text(id), Text(userId)]
    ensures Placeholders(UpdateSql(fields)) == |values|
  {
    ClausesPlaceholders(update, now);
  }

  // ---------------------------------------------------------------------
  // The effect of the statement and of the follow-up read

  /** An UPDATE with its placeholders bound: the SET assignments and the two
      values of `WHERE id = ? AND userId = ?`. */
  datatype BoundUpdate = BoundUpdate(assignments: seq<Assignment>, whereId: SqlValue, whereUserId: SqlValue)

  /** The column a `column = ?` clause assigns. */
  function ColumnOf(clause: string): (column: Option<string>)
    ensures column.Some? ==> column.value + " = ?" == clause
  {
    if |clause| >= 4 && clause[|clause| - 4..] == " = ?" then Some(clause[..|clause| - 4]) else None
  }

  /** Positional binding of `values` to the statement's placeholders: the
      first ones to the SET clauses in order, the last two to `id` and
      `userId`. `None` when the counts disagree or a clause is malformed. */
  function Bind(fields: seq<string>, values: seq<SqlValue>): Option<BoundUpdate>
  {
    if |values| != |fields| + 2 || exists i :: 0 <= i < |fields| && ColumnOf(fields[i]).None? then None
    else Some(BoundUpdate(
      seq(|fields|, i requires 0 <= i < |fields| && ColumnOf(fields[i]).Some? =>
        Assignment(ColumnOf(fields[i]).value, values[i])),
      values[|fields|], values[|fields| + 1]))
  }

  /** The builder's lists bind back to exactly the assignments of the update
      and to the caller's `id` and `userId`: placeholders and values line up
      one for one, in order. */
  lemma BuiltListsBind(update: MantraUpdate, now: Timestamp, id: string, userId: string,
                       fields: seq<string>, values: seq<SqlValue>)
    requires fields == ClausesOf(Assignments(update, now))
    requires values == ValuesOf(Assignments(update, now)) + [Text(id), Text(userId)]
    ensures Bind(fields, values) == Some(BoundUpdate(Assignments(update, now), Text(id), Text(userId)))
  {
    var a := Assignments(update, now);
    assert forall i :: 0 <= i < |fields| ==> ColumnOf(fields[i]) == Some(a[i].column);
    var bound := Bind(fields, values);
    assert bound.Some?;
    assert bound.value.assignments == a;
  }

  /** Writing one value into one column of a row. */
  function SetColumn(m: Mantra, column: string, v: SqlValue): Mantra
  {
    match v
    case Text(s) =>
      if column == "title" then m.(title := s)
      else if column == "text" then m.(text := s)
      else m
    case Number(n) => if column == "goal" then m.(goal := n) else m
    case Time(t) => if column == "updatedAt" then m.(updatedAt := t) else m
  }

  function ApplyAssignments(m: Mantra, assignments: seq<Assignment>): Mantra
    decreases assignments
  {
    if assignments == [] then m
    else ApplyAssignments(SetColumn(m, assignments[0].column, assignments[0].value), assignments[1..])
  }

  /** `row` is the caller's mantra `id`. */
  predicate Owns(row: Mantra, id: string, userId: string)
  {
    row.id == id && row.userId == userId
  }

  predicate Matches(row: Mantra, stmt: BoundUpdate)
  {
    stmt.whereId == Text(row.id) && stmt.whereUserId == Text(row.userId)
  }

  /** The table after the UPDATE: each row matching both WHERE values gets
      the assignments, every other row is left as it was. */
  function Execute(table: seq<Mantra>, stmt: BoundUpdate): seq<Mantra>
  {
    seq(|table|, i requires 0 <= i < |table| =>
      if Matches(table[i], stmt) then ApplyAssignments(table[i], stmt.assignments) else table[i])
  }

  /** The row as the update request describes it: every defined field
      replaced, the others kept, `updatedAt` set to the update time. */
  function Patched(m: Mantra, update: MantraUpdate, now: Timestamp): Mantra
  {
    m.(title := if update.title.Some? then update.title.value else m.title,
       text := if update.text.Some? then update.text.value else m.text,
       goal := if update.goal.Some? then update.goal.value else m.goal,
       updatedAt := now)
  }

  lemma AssignmentsPatch(m: Mantra, update: MantraUpdate, now: Timestamp)
    ensures ApplyAssignments(m, Assignments(update, now)) == Patched(m, update, now)
  {
    var a := Assignments(update, now);
    var u := [Assignment("updatedAt", Time(now))];
    var g := if update.goal.Some? then [Assignment("goal", Number(update.goal.value))] else [];
    var x := if update.text.Some? then [Assignment("text", Text(update.text.value))] else [];
    var t := if update.title.Some? then [Assignment("title", Text(update.title.value))] else [];
    assert a == t + x + g + u;
    ApplyAssignmentsAppend(m, t, x + g + u);
    assert t + x + g + u == t + (x + (g + u));
    var m1 := ApplyAssignments(m, t);
    ApplyAssignmentsAppend(m1, x, g + u);
    var m2 := ApplyAssignments(m1, x);
    ApplyAssignmentsAppend(m2, g, u);
  }

  lemma {:induction false} ApplyAssignmentsAppend(m: Mantra, a: seq<Assignment>, b: seq<Assignment>)
    ensures ApplyAssignments(m, a + b) == ApplyAssignments(ApplyAssignments(m, a), b)
    decreases a
  {
    if a == [] {
      assert a + b == b;
    } else {
      assert (a + b)[1..] == a[1..] + b;
      ApplyAssignmentsAppend(SetColumn(m, a[0].column, a[0].value), a[1..], b);
    }
  }

  /** `SELECT * FROM mantras WHERE id = ? AND userId = ?` through `dbGet`:
      the first matching row, if any. */
  function FindMantra(table: seq<Mantra>, id: string, userId: string): (row: Option<Mantra>)
    ensures row.Some? <==> exists i :: 0 <= i < |table| && Owns(table[i], id, userId)
    ensures row.Some? ==> row.value in table && Owns(row.value, id, userId)
  {
    if table == [] then None
    else if Owns(table[0], id, userId) then Some(table[0])
    else
      var rest := FindMantra(table[1..], id, userId);
      assert forall i :: 1 <= i < |table| ==> table[i] == table[1..][i - 1];
      rest
  }

  /** `updateMantra`: build the lists, send the UPDATE, read the row back.
      The table stands for the store's mantras; `now` is the clock reading. */
  method UpdateMantraRow(table: seq<Mantra>, id: string, userId: string, updateData: MantraUpdate, now: Timestamp)
    returns (updated: seq<Mantra>, result: Option<Mantra>)
    ensures |updated| == |table|
    ensures forall i :: 0 <= i < |table| ==>
      updated[i] == if Owns(table[i], id, userId) then Patched(table[i], updateData, now) else table[i]
    ensures forall i :: 0 <= i < |table| && table[i].userId != userId ==> updated[i] == table[i]
    ensures result.Some? <==> exists i :: 0 <= i < |table| && Owns(table[i], id, userId)
    ensures result.Some? ==> Owns(result.value, id, userId) && result.value.updatedAt == now
    ensures result.Some? ==> exists i :: 0 <= i < |table| && Owns(table[i], id, userId)
                                        && result.value == Patched(table[i], updateData, now)
  {
    var fields, values := BuildUpdate(id, userId, updateData, now);
    var sql := UpdateSql(fields);
    PlaceholdersMatchValues(updateData, now, fields, values, id, userId);
    assert Placeholders(sql) == |values|;

    BuiltListsBind(updateData, now, id, userId, fields, values);
    var stmt := Bind(fields, values).value;
    updated := Execute(table, stmt);
    forall i | 0 <= i < |table|
      ensures updated[i] == if Owns(table[i], id, userId) then Patched(table[i], updateData, now) else table[i]
    {
      AssignmentsPatch(table[i], updateData, now);
    }

    result := FindMantra(updated, id, userId);
    assert forall i :: 0 <= i < |table| ==> (Owns(updated[i], id, userId) <==> Owns(table[i], id, userId));
  }

  /** `DELETE FROM mantras WHERE id = ? AND userId = ?`: only the caller's
      mantra `id` goes; every other row stays. */
  function DeleteMantraRows(table: seq<Mantra>, id: string, userId: string): (remaining: seq<Mantra>)
    ensures forall m :: m in remaining <==> m in table && !Owns(m, id, userId)
    ensures |remaining| <= |table|
  {
    if table == [] then []
    else
      var rest := DeleteMantraRows(table[1..], id, userId);
      if Owns(table[0], id, userId) then rest else [table[0]] + rest
  }
}
