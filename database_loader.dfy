/**
 * DatabaseLoader: the import of the Canadian Nutrient File's CSV tables. After the header,
 * every data line of a file is split into fields, each field becomes an SQL literal, and the
 * row becomes one `INSERT IGNORE` statement added to a JDBC batch; the batch is executed after
 * every thousandth row and once more at the end.
 *
 * The lines of a file are an input (as the reader returns them), `isNumeric` (which asks
 * `Double.parseDouble`) is a predicate passed in, and the JDBC statement is a class that
 * records the statements added to it and the batches executed.
 */
module DatabaseLoader {
  import opened Wrappers
  import opened JavaStrings

  // ----- the quote-aware split -----

  /** The number of double quotes in `s`. */
  function QuoteCount(s: string): nat {
    if s == [] then 0 else (if s[0] == '"' then 1 else 0) + QuoteCount(s[1..])
  }

  /**
   * Whether the char at `i` matches the separator regex `,(?=(?:[^"]*"[^"]*")*[^"]*$)`: a
   * comma followed, up to the end of the line, by an even number of double quotes.
   */
  predicate IsSeparator(line: string, i: int)
    requires 0 <= i < |line|
  {
    line[i] == ',' && QuoteCount(line[i + 1..]) % 2 == 0
  }

  /** `line.split(cvsSplitBy, -1)`: the pieces between separators, trailing empty ones kept. */
  function SplitFields(line: string): (fields: seq<string>)
    ensures |fields| >= 1
  {
    if line == [] then [[]]
    else
      var rest := SplitFields(line[1..]);
      if IsSeparator(line, 0) then [[]] + rest else [[line[0]] + rest[0]] + rest[1..]
  }

  /** The fields written back with a comma between each two. */
  function JoinFields(fields: seq<string>): string
    requires |fields| >= 1
  {
    if |fields| == 1 then fields[0] else fields[0] + "," + JoinFields(fields[1..])
  }

  lemma JoinFieldsCons(c: char, fields: seq<string>)
    requires |fields| >= 1
    ensures JoinFields([[c] + fields[0]] + fields[1..]) == [c] + JoinFields(fields)
  {
    var g := [[c] + fields[0]] + fields[1..];
    assert g[1..] == fields[1..];
  }

  /** Splitting loses nothing: the fields joined by commas give the line back. */
  lemma {:induction false} JoinSplitFields(line: string)
    ensures JoinFields(SplitFields(line)) == line
  {
    if line != [] {
      var rest := SplitFields(line[1..]);
      JoinSplitFields(line[1..]);
      if IsSeparator(line, 0) {
        assert ([[]] + rest)[1..] == rest;
        assert line == [line[0]] + line[1..];
      } else {
        JoinFieldsCons(line[0], rest);
        assert line == [line[0]] + line[1..];
      }
    }
  }

  lemma {:induction false} NoQuotesNoCount(s: string)
    requires '"' !in s
    ensures QuoteCount(s) == 0
  {
    if s != [] {
      assert forall c :: c in s[1..] ==> c in s;
      NoQuotesNoCount(s[1..]);
    }
  }

  /** In a line without double quotes every comma separates, as in a plain `split(",", -1)`. */
  lemma {:induction false} SplitFieldsWithoutQuotes(line: string)
    requires '"' !in line
    ensures SplitFields(line) == SplitAtChar(line, ',')
  {
    if line != [] {
      assert forall c :: c in line[1..] ==> c in line;
      NoQuotesNoCount(line[1..]);
      SplitFieldsWithoutQuotes(line[1..]);
    }
  }

  // ----- skipped lines and rows -----

  /** Lines skipped before splitting: blank after trimming, or just a comma. */
  predicate SkippedLine(line: string) {
    IsBlank(line) || Trim(line) == ","
  }

  /** Rows skipped after splitting: the primary key (the first field) is blank or "null" in any case. */
  predicate MissingKey(data: seq<string>)
    requires |data| >= 1
  {
    IsBlank(data[0]) || EqualsIgnoreCase(Trim(data[0]), "null")
  }

  // ----- one value -----

  /** Column `i` of a row, trimmed; the empty string past the end of the row. */
  function FieldAt(data: seq<string>, i: int): string {
    if 0 <= i < |data| then Trim(data[i]) else ""
  }

  /** A value longer than one char that starts and ends with a double quote loses those two chars. */
  function StripQuotes(value: string): (r: string)
    ensures |value| > 1 && value[0] == '"' && value[|value| - 1] == '"' ==> value == "\"" + r + "\""
    ensures !(|value| > 1 && value[0] == '"' && value[|value| - 1] == '"') ==> r == value
  {
    if |value| > 1 && value[0] == '"' && value[|value| - 1] == '"' then value[1..|value| - 1] else value
  }

  /** `value.replace("'", "''")`. */
  function EscapeQuotes(value: string): string {
    Replace(value, "'", "''")
  }

  /** The SQL literal of one field: NULL, the value itself when numeric, else a quoted string. */
  function EncodeValue(field: string, isNumeric: string -> bool): string {
    var value := EscapeQuotes(StripQuotes(field));
    if value == [] || EqualsIgnoreCase(value, "null") then "NULL"
    else if isNumeric(value) then value
    else "'" + value + "'"
  }

  /** Every single quote is one of a pair of adjacent ones. */
  predicate QuotesDoubled(s: string)
    decreases |s|
  {
    if s == [] then true
    else if s[0] == '\'' then |s| >= 2 && s[1] == '\'' && QuotesDoubled(s[2..])
    else QuotesDoubled(s[1..])
  }

  /** Reading a quoted SQL string back: each pair of single quotes becomes one. */
  function UndoubleQuotes(s: string): string
    decreases |s|
  {
    if s == [] then []
    else if |s| >= 2 && s[0] == '\'' && s[1] == '\'' then "'" + UndoubleQuotes(s[2..])
    else [s[0]] + UndoubleQuotes(s[1..])
  }

  /** Escaping doubles every single quote, so a quoted value cannot end its literal early. */
  lemma {:induction false} EscapeDoublesQuotes(s: string)
    ensures QuotesDoubled(EscapeQuotes(s))
  {
    if s != [] {
      assert s == [s[0]] + s[1..];
      ReplaceCharOfCons('\'', s[0], s[1..], "''");
      EscapeDoublesQuotes(s[1..]);
      var e := EscapeQuotes(s[1..]);
      if s[0] == '\'' {
        assert EscapeQuotes(s) == "''" + e;
        assert ("''" + e)[2..] == e;
      } else {
        assert EscapeQuotes(s) == [s[0]] + e;
        assert ([s[0]] + e)[1..] == e;
      }
    }
  }

  /** Undoubling undoes escaping. */
  lemma {:induction false} UndoubleEscaped(s: string)
    ensures UndoubleQuotes(EscapeQuotes(s)) == s
  {
    if s != [] {
      assert s == [s[0]] + s[1..];
      ReplaceCharOfCons('\'', s[0], s[1..], "''");
      UndoubleEscaped(s[1..]);
      var e := EscapeQuotes(s[1..]);
      if s[0] == '\'' {
        assert EscapeQuotes(s) == "''" + e;
        assert ("''" + e)[2..] == e;
      } else {
        assert EscapeQuotes(s) == [s[0]] + e;
        assert ([s[0]] + e)[1..] == e;
      }
    }
  }

  lemma {:induction false} EscapeKeepsEmpty(s: string)
    ensures EscapeQuotes(s) == [] <==> s == []
  {
    if s != [] {
      assert s == [s[0]] + s[1..];
      ReplaceCharOfCons('\'', s[0], s[1..], "''");
    }
  }

  /**
   * The three forms of a value: NULL exactly when the field is empty, or "null" in any case,
   * once its surrounding double quotes are gone; otherwise the escaped value, bare when
   * numeric and between single quotes when not, and a quoted value reads back as the field
   * without its double quotes.
   */
  lemma EncodeValueForms(field: string, isNumeric: string -> bool)
    ensures var value := EscapeQuotes(StripQuotes(field));
      && (EncodeValue(field, isNumeric) == "NULL" <==> StripQuotes(field) == [] || EqualsIgnoreCase(value, "null"))
      && (value != [] && !EqualsIgnoreCase(value, "null") && isNumeric(value) ==> EncodeValue(field, isNumeric) == value)
      && (value != [] && !EqualsIgnoreCase(value, "null") && !isNumeric(value) ==>
            var r := EncodeValue(field, isNumeric);
            |r| >= 2 && r[0] == '\'' && r[|r| - 1] == '\'' && QuotesDoubled(r[1..|r| - 1])
            && UndoubleQuotes(r[1..|r| - 1]) == StripQuotes(field))
  {
    var value := EscapeQuotes(StripQuotes(field));
    EscapeKeepsEmpty(StripQuotes(field));
    EscapeDoublesQuotes(StripQuotes(field));
    UndoubleEscaped(StripQuotes(field));
    if value != [] && EqualsIgnoreCase(value, "null") == false && isNumeric(value) {
      assert EncodeValue(field, isNumeric) == value;
      if value == "NULL" {
        assert EqualsIgnoreCase(value, "null");
      }
    }
    if value != [] && !EqualsIgnoreCase(value, "null") && !isNumeric(value) {
      var r := "'" + value + "'";
      assert r[1..|r| - 1] == value;
    }
  }

  // ----- one INSERT statement -----

  /** The literals of a row, one per column; missing trailing fields are encoded as empty. */
  function Values(data: seq<string>, numColumns: nat, isNumeric: string -> bool): (values: seq<string>)
    ensures |values| == numColumns
  {
    seq(numColumns, i => EncodeValue(FieldAt(data, i), isNumeric))
  }

  /** The first `values` of a list of `numColumns`, each followed by ", " unless it is the last column. */
  function Listed(values: seq<string>, numColumns: int): string {
    if values == [] then []
    else
      var n := |values| - 1;
      Listed(values[..n], numColumns) + values[n] + (if n < numColumns - 1 then ", " else "")
  }

  /** The values separated by ", ". */
  function JoinValues(values: seq<string>): string {
    Listed(values, |values|)
  }

  function InsertPrefix(tableName: string): string {
    "INSERT IGNORE INTO " + tableName + " VALUES ("
  }

  /** The statement for a row. */
  function InsertStatement(tableName: string, values: seq<string>): string {
    InsertPrefix(tableName) + JoinValues(values) + ")"
  }

  /** `JoinValues` puts ", " between each value and the next, and nothing after the last. */
  lemma JoinValuesCons(v: string, values: seq<string>)
    requires values != []
    ensures JoinValues([v] + values) == v + ", " + JoinValues(values)
  {
    ListedCons(v, values, |values|);
  }

  lemma {:induction false} ListedCons(v: string, values: seq<string>, numColumns: int)
    requires numColumns >= 1
    ensures Listed([v] + values, numColumns + 1) == v + ", " + Listed(values, numColumns)
  {
    var s := [v] + values;
    if values != [] {
      var n := |values| - 1;
      assert s[..|s| - 1] == [v] + values[..n];
      ListedCons(v, values[..n], numColumns);
      assert s[|s| - 1] == values[n];
    } else {
      assert s[..0] == [];
    }
  }

  /** The body of the column loop: column `i` of the row as a literal. */
  method EncodeField(data: seq<string>, i: nat, isNumeric: string -> bool) returns (literal: string)
    ensures literal == EncodeValue(FieldAt(data, i), isNumeric)
  {
    var value := if i < |data| then Trim(data[i]) else "";
    ghost var field := value;
    assert field == FieldAt(data, i);
    if |value| > 1 && value[0] == '"' && value[|value| - 1] == '"' {
      value := value[1..|value| - 1];
    }
    assert value == StripQuotes(field);
    value := Replace(value, "'", "''");
    assert value == EscapeQuotes(StripQuotes(field));
    if value == [] || EqualsIgnoreCase(value, "null") {
      literal := "NULL";
    } else if isNumeric(value) {
      literal := value;
    } else {
      literal := "'" + value + "'";
    }
  }

  /** One more value listed: it follows the earlier ones, with ", " after it unless it is the last column. */
  lemma ListedSnoc(values: seq<string>, i: nat, numColumns: int)
    requires i < |values|
    ensures Listed(values[..i + 1], numColumns) ==
      Listed(values[..i], numColumns) + (values[i] + (if i < numColumns - 1 then ", " else ""))
  {
    assert values[..i + 1][..i] == values[..i];
  }

  /** The loop step of `BuildInsert`: appending column `i`'s literal, and ", " unless it is the last column. */
  lemma ListedStep(prefix: string, values: seq<string>, i: nat, numColumns: int, literal: string)
    requires i < |values| && values[i] == literal
    ensures i < numColumns - 1 ==>
      prefix + Listed(values[..i + 1], numColumns) == prefix + Listed(values[..i], numColumns) + literal + ", "
    ensures !(i < numColumns - 1) ==>
      prefix + Listed(values[..i + 1], numColumns) == prefix + Listed(values[..i], numColumns) + literal
  {
    ListedSnoc(values, i, numColumns);
    var before := Listed(values[..i], numColumns);
    if i < numColumns - 1 {
      assert prefix + (before + (literal + ", ")) == prefix + before + literal + ", ";
    } else {
      assert literal + "" == literal;
      assert prefix + (before + literal) == prefix + before + literal;
    }
  }

  /** The loop of `loadData` that builds one row's statement, column by column. */
  method BuildInsert(tableName: string, data: seq<string>, numColumns: nat, isNumeric: string -> bool) returns (sql: string)
    ensures sql == InsertStatement(tableName, Values(data, numColumns, isNumeric))
  {
    ghost var values := Values(data, numColumns, isNumeric);
    ghost var prefix := InsertPrefix(tableName);
    sql := "INSERT IGNORE INTO " + tableName + " VALUES (";
    assert sql == prefix + Listed(values[..0], numColumns);
    for i := 0 to numColumns
      invariant sql == prefix + Listed(values[..i], numColumns)
    {
      var literal := EncodeField(data, i, isNumeric);
      ListedStep(prefix, values, i, numColumns, literal);
      sql := sql + literal;
      if i < numColumns - 1 {
        sql := sql + ", ";
      }
    }
    assert values[..numColumns] == values;
    sql := sql + ")";
  }

  /** A row of a table with `numColumns` columns gets that many values, and the missing ones are NULL. */
  lemma ValuesPadWithNull(data: seq<string>, numColumns: nat, isNumeric: string -> bool, i: int)
    requires |data| <= i < numColumns
    ensures Values(data, numColumns, isNumeric)[i] == "NULL"
  {
    assert FieldAt(data, i) == "";
    assert StripQuotes("") == "";
    EscapeKeepsEmpty("");
  }

  // ----- the rows of a file -----

  /** The statement for one data line, or None when the line or its row is skipped. */
  function RowStatement(line: string, tableName: string, numColumns: nat, isNumeric: string -> bool): Option<string> {
    if SkippedLine(line) then None
    else
      var data := SplitFields(line);
      if MissingKey(data) then None
      else Some(InsertStatement(tableName, Values(data, numColumns, isNumeric)))
  }

  /** The statements for the data lines, in order. */
  function Statements(dataLines: seq<string>, tableName: string, numColumns: nat, isNumeric: string -> bool): seq<string> {
    if dataLines == [] then []
    else
      var n := |dataLines| - 1;
      var before := Statements(dataLines[..n], tableName, numColumns, isNumeric);
      match RowStatement(dataLines[n], tableName, numColumns, isNumeric)
      case None => before
      case Some(sql) => before + [sql]
  }

  /** The lines after the header. */
  function DataLines(lines: seq<string>): seq<string> {
    if lines == [] then [] else lines[1..]
  }

  // ----- batches -----

  lemma MulLe(x: int, y: int, s: int)
    requires x <= y && s > 0
    ensures x * s <= y * s
  {
    assert y * s - x * s == (y - x) * s;
  }

  lemma DivModUnique(a: int, s: int, q: int, r: int)
    requires s > 0 && a == q * s + r && 0 <= r < s
    ensures a / s == q && a % s == r
  {
    var q0, r0 := a / s, a % s;
    assert (q + 1) * s == q * s + s;
    assert (q0 + 1) * s == q0 * s + s;
    if q0 > q {
      MulLe(q + 1, q0, s);
      assert false;
    } else if q0 < q {
      MulLe(q0 + 1, q, s);
      assert false;
    }
  }

  /** Taking one `s` away lowers the quotient by one and keeps the remainder. */
  lemma DivModSub(a: int, s: int)
    requires a >= s > 0
    ensures (a - s) % s == a % s && (a - s) / s == a / s - 1
  {
    var q, r := a / s, a % s;
    assert a - s == (q - 1) * s + r;
    DivModUnique(a - s, s, q - 1, r);
  }

  const BatchSize: nat := 1000

  /**
   * The batches executed when `xs` are added one at a time to a batch already holding
   * `pending`, executing it after every `size`-th addition and once more at the end.
   */
  function Batches<T>(pending: seq<T>, xs: seq<T>, size: nat): (r: seq<seq<T>>)
    requires size > 0
    ensures |r| >= 1
    decreases |xs|
  {
    if |xs| < size then [pending + xs]
    else [pending + xs[..size]] + Batches([], xs[size..], size)
  }

  /** The batches one after the other. */
  function Flatten<T>(batches: seq<seq<T>>): seq<T> {
    if batches == [] then [] else batches[0] + Flatten(batches[1..])
  }

  /** Batching loses, repeats and reorders nothing. */
  lemma {:induction false} BatchesFlatten<T>(pending: seq<T>, xs: seq<T>, size: nat)
    requires size > 0
    ensures Flatten(Batches(pending, xs, size)) == pending + xs
    decreases |xs|
  {
    var b := Batches(pending, xs, size);
    if |xs| < size {
      assert b[1..] == [];
    } else {
      BatchesFlatten([], xs[size..], size);
      assert b[1..] == Batches([], xs[size..], size);
      assert xs == xs[..size] + xs[size..];
    }
  }

  /**
   * There is one batch per `size` rows, plus the final one; every batch but the last holds
   * exactly `size` of the rows (the first also what was pending before).
   */
  lemma {:induction false} BatchesShape<T>(pending: seq<T>, xs: seq<T>, size: nat)
    requires size > 0
    ensures |Batches(pending, xs, size)| == |xs| / size + 1
    ensures forall k :: 0 <= k < |Batches(pending, xs, size)| - 1 ==>
      |Batches(pending, xs, size)[k]| == size + (if k == 0 then |pending| else 0)
    ensures |Batches(pending, xs, size)[|Batches(pending, xs, size)| - 1]| ==
      |xs| % size + (if |xs| < size then |pending| else 0)
    decreases |xs|
  {
    if |xs| < size {
      DivModUnique(|xs|, size, 0, |xs|);
    } else {
      BatchesShape([], xs[size..], size);
      DivModSub(|xs|, size);
    }
  }

  /** Adding one more row: it joins the open batch, which is executed when the count reaches a multiple of `size`. */
  lemma {:induction false} BatchesSnoc<T>(pending: seq<T>, xs: seq<T>, x: T, size: nat)
    requires size > 0
    ensures var b := Batches(pending, xs, size);
      Batches(pending, xs + [x], size) ==
        b[..|b| - 1] + (if (|xs| + 1) % size == 0 then [b[|b| - 1] + [x], []] else [b[|b| - 1] + [x]])
    decreases |xs|
  {
    var b := Batches(pending, xs, size);
    var ys := xs + [x];
    if |xs| + 1 < size {
      DivModUnique(|xs| + 1, size, 0, |xs| + 1);
      assert b == [pending + xs] && b[..0] == [];
      assert (pending + xs) + [x] == pending + ys;
    } else if |xs| + 1 == size {
      DivModUnique(|xs| + 1, size, 1, 0);
      assert ys[..size] == ys && ys[size..] == [];
      var e: seq<T> := [];
      assert e + e == e && ys[size..] == e;
      assert Batches(e, e, size) == [e];
      assert b == [pending + xs] && b[..0] == [];
      assert (pending + xs) + [x] == pending + ys;
    } else {
      BatchesSnoc([], xs[size..], x, size);
      assert ys[..size] == xs[..size];
      assert ys[size..] == xs[size..] + [x];
      DivModSub(|xs| + 1, size);
    }
  }

  /** The JDBC statement: the statements added since the last execution, and every batch executed. */
  class StatementBatch {
    var pending: seq<string>
    var executed: seq<seq<string>>

    constructor()
      ensures pending == [] && executed == []
    {
      pending := [];
      executed := [];
    }

    /** `addBatch(sql)`. */
    method AddBatch(sql: string)
      modifies this
      ensures pending == old(pending) + [sql] && executed == old(executed)
    {
      pending := pending + [sql];
    }

    /** `executeBatch()`: the pending statements run as one batch. */
    method ExecuteBatch()
      modifies this
      ensures executed == old(executed) + [old(pending)] && pending == []
    {
      executed := executed + [pending];
      pending := [];
    }
  }

  /** The statements after one more data line: that line's statement, if it has one, comes last. */
  lemma StatementsStep(lines: seq<string>, k: nat, tableName: string, numColumns: nat, isNumeric: string -> bool)
    requires 1 <= k < |lines|
    ensures Statements(lines[1..k + 1], tableName, numColumns, isNumeric) ==
      Statements(lines[1..k], tableName, numColumns, isNumeric) +
      (match RowStatement(lines[k], tableName, numColumns, isNumeric) case None => [] case Some(sql) => [sql])
  {
    var d := lines[1..k + 1];
    assert d[..|d| - 1] == lines[1..k];
    assert d[|d| - 1] == lines[k];
  }

  /**
   * The batches executed so far, and the open one, are those of `done` added one at a time to a
   * batch holding `p0`, after the batches `e0` executed earlier.
   */
  ghost predicate BatchedSoFar(executed: seq<seq<string>>, pending: seq<string>, e0: seq<seq<string>>,
                               p0: seq<string>, done: seq<string>) {
    executed + [pending] == e0 + Batches(p0, done, BatchSize)
  }

  /** Adding a statement, and executing the batch when the count reaches a multiple of 1000, keeps the batches in step. */
  lemma BatchedStep(executed: seq<seq<string>>, pending: seq<string>, e0: seq<seq<string>>,
                    p0: seq<string>, done: seq<string>, sql: string)
    requires BatchedSoFar(executed, pending, e0, p0, done)
    ensures (|done| + 1) % BatchSize != 0 ==> BatchedSoFar(executed, pending + [sql], e0, p0, done + [sql])
    ensures (|done| + 1) % BatchSize == 0 ==> BatchedSoFar(executed + [pending + [sql]], [], e0, p0, done + [sql])
  {
    var b := Batches(p0, done, BatchSize);
    BatchesSnoc(p0, done, sql, BatchSize);
    var n := |executed|;
    assert (executed + [pending])[..n] == executed && (executed + [pending])[n] == pending;
    assert executed == e0 + b[..|b| - 1] && pending == b[|b| - 1];
  }

  /**
   * `loadData(stmt, fileName, tableName, numColumns)` over the lines of the file: one
   * statement per kept data line, in order, executed in batches of 1000 and a last batch
   * with the rest; the count is the number of statements added.
   */
  method LoadData(stmt: StatementBatch, lines: seq<string>, tableName: string, numColumns: nat,
                  isNumeric: string -> bool) returns (count: nat)
    modifies stmt
    ensures count == |Statements(DataLines(lines), tableName, numColumns, isNumeric)|
    ensures stmt.pending == []
    ensures stmt.executed ==
      old(stmt.executed) + Batches(old(stmt.pending), Statements(DataLines(lines), tableName, numColumns, isNumeric), BatchSize)
  {
    count := 0;
    ghost var p0 := stmt.pending;
    assert p0 + [] == p0;
    assert Batches(p0, [], BatchSize) == [p0];
    if lines == [] {
      stmt.ExecuteBatch();
      return;
    }
    assert lines[1..1] == [];
    for k := 1 to |lines|
      invariant count == |Statements(lines[1..k], tableName, numColumns, isNumeric)|
      invariant BatchedSoFar(stmt.executed, stmt.pending, old(stmt.executed), p0,
        Statements(lines[1..k], tableName, numColumns, isNumeric))
    {
      ghost var done := Statements(lines[1..k], tableName, numColumns, isNumeric);
      StatementsStep(lines, k, tableName, numColumns, isNumeric);
      var line := lines[k];
      if !(IsBlank(line) || Trim(line) == ",") {
        var data := SplitFields(line);
        if !(IsBlank(data[0]) || EqualsIgnoreCase(Trim(data[0]), "null")) {
          var sql := BuildInsert(tableName, data, numColumns, isNumeric);
          assert RowStatement(line, tableName, numColumns, isNumeric) == Some(sql);
          BatchedStep(stmt.executed, stmt.pending, old(stmt.executed), p0, done, sql);
          stmt.AddBatch(sql);
          count := count + 1;
          if count % BatchSize == 0 {
            stmt.ExecuteBatch();
          }
        } else {
          assert RowStatement(line, tableName, numColumns, isNumeric) == None;
          assert done + [] == done;
        }
      } else {
        assert RowStatement(line, tableName, numColumns, isNumeric) == None;
        assert done + [] == done;
      }
    }
    assert lines[1..|lines|] == DataLines(lines);
    stmt.ExecuteBatch();
  }
}
