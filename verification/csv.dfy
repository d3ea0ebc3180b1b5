/** Comma-separated values: what a row reads as, by recursion, the loops that read
    it, and which rows are read at all. */
module Rows {
  import opened Base
  import opened Text

  datatype Problem = DoesNotEnd | TextFollows

  /** What a quoted value is, once `before` was read of it. */
  function Following(
      before: string, r: Result<(string, Option<string>), Problem>): Result<(string, Option<string>), Problem> {
    match r
    case Ok((value, rest)) => Ok((before + value, rest))
    case Err(problem) => Err(problem)
  }

  lemma FollowingTwice(a: string, b: string, r: Result<(string, Option<string>), Problem>)
    ensures Following(a, Following(b, r)) == Following(a + b, r)
    ensures Following("", r) == r
  {
    if r.Ok? { assert a + (b + r.value.0) == a + b + r.value.0 && "" + r.value.0 == r.value.0; }
  }

  /** What a row is, once its first values were read. */
  function Preceded(values: seq<string>, r: Result<seq<string>, Problem>): Result<seq<string>, Problem> {
    match r
    case Ok(more) => Ok(values + more)
    case Err(problem) => Err(problem)
  }

  lemma PrecededTwice(a: seq<string>, b: seq<string>, r: Result<seq<string>, Problem>)
    ensures Preceded(a, Preceded(b, r)) == Preceded(a + b, r)
    ensures Preceded([], r) == r
  {
    if r.Ok? { assert a + (b + r.value) == a + b + r.value && [] + r.value == r.value; }
  }

  /** What is read once a quote was opened, up to the comma that ends the value or
      the end of the row. */
  function Quoted(text: string): Result<(string, Option<string>), Problem>
    decreases |text|
  {
    match IndexOf(text, '"')
    case None => Err(DoesNotEnd)
    case Some(at) =>
      var before, after := text[..at], text[at + 1..];
      if after == "" then Ok((before, None))
      else if after[0] == '"' then Following(before + "\"", Quoted(after[1..]))
      else if after[0] == ',' then Ok((before, Some(after[1..])))
      else Err(TextFollows)
  }

  lemma {:induction false} QuotedIsShorter(text: string)
    ensures Quoted(text).Ok? && Quoted(text).value.1.Some? ==> |Quoted(text).value.1.value| < |text|
    decreases |text|
  {
    match IndexOf(text, '"')
    case None =>
    case Some(at) =>
      var after := text[at + 1..];
      if after != "" && after[0] == '"' { QuotedIsShorter(after[1..]); }
  }

  /** One value off the front of a row. What is left is shorter, which bounds the
      recursion below. */
  function FirstValue(row: string): (r: Result<(string, Option<string>), Problem>)
    ensures r.Ok? && r.value.1.Some? ==> |r.value.1.value| < |row|
  {
    if row != "" && row[0] == '"' then
      QuotedIsShorter(row[1..]);
      Quoted(row[1..])
    else
      match IndexOf(row, ',')
      case Some(at) => Ok((row[..at], Some(row[at + 1..])))
      case None => Ok((row, None))
  }

  /** All of a row by recursion, to which the loop is compared. */
  function Values(row: string): Result<seq<string>, Problem>
    decreases |row|
  {
    match FirstValue(row)
    case Err(problem) => Err(problem)
    case Ok((value, None)) => Ok([value])
    case Ok((value, Some(after))) => Preceded([value], Values(after))
  }

  /** The loop over what is quoted: it takes some of the rest at every turn. */
  method ReadQuoted(text: string) returns (r: Result<(string, Option<string>), Problem>)
    ensures r == Quoted(text)
  {
    var value, rest := "", text;
    FollowingTwice("", "", Quoted(text));
    while true
      invariant Quoted(text) == Following(value, Quoted(rest))
      decreases |rest|
    {
      var at := IndexOf(rest, '"');
      if at.None? { return Err(DoesNotEnd); }
      var before, after := rest[..at.value], rest[at.value + 1..];
      ghost var so := value;
      value := value + before;
      if after != "" && after[0] == '"' {
        value := value + "\"";
        rest := after[1..];
        assert value == so + (before + "\"");
        FollowingTwice(so, before + "\"", Quoted(rest));
      } else if after == "" {
        return Ok((value, None));
      } else if after[0] == ',' {
        return Ok((value, Some(after[1..])));
      } else {
        return Err(TextFollows);
      }
    }
  }

  /** The loop over the values. */
  method ReadValues(row: string) returns (r: Result<seq<string>, Problem>)
    ensures r == Values(row)
  {
    var values: seq<string>, rest := [], row;
    PrecededTwice([], [], Values(row));
    while true
      invariant Values(row) == Preceded(values, Values(rest))
      decreases |rest|
    {
      ghost var first := FirstValue(rest);
      var value: string, after: Option<string>;
      if rest != "" && rest[0] == '"' {
        var quoted := ReadQuoted(rest[1..]);
        if quoted.Err? { return Err(quoted.error); }
        value, after := quoted.value.0, quoted.value.1;
      } else {
        var comma := IndexOf(rest, ',');
        value := if comma.Some? then rest[..comma.value] else rest;
        after := if comma.Some? then Some(rest[comma.value + 1..]) else None;
      }
      assert first == Ok((value, after));
      ghost var so := values;
      values := values + [value];
      if after.None? { return Ok(values); }
      rest := after.value;
      PrecededTwice(so, [value], Values(rest));
    }
  }

  // ---------------------------------------------------------------- round trip

  /** A value with each quote in it written twice. */
  function Doubled(value: string): string {
    if value == "" then "" else (if value[0] == '"' then "\"\"" else [value[0]]) + Doubled(value[1..])
  }

  /** A value as it is written: in quotes, or bare. */
  datatype Cell = Cell(value: string, inQuotes: bool)

  function Written(cell: Cell): string { if cell.inQuotes then "\"" + Doubled(cell.value) + "\"" else cell.value }

  /** A bare value has no comma, and does not begin with a quote. */
  predicate CanWrite(cell: Cell) {
    cell.inQuotes || (',' !in cell.value && (cell.value != "" ==> cell.value[0] != '"'))
  }

  function Row(cells: seq<Cell>): string
    requires cells != []
  {
    if |cells| == 1 then Written(cells[0]) else Written(cells[0]) + "," + Row(cells[1..])
  }

  function ValuesOf(cells: seq<Cell>): seq<string> {
    if cells == [] then [] else [cells[0].value] + ValuesOf(cells[1..])
  }

  lemma QuotedOneMore(c: char, text: string)
    requires c != '"'
    ensures Quoted([c] + text) == Following([c], Quoted(text))
  {
    var all := [c] + text;
    assert all[1..] == text;
    assert IndexOf(all, '"') == if IndexOf(text, '"').Some? then Some(IndexOf(text, '"').value + 1) else None;
    hide IndexOf;
    match IndexOf(text, '"')
    case None =>
    case Some(at) =>
      assert all[..at + 1] == [c] + text[..at] && all[at + 2..] == text[at + 1..];
      var after := text[at + 1..];
      if after != "" && after[0] == '"' {
        FollowingTwice([c], text[..at] + "\"", Quoted(after[1..]));
        assert [c] + text[..at] + "\"" == [c] + (text[..at] + "\"");
      }
  }

  /** What follows a value: nothing, or a comma and the rest of the row. */
  function After(tail: Option<string>): string { if tail.None? then "" else "," + tail.value }

  /** A closing quote with what may stand after it. */
  function Closing(tail: Option<string>): string { "\"" + After(tail) }

  lemma EmptyReadsBack(tail: Option<string>)
    ensures Quoted(Closing(tail)) == Ok(("", tail))
  {
    var text := Closing(tail);
    assert text[0] == '"' && text[..0] == "" && text[1..] == After(tail);
    if tail.Some? { assert text[1..][1..] == tail.value; }
  }

  lemma TwoQuotes(rest: string)
    ensures Quoted("\"\"" + rest) == Following("\"", Quoted(rest))
  {
    var text := "\"\"" + rest;
    assert text[0] == '"' && text[..0] == "" && text[1..][0] == '"' && text[1..][1..] == rest;
    assert "" + "\"" == "\"";
  }

  lemma DoubledIs(value: string, tail: string)
    requires value != ""
    ensures Doubled(value) + tail == (if value[0] == '"' then "\"\"" else [value[0]]) + (Doubled(value[1..]) + tail)
  {
  }

  lemma {:induction false} QuotedReadsBack(value: string, tail: Option<string>)
    ensures Quoted(Doubled(value) + Closing(tail)) == Ok((value, tail))
  {
    if value == "" {
      EmptyReadsBack(tail);
      assert Doubled(value) + Closing(tail) == Closing(tail);
    } else {
      hide Quoted, Closing, Doubled;
      QuotedReadsBack(value[1..], tail);
      DoubledIs(value, Closing(tail));
      var rest := Doubled(value[1..]) + Closing(tail);
      assert value == [value[0]] + value[1..];
      if value[0] == '"' { TwoQuotes(rest); } else { QuotedOneMore(value[0], rest); }
    }
  }

  lemma CommaIsFirst(value: string, tail: string)
    requires ',' !in value
    ensures IndexOf(value + "," + tail, ',') == Some(|value|)
  {
    var all := value + "," + tail;
    assert all[|value|] == ',';
    assert forall i :: 0 <= i < |value| ==> all[i] == value[i] && value[i] in value;
    var at := IndexOf(all, ',').value;
  }

  lemma CellReadsBack(cell: Cell, tail: Option<string>)
    requires CanWrite(cell)
    ensures FirstValue(Written(cell) + After(tail)) == Ok((cell.value, tail))
  {
    if cell.inQuotes {
      var row := Written(cell) + After(tail);
      assert row[0] == '"' && row[1..] == Doubled(cell.value) + Closing(tail);
      QuotedReadsBack(cell.value, tail);
      hide Quoted, Doubled;
    } else {
      BareReadsBack(cell.value, tail);
    }
  }

  lemma BareReadsBack(value: string, tail: Option<string>)
    requires CanWrite(Cell(value, false))
    ensures FirstValue(value + After(tail)) == Ok((value, tail))
  {
    hide IndexOf, Quoted;
    var row := value + After(tail);
    match tail
    case None => assert row == value;
    case Some(rest) =>
      assert row == value + "," + rest;
      CommaIsFirst(value, rest);
      assert row[..|value|] == value && row[|value| + 1..] == rest;
      assert row[0] == if value == "" then ',' else value[0];
  }

  /** Reading a row undoes writing it, for any values but none. */
  lemma {:induction false} ReadingUndoesWriting(cells: seq<Cell>)
    requires cells != [] && forall i :: 0 <= i < |cells| ==> CanWrite(cells[i])
    ensures Values(Row(cells)) == Ok(ValuesOf(cells))
  {
    if |cells| == 1 {
      CellReadsBack(cells[0], None);
      assert Written(cells[0]) + After(None) == Row(cells);
      assert cells[1..] == [];
      assert ValuesOf(cells) == [cells[0].value];
    } else {
      var tail := Row(cells[1..]);
      ReadingUndoesWriting(cells[1..]);
      CellReadsBack(cells[0], Some(tail));
      assert Written(cells[0]) + After(Some(tail)) == Row(cells);
    }
  }

  // ------------------------------------------------------ which rows are read

  lemma {:induction false} DoubledAfterBare(before: string, rest: string)
    requires '"' !in before
    ensures Doubled(before + rest) == before + Doubled(rest)
  {
    if before == "" {
      assert before + rest == rest;
    } else {
      DoubledAfterBare(before[1..], rest);
      assert (before + rest)[1..] == before[1..] + rest;
      assert before == [before[0]] + before[1..];
    }
  }

  /** What reads as quoted is the value with its quotes doubled, and its end. */
  lemma {:induction false} QuotedIsWritten(text: string, value: string, tail: Option<string>)
    requires Quoted(text) == Ok((value, tail))
    ensures text == Doubled(value) + Closing(tail)
    decreases |text|
  {
    var at := IndexOf(text, '"').value;
    var before, after := text[..at], text[at + 1..];
    assert text == before + "\"" + after;
    hide IndexOf, Doubled, Closing;
    if after != "" && after[0] == '"' {
      var more := Quoted(after[1..]).value.0;
      QuotedIsWritten(after[1..], more, tail);
      assert after == "\"" + after[1..];
      hide *;
      DoubledGoesOn(before, more, Closing(tail));
    } else {
      EndIsWritten(before, after, tail);
    }
  }

  lemma DoubledGoesOn(before: string, more: string, end: string)
    requires '"' !in before
    ensures before + "\"" + ("\"" + (Doubled(more) + end)) == Doubled(before + "\"" + more) + end
  {
    DoubledAfterBare(before, "\"" + more);
    assert before + "\"" + more == before + ("\"" + more);
    assert Doubled("\"" + more) == "\"\"" + Doubled(more) by { assert ("\"" + more)[1..] == more; }
    hide Doubled;
    assert before + ("\"\"" + Doubled(more)) + end == before + "\"" + ("\"" + (Doubled(more) + end));
  }

  lemma EndIsWritten(before: string, after: string, tail: Option<string>)
    requires '"' !in before
    requires if after == "" then tail == None else after[0] == ',' && tail == Some(after[1..])
    ensures before + "\"" + after == Doubled(before) + Closing(tail)
  {
    DoubledAfterBare(before, "");
    assert before + "" == before && before + Doubled("") == before;
    if after != "" { assert after == "," + after[1..]; }
  }

  lemma FirstIsWritten(row: string) returns (cell: Cell)
    requires FirstValue(row).Ok?
    ensures CanWrite(cell) && cell.value == FirstValue(row).value.0
    ensures row == Written(cell) + After(FirstValue(row).value.1)
  {
    hide Quoted;
    var value, tail := FirstValue(row).value.0, FirstValue(row).value.1;
    if row != "" && row[0] == '"' {
      cell := Cell(value, true);
      QuotedIsWritten(row[1..], value, tail);
      assert row == "\"" + row[1..];
    } else {
      cell := Cell(value, false);
      if tail.Some? { assert row == value + "," + tail.value; } else { assert row == value; }
    }
  }

  lemma {:induction false} ReadIsWritten(row: string) returns (cells: seq<Cell>)
    requires Values(row).Ok?
    ensures IsRow(cells) && ValuesOf(cells) == Values(row).value && Row(cells) == row
    decreases |row|
  {
    hide FirstValue;
    var cell := FirstIsWritten(row);
    var tail := FirstValue(row).value.1;
    cells := [cell];
    assert cells[1..] == [] && ValuesOf(cells) == [cell.value] + [];
    if tail.Some? {
      var more := ReadIsWritten(tail.value);
      cells := [cell] + more;
      assert cells[1..] == more;
    }
  }

  predicate IsRow(cells: seq<Cell>) { cells != [] && forall i :: 0 <= i < |cells| ==> CanWrite(cells[i]) }

  ghost predicate IsWrittenAs(row: string, values: seq<string>, cells: seq<Cell>) {
    IsRow(cells) && ValuesOf(cells) == values && Row(cells) == row
  }

  /** A row is read as some values exactly when it is those values written. */
  lemma RowsReadAreRowsWritten(row: string, values: seq<string>)
    ensures Values(row) == Ok(values) <==> exists cells :: IsWrittenAs(row, values, cells)
  {
    if Values(row) == Ok(values) {
      var cells := ReadIsWritten(row);
      assert IsWrittenAs(row, values, cells);
    }
    if cells :| IsWrittenAs(row, values, cells) { ReadingUndoesWriting(cells); }
  }

  /** A bare cell reads back as the row's one value exactly when it may be bare. */
  lemma BareExactly(value: string)
    ensures Values(value) == Ok([value]) <==> CanWrite(Cell(value, false))
  {
    if CanWrite(Cell(value, false)) {
      CellReadsBack(Cell(value, false), None);
      assert value + After(None) == value;
    } else if value != "" && value[0] == '"' {
      QuotedGetsShorter(value[1..]);
    }
  }

  lemma {:induction false} QuotedGetsShorter(text: string)
    ensures Quoted(text).Ok? ==> |Quoted(text).value.0| < |text|
    decreases |text|
  {
    match IndexOf(text, '"')
    case None =>
    case Some(at) =>
      var after := text[at + 1..];
      if after != "" && after[0] == '"' { QuotedGetsShorter(after[1..]); }
  }
}
