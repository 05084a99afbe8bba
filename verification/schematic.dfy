/** The engine schematic: a number written in a row of the schematic is a part
    number when one of the characters around it is a symbol. */
module Schematic {
  import opened Outcomes

  /** The exceptions the scan can raise. */
  datatype Error =
    | IndexOutOfRange      // a single character read outside a row
    | ArgumentOutOfRange   // a slice of a row that does not fit in it

  /** The characters that count as symbols; '@' is not among them. */
  const Symbols: seq<char> := ['*', '&', '$', '/', '=', '%', '#', '-', '+']

  predicate IsDigit(c: char) {
    '0' <= c <= '9'
  }

  function IsSymbol(c: char): (b: bool)
    ensures b ==> c != '.' && c != '@' && !IsDigit(c)
  {
    c in Symbols
  }

  /** The characters `char.IsWhiteSpace` accepts. */
  predicate IsWhiteSpace(c: char) {
    c == ' ' || '\t' <= c <= '\r' || c == '\U{85}' || c == '\U{A0}' || c == '\U{1680}' ||
    '\U{2000}' <= c <= '\U{200A}' || c == '\U{2028}' || c == '\U{2029}' || c == '\U{202F}' ||
    c == '\U{205F}' || c == '\U{3000}'
  }

  /** `string.IsNullOrWhiteSpace` of a (non-null) string. */
  predicate IsNullOrWhiteSpace(s: string) {
    forall k :: 0 <= k < |s| ==> IsWhiteSpace(s[k])
  }

  /** The three rows around a candidate number. */
  datatype Row = Previous | Current | Next

  /** A position in one of the three rows. */
  datatype Cell = Cell(row: Row, col: int)

  datatype Rows = Rows(previous: string, current: string, next: string)
  {
    function Text(row: Row): string {
      match row
      case Previous => previous
      case Current => current
      case Next => next
    }

    /** A blank neighbour row contributes nothing. */
    predicate Present(row: Row) {
      match row
      case Previous => !IsNullOrWhiteSpace(previous)
      case Current => true
      case Next => !IsNullOrWhiteSpace(next)
    }

    predicate Holds(c: Cell) {
      0 <= c.col < |Text(c.row)|
    }

    function At(c: Cell): char
      requires Holds(c)
    {
      Text(c.row)[c.col]
    }

    /** The column just left of the number (when it is not at the left edge)
        and the column just right of it (when that is inside the current row). */
    predicate IsBorderColumn(len: nat, index: int, col: int) {
      (index > 0 && col == index - 1) || (index + len < |current| && col == index + len)
    }

    /** The cells looked at for a number of `len` digits starting at column
        `index`: both border columns in every present row, and the number's own
        columns in the present rows above and below (not in the current row). */
    predicate Inspected(len: nat, index: int, c: Cell) {
      Present(c.row) &&
      (IsBorderColumn(len, index, c.col) || (c.row != Current && index <= c.col < index + len))
    }

    /** Every border cell that is read lies inside its row. */
    ghost predicate BorderCellsFit(len: nat, index: int) {
      forall c: Cell :: Inspected(len, index, c) && IsBorderColumn(len, index, c.col) ==> Holds(c)
    }

    /** The slices of the rows above and below fit in those rows. */
    predicate SlicesFit(len: nat, index: int) {
      (Present(Previous) ==> 0 <= index && index + len <= |previous|) &&
      (Present(Next) ==> 0 <= index && index + len <= |next|)
    }
  }

  /** What IsPartNumber answers, stated over the inspected cells: an error when
      a border cell lies outside its row (reads come first) or a slice does not
      fit, and otherwise whether an inspected cell holds a symbol. */
  ghost function PartNumberResult(previous: string, current: string, next: string, candidate: string, candidateIndex: int)
    : Result<bool, Error>
  {
    var rows := Rows(previous, current, next);
    if !rows.BorderCellsFit(|candidate|, candidateIndex) then Failure(IndexOutOfRange)
    else if !rows.SlicesFit(|candidate|, candidateIndex) then Failure(ArgumentOutOfRange)
    else Success(exists c: Cell :: rows.Inspected(|candidate|, candidateIndex, c) && rows.Holds(c) && IsSymbol(rows.At(c)))
  }

  /** The cells of one border column, top to bottom, in the order they are read. */
  function ColumnCells(rows: Rows, col: int): seq<Cell> {
    (if rows.Present(Previous) then [Cell(Previous, col)] else []) + [Cell(Current, col)] +
    (if rows.Present(Next) then [Cell(Next, col)] else [])
  }

  function SpanCells(row: Row, index: int, len: nat): seq<Cell> {
    seq(len, k => Cell(row, index + k))
  }

  /** The border cells in the order they are read: left column, right column. */
  function BorderCells(rows: Rows, len: nat, index: int): seq<Cell> {
    (if index > 0 then ColumnCells(rows, index - 1) else []) +
    (if index + len < |rows.current| then ColumnCells(rows, index + len) else [])
  }

  /** All cells in the order their characters are collected. */
  function CollectedCells(rows: Rows, len: nat, index: int): seq<Cell> {
    BorderCells(rows, len, index) +
    (if rows.Present(Previous) then SpanCells(Previous, index, len) else []) +
    (if rows.Present(Next) then SpanCells(Next, index, len) else [])
  }

  lemma ColumnCellsContents(rows: Rows, col: int)
    ensures forall c: Cell :: c in ColumnCells(rows, col) <==> c.col == col && rows.Present(c.row)
  {
  }

  lemma BorderCellsAreInspected(rows: Rows, len: nat, index: int)
    ensures forall c :: c in BorderCells(rows, len, index) <==>
      rows.Inspected(len, index, c) && rows.IsBorderColumn(len, index, c.col)
  {
    ColumnCellsContents(rows, index - 1);
    ColumnCellsContents(rows, index + len);
  }

  lemma SpanCellsContents(row: Row, index: int, len: nat)
    ensures forall c: Cell :: c in SpanCells(row, index, len) <==> c.row == row && index <= c.col < index + len
  {
    forall c: Cell | c.row == row && index <= c.col < index + len
      ensures c in SpanCells(row, index, len)
    {
      assert SpanCells(row, index, len)[c.col - index] == c;
    }
  }

  lemma CollectedCellsAreInspected(rows: Rows, len: nat, index: int)
    ensures forall c :: c in CollectedCells(rows, len, index) <==> rows.Inspected(len, index, c)
  {
    BorderCellsAreInspected(rows, len, index);
    SpanCellsContents(Previous, index, len);
    SpanCellsContents(Next, index, len);
  }

  /** `chars` holds, position by position, the characters of `cells`. */
  ghost predicate Reads(rows: Rows, chars: seq<char>, cells: seq<Cell>) {
    |chars| == |cells| &&
    forall k :: 0 <= k < |cells| ==> rows.Holds(cells[k]) && chars[k] == rows.At(cells[k])
  }

  lemma ReadsAppend(rows: Rows, chars: seq<char>, cells: seq<Cell>, moreChars: seq<char>, moreCells: seq<Cell>)
    requires Reads(rows, chars, cells) && Reads(rows, moreChars, moreCells)
    ensures Reads(rows, chars + moreChars, cells + moreCells)
  {
  }

  lemma ReadsSpan(rows: Rows, chars: seq<char>, cells: seq<Cell>, row: Row, index: int, len: nat)
    requires Reads(rows, chars, cells)
    requires 0 <= index && index + len <= |rows.Text(row)|
    ensures Reads(rows, chars + rows.Text(row)[index..index + len], cells + SpanCells(row, index, len))
  {
  }

  /** Every present row is wide enough to be read at column `col`. */
  predicate ColumnFits(rows: Rows, col: int) {
    forall row: Row :: rows.Present(row) ==> rows.Holds(Cell(row, col))
  }

  lemma BorderCellsFitByColumns(rows: Rows, len: nat, index: int)
    ensures rows.BorderCellsFit(len, index) <==>
      (index > 0 ==> ColumnFits(rows, index - 1)) &&
      (index + len < |rows.current| ==> ColumnFits(rows, index + len))
  {
    if index > 0 && !ColumnFits(rows, index - 1) {
      var row: Row :| rows.Present(row) && !rows.Holds(Cell(row, index - 1));
      assert rows.Inspected(len, index, Cell(row, index - 1));
    }
    if index + len < |rows.current| && !ColumnFits(rows, index + len) {
      var row: Row :| rows.Present(row) && !rows.Holds(Cell(row, index + len));
      assert rows.Inspected(len, index, Cell(row, index + len));
    }
  }

  lemma SymbolAmongCollected(rows: Rows, len: nat, index: int, chars: seq<char>)
    requires Reads(rows, chars, CollectedCells(rows, len, index))
    ensures (exists k :: 0 <= k < |chars| && IsSymbol(chars[k])) <==>
      (exists c: Cell :: rows.Inspected(len, index, c) && rows.Holds(c) && IsSymbol(rows.At(c)))
  {
    var cells := CollectedCells(rows, len, index);
    CollectedCellsAreInspected(rows, len, index);
    if k :| 0 <= k < |chars| && IsSymbol(chars[k]) {
      assert rows.Inspected(len, index, cells[k]);
    }
    if c: Cell :| rows.Inspected(len, index, c) && rows.Holds(c) && IsSymbol(rows.At(c)) {
      assert c in cells;
      var m :| 0 <= m < |cells| && cells[m] == c;
      assert IsSymbol(chars[m]);
    }
  }

  /** Reads one border column in the previous (when present), current and next
      (when present) rows; a row too short for the column is an error. */
  method ReadColumn(previous: string, current: string, next: string, col: int)
    returns (r: Result<seq<char>, Error>)
    ensures r.Failure? <==> !ColumnFits(Rows(previous, current, next), col)
    ensures r.Failure? ==> r.error == IndexOutOfRange
    ensures r.Success? ==> Reads(Rows(previous, current, next), r.value, ColumnCells(Rows(previous, current, next), col))
  {
    ghost var rows := Rows(previous, current, next);
    var column: seq<char> := [];
    if !IsNullOrWhiteSpace(previous) {
      if !(0 <= col < |previous|) {
        assert !rows.Holds(Cell(Previous, col));
        return Failure(IndexOutOfRange);
      }
      column := column + [previous[col]];
    }
    if !(0 <= col < |current|) {
      assert !rows.Holds(Cell(Current, col));
      return Failure(IndexOutOfRange);
    }
    column := column + [current[col]];
    if !IsNullOrWhiteSpace(next) {
      if !(0 <= col < |next|) {
        assert !rows.Holds(Cell(Next, col));
        return Failure(IndexOutOfRange);
      }
      column := column + [next[col]];
    }
    assert ColumnFits(rows, col) by {
      forall row: Row | rows.Present(row) ensures rows.Holds(Cell(row, col)) {
        match row
        case Previous =>
        case Current =>
        case Next =>
      }
    }
    r := Success(column);
  }

  /** True when some collected character is a symbol. */
  method AnySymbol(candidates: seq<char>) returns (b: bool)
    ensures b <==> exists k :: 0 <= k < |candidates| && IsSymbol(candidates[k])
  {
    var k := 0;
    while k < |candidates|
      invariant 0 <= k <= |candidates|
      invariant forall m :: 0 <= m < k ==> !IsSymbol(candidates[m])
    {
      if IsSymbol(candidates[k]) {
        return true;
      }
      k := k + 1;
    }
    return false;
  }

  /** Once every read fits, the answer is whether a collected character is a symbol. */
  lemma PartNumberFromCollected(previous: string, current: string, next: string, candidate: string, candidateIndex: int,
                                chars: seq<char>)
    requires Rows(previous, current, next).BorderCellsFit(|candidate|, candidateIndex)
    requires Rows(previous, current, next).SlicesFit(|candidate|, candidateIndex)
    requires Reads(Rows(previous, current, next), chars, CollectedCells(Rows(previous, current, next), |candidate|, candidateIndex))
    ensures PartNumberResult(previous, current, next, candidate, candidateIndex) ==
      Success(exists k :: 0 <= k < |chars| && IsSymbol(chars[k]))
  {
    SymbolAmongCollected(Rows(previous, current, next), |candidate|, candidateIndex, chars);
  }

  /** The two border columns read one after the other give the border cells. */
  lemma BorderReads(rows: Rows, len: nat, index: int, left: seq<char>, right: seq<char>)
    requires index > 0 ==> Reads(rows, left, ColumnCells(rows, index - 1))
    requires index <= 0 ==> left == []
    requires index + len < |rows.current| ==> Reads(rows, right, ColumnCells(rows, index + len))
    requires index + len >= |rows.current| ==> right == []
    ensures Reads(rows, left + right, BorderCells(rows, len, index))
  {
    var leftCells := if index > 0 then ColumnCells(rows, index - 1) else [];
    var rightCells := if index + len < |rows.current| then ColumnCells(rows, index + len) else [];
    ReadsAppend(rows, left, leftCells, right, rightCells);
  }

  /** The border, then the slices of the present rows above and below, give
      the collected cells. */
  lemma CollectedReads(rows: Rows, len: nat, index: int, border: seq<char>, above: seq<char>, below: seq<char>)
    requires Reads(rows, border, BorderCells(rows, len, index))
    requires rows.SlicesFit(len, index)
    requires above == if rows.Present(Previous) then rows.previous[index..index + len] else []
    requires below == if rows.Present(Next) then rows.next[index..index + len] else []
    ensures Reads(rows, border + above + below, CollectedCells(rows, len, index))
  {
    var aboveCells := if rows.Present(Previous) then SpanCells(Previous, index, len) else [];
    var belowCells := if rows.Present(Next) then SpanCells(Next, index, len) else [];
    if rows.Present(Previous) {
      ReadsSpan(rows, border, BorderCells(rows, len, index), Previous, index, len);
    }
    if rows.Present(Next) {
      ReadsSpan(rows, border + above, BorderCells(rows, len, index) + aboveCells, Next, index, len);
    }
  }

  /** The first two steps of IsPartNumber: the left-hand column, then the
      right-hand column. */
  method ReadBorder(previous: string, current: string, next: string, len: nat, candidateIndex: int)
    returns (r: Result<seq<char>, Error>)
    ensures r.Failure? <==> !Rows(previous, current, next).BorderCellsFit(len, candidateIndex)
    ensures r.Failure? ==> r.error == IndexOutOfRange
    ensures r.Success? ==>
      Reads(Rows(previous, current, next), r.value, BorderCells(Rows(previous, current, next), len, candidateIndex))
  {
    ghost var rows := Rows(previous, current, next);
    var hasLeft := candidateIndex > 0;
    var hasRight := candidateIndex + len < |current|;
    BorderCellsFitByColumns(rows, len, candidateIndex);

    var left: seq<char> := [];
    if hasLeft {
      var column := ReadColumn(previous, current, next, candidateIndex - 1);
      if column.Failure? {
        return Failure(column.error);
      }
      left := column.value;
    }
    var right: seq<char> := [];
    if hasRight {
      var column := ReadColumn(previous, current, next, candidateIndex + len);
      if column.Failure? {
        return Failure(column.error);
      }
      right := column.value;
    }
    BorderReads(rows, len, candidateIndex, left, right);
    r := Success(left + right);
  }

  /** Collects the characters around the number and asks whether any of them is
      a symbol. */
  method IsPartNumber(previous: string, current: string, next: string, candidate: string, candidateIndex: int)
    returns (r: Result<bool, Error>)
    ensures r == PartNumberResult(previous, current, next, candidate, candidateIndex)
  {
    ghost var rows := Rows(previous, current, next);
    var len := |candidate|;
    var hasPrevious := !IsNullOrWhiteSpace(previous);
    var hasNext := !IsNullOrWhiteSpace(next);
    assert hasPrevious == rows.Present(Previous) && hasNext == rows.Present(Next);

    // the left-hand and right-hand columns
    var border := ReadBorder(previous, current, next, len, candidateIndex);
    if border.Failure? {
      return Failure(border.error);
    }
    // the rows above and below
    var above: seq<char> := [];
    if hasPrevious {
      if !(0 <= candidateIndex && candidateIndex + len <= |previous|) {
        assert !rows.SlicesFit(len, candidateIndex);
        return Failure(ArgumentOutOfRange);
      }
      above := previous[candidateIndex..candidateIndex + len];
    }
    var below: seq<char> := [];
    if hasNext {
      if !(0 <= candidateIndex && candidateIndex + len <= |next|) {
        assert !rows.SlicesFit(len, candidateIndex);
        return Failure(ArgumentOutOfRange);
      }
      below := next[candidateIndex..candidateIndex + len];
    }
    assert rows.SlicesFit(len, candidateIndex);
    var candidates := border.value + above + below;
    CollectedReads(rows, len, candidateIndex, border.value, above, below);
    PartNumberFromCollected(previous, current, next, candidate, candidateIndex, candidates);
    var found := AnySymbol(candidates);
    return Success(found);
  }

  /** With nothing but dots around ".123." the number is not a part number. */
  lemma NoSymbolIsNotPartNumber()
    ensures PartNumberResult(".....", ".123.", ".....", "123", 1) == Success(false)
  {
    var rows := Rows(".....", ".123.", ".....");
    assert rows.Present(Previous) by { assert !IsWhiteSpace(rows.previous[0]); }
    assert rows.Present(Next) by { assert !IsWhiteSpace(rows.next[0]); }
    assert rows.BorderCellsFit(3, 1);
    forall c: Cell | rows.Inspected(3, 1, c) && rows.Holds(c)
      ensures !IsSymbol(rows.At(c))
    {
      assert 0 <= c.col < 5;
      if c.row == Current {
        assert c.col == 0 || c.col == 4;
      } else if c.col == 0 {
      } else if c.col == 1 {
      } else if c.col == 2 {
      } else if c.col == 3 {
      } else {
        assert c.col == 4;
      }
    }
  }

  /** `s` with a '$' written over column `col`. */
  function WithDollar(s: string, col: int): string {
    seq(|s|, k requires 0 <= k < |s| => if k == col then '$' else s[k])
  }

  /** The schematic of the original tests: ".123." between two rows of dots,
      with a '$' written over the cell `c`. */
  function DollarRows(c: Cell): Rows {
    Rows(if c.row == Previous then WithDollar(".....", c.col) else ".....",
         if c.row == Current then WithDollar(".123.", c.col) else ".123.",
         if c.row == Next then WithDollar(".....", c.col) else ".....")
  }

  /** A '$' in any cell around "123" at column 1 of ".123." makes it a part number. */
  lemma DollarAroundIsPartNumber(c: Cell)
    requires 0 <= c.col < 5 && (c.row == Current ==> c.col == 0 || c.col == 4)
    ensures var rows := DollarRows(c);
            PartNumberResult(rows.previous, rows.current, rows.next, "123", 1) == Success(true)
  {
    var rows := DollarRows(c);
    assert rows.Text(c.row)[c.col] == '$';
    assert rows.previous[0] in "$." && rows.next[0] in "$.";
    DollarAt(rows.previous, rows.current, rows.next, c);
  }

  /** The left-boundary cases of the original tests: a '$' in column 0 of any row. */
  lemma LeftBoundaryIsPartNumber(row: Row)
    ensures var rows := DollarRows(Cell(row, 0));
            PartNumberResult(rows.previous, rows.current, rows.next, "123", 1) == Success(true)
  {
    DollarAroundIsPartNumber(Cell(row, 0));
  }

  /** The right-boundary cases of the original tests: a '$' in column 4 of any row. */
  lemma RightBoundaryIsPartNumber(row: Row)
    ensures var rows := DollarRows(Cell(row, 4));
            PartNumberResult(rows.previous, rows.current, rows.next, "123", 1) == Success(true)
  {
    DollarAroundIsPartNumber(Cell(row, 4));
  }

  /** The previous-row cases of the original tests: a '$' in any column of the row above. */
  lemma PreviousRowIsPartNumber(col: int)
    requires 0 <= col < 5
    ensures PartNumberResult(WithDollar(".....", col), ".123.", ".....", "123", 1) == Success(true)
  {
    DollarAroundIsPartNumber(Cell(Previous, col));
  }

  /** The next-row cases of the original tests: a '$' in any column of the row below. */
  lemma NextRowIsPartNumber(col: int)
    requires 0 <= col < 5
    ensures PartNumberResult(".....", ".123.", WithDollar(".....", col), "123", 1) == Success(true)
  {
    DollarAroundIsPartNumber(Cell(Next, col));
  }

  /** The original tests write the rows out; they are these schematics. */
  lemma DollarRowsSpelledOut()
    ensures WithDollar(".....", 0) == "$...." && WithDollar(".....", 1) == ".$..." && WithDollar(".....", 2) == "..$.."
    ensures WithDollar(".....", 3) == "...$." && WithDollar(".....", 4) == "....$"
    ensures WithDollar(".123.", 0) == "$123." && WithDollar(".123.", 4) == ".123$"
  {
  }

  /** Three five-character rows with something other than white space in
      column 0, and a '$' in the cell `c` around "123" at column 1. */
  lemma DollarAt(previous: string, current: string, next: string, c: Cell)
    requires |previous| == |current| == |next| == 5
    requires !IsWhiteSpace(previous[0]) && !IsWhiteSpace(next[0])
    requires 0 <= c.col < 5 && Rows(previous, current, next).Text(c.row)[c.col] == '$'
    requires Rows(previous, current, next).Inspected(3, 1, c)
    ensures PartNumberResult(previous, current, next, "123", 1) == Success(true)
  {
    var rows := Rows(previous, current, next);
    assert rows.Present(Previous) && rows.Present(Next);
    assert rows.Holds(c) && IsSymbol(rows.At(c));
  }

  /** A candidate the line scan evaluates: its digits and the start index it
      passes to IsPartNumber. */
  datatype Evaluation = Evaluation(digits: string, index: int)

  /** The evaluations the scan of `line` makes from column `j` on, while holding
      `candidate`. Digits are appended to the candidate; only a '.' or the last
      column evaluates it, with start index j - |candidate|. */
  function ScanFrom(line: string, j: nat, candidate: string): seq<Evaluation>
    decreases |line| - j
  {
    if j >= |line| then []
    else
      var c := line[j];
      var grown := Grown(c, candidate);
      if (c == '.' || j == |line| - 1) && grown != [] then
        [Evaluation(grown, j - |grown|)] + ScanFrom(line, j + 1, [])
      else
        ScanFrom(line, j + 1, grown)
  }

  /** The candidate after reading `c`: a digit is appended, anything else is skipped. */
  function Grown(c: char, candidate: string): string {
    if IsDigit(c) then candidate + [c] else candidate
  }

  function Evaluations(line: string): seq<Evaluation> {
    ScanFrom(line, 0, [])
  }

  /** The digits of `s`, in order. */
  function DigitsOf(s: string): string {
    if s == [] then [] else (if IsDigit(s[0]) then [s[0]] else []) + DigitsOf(s[1..])
  }

  function ConcatDigits(evaluations: seq<Evaluation>): string {
    if evaluations == [] then [] else evaluations[0].digits + ConcatDigits(evaluations[1..])
  }

  lemma {:induction false} ScanCoversDigits(line: string, j: nat, candidate: string)
    requires j <= |line|
    requires j < |line| || candidate == []
    ensures ConcatDigits(ScanFrom(line, j, candidate)) == candidate + DigitsOf(line[j..])
    decreases |line| - j
  {
    if j < |line| {
      var c := line[j];
      var grown := if IsDigit(c) then candidate + [c] else candidate;
      assert line[j..][1..] == line[j + 1..];
      assert DigitsOf(line[j..]) == (if IsDigit(c) then [c] else []) + DigitsOf(line[j + 1..]);
      if (c == '.' || j == |line| - 1) && grown != [] {
        ScanCoversDigits(line, j + 1, []);
        var rest := ScanFrom(line, j + 1, []);
        assert ([Evaluation(grown, j - |grown|)] + rest)[1..] == rest;
      } else {
        ScanCoversDigits(line, j + 1, grown);
      }
    } else {
      assert line[j..] == [];
    }
  }

  /** Every digit of a line ends up in exactly one evaluated candidate, in order. */
  lemma EvaluationsCoverDigits(line: string)
    ensures ConcatDigits(Evaluations(line)) == DigitsOf(line)
  {
    ScanCoversDigits(line, 0, []);
    assert line[0..] == line;
  }

  /** An evaluated candidate is a non-empty run of digits, and the column right
      after its start index plus its length is a '.' or the last column. */
  ghost predicate WellFormed(line: string, e: Evaluation) {
    |e.digits| > 0 &&
    (forall k :: 0 <= k < |e.digits| ==> IsDigit(e.digits[k])) &&
    0 <= e.index + |e.digits| < |line| &&
    (line[e.index + |e.digits|] == '.' || e.index + |e.digits| == |line| - 1)
  }

  lemma {:induction false} ScanShape(line: string, j: nat, candidate: string)
    requires forall k :: 0 <= k < |candidate| ==> IsDigit(candidate[k])
    ensures forall e :: e in ScanFrom(line, j, candidate) ==> WellFormed(line, e)
    decreases |line| - j
  {
    if j < |line| {
      var c := line[j];
      var grown := if IsDigit(c) then candidate + [c] else candidate;
      if (c == '.' || j == |line| - 1) && grown != [] {
        ScanShape(line, j + 1, []);
      } else {
        ScanShape(line, j + 1, grown);
      }
    }
  }

  lemma EvaluationShape(line: string)
    ensures forall e :: e in Evaluations(line) ==> WellFormed(line, e)
  {
    ScanShape(line, 0, []);
  }

  /** The last column before `j` that holds a '.', or -1 when there is none. */
  function LastDotBefore(line: string, j: nat): (p: int)
    requires j <= |line|
    ensures -1 <= p < j
    ensures p >= 0 ==> line[p] == '.'
  {
    if j == 0 then -1 else if line[j - 1] == '.' then j - 1 else LastDotBefore(line, j - 1)
  }

  /** No column between the last '.' before `j` and `j` holds a '.'. */
  lemma {:induction false} LastDotBeforeIsLast(line: string, j: nat, k: nat)
    requires j <= |line| && LastDotBefore(line, j) < k < j
    ensures line[k] != '.'
  {
    if line[j - 1] != '.' && k < j - 1 {
      LastDotBeforeIsLast(line, j - 1, k);
    }
  }

  /** The digits read at columns after the last '.' before column `j` and
      before `j` itself. */
  function Held(line: string, j: nat): string
    requires j <= |line|
  {
    DigitsOf(line[LastDotBefore(line, j) + 1..j])
  }

  /** The digits pending at column `j`: those after the last '.' before `j`, up
      to and including column `j`. */
  function Pending(line: string, j: nat): string
    requires j < |line|
  {
    DigitsOf(line[LastDotBefore(line, j) + 1..j + 1])
  }

  /** Column `j` evaluates a candidate: it is a '.' or the last column, and
      digits are pending there. */
  predicate EvaluatedAt(line: string, j: nat)
    requires j < |line|
  {
    (line[j] == '.' || j == |line| - 1) && Pending(line, j) != []
  }

  /** What column `j` evaluates, judged on its own: the pending digits, with
      start index `j` minus their number, when the column evaluates at all. */
  function ColumnEvaluation(line: string, j: nat): seq<Evaluation>
    requires j < |line|
  {
    if EvaluatedAt(line, j) then [Evaluation(Pending(line, j), j - |Pending(line, j)|)] else []
  }

  /** The evaluations of every column of `line`, each judged on its own. */
  function Columns(line: string): nat -> seq<Evaluation> {
    (k: nat) => if k < |line| then ColumnEvaluation(line, k) else []
  }

  /** The evaluations of the columns from `j` on, in column order. */
  function Expected(line: string, j: nat): seq<Evaluation> {
    Concat(Columns(line), j, |line|)
  }

  /** `columns(j) + columns(j + 1) + ... + columns(n - 1)`. */
  function Concat(columns: nat -> seq<Evaluation>, j: nat, n: nat): seq<Evaluation>
    decreases n - j
  {
    if j >= n then [] else columns(j) + Concat(columns, j + 1, n)
  }

  lemma {:induction false} ConcatMembers(columns: nat -> seq<Evaluation>, j: nat, n: nat, e: Evaluation)
    ensures e in Concat(columns, j, n) <==> exists k :: j <= k < n && e in columns(k)
    decreases n - j
  {
    if j < n {
      ConcatMembers(columns, j + 1, n, e);
      if e in columns(j) {
        assert j <= j < n && e in columns(j);
      }
      forall k | j <= k < n && e in columns(k)
        ensures e in Concat(columns, j, n)
      {
        if k > j {
          assert e in Concat(columns, j + 1, n);
        }
      }
    }
  }

  lemma {:induction false} DigitsOfAppend(s: string, c: char)
    ensures DigitsOf(s + [c]) == DigitsOf(s) + (if IsDigit(c) then [c] else [])
  {
    if s != [] {
      assert (s + [c])[1..] == s[1..] + [c];
      DigitsOfAppend(s[1..], c);
    } else {
      assert DigitsOf([c]) == (if IsDigit(c) then [c] else []) + DigitsOf([]);
    }
  }

  /** Reading column `j` turns the held digits into the pending ones. */
  lemma GrownIsPending(line: string, j: nat)
    requires j < |line|
    ensures Grown(line[j], Held(line, j)) == Pending(line, j)
  {
    var q := LastDotBefore(line, j) + 1;
    assert line[q..j + 1] == line[q..j] + [line[j]];
    DigitsOfAppend(line[q..j], line[j]);
  }

  /** After column `j`, the digits held are none past a '.', and otherwise
      those pending at `j`. */
  lemma HeldAfter(line: string, j: nat)
    requires j < |line|
    ensures Held(line, j + 1) == if line[j] == '.' then [] else Pending(line, j)
  {
    if line[j] == '.' {
      assert LastDotBefore(line, j + 1) == j;
      assert line[j + 1..j + 1] == [];
    }
  }

  lemma ExpectedStep(line: string, j: nat)
    requires j < |line|
    ensures Expected(line, j) == ColumnEvaluation(line, j) + Expected(line, j + 1)
  {
    assert Columns(line)(j) == ColumnEvaluation(line, j);
  }

  /** One column of the scan, started with the digits since the last '.',
      makes that column's own evaluation and hands on the digits held after it. */
  lemma ScanColumnMatches(line: string, j: nat)
    requires j < |line|
    ensures ScanFrom(line, j, Held(line, j)) == ColumnEvaluation(line, j) + ScanFrom(line, j + 1, Held(line, j + 1))
  {
    GrownIsPending(line, j);
    HeldAfter(line, j);
    var held := Held(line, j);
    if EvaluatedAt(line, j) {
      ScanEvaluates(line, j, held);
      if line[j] != '.' {
        assert ScanFrom(line, j + 1, []) == [] == ScanFrom(line, j + 1, Held(line, j + 1));
      }
    } else {
      ScanContinues(line, j, held);
    }
  }

  /** Held by the scan when it reaches column `j`, the digits since the last
      '.' lead to the column-by-column evaluations. */
  lemma {:induction false} ScanMatchesExpected(line: string, j: nat)
    requires j <= |line|
    ensures ScanFrom(line, j, Held(line, j)) == Expected(line, j)
    decreases |line| - j
  {
    if j < |line| {
      ScanColumnMatches(line, j);
      ExpectedStep(line, j);
      ScanMatchesExpected(line, j + 1);
    }
  }

  /** The scan of a whole line makes exactly the column-by-column evaluations,
      in column order. */
  lemma EvaluationsAreExpected(line: string)
    ensures Evaluations(line) == Expected(line, 0)
  {
    assert line[0..0] == [];
    assert Held(line, 0) == [];
    ScanMatchesExpected(line, 0);
  }

  /** Column `k` evaluates the candidate `e`. */
  predicate EvaluatesAt(line: string, k: nat, e: Evaluation) {
    k < |line| && e in ColumnEvaluation(line, k)
  }

  /** A candidate is evaluated if and only if some column is a '.' or the last
      column, digits are pending there since the last '.', and the candidate
      is those digits with start index the column minus their number. */
  lemma EvaluatedIffPending(line: string, e: Evaluation)
    ensures e in Evaluations(line) <==> exists j :: 0 <= j && EvaluatesAt(line, j, e)
  {
    EvaluationsAreExpected(line);
    ConcatMembers(Columns(line), 0, |line|, e);
    if e in Evaluations(line) {
      var k :| 0 <= k < |line| && e in Columns(line)(k);
      assert Columns(line)(k) == ColumnEvaluation(line, k);
      assert EvaluatesAt(line, k, e);
    }
    if exists j :: 0 <= j && EvaluatesAt(line, j, e) {
      var j :| 0 <= j && EvaluatesAt(line, j, e);
      assert Columns(line)(j) == ColumnEvaluation(line, j);
      assert 0 <= j < |line| && e in Columns(line)(j);
    }
  }

  /** A run broken by a symbol other than '.' is not evaluated at the symbol:
      its digits join the next run. */
  lemma BrokenRunExample()
    ensures Evaluations("12*34.") == [Evaluation("1234", 1)]
  {
    var line := "12*34.";
    assert "" + ['1'] == "1" && "1" + ['2'] == "12" && "12" + ['3'] == "123" && "123" + ['4'] == "1234";
    ScanContinues(line, 0, "");
    ScanContinues(line, 1, "1");
    ScanContinues(line, 2, "12");
    ScanContinues(line, 3, "12");
    ScanContinues(line, 4, "123");
    ScanEvaluates(line, 5, "1234");
  }

  /** A '.' after digits evaluates them, so two runs split by '.' are two
      candidates. */
  lemma DotSplitsRunsExample()
    ensures Evaluations("1.2.") == [Evaluation("1", 0), Evaluation("2", 2)]
  {
    var line := "1.2.";
    assert "" + ['1'] == "1" && "" + ['2'] == "2";
    ScanContinues(line, 0, "");
    ScanEvaluates(line, 1, "1");
    ScanContinues(line, 2, "");
    ScanEvaluates(line, 3, "2");
  }

  /** A run that ends in the last column is passed a start index one column to
      the left of its first digit. */
  lemma RunAtEndExample()
    ensures Evaluations(".12") == [Evaluation("12", 0)]
  {
    var line := ".12";
    assert "" + ['1'] == "1" && "1" + ['2'] == "12";
    ScanContinues(line, 0, "");
    ScanContinues(line, 1, "");
    ScanEvaluates(line, 2, "1");
  }

  /** A line made only of digits gives the start index -1. */
  lemma AllDigitsExample()
    ensures Evaluations("42") == [Evaluation("42", -1)]
  {
    var line := "42";
    assert "" + ['4'] == "4" && "4" + ['2'] == "42";
    ScanContinues(line, 0, "");
    ScanEvaluates(line, 1, "4");
  }

  /** `Int32.Parse` of a run of decimal digits. The scan only passes runs of
      '0' to '9' (ScanShape); `% 10` keeps the value of any other character a
      single digit, so that the result is a natural number for every string. */
  function DecimalValue(digits: string): nat {
    if digits == [] then 0
    else DecimalValue(digits[..|digits| - 1]) * 10 + (digits[|digits| - 1] as int - '0' as int) % 10
  }

  /** The row above line i, empty for the first line. */
  function Above(lines: seq<string>, i: nat): string
    requires i < |lines|
  {
    if i > 0 then lines[i - 1] else ""
  }

  /** The row below line i, empty for the last line. */
  function Below(lines: seq<string>, i: nat): string
    requires i < |lines|
  {
    if i < |lines| - 1 then lines[i + 1] else ""
  }

  /** Evaluating one candidate of line i: IsPartNumber's exception, or `acc`
      plus the candidate's value when it is a part number. */
  ghost function EvaluationStep(lines: seq<string>, i: nat, e: Evaluation, acc: int): Result<int, Error>
    requires i < |lines|
  {
    match PartNumberResult(Above(lines, i), lines[i], Below(lines, i), e.digits, e.index)
    case Failure(error) => Failure(error)
    case Success(isPart) => Success(if isPart then acc + DecimalValue(e.digits) else acc)
  }

  /** `acc` plus the values of the evaluations of line i that are part numbers;
      the first exception ends everything. */
  ghost function SumEvaluations(lines: seq<string>, i: nat, evaluations: seq<Evaluation>, acc: int): Result<int, Error>
    requires i < |lines|
  {
    if evaluations == [] then Success(acc)
    else
      var step := EvaluationStep(lines, i, evaluations[0], acc);
      if step.Failure? then step else SumEvaluations(lines, i, evaluations[1..], step.value)
  }

  /** `acc` plus the part numbers of lines i and after. */
  ghost function SumLines(lines: seq<string>, i: nat, acc: int): Result<int, Error>
    decreases |lines| - i
  {
    if i >= |lines| then Success(acc)
    else
      match SumEvaluations(lines, i, Evaluations(lines[i]), acc)
      case Failure(error) => Failure(error)
      case Success(total) => SumLines(lines, i + 1, total)
  }

  /** Part numbers are never negative, so the sum never decreases. */
  lemma {:induction false} SumEvaluationsGrows(lines: seq<string>, i: nat, evaluations: seq<Evaluation>, acc: int)
    requires i < |lines|
    ensures SumEvaluations(lines, i, evaluations, acc).Success? ==> SumEvaluations(lines, i, evaluations, acc).value >= acc
    decreases |evaluations|
  {
    if evaluations != [] {
      var step := EvaluationStep(lines, i, evaluations[0], acc);
      if step.Success? {
        SumEvaluationsGrows(lines, i, evaluations[1..], step.value);
      }
    }
  }

  lemma {:induction false} SumLinesGrows(lines: seq<string>, i: nat, acc: int)
    ensures SumLines(lines, i, acc).Success? ==> SumLines(lines, i, acc).value >= acc
    decreases |lines| - i
  {
    if i < |lines| {
      SumEvaluationsGrows(lines, i, Evaluations(lines[i]), acc);
      match SumEvaluations(lines, i, Evaluations(lines[i]), acc)
      case Failure(_) =>
      case Success(total) => SumLinesGrows(lines, i + 1, total);
    }
  }

  /** A column where the scan evaluates its candidate. */
  lemma ScanEvaluates(line: string, j: nat, held: string)
    requires j < |line|
    requires (line[j] == '.' || j == |line| - 1) && Grown(line[j], held) != []
    ensures ScanFrom(line, j, held) ==
      [Evaluation(Grown(line[j], held), j - |Grown(line[j], held)|)] + ScanFrom(line, j + 1, [])
  {
  }

  /** A column where the scan only carries its candidate on. */
  lemma ScanContinues(line: string, j: nat, held: string)
    requires j < |line|
    requires !((line[j] == '.' || j == |line| - 1) && Grown(line[j], held) != [])
    ensures ScanFrom(line, j, held) == ScanFrom(line, j + 1, Grown(line[j], held))
  {
  }

  /** The sum over a candidate followed by others: the candidate's exception
      ends it, otherwise the others are summed from the new total. */
  lemma SumEvaluationsStep(lines: seq<string>, i: nat, e: Evaluation, rest: seq<Evaluation>, acc: int)
    requires i < |lines|
    ensures var step := EvaluationStep(lines, i, e, acc);
            SumEvaluations(lines, i, [e] + rest, acc) ==
              if step.Failure? then step else SumEvaluations(lines, i, rest, step.value)
  {
    assert ([e] + rest)[0] == e && ([e] + rest)[1..] == rest;
  }

  /** The inner loop of the scan over line i: one column at a time, with the
      candidate carried from column to column. */
  method SumLine(lines: seq<string>, i: nat, result: int) returns (r: Result<int, Error>)
    requires i < |lines|
    ensures r == SumEvaluations(lines, i, Evaluations(lines[i]), result)
  {
    var candidate := "";
    var total := result;
    for j := 0 to |lines[i]|
      invariant SumEvaluations(lines, i, ScanFrom(lines[i], j, candidate), total) ==
                SumEvaluations(lines, i, Evaluations(lines[i]), result)
    {
      var step;
      candidate, step := ScanColumn(lines, i, j, candidate, total);
      if step.Failure? {
        return step;
      }
      total := step.value;
    }
    r := Success(total);
  }

  /** Column j of line i: a digit is appended to the candidate; at a '.' or in
      the last column a non-empty candidate is evaluated and emptied. */
  method ScanColumn(lines: seq<string>, i: nat, j: nat, candidate: string, total: int)
    returns (next: string, r: Result<int, Error>)
    requires i < |lines| && j < |lines[i]|
    ensures r.Failure? ==> SumEvaluations(lines, i, ScanFrom(lines[i], j, candidate), total) == r
    ensures r.Success? ==>
      SumEvaluations(lines, i, ScanFrom(lines[i], j, candidate), total) ==
        SumEvaluations(lines, i, ScanFrom(lines[i], j + 1, next), r.value)
  {
    var line := lines[i];
    var c := line[j];
    next := candidate;
    if IsDigit(c) {
      next := next + [c];
    }
    assert next == Grown(c, candidate);
    if (c == '.' || j == |line| - 1) && next != "" {
      var e := Evaluation(next, j - |next|);
      ghost var rest := ScanFrom(line, j + 1, []);
      ScanEvaluates(line, j, candidate);
      assert ScanFrom(line, j, candidate) == [e] + rest;
      SumEvaluationsStep(lines, i, e, rest, total);
      r := Evaluate(lines, i, e, total);
      next := "";
    } else {
      ScanContinues(line, j, candidate);
      r := Success(total);
    }
  }

  /** Evaluates one candidate of line i: IsPartNumber's exception, or `acc`
      plus the candidate's value when it is a part number. */
  method Evaluate(lines: seq<string>, i: nat, e: Evaluation, acc: int) returns (r: Result<int, Error>)
    requires i < |lines|
    ensures r == EvaluationStep(lines, i, e, acc)
    ensures r.Success? ==> r.value >= acc
  {
    var isPart := IsPartNumber(Above(lines, i), lines[i], Below(lines, i), e.digits, e.index);
    if isPart.Failure? {
      return Failure(isPart.error);
    }
    r := Success(if isPart.value then acc + DecimalValue(e.digits) else acc);
  }

  /** The whole scan: every line, every evaluated candidate, summing the part
      numbers; an exception from IsPartNumber ends it. */
  method SumPartNumbers(lines: seq<string>) returns (r: Result<int, Error>)
    ensures r == SumLines(lines, 0, 0)
    ensures r.Success? ==> r.value >= 0
  {
    var result := 0;
    for i := 0 to |lines|
      invariant result >= 0
      invariant SumLines(lines, i, result) == SumLines(lines, 0, 0)
    {
      var lineResult := SumLine(lines, i, result);
      if lineResult.Failure? {
        return Failure(lineResult.error);
      }
      SumEvaluationsGrows(lines, i, Evaluations(lines[i]), result);
      result := lineResult.value;
    }
    r := Success(result);
  }

  /** A line made only of digits under a non-blank row makes the scan fail:
      the start index -1 is passed on, and the slice of the row above starting
      at -1 is out of range. */
  lemma AllDigitsUnderRowFails()
    ensures SumLines(["..", "42"], 0, 0) == Failure(ArgumentOutOfRange)
  {
    var lines := ["..", "42"];
    assert Evaluations("..") == [] by {
      ScanContinues("..", 0, "");
      ScanContinues("..", 1, "");
    }
    AllDigitsExample();
    var rows := Rows("..", "42", "");
    assert rows.Present(Previous) by { assert !IsWhiteSpace(rows.previous[0]); }
    assert !rows.Present(Next);
    assert rows.BorderCellsFit(2, -1);
    assert !rows.SlicesFit(2, -1);
    assert PartNumberResult(Above(lines, 1), lines[1], Below(lines, 1), "42", -1) == Failure(ArgumentOutOfRange);
    SumEvaluationsStep(lines, 1, Evaluation("42", -1), [], 0);
  }

  /** Under a non-blank row shorter than the line, the right border cell of
      the row above is read first and is missing. */
  lemma AllDigitsUnderShortRowFails()
    ensures SumLines([".", "42"], 0, 0) == Failure(IndexOutOfRange)
  {
    var lines := [".", "42"];
    assert Evaluations(".") == [] by {
      ScanContinues(".", 0, "");
    }
    AllDigitsExample();
    var rows := Rows(".", "42", "");
    assert rows.Present(Previous) by { assert !IsWhiteSpace(rows.previous[0]); }
    var missing := Cell(Previous, 1);
    assert rows.Inspected(2, -1, missing) && rows.IsBorderColumn(2, -1, missing.col) && !rows.Holds(missing);
    assert PartNumberResult(Above(lines, 1), lines[1], Below(lines, 1), "42", -1) == Failure(IndexOutOfRange);
    SumEvaluationsStep(lines, 1, Evaluation("42", -1), [], 0);
  }

  /** Under a long enough row, a shorter non-blank row below still fails the
      scan: its right border cell is read before the slice of the row above. */
  lemma AllDigitsOverShortRowFails()
    ensures SumLines(["..", "42", "."], 0, 0) == Failure(IndexOutOfRange)
  {
    var lines := ["..", "42", "."];
    assert Evaluations("..") == [] by {
      ScanContinues("..", 0, "");
      ScanContinues("..", 1, "");
    }
    AllDigitsExample();
    var rows := Rows("..", "42", ".");
    assert rows.Present(Next) by { assert !IsWhiteSpace(rows.next[0]); }
    var missing := Cell(Next, 1);
    assert rows.Inspected(2, -1, missing) && rows.IsBorderColumn(2, -1, missing.col) && !rows.Holds(missing);
    assert PartNumberResult(Above(lines, 1), lines[1], Below(lines, 1), "42", -1) == Failure(IndexOutOfRange);
    SumEvaluationsStep(lines, 1, Evaluation("42", -1), [], 0);
  }
}
