/** `CellReferenceResolver`: turns a reference such as "D0" into the pair
    (column, row) of a fixed 26 x 100 grid, rows counted from 0, or fails
    with the exception the Java code throws. */
module CellReferenceResolver {
  import opened Common
  import opened JavaLang
  import Ex2Utils
  import CellEntry

  const MAX_ROWS: int := 100
  const MAX_COLUMNS: int := 26

  /** The `int[]{column, row}` the resolver returns. */
  datatype Coord = Coord(column: int, row: int)

  /** The resolver's exceptions: the three `IllegalArgumentException`s and
      the `NumberFormatException` of `Integer.parseInt`. */
  datatype ResolveError = NullOrEmpty | BadFormat | NotAnInt | OutOfBounds

  /** What `columnToIndex` returns: the position of the column name that the
      one-character string equals, and 0 when it equals none of them. */
  function ColumnIndex(column: string): (index: int)
    ensures 0 <= index < MAX_COLUMNS
    ensures |column| == 1 && IsUpper(column[0]) ==> index == column[0] as int - 'A' as int
    ensures !(|column| == 1 && IsUpper(column[0])) ==> index == 0
  {
    if |column| == 1 && IsUpper(column[0]) then column[0] as int - 'A' as int else 0
  }

  /** `columnToIndex`: for each of the 26 names, `column.matches("[X]")`
      overwrites the index when it holds. */
  method ColumnToIndex(column: string) returns (index: int)
    ensures index == ColumnIndex(column)
  {
    index := 0;
    for i := 0 to 26
      invariant index == if |column| == 1 && IsUpper(column[0]) && column[0] as int - 'A' as int < i
                         then column[0] as int - 'A' as int else 0
    {
      Ex2Utils.ABCIsAlphabet(i);
      if |column| == 1 && column[0] == Ex2Utils.ABC[i][0] {
        index := i;
      }
    }
  }

  /** What `resolveCellReference` computes. */
  function Resolve(reference: Option<string>): (r: Result<Coord, ResolveError>)
    ensures r == Failure(NullOrEmpty) <==> reference.None? || Trim(reference.value) == []
    ensures r.Success? <==>
      reference.Some? && Trim(reference.value) != [] && |reference.value| >= 2 &&
      ParseInt(reference.value[1..]).Some? && 0 <= ParseInt(reference.value[1..]).value < MAX_ROWS
    ensures r.Success? ==>
      r.value == Coord(ColumnIndex(reference.value[..1]), ParseInt(reference.value[1..]).value) &&
      0 <= r.value.column < MAX_COLUMNS && 0 <= r.value.row < MAX_ROWS
  {
    if reference.None? || Trim(reference.value) == [] then Failure(NullOrEmpty)
    else
      var s := reference.value;
      var columnPart := s[..1];
      var rowPart := s[1..];
      if columnPart == [] || rowPart == [] then Failure(BadFormat)
      else
        var column := ColumnIndex(columnPart);
        match ParseInt(rowPart)
        case None => Failure(NotAnInt)
        case Some(row) =>
          if row < 0 || row >= MAX_ROWS || column < 0 || column >= MAX_COLUMNS then Failure(OutOfBounds)
          else Success(Coord(column, row))
  }

  /** `resolveCellReference`: the early failures in the order the Java code
      checks them, then the column and row. */
  method ResolveCellReference(reference: Option<string>) returns (r: Result<Coord, ResolveError>)
    ensures r == Resolve(reference)
  {
    if reference.None? || Trim(reference.value) == [] {
      return Failure(NullOrEmpty);
    }
    var s := reference.value;
    var columnPart := s[..1];
    var rowPart := s[1..];
    if columnPart == [] || rowPart == [] {
      return Failure(BadFormat);
    }
    var column := ColumnToIndex(columnPart);
    var parsed := ParseInt(rowPart);
    if parsed.None? {
      return Failure(NotAnInt);
    }
    var row := parsed.value;
    if row < 0 || row >= MAX_ROWS || column < 0 || column >= MAX_COLUMNS {
      return Failure(OutOfBounds);
    }
    return Success(Coord(column, row));
  }

  /** Every cell of the 26 x 100 grid resolves from its name, column first
      and with the row unshifted. */
  lemma ResolveRoundTrip(c: nat, r: nat)
    requires c < 26 && r < 100
    ensures Resolve(Some(CellEntry.Name(c, r))) == Success(Coord(c, r))
  {
    var s := CellEntry.Name(c, r);
    assert s[1..] == NatToString(r);
    ParseIntOfNatToString(r);
    assert Trim(s) != [];
  }

  /** A single character never resolves: its row part is empty. */
  lemma OneCharacterFails(s: string)
    requires |s| == 1
    ensures Resolve(Some(s)).Failure?
    ensures !IsTrimmable(s[0]) ==> Resolve(Some(s)) == Failure(BadFormat)
  {
  }

  /** A row part that is not an optionally signed run of digits is not an
      int: a second letter ("AA1"), a digit-letter order ("1A") or
      surrounding blanks ("  A1  ") all fail. */
  lemma NonDigitInRowFails(s: string, k: nat)
    requires 1 <= k < |s| && !IsAsciiDigit(s[k])
    requires k == 1 ==> s[k] != '+' && s[k] != '-'
    ensures Resolve(Some(s)).Failure?
  {
    var rowPart := s[1..];
    var signed := rowPart[0] == '-' || rowPart[0] == '+';
    var body := if signed then rowPart[1..] else rowPart;
    var at := if signed then k - 2 else k - 1;
    assert 0 <= at < |body| && body[at] == s[k];
    assert ParseInt(rowPart).None?;
  }

  /** The column part is matched against upper-case names only: any other
      first character -- lower case, '@' -- becomes column 0. */
  lemma NonUpperColumnIsZero(s: string)
    requires Resolve(Some(s)).Success? && !IsUpper(s[0])
    ensures Resolve(Some(s)).value.column == 0
  {
  }

  /** Rows from 100 on fail even though they parse. */
  lemma RowTooLargeFails(c: nat, r: nat)
    requires c < 26 && 100 <= r <= INT_MAX
    ensures Resolve(Some(CellEntry.Name(c, r))) == Failure(OutOfBounds)
  {
    var s := CellEntry.Name(c, r);
    assert s[1..] == NatToString(r);
    ParseIntOfNatToString(r);
    assert Trim(s) != [];
  }
}
