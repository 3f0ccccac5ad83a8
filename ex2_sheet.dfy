/** `Ex2Sheet`: a fixed-size grid of cells. Setting a cell stores its text
    and then replaces every formula cell by the text of its value; a
    depth matrix drives the same replacement in passes. */
module Ex2Sheet {
  import opened Common
  import opened JavaLang
  import opened SCell
  import SCellProofs
  import Ex2Utils

  /** The exceptions the sheet lets escape: the `IllegalArgumentException`
      of `evaluate` and the `ArrayIndexOutOfBoundsException` of reading
      `table[0]` or `dd[0]` when there is no first row. */
  datatype SheetError = IllegalArgument | IndexOutOfBounds

  // ------------------------------------------------------ one cell's text

  /** `eval(x, y)` on the text of an existing cell: the trimmed text, or,
      when it starts with `=`, `String.valueOf(Double.parseDouble(
      computeForm(text)))`, and `"Error"` when that throws. `ERR_FORM` is
      no double, so it becomes `"Error"`; a value's text reads back as the
      same value, so it is `render(d)`. */
  function EvalText(render: Double -> string, data: string): string {
    var t := Trim(data);
    if StartsWith(t, "=") then
      match FormValue(t)
      case FormErr => "Error"
      case FormOk(d) => render(d)
    else t
  }

  /** What `eval()` leaves in a cell: a text starting with `=` is replaced
      by its evaluation, any other text is kept. */
  function Settle(render: Double -> string, data: string): string {
    if StartsWith(data, "=") then EvalText(render, data) else data
  }

  /** No text `Double.parseDouble` accepts starts with `=`. */
  lemma JavaDoubleIsNoFormula(s: string)
    requires IsJavaDouble(s)
    ensures !StartsWith(s, "=")
  {
    StartsWithChar(s, '=');
  }

  /** `eval(x, y)` on an existing cell: a text that is no formula comes
      back trimmed; a formula gives what parsing the text `computeForm`
      returns gives back -- that text, or `"Error"` -- and never
      `ERR_FORM` itself. */
  lemma EvalTextCases(render: Double -> string, data: string)
    requires ValidRenderer(render)
    ensures !StartsWith(Trim(data), "=") ==> EvalText(render, data) == Trim(data)
    ensures StartsWith(Trim(data), "=") ==>
      var text := FormText(render, Trim(data));
      EvalText(render, data) == (if IsJavaDouble(text) then text else "Error") &&
      EvalText(render, data) != Ex2Utils.ERR_FORM
  {
    SCellProofs.ErrorStringsAreText();
    if StartsWith(Trim(data), "=") && FormValue(Trim(data)).FormOk? {
      JavaDoubleIsNoFormula(render(FormValue(Trim(data)).d));
      StartsWithChar(Ex2Utils.ERR_FORM, '=');
    }
  }

  /** `eval(x, y)` never returns a text starting with `=`. */
  lemma EvalTextIsNoFormula(render: Double -> string, data: string)
    requires ValidRenderer(render)
    ensures !StartsWith(EvalText(render, data), "=")
  {
    var t := Trim(data);
    if StartsWith(t, "=") {
      match FormValue(t)
      case FormErr =>
        StartsWithChar("Error", '=');
      case FormOk(d) =>
        JavaDoubleIsNoFormula(render(d));
    }
  }

  /** A settled text is no formula, so settling twice is settling once. */
  lemma SettleIsIdempotent(render: Double -> string, data: string)
    requires ValidRenderer(render)
    ensures !StartsWith(Settle(render, data), "=")
    ensures Settle(render, Settle(render, data)) == Settle(render, data)
  {
    EvalTextIsNoFormula(render, data);
  }

  // ----------------------------------------------------- depth passes

  /** One cell's step in the pass of `evaluate` at depth `d`, where `row`
      is the cell's row of the depth matrix: `-1` writes `"Error"`, an
      entry equal to `d` settles a formula, and a cell the row does not
      reach is skipped. */
  function PassStep(render: Double -> string, row: seq<int>, y: nat, d: int, data: string): string {
    if y >= |row| then data
    else if row[y] == -1 then "Error"
    else if row[y] == d && StartsWith(data, "=") then EvalText(render, data)
    else data
  }

  /** A cell after the passes at depths `0` to `d - 1`. */
  function Passed(render: Double -> string, row: seq<int>, y: nat, d: int, data: string): string {
    if y >= |row| then data
    else if row[y] == -1 then (if d > 0 then "Error" else data)
    else if 0 <= row[y] < d then Settle(render, data)
    else data
  }

  /** A cell once `evaluate` is done: `"Error"` for depth `-1`, settled
      for a depth of `0` or more, kept otherwise. */
  function Evaluated(render: Double -> string, row: seq<int>, y: nat, data: string): string {
    if y >= |row| then data
    else if row[y] == -1 then "Error"
    else if row[y] >= 0 then Settle(render, data)
    else data
  }

  /** The pass at depth `d` takes a cell from `d` passes to `d + 1`. */
  lemma PassAdvances(render: Double -> string, row: seq<int>, y: nat, d: int, data: string)
    requires d >= 0
    ensures PassStep(render, row, y, d, Passed(render, row, y, d, data)) == Passed(render, row, y, d + 1, data)
  {
  }

  /** Once the passes have gone past every entry, each cell is evaluated. */
  lemma PassesComplete(render: Double -> string, row: seq<int>, y: nat, m: int, data: string)
    requires m >= 0 && forall k :: 0 <= k < |row| ==> row[k] <= m
    ensures Passed(render, row, y, m + 1, data) == Evaluated(render, row, y, data)
  {
  }

  /** The largest of `acc` and the entries of `row`, read left to right. */
  function RowMax(acc: int, row: seq<int>): (m: int)
    ensures m >= acc
    ensures forall k :: 0 <= k < |row| ==> row[k] <= m
    ensures m == acc || exists k :: 0 <= k < |row| && row[k] == m
    decreases |row|
  {
    if row == [] then acc
    else
      var m := RowMax(if row[0] > acc then row[0] else acc, row[1..]);
      assert forall k :: 1 <= k < |row| ==> row[k] == row[1..][k - 1];
      m
  }

  /** `maxDepth`: the largest of `acc` and every entry, row by row. */
  function GridMax(acc: int, dd: seq<seq<int>>): (m: int)
    ensures m >= acc
    ensures forall i, k :: 0 <= i < |dd| && 0 <= k < |dd[i]| ==> dd[i][k] <= m
    ensures m == acc || exists i, k :: 0 <= i < |dd| && 0 <= k < |dd[i]| && dd[i][k] == m
    decreases |dd|
  {
    if dd == [] then acc
    else
      var m := GridMax(RowMax(acc, dd[0]), dd[1..]);
      assert forall i :: 1 <= i < |dd| ==> dd[i] == dd[1..][i - 1];
      m
  }

  // ---------------------------------------------- the depth loop's counter

  /** How many passes the loop of `evaluate` makes with its Java `int`
      counter, which wraps from `Integer.MAX_VALUE` to `Integer.MIN_VALUE`;
      `None` when it has not stopped after `fuel` passes. */
  function JavaPassCount(counter: int, maxDepth: int, fuel: nat): Option<nat>
    decreases fuel
  {
    if counter > maxDepth then Some(0)
    else if fuel == 0 then None
    else
      match JavaPassCount(Wrap32(counter + 1), maxDepth, fuel - 1)
      case None => None
      case Some(n) => Some(n + 1)
  }

  /** With a depth entry of `Integer.MAX_VALUE`, the counter never exceeds
      the maximum, so the passes never end. */
  lemma {:induction false} PassesNeverEndAtIntMax(counter: int, fuel: nat)
    requires IsInt32(counter)
    ensures JavaPassCount(counter, INT_MAX, fuel) == None
    decreases fuel
  {
    if fuel > 0 {
      PassesNeverEndAtIntMax(Wrap32(counter + 1), fuel - 1);
    }
  }

  /** Below `Integer.MAX_VALUE` the Java counter makes `maxDepth - counter
      + 1` passes, as an unbounded one does. */
  lemma {:induction false} PassesEndBelowIntMax(counter: int, maxDepth: int)
    requires INT_MIN <= counter <= maxDepth + 1 && maxDepth < INT_MAX
    ensures JavaPassCount(counter, maxDepth, maxDepth + 1 - counter) == Some(maxDepth + 1 - counter)
    decreases maxDepth + 1 - counter
  {
    if counter <= maxDepth {
      PassesEndBelowIntMax(counter + 1, maxDepth);
    }
  }

  // ---------------------------------------------------------- the sheet

  class Sheet {
    /** `table`, one `SCell` per position; rows are never replaced. */
    const table: array2<SCell?>
    /** `String.valueOf(double)`. */
    const render: Double -> string

    /** Every position holds a cell, and values render as doubles. */
    ghost predicate Valid()
      reads table
    {
      ValidRenderer(render) &&
      forall i, j :: 0 <= i < table.Length0 && 0 <= j < table.Length1 ==> table[i, j] != null
    }

    /** The text of the cell at `(i, j)`. */
    function Data(i: int, j: int): string
      requires 0 <= i < table.Length0 && 0 <= j < table.Length1 && table[i, j] != null
      reads table, table[i, j]
    {
      table[i, j].line
    }

    /** `Ex2Sheet(x, y)`: an `x` by `y` grid of empty cells. */
    constructor (x: int, y: int, render: Double -> string)
      requires x >= 0 && y >= 0 && ValidRenderer(render)
      ensures Valid() && table.Length0 == x && table.Length1 == y && this.render == render
      ensures forall i, j :: 0 <= i < x && 0 <= j < y ==> Data(i, j) == ""
      ensures fresh(table)
    {
      this.render := render;
      table := new SCell?[x, y];
      new;
      var i := 0;
      while i < x
        invariant 0 <= i <= x
        invariant forall a, b :: 0 <= a < i && 0 <= b < y ==> table[a, b] != null && table[a, b].line == ""
      {
        var j := 0;
        while j < y
          invariant 0 <= j <= y
          invariant forall a, b :: 0 <= a < i && 0 <= b < y ==> table[a, b] != null && table[a, b].line == ""
          invariant forall b :: 0 <= b < j ==> table[i, b] != null && table[i, b].line == ""
        {
          table[i, j] := new SCell("");
          j := j + 1;
        }
        i := i + 1;
      }
    }

    /** `width()`: the number of columns. */
    function Width(): (w: int)
      ensures w >= 0 && w == table.Length0
    {
      table.Length0
    }

    /** `height()`: the length of the first column, which a sheet without
        columns does not have. */
    function Height(): (r: Result<int, SheetError>)
      ensures r.Success? <==> table.Length0 > 0
      ensures r.Success? ==> r.value == table.Length1
      ensures r.Failure? ==> r.error == SheetError.IndexOutOfBounds
    {
      if table.Length0 == 0 then Failure(SheetError.IndexOutOfBounds) else Success(table.Length1)
    }

    /** `isIn(x, y)`: `height()` is only asked for once `x` is a column,
        so it never throws. */
    function IsIn(x: int, y: int): (b: bool)
      ensures b <==> 0 <= x < table.Length0 && 0 <= y < table.Length1
    {
      x >= 0 && y >= 0 && x < Width() && y < Height().value
    }

    /** `get(x, y)`: the cell at an in-bounds position, `null` elsewhere. */
    function Get(x: int, y: int): (c: SCell?)
      reads table
      ensures IsIn(x, y) ==> c == table[x, y]
      ensures !IsIn(x, y) ==> c == null
    {
      if IsIn(x, y) then table[x, y] else null
    }

    /** `get(cords)`: column `cords[0] - 'A'` and the 1-based row after it;
        an empty name or a row `Integer.parseInt` refuses is caught and
        gives `null`, as does a position off the sheet. */
    function GetByName(cords: string): (c: SCell?)
      reads table
      ensures c != null ==> cords != [] && ParseInt(cords[1..]).Some?
      ensures c != null ==> c == Get(cords[0] as int - 'A' as int, Wrap32(ParseInt(cords[1..]).value - 1))
    {
      if cords == [] then null
      else
        var col := cords[0] as int - 'A' as int;
        match ParseInt(cords[1..])
        case None => null
        case Some(n) =>
          var row := Wrap32(n - 1);
          if IsIn(col, row) then Get(col, row) else null
    }

    /** `eval(x, y)`: the empty text off the sheet, else the cell's text
        evaluated; it never starts with `=`. */
    function Eval(x: int, y: int): (s: string)
      reads table, if IsIn(x, y) then {table[x, y]} else {}
      ensures Get(x, y) == null ==> s == Ex2Utils.EMPTY_CELL
      ensures ValidRenderer(render) ==> !StartsWith(s, "=")
    {
      var cell := Get(x, y);
      if cell == null then Ex2Utils.EMPTY_CELL
      else
        assert ValidRenderer(render) ==> !StartsWith(EvalText(render, cell.line), "=") by {
          if ValidRenderer(render) {
            EvalTextIsNoFormula(render, cell.line);
          }
        }
        EvalText(render, cell.line)
    }

    /** `value(x, y)`: `EMPTY_CELL` off the sheet, else `eval(x, y)`; the
        two agree everywhere. */
    function Value(x: int, y: int): (s: string)
      reads table, if IsIn(x, y) then {table[x, y]} else {}
      ensures s == Eval(x, y)
    {
      if !IsIn(x, y) then Ex2Utils.EMPTY_CELL
      else if Get(x, y) != null then Eval(x, y)
      else Ex2Utils.EMPTY_CELL
    }

    /** In a valid sheet `get(x, y)` finds a cell exactly on the sheet. */
    lemma GetFindsCells(x: int, y: int)
      requires Valid()
      ensures Get(x, y) != null <==> IsIn(x, y)
    {
    }

    /** A cell is found by its column letter and its 1-based row number. */
    lemma NameLookup(x: nat, y: nat)
      requires IsIn(x, y) && x < 26 && y < INT_MAX
      ensures GetByName([('A' as int + x) as char] + NatToString(y + 1)) == table[x, y]
    {
      var name := [('A' as int + x) as char] + NatToString(y + 1);
      assert name[1..] == NatToString(y + 1);
      ParseIntOfNatToString(y + 1);
    }

    /** Row `0` names nothing: the rows of `get(cords)` count from 1. */
    lemma RowZeroIsNull(c: char)
      ensures GetByName([c, '0']) == null
    {
      assert [c, '0'][1..] == "0";
      assert ParseInt("0") == Some(0);
    }

    /** `table[x][y] = new SCell(s)`: only that position's text changes. */
    method Put(x: int, y: int, s: string)
      requires Valid() && 0 <= x < table.Length0 && 0 <= y < table.Length1
      modifies table
      ensures Valid()
      ensures forall a, b :: 0 <= a < table.Length0 && 0 <= b < table.Length1 ==>
        Data(a, b) == if a == x && b == y then s else old(Data(a, b))
      ensures fresh(table[x, y]) && table[x, y].cellType == Ex2Utils.TEXT && table[x, y].order == 0
      ensures forall a, b :: 0 <= a < table.Length0 && 0 <= b < table.Length1 && (a != x || b != y) ==>
        table[a, b] == old(table[a, b])
    {
      table[x, y] := new SCell(s);
    }

    /** The body of `eval()`'s loops: a cell whose text starts with `=` gets
        a new cell holding its evaluation. */
    method SettleCell(i: int, j: int)
      requires Valid() && 0 <= i < table.Length0 && 0 <= j < table.Length1
      modifies table
      ensures Valid()
      ensures forall a, b :: 0 <= a < table.Length0 && 0 <= b < table.Length1 ==>
        Data(a, b) == if a == i && b == j then Settle(render, old(Data(a, b))) else old(Data(a, b))
      ensures StartsWith(old(Data(i, j)), "=") ==>
        fresh(table[i, j]) && table[i, j].cellType == Ex2Utils.TEXT && table[i, j].order == 0
      ensures forall a, b :: 0 <= a < table.Length0 && 0 <= b < table.Length1 ==>
        (a != i || b != j || !StartsWith(old(Data(i, j)), "=") ==> table[a, b] == old(table[a, b]))
    {
      var cell := Get(i, j);
      if cell != null && StartsWith(cell.line, "=") {
        var computed := Eval(i, j);
        Put(i, j, computed);
      }
    }

    /** `eval()`: every cell whose text starts with `=` is replaced by a
        new cell holding its evaluation; no formula is left. */
    method EvalAll()
      requires Valid()
      modifies table
      ensures Valid()
      ensures forall i, j :: 0 <= i < table.Length0 && 0 <= j < table.Length1 ==>
        Data(i, j) == Settle(render, old(Data(i, j))) && !StartsWith(Data(i, j), "=")
    {
      var i := 0;
      while i < Width()
        invariant 0 <= i <= table.Length0 && Valid()
        invariant forall a, b :: 0 <= a < table.Length0 && 0 <= b < table.Length1 ==>
          Data(a, b) == if a < i then Settle(render, old(Data(a, b))) else old(Data(a, b))
      {
        var j := 0;
        while j < Height().value
          invariant 0 <= j <= table.Length1 && Valid()
          invariant forall a, b :: 0 <= a < table.Length0 && 0 <= b < table.Length1 ==>
            Data(a, b) == if a < i || (a == i && b < j) then Settle(render, old(Data(a, b))) else old(Data(a, b))
        {
          SettleCell(i, j);
          j := j + 1;
        }
        i := i + 1;
      }
      forall a, b | 0 <= a < table.Length0 && 0 <= b < table.Length1
        ensures !StartsWith(Data(a, b), "=")
      {
        SettleIsIdempotent(render, old(Data(a, b)));
      }
    }

    /** `set(x, y, s)`: off the sheet nothing changes; on it the cell gets
        the text `s` and then `eval()` settles every formula. */
    method Set(x: int, y: int, s: string)
      requires Valid()
      modifies table
      ensures Valid()
      ensures forall i, j :: 0 <= i < table.Length0 && 0 <= j < table.Length1 ==>
        Data(i, j) == if IsIn(x, y) then Settle(render, if i == x && j == y then s else old(Data(i, j)))
                      else old(Data(i, j))
      ensures IsIn(x, y) ==> forall i, j :: 0 <= i < table.Length0 && 0 <= j < table.Length1 ==>
        !StartsWith(Data(i, j), "=")
    {
      if IsIn(x, y) {
        Put(x, y, s);
        EvalAll();
      }
    }

    /** `maxDepth(dd)`: the largest entry, and at least 0. */
    method MaxDepth(dd: seq<seq<int>>) returns (max: int)
      ensures max == GridMax(0, dd)
    {
      max := 0;
      var i := 0;
      while i < |dd|
        invariant 0 <= i <= |dd|
        invariant GridMax(max, dd[i..]) == GridMax(0, dd)
      {
        var row := dd[i];
        assert dd[i..][1..] == dd[i + 1..];
        var k := 0;
        while k < |row|
          invariant 0 <= k <= |row|
          invariant GridMax(RowMax(max, row[k..]), dd[i + 1..]) == GridMax(0, dd)
        {
          assert row[k..][1..] == row[k + 1..];
          if row[k] > max {
            max := row[k];
          }
          k := k + 1;
        }
        i := i + 1;
      }
    }

    /** The body of the loops of `evaluate` for one cell and depth `d`;
        `row` is the cell's row of the depth matrix. */
    method StepCell(row: seq<int>, d: int, x: int, y: int)
      requires Valid() && 0 <= x < table.Length0 && 0 <= y < table.Length1
      modifies table
      ensures Valid()
      ensures forall a, b :: 0 <= a < table.Length0 && 0 <= b < table.Length1 ==>
        Data(a, b) == if a == x && b == y then PassStep(render, row, b, d, old(Data(a, b))) else old(Data(a, b))
    {
      if IsIn(x, y) && y < |row| {
        var cell := Get(x, y);
        if row[y] == -1 {
          Put(x, y, "Error");
        } else if row[y] == d {
          if cell != null && StartsWith(cell.line, "=") {
            var evaluated := Eval(x, y);
            Put(x, y, evaluated);
          }
        }
      }
    }

    /** One pass of `evaluate` at depth `d`, over every cell of the sheet. */
    method Pass(dd: seq<seq<int>>, d: int)
      requires Valid() && |dd| == table.Length0
      modifies table
      ensures Valid()
      ensures forall i, j :: 0 <= i < table.Length0 && 0 <= j < table.Length1 ==>
        Data(i, j) == PassStep(render, dd[i], j, d, old(Data(i, j)))
    {
      var x := 0;
      while x < Width()
        invariant 0 <= x <= table.Length0 && Valid()
        invariant forall a, b :: 0 <= a < table.Length0 && 0 <= b < table.Length1 ==>
          Data(a, b) == if a < x then PassStep(render, dd[a], b, d, old(Data(a, b))) else old(Data(a, b))
      {
        var y := 0;
        while y < Height().value
          invariant 0 <= y <= table.Length1 && Valid()
          invariant forall a, b :: 0 <= a < table.Length0 && 0 <= b < table.Length1 ==>
            Data(a, b) == if a < x || (a == x && b < y) then PassStep(render, dd[a], b, d, old(Data(a, b)))
                          else old(Data(a, b))
        {
          StepCell(dd[x], d, x, y);
          y := y + 1;
        }
        x := x + 1;
      }
    }

    /** `evaluate(dd)`: a missing matrix or one whose size is not the
        sheet's is refused before any cell changes; otherwise the passes
        at depths `0` to `maxDepth(dd)` write `"Error"` into every cell
        of depth `-1` and settle every formula of depth `0` or more. The
        counter is unbounded here (see `PassesNeverEndAtIntMax`). */
    method Evaluate(dd: Option<seq<seq<int>>>) returns (r: Result<(), SheetError>)
      requires Valid()
      modifies table
      ensures Valid()
      ensures r == Failure(IllegalArgument) <==>
        dd.None? || |dd.value| != table.Length0 || (|dd.value| > 0 && |dd.value[0]| != table.Length1)
      ensures r == Failure(SheetError.IndexOutOfBounds) <==> dd.Some? && |dd.value| == table.Length0 == 0
      ensures r.Failure? ==> unchanged(table)
      ensures r.Success? ==> forall i, j :: 0 <= i < table.Length0 && 0 <= j < table.Length1 ==>
        Data(i, j) == Evaluated(render, dd.value[i], j, old(Data(i, j)))
    {
      if dd.None? || |dd.value| != Width() {
        return Failure(IllegalArgument);
      }
      var rows := dd.value;
      if |rows| == 0 {
        return Failure(SheetError.IndexOutOfBounds);
      }
      if |rows[0]| != Height().value {
        return Failure(IllegalArgument);
      }
      var depth := 0;
      var max := MaxDepth(rows);
      while depth <= max
        invariant 0 <= depth <= max + 1 && max == GridMax(0, rows) && Valid()
        invariant forall i, j :: 0 <= i < table.Length0 && 0 <= j < table.Length1 ==>
          Data(i, j) == Passed(render, rows[i], j, depth, old(Data(i, j)))
        decreases max + 1 - depth
      {
        ghost var before := depth;
        Pass(rows, depth);
        forall i, j | 0 <= i < table.Length0 && 0 <= j < table.Length1
          ensures Data(i, j) == Passed(render, rows[i], j, depth + 1, old(Data(i, j)))
        {
          PassAdvances(render, rows[i], j, depth, old(Data(i, j)));
        }
        depth := depth + 1;
        max := MaxDepth(rows);
      }
      forall i, j | 0 <= i < table.Length0 && 0 <= j < table.Length1
        ensures Data(i, j) == Evaluated(render, rows[i], j, old(Data(i, j)))
      {
        PassesComplete(render, rows[i], j, max, old(Data(i, j)));
      }
      return Success(());
    }

    /** `depth()`: 1 for every cell whose text starts with `=`, 0 for the
        others; reading `height()` fails on a sheet without columns. */
    method Depth() returns (r: Result<array2<int>, SheetError>)
      requires Valid()
      ensures r.Failure? <==> table.Length0 == 0
      ensures r.Success? ==> fresh(r.value)
      ensures r.Success? ==> r.value.Length0 == table.Length0 && r.value.Length1 == table.Length1
      ensures r.Success? ==> forall i, j :: 0 <= i < table.Length0 && 0 <= j < table.Length1 ==>
        r.value[i, j] == if StartsWith(Data(i, j), "=") then 1 else 0
    {
      var h := Height();
      if h.Failure? {
        return Failure(h.error);
      }
      var ans := new int[Width(), h.value];
      var i := 0;
      while i < Width()
        invariant 0 <= i <= table.Length0
        invariant forall a, b :: 0 <= a < i && 0 <= b < table.Length1 ==>
          ans[a, b] == if StartsWith(Data(a, b), "=") then 1 else 0
      {
        var j := 0;
        while j < h.value
          invariant 0 <= j <= table.Length1
          invariant forall a, b :: 0 <= a < i && 0 <= b < table.Length1 ==>
            ans[a, b] == if StartsWith(Data(a, b), "=") then 1 else 0
          invariant forall b :: 0 <= b < j ==> ans[i, b] == if StartsWith(Data(i, b), "=") then 1 else 0
        {
          var cell := table[i, j];
          if cell != null {
            if StartsWith(cell.line, "=") {
              ans[i, j] := 1;
            } else {
              ans[i, j] := 0;
            }
          }
          j := j + 1;
        }
        i := i + 1;
      }
      return Success(ans);
    }
  }
}
