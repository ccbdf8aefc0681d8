/** The pure part of the sheet round trip: `insert` flattens a frame into a
    header row plus data rows, `collect` turns the first row of a sheet body
    back into column names, and `cleanDF` makes the five numeric columns
    numeric. */
module Sheet {
  import opened Common

  /** A data frame: column labels and rows of cells. */
  datatype Frame = Frame(columns: seq<Cell>, rows: seq<seq<Cell>>)

  /** Every row has one cell per column, as in every pandas frame. */
  predicate Rectangular(f: Frame)
  {
    forall i :: 0 <= i < |f.rows| ==> |f.rows[i]| == |f.columns|
  }

  /** `[df.columns.values.tolist()] + df.values.tolist()` */
  function InsertBody(f: Frame): (body: seq<seq<Cell>>)
    ensures |body| == |f.rows| + 1 && body[0] == f.columns
    ensures forall i :: 0 <= i < |f.rows| ==> body[i + 1] == f.rows[i]
  {
    [f.columns] + f.rows
  }

  /** The length of the longest row. */
  function Width(body: seq<seq<Cell>>): (w: nat)
    ensures forall i :: 0 <= i < |body| ==> |body[i]| <= w
    ensures body != [] ==> exists i :: 0 <= i < |body| && |body[i]| == w
    ensures body == [] ==> w == 0
  {
    if body == [] then 0
    else
      var rest := Width(body[1..]);
      if |body[0]| >= rest then |body[0]| else rest
  }

  /** A row filled up with missing values to `w` cells, as `pd.DataFrame`
      does with ragged lists. */
  function Pad(row: seq<Cell>, w: nat): (r: seq<Cell>)
    requires |row| <= w
    ensures |r| == w && r[..|row|] == row
    ensures forall k :: |row| <= k < w ==> r[k] == Null
  {
    row + seq(w - |row|, _ => Null)
  }

  /** Why `collect` fails: the sheet range holds no rows (the response has
      no `values`, or `df.iloc[0]` finds no row). */
  datatype CollectError = EmptyRange

  /** `collect` after the read: `pd.DataFrame(values)`, then the first row
      becomes the column labels and the others the data. */
  function Collect(body: seq<seq<Cell>>): (r: Result<Frame, CollectError>)
    ensures body == [] <==> r.Err?
  {
    if body == [] then Err(EmptyRange)
    else
      var w := Width(body);
      Ok(Frame(Pad(body[0], w), seq(|body| - 1, i requires 0 <= i < |body| - 1 => Pad(body[i + 1], w))))
  }

  /** A collected frame is rectangular; a rectangular body is given back
      cell for cell, and a ragged one padded with missing values. */
  lemma CollectShape(body: seq<seq<Cell>>)
    requires body != []
    ensures Rectangular(Collect(body).value)
    ensures |Collect(body).value.rows| == |body| - 1
    ensures forall i :: 0 <= i < |body| ==>
              InsertBody(Collect(body).value)[i][..|body[i]|] == body[i]
  {
  }

  /** The header round trip: the body `insert` writes, read back the way
      `collect` reads it, gives the same column labels and the same rows in
      the same order. */
  lemma {:induction false} InsertCollectRoundTrip(f: Frame)
    requires Rectangular(f)
    ensures Collect(InsertBody(f)) == Ok(f)
  {
    var body := InsertBody(f);
    var w := Width(body);
    assert w == |f.columns| by {
      var i :| 0 <= i < |body| && |body[i]| == w;
      if i > 0 {
        assert body[i] == f.rows[i - 1];
      }
    }
    PadFull(f.columns);
    var rows := seq(|body| - 1, i requires 0 <= i < |body| - 1 => Pad(body[i + 1], w));
    forall i | 0 <= i < |f.rows| ensures rows[i] == f.rows[i] {
      assert body[i + 1] == f.rows[i];
      PadFull(f.rows[i]);
    }
    assert rows == f.rows;
  }

  lemma PadFull(row: seq<Cell>)
    ensures Pad(row, |row|) == row
  {
  }

  /** The other direction: a rectangular sheet body read by `collect` and
      written back by `insert` is the same body. */
  lemma {:induction false} CollectInsertRoundTrip(body: seq<seq<Cell>>)
    requires body != []
    requires forall i :: 0 <= i < |body| ==> |body[i]| == |body[0]|
    ensures InsertBody(Collect(body).value) == body
  {
    var w := Width(body);
    var i :| 0 <= i < |body| && |body[i]| == w;
    assert w == |body[0]|;
    var back := InsertBody(Collect(body).value);
    forall k | 0 <= k < |body| ensures back[k] == body[k] {
      assert back[k] == Pad(body[k], w);
    }
  }

  /** The five columns `cleanDF` converts, in the order it converts them. */
  const NumericColumns: seq<string> := ["Price", "Price Change", "% Change", "Buy Target", "Sell Target"]

  /** `pd.to_numeric` on one cell: numbers and missing values stay, the
      empty string (a blank sheet cell) becomes the missing value, and other
      text is read by `parse` (the number syntax pandas accepts); `None`
      means the text is not a number. */
  function ToNumeric(c: Cell, parse: string -> Option<real>): (r: Option<Cell>)
    ensures r.Some? ==> !r.value.Text?
    ensures !c.Text? ==> r == Some(c)
    ensures c == Text("") ==> r == Some(Null)
    ensures c.Text? && c.s != "" ==> (r.Some? <==> parse(c.s).Some?)
    ensures c.Text? && c.s != "" && r.Some? ==> r.value == Num(parse(c.s).value)
  {
    match c
    case Null => Some(Null)
    case Num(_) => Some(c)
    case Text(s) =>
      if s == "" then Some(Null)
      else if parse(s).Some? then Some(Num(parse(s).value))
      else None
  }

  /** A converted cell converts to itself: cleaning twice is cleaning once. */
  lemma ToNumericIdempotent(c: Cell, parse: string -> Option<real>)
    requires ToNumeric(c, parse).Some?
    ensures ToNumeric(ToNumeric(c, parse).value, parse) == ToNumeric(c, parse)
  {
  }

  /** `pd.to_numeric(df[col])` for the column at position `j`: all cells
      convert, or the call fails. */
  function ConvertColumn(rows: seq<seq<Cell>>, j: nat, parse: string -> Option<real>): (r: Option<seq<seq<Cell>>>)
    requires forall i :: 0 <= i < |rows| ==> j < |rows[i]|
    ensures r.Some? <==> forall i :: 0 <= i < |rows| ==> ToNumeric(rows[i][j], parse).Some?
    ensures r.Some? ==> |r.value| == |rows|
    ensures r.Some? ==>
              forall i :: 0 <= i < |rows| ==> r.value[i] == rows[i][j := ToNumeric(rows[i][j], parse).value]
  {
    if rows == [] then Some([])
    else
      var head := ToNumeric(rows[0][j], parse);
      var rest := ConvertColumn(rows[1..], j, parse);
      if head.Some? && rest.Some? then Some([rows[0][j := head.value]] + rest.value) else None
  }

  /** Why `cleanDF` fails. */
  datatype CleanError =
    | DuplicateColumn(column: string)  // `df[col]` is a frame, `to_numeric` raises TypeError
    | NotNumeric(column: string)       // a cell of the column is not a number: ValueError

  predicate UniqueLabel(cols: seq<Cell>, c: Cell)
  {
    forall i, j :: 0 <= i < |cols| && 0 <= j < |cols| && cols[i] == c && cols[j] == c ==> i == j
  }

  /** Every cell under the label `name` converts. */
  predicate ColumnConverts(f: Frame, name: string, parse: string -> Option<real>)
  {
    forall i, j :: 0 <= i < |f.rows| && 0 <= j < |f.columns| && j < |f.rows[i]| && f.columns[j] == Text(name) ==>
      ToNumeric(f.rows[i][j], parse).Some?
  }

  /** The column `name` is absent, or it is one column whose cells all convert. */
  predicate ColumnCleans(f: Frame, name: string, parse: string -> Option<real>)
  {
    Text(name) in f.columns ==> UniqueLabel(f.columns, Text(name)) && ColumnConverts(f, name, parse)
  }

  predicate IsNumericLabel(c: Cell, names: seq<string>)
  {
    c.Text? && c.s in names
  }

  /** The state of `cleanDF` after its first `n` names: the labels and
      the row count are those of `f`, the columns of those names are
      converted and every other cell is as in `f`. */
  predicate Stage(f: Frame, g: Frame, n: nat, parse: string -> Option<real>)
    requires n <= |NumericColumns|
  {
    && Rectangular(f) && g.columns == f.columns && |g.rows| == |f.rows| && Rectangular(g)
    && (forall m :: 0 <= m < n ==> ColumnCleans(f, NumericColumns[m], parse))
    && forall i, j :: 0 <= i < |f.rows| && 0 <= j < |f.columns| ==>
         if IsNumericLabel(f.columns[j], NumericColumns[..n])
         then ToNumeric(f.rows[i][j], parse) == Some(g.rows[i][j])
         else g.rows[i][j] == f.rows[i][j]
  }

  lemma StageAbsent(f: Frame, g: Frame, n: nat, parse: string -> Option<real>)
    requires n < |NumericColumns| && Stage(f, g, n, parse)
    requires Text(NumericColumns[n]) !in g.columns
    ensures Stage(f, g, n + 1, parse)
  {
  }

  lemma StageConvert(f: Frame, g: Frame, n: nat, j: nat, parse: string -> Option<real>)
    requires n < |NumericColumns| && Stage(f, g, n, parse)
    requires j < |g.columns| && g.columns[j] == Text(NumericColumns[n])
    requires UniqueLabel(g.columns, Text(NumericColumns[n]))
    requires ConvertColumn(g.rows, j, parse).Some?
    ensures Stage(f, Frame(g.columns, ConvertColumn(g.rows, j, parse).value), n + 1, parse)
  {
  }

  lemma StageNotNumeric(f: Frame, g: Frame, n: nat, j: nat, parse: string -> Option<real>)
    requires n < |NumericColumns| && Stage(f, g, n, parse)
    requires j < |g.columns| && g.columns[j] == Text(NumericColumns[n])
    requires ConvertColumn(g.rows, j, parse).None?
    ensures !ColumnConverts(f, NumericColumns[n], parse)
  {
  }

  /** `cleanDF`: for each of the five names in turn, if the frame has that
      column, replace the column by its numeric conversion. */
  method CleanDF(f: Frame, parse: string -> Option<real>) returns (r: Result<Frame, CleanError>)
    requires Rectangular(f)
    ensures r.Ok? <==> forall n :: 0 <= n < |NumericColumns| ==> ColumnCleans(f, NumericColumns[n], parse)
    ensures r.Ok? ==>
              && r.value.columns == f.columns
              && |r.value.rows| == |f.rows|
              && Rectangular(r.value)
              && forall i, j :: 0 <= i < |f.rows| && 0 <= j < |f.columns| ==>
                   if IsNumericLabel(f.columns[j], NumericColumns)
                   then ToNumeric(f.rows[i][j], parse) == Some(r.value.rows[i][j])
                   else r.value.rows[i][j] == f.rows[i][j]
    ensures r.Err? ==>
              exists n :: 0 <= n < |NumericColumns| && NumericColumns[n] == r.error.column &&
                !ColumnCleans(f, NumericColumns[n], parse) &&
                (forall m :: 0 <= m < n ==> ColumnCleans(f, NumericColumns[m], parse)) &&
                (r.error.DuplicateColumn? <==> !UniqueLabel(f.columns, Text(r.error.column)))
  {
    var g := f;
    assert NumericColumns[..0] == [];
    for n := 0 to |NumericColumns|
      invariant Stage(f, g, n, parse)
    {
      var col := NumericColumns[n];
      if Text(col) in g.columns {
        var j :| 0 <= j < |g.columns| && g.columns[j] == Text(col);
        if !UniqueLabel(g.columns, Text(col)) {
          return Err(DuplicateColumn(col));
        }
        var converted := ConvertColumn(g.rows, j, parse);
        if converted.None? {
          StageNotNumeric(f, g, n, j, parse);
          return Err(NotNumeric(col));
        }
        StageConvert(f, g, n, j, parse);
        g := Frame(g.columns, converted.value);
      } else {
        StageAbsent(f, g, n, parse);
      }
    }
    assert NumericColumns[..|NumericColumns|] == NumericColumns;
    r := Ok(g);
  }
}
