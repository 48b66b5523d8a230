/**
 * The DataFrame editor of the variable explorer: which cell texts count as
 * false in a boolean column, the global maximum and minimum over column
 * ranges, the lazy loading of large frames in pages of rows and columns,
 * the names given to duplicated rows and columns, and the bookkeeping of a
 * removal.
 */
module DataFrame {
  import opened Wrappers
  import opened Text

  /** Texts that stand for False when a cell of a boolean column is edited. */
  const BOOL_FALSE: seq<string> := ["false", "f", "0", "0.", "0.0", " "]

  /** Frames with at least this many cells get no background colouring; above it they are paged. */
  const LARGE_SIZE: nat := 500000
  const LARGE_NROWS: nat := 100000
  const LARGE_COLS: nat := 60
  const ROWS_TO_LOAD: nat := 500
  const COLS_TO_LOAD: nat := 40

  /** `bool_false_check`: a text meaning False becomes empty, any other text is kept. */
  function BoolFalseCheck(value: string): (r: string)
    ensures r == "" || r == value
    ensures r == "" <==> value == "" || Lower(value) in BOOL_FALSE
  {
    if Lower(value) in BOOL_FALSE then "" else value
  }

  lemma BoolFalseCheckIdempotent(value: string)
    ensures BoolFalseCheck(BoolFalseCheck(value)) == BoolFalseCheck(value)
  {
    assert Lower("") == "";
  }

  /**
   * `global_max`: the largest maximum and the smallest minimum over the
   * (maximum, minimum) pairs of the columns that have one; unpacking fails
   * with a ValueError when no column has one.
   */
  function GlobalMax(colVals: seq<Option<(int, int)>>): (r: Result<(int, int), string>)
    ensures r.Ok? <==> exists k :: 0 <= k < |colVals| && colVals[k].Some?
    ensures r.Err? ==> r.error == "ValueError"
    ensures r.Ok? ==> forall k :: 0 <= k < |colVals| && colVals[k].Some? ==>
      colVals[k].value.0 <= r.value.0 && r.value.1 <= colVals[k].value.1
    ensures r.Ok? ==> exists k :: 0 <= k < |colVals| && colVals[k].Some? && colVals[k].value.0 == r.value.0
    ensures r.Ok? ==> exists k :: 0 <= k < |colVals| && colVals[k].Some? && colVals[k].value.1 == r.value.1
    decreases |colVals|
  {
    if |colVals| == 0 then Err("ValueError")
    else
      var init := colVals[..|colVals| - 1];
      var last := colVals[|colVals| - 1];
      var rest := GlobalMax(init);
      assert forall k :: 0 <= k < |init| ==> init[k] == colVals[k];
      match last
      case None => rest
      case Some(p) =>
        if rest.Err? then Ok(p)
        else
          Ok((if p.0 > rest.value.0 then p.0 else rest.value.0,
              if p.1 < rest.value.1 then p.1 else rest.value.1))
  }

  /** One fetch of at most `chunk` more items, never past `total`. */
  function Fetched(loaded: nat, total: nat, chunk: nat): (r: nat)
    ensures loaded <= r && r - loaded <= chunk
    ensures loaded <= total ==> r <= total
    ensures total > loaded && chunk > 0 ==> r > loaded
    ensures total <= loaded ==> r == loaded
  {
    if total > loaded then loaded + (if total - loaded < chunk then total - loaded else chunk)
    else loaded
  }

  /** The count after `n` fetches. */
  function FetchedTimes(loaded: nat, total: nat, chunk: nat, n: nat): nat
    decreases n
  {
    if n == 0 then loaded else FetchedTimes(Fetched(loaded, total, chunk), total, chunk, n - 1)
  }

  /** Enough fetches load everything, and no more than everything. */
  lemma {:induction false} FetchesReachTotal(loaded: nat, total: nat, chunk: nat, n: nat)
    requires loaded <= total && n * chunk >= total - loaded
    ensures FetchedTimes(loaded, total, chunk, n) == total
    decreases n
  {
    if n > 0 {
      var next := Fetched(loaded, total, chunk);
      if total - loaded >= chunk {
        assert next == loaded + chunk;
        assert (n - 1) * chunk == n * chunk - chunk;
      }
      FetchesReachTotal(next, total, chunk, n - 1);
    }
  }

  /** The model of the frame's data cells. */
  class DataFrameModel {
    var totalRows: nat
    var totalCols: nat
    var rowsLoaded: nat
    var colsLoaded: nat
    var bgcolorEnabled: bool
    var columAvgEnabled: bool

    /** A loaded count exceeds its total only when a whole first page was granted. */
    predicate Valid()
      reads this
    {
      (rowsLoaded <= totalRows || rowsLoaded == ROWS_TO_LOAD)
      && (colsLoaded <= totalCols || colsLoaded == COLS_TO_LOAD)
    }

    function RowCount(): (r: nat)
      reads this
      ensures r <= totalRows && r <= rowsLoaded && (r == totalRows || r == rowsLoaded)
    {
      if totalRows <= rowsLoaded then totalRows else rowsLoaded
    }

    function ColumnCount(): (r: nat)
      reads this
      ensures r <= totalCols && r <= colsLoaded && (r == totalCols || r == colsLoaded)
    {
      if totalCols <= colsLoaded then totalCols else colsLoaded
    }

    /**
     * A frame of `rows` by `cols` cells: small frames get background
     * colours; large ones are shown in pages of 500 rows and 40 columns.
     */
    constructor(rows: nat, cols: nat)
      ensures totalRows == rows && totalCols == cols
      ensures bgcolorEnabled == (rows * cols < LARGE_SIZE) && columAvgEnabled == bgcolorEnabled
      ensures rows * cols > LARGE_SIZE ==> rowsLoaded == ROWS_TO_LOAD && colsLoaded == COLS_TO_LOAD
      ensures rows * cols <= LARGE_SIZE ==>
        rowsLoaded == (if rows > LARGE_NROWS then ROWS_TO_LOAD else rows)
        && colsLoaded == (if cols > LARGE_COLS then COLS_TO_LOAD else cols)
      ensures Valid()
      ensures RowCount() <= LARGE_NROWS && ColumnCount() <= LARGE_COLS
    {
      totalRows := rows;
      totalCols := cols;
      var size := rows * cols;
      if size < LARGE_SIZE {
        columAvgEnabled := true;
        bgcolorEnabled := true;
      } else {
        columAvgEnabled := false;
        bgcolorEnabled := false;
      }
      if size > LARGE_SIZE {
        rowsLoaded := ROWS_TO_LOAD;
        colsLoaded := COLS_TO_LOAD;
      } else {
        if rows > LARGE_NROWS {
          rowsLoaded := ROWS_TO_LOAD;
        } else {
          rowsLoaded := rows;
        }
        if cols > LARGE_COLS {
          colsLoaded := COLS_TO_LOAD;
        } else {
          colsLoaded := cols;
        }
      }
    }

    /** Loads one more page of rows and/or columns, when some are still missing. */
    method FetchMore(rows: bool, columns: bool)
      modifies this
      ensures rowsLoaded == (if rows then Fetched(old(rowsLoaded), totalRows, ROWS_TO_LOAD) else old(rowsLoaded))
      ensures colsLoaded == (if columns then Fetched(old(colsLoaded), totalCols, COLS_TO_LOAD) else old(colsLoaded))
      ensures totalRows == old(totalRows) && totalCols == old(totalCols)
      ensures bgcolorEnabled == old(bgcolorEnabled) && columAvgEnabled == old(columAvgEnabled)
      ensures old(Valid()) ==> Valid()
      ensures old(rowsLoaded) <= totalRows ==> rowsLoaded <= totalRows
      ensures old(colsLoaded) <= totalCols ==> colsLoaded <= totalCols
    {
      if rows && totalRows > rowsLoaded {
        var reminder := totalRows - rowsLoaded;
        var itemsToFetch := if reminder < ROWS_TO_LOAD then reminder else ROWS_TO_LOAD;
        rowsLoaded := rowsLoaded + itemsToFetch;
      }
      if columns && totalCols > colsLoaded {
        var reminder := totalCols - colsLoaded;
        var itemsToFetch := if reminder < COLS_TO_LOAD then reminder else COLS_TO_LOAD;
        colsLoaded := colsLoaded + itemsToFetch;
      }
    }

    /** After an edit of the frame's shape everything is loaded. */
    method RecalculateIndex(rows: nat, cols: nat)
      modifies this
      ensures totalRows == rows && totalCols == cols
      ensures rowsLoaded == rows && colsLoaded == cols
      ensures bgcolorEnabled == old(bgcolorEnabled) && columAvgEnabled == old(columAvgEnabled)
      ensures Valid() && RowCount() == rows && ColumnCount() == cols
    {
      totalRows := rows;
      rowsLoaded := rows;
      colsLoaded := cols;
      totalCols := cols;
    }
  }

  /**
   * The model of the column header (axis 0) or of the row index (axis 1),
   * loaded in step with the data model along its own axis.
   */
  class DataFrameHeaderModel {
    const axis: nat
    var totalRows: nat
    var totalCols: nat
    var rowsLoaded: nat
    var colsLoaded: nat
    /** (header rows, data columns) for axis 0, (data rows, header columns) otherwise. */
    const shape: (nat, nat)

    constructor(axis: nat, dataShape: (nat, nat), headerShape: (nat, nat), rowsLoaded: nat, colsLoaded: nat)
      ensures this.axis == axis && totalRows == dataShape.0 && totalCols == dataShape.1
      ensures this.rowsLoaded == rowsLoaded && this.colsLoaded == colsLoaded
      ensures shape == (if axis == 0 then (headerShape.0, dataShape.1) else (dataShape.0, headerShape.1))
    {
      this.axis := axis;
      this.totalRows := dataShape.0;
      this.totalCols := dataShape.1;
      this.colsLoaded := colsLoaded;
      this.rowsLoaded := rowsLoaded;
      this.shape := if axis == 0 then (headerShape.0, dataShape.1) else (dataShape.0, headerShape.1);
    }

    /** The header has at least one row; the index shows the loaded rows. */
    function RowCount(): (r: nat)
      reads this
      ensures axis == 0 ==> r >= 1 && r >= shape.0 && (r == 1 || r == shape.0)
      ensures axis != 0 ==> r <= totalRows && r <= rowsLoaded && (r == totalRows || r == rowsLoaded)
    {
      if axis == 0 then (if 1 < shape.0 then shape.0 else 1)
      else if totalRows <= rowsLoaded then totalRows
      else rowsLoaded
    }

    /** The header shows the loaded columns; the index has at least one column. */
    function ColumnCount(): (r: nat)
      reads this
      ensures axis == 0 ==> r <= totalCols && r <= colsLoaded && (r == totalCols || r == colsLoaded)
      ensures axis != 0 ==> r >= 1 && r >= shape.1 && (r == 1 || r == shape.1)
    {
      if axis == 0 then (if totalCols <= colsLoaded then totalCols else colsLoaded)
      else if 1 < shape.1 then shape.1
      else 1
    }

    /** Loads more rows for the index, or more columns for the header. */
    method FetchMore()
      modifies this
      ensures rowsLoaded == (if axis == 1 then Fetched(old(rowsLoaded), totalRows, ROWS_TO_LOAD) else old(rowsLoaded))
      ensures colsLoaded == (if axis == 0 then Fetched(old(colsLoaded), totalCols, COLS_TO_LOAD) else old(colsLoaded))
      ensures totalRows == old(totalRows) && totalCols == old(totalCols)
    {
      if axis == 1 && totalRows > rowsLoaded {
        var reminder := totalRows - rowsLoaded;
        var itemsToFetch := if reminder < ROWS_TO_LOAD then reminder else ROWS_TO_LOAD;
        rowsLoaded := rowsLoaded + itemsToFetch;
      }
      if axis == 0 && totalCols > colsLoaded {
        var reminder := totalCols - colsLoaded;
        var itemsToFetch := if reminder < COLS_TO_LOAD then reminder else COLS_TO_LOAD;
        colsLoaded := colsLoaded + itemsToFetch;
      }
    }
  }

  /**
   * A row or column label: a string, an integer, or a value of another
   * type, which is handled through its `str` text.
   */
  datatype Label = StrLabel(s: string) | IntLabel(i: int) | OtherLabel(text: string)

  function LabelText(l: Label): string {
    match l
    case StrLabel(s) => s
    case IntLabel(i) => IntToString(i)
    case OtherLabel(t) => t
  }

  /** Every label replaced by its text, as the copy naming does before comparing. */
  function Stringified(ls: seq<Label>): (r: seq<Label>)
    ensures |r| == |ls| && forall k :: 0 <= k < |ls| ==> r[k] == StrLabel(LabelText(ls[k]))
  {
    seq(|ls|, k requires 0 <= k < |ls| => StrLabel(LabelText(ls[k])))
  }

  function Texts(ls: seq<Label>): (r: seq<string>)
    ensures |r| == |ls| && forall k :: 0 <= k < |ls| ==> r[k] == LabelText(ls[k])
  {
    seq(|ls|, k requires 0 <= k < |ls| => LabelText(ls[k]))
  }

  const COPY: string := "_copy("

  /**
   * The copy number `n` of a label text `name` + digits of `n` + ")", in
   * which `name` occurs only at the start.
   */
  function CopyNumber(text: string, name: string): Option<nat> {
    if RFind(text, name) == 0 && |text| >= |name| + 1
      && IsNumeric(text[|name|..|text| - 1]) && text[|text| - 1] == ')'
    then Some(ParseNat(text[|name|..|text| - 1]))
    else None
  }

  /** The largest of `ind` and the copy numbers of `texts` under `name`. */
  function MaxCopy(texts: seq<string>, name: string, ind: int): (r: int)
    ensures r >= ind
    ensures forall k :: 0 <= k < |texts| && CopyNumber(texts[k], name).Some? ==>
      CopyNumber(texts[k], name).value <= r
    ensures r == ind
      || exists k :: 0 <= k < |texts| && CopyNumber(texts[k], name).Some? && CopyNumber(texts[k], name).value == r
    decreases |texts|
  {
    if |texts| == 0 then ind
    else
      var init := texts[..|texts| - 1];
      var c := CopyNumber(texts[|texts| - 1], name);
      var prev := MaxCopy(init, name, ind);
      assert forall k :: 0 <= k < |init| ==> init[k] == texts[k];
      if c.Some? && prev < c.value then c.value else prev
  }

  /**
   * The base name and the starting copy number for a label text: a label
   * ending in `_copy(n)` continues from `n` under the same base; any other
   * label gets `label_copy(` as its base and starts from -1.
   */
  function CopyBase(text: string): (r: (string, int))
    ensures r.1 >= -1
    ensures |r.0| >= |COPY| && r.0[|r.0| - |COPY|..] == COPY
  {
    var at := RFind(text, COPY);
    if at == -1 then (text + COPY, -1)
    else
      var p := at + |COPY|;
      var final := |text| - 1;
      var curr := if p <= final then text[p..final] else "";
      if IsNumeric(curr) && text[final] == ')' then
        assert text[at..p] == COPY;
        (text[..p], ParseNat(curr) as int)
      else (text + COPY, -1)
  }

  /** The name `next_index_name` gives a copy of a string text. */
  function NextCopyName(texts: seq<string>, text: string): string {
    var (name, start) := CopyBase(text);
    name + NatToString(MaxCopy(texts, name, start) + 1) + ")"
  }

  /** A bound above every integer label in `ls`. */
  function IntBound(ls: seq<Label>): (b: int)
    ensures forall k :: 0 <= k < |ls| && ls[k].IntLabel? ==> ls[k].i < b
  {
    if |ls| == 0 then 0
    else
      var rest := IntBound(ls[1..]);
      assert forall k :: 1 <= k < |ls| ==> ls[k] == ls[1..][k - 1];
      if ls[0].IntLabel? && ls[0].i >= rest then ls[0].i + 1 else rest
  }

  /**
   * `next_index_name`: the label for a duplicated row or column. An integer
   * label gets the first larger integer not among `indexes`; any other label
   * gets a `_copy(n)` name, after every entry of `indexes` has been turned
   * into its text in place.
   */
  method NextIndexName(indexes: array<Label>, current: Label) returns (r: Label)
    modifies indexes
    ensures current.IntLabel? ==>
      indexes[..] == old(indexes[..]) && r.IntLabel? && r.i > current.i && r !in indexes[..]
      && forall k :: current.i < k < r.i ==> IntLabel(k) in indexes[..]
    ensures !current.IntLabel? ==>
      indexes[..] == Stringified(old(indexes[..]))
      && r == StrLabel(NextCopyName(Texts(old(indexes[..])), LabelText(current)))
  {
    if current.IntLabel? {
      var next := FirstFreeAfter(indexes, current.i);
      return IntLabel(next);
    }
    var name := CopyName(indexes, LabelText(current));
    r := StrLabel(name);
  }

  /** The text branch of `next_index_name`: stringify the entries, then name the next copy. */
  method CopyName(indexes: array<Label>, text: string) returns (name: string)
    modifies indexes
    ensures indexes[..] == Stringified(old(indexes[..]))
    ensures name == NextCopyName(Texts(old(indexes[..])), text)
  {
    ghost var texts := Texts(indexes[..]);
    Stringify(indexes);
    assert Texts(indexes[..]) == texts;
    var base := CopyBase(text);
    var ind := LargestCopy(indexes, base.0, base.1);
    assert ind == MaxCopy(texts, base.0, base.1);
    NextCopyNameParts(texts, text);
    name := base.0 + NatToString(ind + 1) + ")";
    assert name == NextCopyName(texts, text);
  }

  lemma NextCopyNameParts(texts: seq<string>, text: string)
    ensures NextCopyName(texts, text)
      == CopyBase(text).0 + NatToString(MaxCopy(texts, CopyBase(text).0, CopyBase(text).1) + 1) + ")"
  {
  }

  /** The integer branch of `next_index_name`: count up from `i + 1` past the integers in use. */
  method FirstFreeAfter(indexes: array<Label>, i: int) returns (next: int)
    ensures next > i && IntLabel(next) !in indexes[..]
    ensures forall k :: i < k < next ==> IntLabel(k) in indexes[..]
  {
    next := i + 1;
    ghost var bound := IntBound(indexes[..]);
    while IntLabel(next) in indexes[..]
      invariant next > i
      invariant forall k :: i < k < next ==> IntLabel(k) in indexes[..]
      decreases bound - next
    {
      next := next + 1;
    }
  }

  /** The loop of `next_index_name` that turns every entry into its text, in place. */
  method Stringify(indexes: array<Label>)
    modifies indexes
    ensures indexes[..] == Stringified(old(indexes[..]))
  {
    ghost var before := indexes[..];
    var i := 0;
    while i < indexes.Length
      invariant 0 <= i <= indexes.Length
      invariant forall k :: 0 <= k < i ==> indexes[k] == StrLabel(LabelText(before[k]))
      invariant forall k :: i <= k < indexes.Length ==> indexes[k] == before[k]
    {
      if !indexes[i].StrLabel? {
        indexes[i] := StrLabel(LabelText(indexes[i]));
      }
      i := i + 1;
    }
    assert indexes[..] == Stringified(before);
  }

  /** The loop of `next_index_name` over the (already textual) labels, keeping the largest copy number. */
  method LargestCopy(indexes: array<Label>, name: string, start: int) returns (ind: int)
    requires forall k :: 0 <= k < indexes.Length ==> indexes[k].StrLabel?
    ensures ind == MaxCopy(Texts(indexes[..]), name, start)
  {
    ghost var texts := Texts(indexes[..]);
    ind := start;
    var j := 0;
    while j < indexes.Length
      invariant 0 <= j <= indexes.Length
      invariant ind == MaxCopy(texts[..j], name, start)
    {
      MaxCopyStep(texts, j, name, start);
      var c := CopyNumber(indexes[j].s, name);
      if c.Some? && ind < c.value {
        ind := c.value;
      }
      j := j + 1;
    }
    assert texts[..j] == texts;
  }

  /** One more text extends the running maximum by that text's copy number. */
  lemma MaxCopyStep(texts: seq<string>, j: nat, name: string, ind: int)
    requires j < |texts|
    ensures MaxCopy(texts[..j + 1], name, ind) ==
      var c := CopyNumber(texts[j], name);
      var prev := MaxCopy(texts[..j], name, ind);
      if c.Some? && prev < c.value then c.value else prev
  {
    assert texts[..j + 1][..j] == texts[..j];
  }

  /** Nothing after the start of `name` + digits + ")" can begin another `name` that ends in "(". */
  lemma OnlyLeadingName(name: string, digits: string)
    requires |name| > 0 && name[|name| - 1] == '('
    requires forall k :: 0 <= k < |digits| ==> IsDigit(digits[k])
    ensures RFind(name + digits + ")", name) == 0
  {
    var t := name + digits + ")";
    assert OccursAt(t, name, 0) by { assert t[..|name|] == name; }
  }

  /** A copy's name is never one of the labels it was made against. */
  lemma NextCopyNameFresh(texts: seq<string>, text: string)
    ensures NextCopyName(texts, text) !in texts
  {
    var (name, start) := CopyBase(text);
    var m := MaxCopy(texts, name, start);
    var digits := NatToString(m + 1);
    var t := name + digits + ")";
    assert name[|name| - 1] == COPY[|COPY| - 1];
    OnlyLeadingName(name, digits);
    assert t[|name|..|t| - 1] == digits;
    ParseNatToString(m + 1);
    assert CopyNumber(t, name) == Some(m + 1);
  }

  /** In `text_copy(digits)`, with no `_copy(` in `text`, the last `_copy(` is the appended one. */
  lemma LastCopyAt(text: string, digits: string)
    requires !Contains(text, COPY)
    requires forall k :: 0 <= k < |digits| ==> IsDigit(digits[k])
    ensures RFind(text + COPY + digits + ")", COPY) == |text|
  {
    var t := text + COPY + digits + ")";
    assert OccursAt(t, COPY, |text|) by { assert t[|text|..|text| + |COPY|] == COPY; }
    forall j | |text| < j <= |t| - |COPY| ensures !OccursAt(t, COPY, j) {
      assert t[j] != '_' by {
        if j < |text| + |COPY| {
          assert t[j] == COPY[j - |text|];
        } else {
          assert t[j] == (digits + ")")[j - |text| - |COPY|];
        }
      }
      assert t[j..j + |COPY|][0] == t[j];
    }
  }

  /** A name `text_copy(n)`, with no `_copy(` in `text`, continues from `n` under `text_copy(`. */
  lemma CopyBaseOfCopy(text: string, n: nat)
    requires !Contains(text, COPY)
    ensures CopyBase(text + COPY + NatToString(n) + ")") == (text + COPY, n)
  {
    var digits := NatToString(n);
    var t := text + COPY + digits + ")";
    LastCopyAt(text, digits);
    var p := RFind(t, COPY) + |COPY|;
    var final := |t| - 1;
    assert p == |text| + |COPY| && p <= final;
    assert t[p..final] == digits;
    NatToStringNumeric(n);
    assert IsNumeric(t[p..final]) && t[final] == ')';
    assert t[..p] == text + COPY;
    ParseNatToString(n);
    assert ParseNat(t[p..final]) == n;
    assert CopyBase(t) == (t[..p], ParseNat(t[p..final]) as int);
  }

  /**
   * Copying a label without `_copy(` yields `label_copy(m + 1)`, where m is
   * the largest copy number already taken; copying that copy again
   * continues from `m + 1` under the same base name.
   */
  lemma CopyOfCopy(texts: seq<string>, text: string)
    requires !Contains(text, COPY)
    ensures NextCopyName(texts, text)
      == text + COPY + NatToString(MaxCopy(texts, text + COPY, -1) + 1) + ")"
    ensures CopyBase(NextCopyName(texts, text)) == (text + COPY, MaxCopy(texts, text + COPY, -1) + 1)
  {
    assert RFind(text, COPY) == -1;
    assert CopyBase(text) == (text + COPY, -1);
    CopyBaseOfCopy(text, MaxCopy(texts, text + COPY, -1) + 1);
  }

  /** A selected cell of the table view. */
  datatype CellIndex = CellIndex(valid: bool, row: nat, column: nat)

  /** What a removal does: nothing, or drop these labels and refocus. */
  datatype Removal =
    | NothingSelected
    | InvalidSelection
    | Declined
    | Remove(labels: seq<Label>, focusRow: nat, focusColumn: nat)

  /** Each element once, in the order of first appearance. */
  function Dedup<T(==, !new)>(xs: seq<T>): (r: seq<T>)
    ensures forall i, j :: 0 <= i < j < |r| ==> r[i] != r[j]
    ensures forall x :: x in r <==> x in xs
    decreases |xs|
  {
    if |xs| == 0 then []
    else
      var d := Dedup(xs[..|xs| - 1]);
      var x := xs[|xs| - 1];
      assert forall y :: y in xs <==> y in xs[..|xs| - 1] || y == x;
      if x in d then d else d + [x]
  }

  /** Later selections only add labels after the ones already collected. */
  lemma {:induction false} DedupPrefix<T(!new)>(xs: seq<T>, i: nat, j: nat)
    requires i <= j <= |xs|
    ensures |Dedup(xs[..i])| <= |Dedup(xs[..j])| && Dedup(xs[..j])[..|Dedup(xs[..i])|] == Dedup(xs[..i])
    decreases j - i
  {
    if i < j {
      DedupPrefix(xs, i, j - 1);
      assert xs[..j][..j - 1] == xs[..j - 1];
    }
  }

  /** The label on `axis` of each selected cell. */
  function SelectedLabels(selection: seq<CellIndex>, axis: nat, axisLabels: seq<Label>): (r: seq<Label>)
    requires forall k :: 0 <= k < |selection| ==>
      (if axis == 0 then selection[k].row else selection[k].column) < |axisLabels|
    ensures |r| == |selection|
  {
    seq(|selection|, k requires 0 <= k < |selection| =>
      axisLabels[if axis == 0 then selection[k].row else selection[k].column])
  }

  /**
   * `remove_item`: with nothing selected nothing happens; focus moves back one
   * row (axis 0) or column (axis 1) unless it is at 0; an invalid selected
   * index aborts; otherwise, once confirmed (or forced), the labels of the
   * selected cells are dropped, each once, in order of first selection.
   */
  method RemoveItem(selection: seq<CellIndex>, axis: nat, axisLabels: seq<Label>, confirmed: bool)
    returns (r: Removal)
    requires forall k :: 0 <= k < |selection| && selection[k].valid ==>
      (if axis == 0 then selection[k].row else selection[k].column) < |axisLabels|
    ensures |selection| == 0 <==> r == NothingSelected
    ensures r == InvalidSelection <==>
      |selection| > 0 && exists k :: 0 <= k < |selection| && !selection[k].valid
    ensures r == Declined <==>
      |selection| > 0 && (forall k :: 0 <= k < |selection| ==> selection[k].valid) && !confirmed
    ensures r.Remove? ==>
      r.labels == Dedup(SelectedLabels(selection, axis, axisLabels))
      && r.focusRow == (if axis == 0 && selection[0].row > 0 then selection[0].row - 1 else selection[0].row)
      && r.focusColumn == (if axis == 1 && selection[0].column > 0 then selection[0].column - 1 else selection[0].column)
  {
    if |selection| == 0 {
      return NothingSelected;
    }
    var focusRow := selection[0].row;
    var focusCol := selection[0].column;
    if axis == 0 && focusRow > 0 {
      focusRow := focusRow - 1;
    }
    if axis == 1 && focusCol > 0 {
      focusCol := focusCol - 1;
    }
    var indexLabel: seq<Label> := [];
    ghost var picked: seq<Label> := [];
    var i := 0;
    while i < |selection|
      invariant 0 <= i <= |selection| && |picked| == i
      invariant forall k :: 0 <= k < i ==> selection[k].valid
      invariant forall k :: 0 <= k < i ==>
        picked[k] == axisLabels[if axis == 0 then selection[k].row else selection[k].column]
      invariant indexLabel == Dedup(picked)
    {
      var index := selection[i];
      if !index.valid {
        return InvalidSelection;
      }
      var labelAt := axisLabels[if axis == 0 then index.row else index.column];
      assert (picked + [labelAt])[..i] == picked;
      picked := picked + [labelAt];
      if labelAt !in indexLabel {
        indexLabel := indexLabel + [labelAt];
      }
      i := i + 1;
    }
    assert picked == SelectedLabels(selection, axis, axisLabels);
    if !confirmed {
      return Declined;
    }
    return Remove(indexLabel, focusRow, focusCol);
  }
}
