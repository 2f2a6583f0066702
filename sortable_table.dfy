/**
 * The column and row assembly of the `SortableTable` component.
 *
 * `render` copies the caller's columns, puts a checkbox column in front when
 * rows are selectable and an expand-button column at the back when rows are
 * expandable, and lays the table out from that list: an optional `<colgroup>`,
 * one header cell per column (whose sort action asks for the opposite
 * direction), three row slots per data row, and an optional footer. The table
 * only reports sort intent; it never reorders rows itself.
 *
 * Rendered markup is reduced to what decides it: class-name tokens, widths,
 * keys, spans and which optional pieces are present. Cell, header and footer
 * content is the caller's and is not modelled.
 */
module SortableTableComponent {
  import opened Wrappers

  /**
   * A column description. String fields hold "" where the prop is absent, the
   * two being equally falsy everywhere the component looks at them.
   * `hasFooter` says whether `footer` is truthy, `sortable` whether `onSort` is given.
   */
  datatype Column = Column(
    key: string,
    align: string,
    className: string,
    width: string,
    active: bool,
    ascending: Option<bool>,
    hasFooter: bool,
    sortable: bool)

  /** The `expandableColumn` prop: each field it carries replaces the expand column's own. */
  datatype ColumnPatch = ColumnPatch(
    key: Option<string>,
    align: Option<string>,
    className: Option<string>,
    width: Option<string>,
    active: Option<bool>,
    ascending: Option<bool>,
    hasFooter: Option<bool>,
    sortable: Option<bool>)

  const TruncateClass: string := "text-truncate"
  const SelectedRowClass: string := "table-primary"
  const ExpandedRowClass: string := "tr-expanded"

  // ---------------------------------------------------------------------------
  // Class names

  /** `classnames(...)` on string arguments: the non-empty ones, in order (joined by spaces on output). */
  function ClassNames(args: seq<string>): (r: seq<string>)
    ensures forall t :: t in r <==> t in args && t != ""
    ensures |r| <= |args|
    ensures forall i :: 0 <= i < |r| ==> r[i] != ""
  {
    if args == [] then []
    else (if args[0] == "" then [] else [args[0]]) + ClassNames(args[1..])
  }

  /** `classnames` over concatenated arguments: the tokens of each part, in order. */
  lemma {:induction false} ClassNamesAppend(a: seq<string>, b: seq<string>)
    ensures ClassNames(a + b) == ClassNames(a) + ClassNames(b)
    decreases |a|
  {
    if a == [] {
      assert a + b == b;
    } else {
      assert (a + b)[0] == a[0];
      assert (a + b)[1..] == a[1..] + b;
      ClassNamesAppend(a[1..], b);
    }
  }

  /** `classnames` of two arguments, written out: each non-empty one in turn. */
  lemma ClassNamesOfTwo(a: string, b: string)
    ensures ClassNames([a, b]) == (if a == "" then [] else [a]) + (if b == "" then [] else [b])
  {
    assert [a, b][1..] == [b];
    assert [b][1..] == [];
    assert ClassNames([b]) == (if b == "" then [] else [b]);
  }

  /** `classnames` of three arguments, written out: each non-empty one in turn. */
  lemma ClassNamesOfThree(a: string, b: string, c: string)
    ensures ClassNames([a, b, c])
         == (if a == "" then [] else [a]) + (if b == "" then [] else [b]) + (if c == "" then [] else [c])
  {
    assert [a, b, c][1..] == [b, c];
    assert [b, c][1..] == [c];
    assert [c][1..] == [];
    assert ClassNames([c]) == (if c == "" then [] else [c]);
    assert ClassNames([b, c]) == (if b == "" then [] else [b]) + ClassNames([c]);
  }

  /**
   * `generateColumnClassName(column, truncate)`: `text-truncate` first when
   * truncating, then `text-<align>` when an alignment is set, then the column's
   * own class name; nothing else.
   */
  function GenerateColumnClassName(column: Column, truncate: bool): (r: seq<string>)
    ensures |r| == (if truncate then 1 else 0) + (if column.align != "" then 1 else 0) + (if column.className != "" then 1 else 0)
    ensures truncate ==> r[0] == TruncateClass
    ensures column.align != "" ==> r[if truncate then 1 else 0] == "text-" + column.align
    ensures column.className != "" ==> r[|r| - 1] == column.className
    ensures forall t :: t in r ==>
      (truncate && t == TruncateClass) || (column.align != "" && t == "text-" + column.align) || t == column.className
  {
    ClassNamesOfThree(if truncate then TruncateClass else "", if column.align != "" then "text-" + column.align else "", column.className);
    ClassNames([if truncate then TruncateClass else "", if column.align != "" then "text-" + column.align else "", column.className])
  }

  // ---------------------------------------------------------------------------
  // Column assembly

  /** The checkbox column put in front of a selectable table. */
  const SelectColumn: Column := Column("select", "center", "", "2rem", false, None, false, false)

  /**
   * A selectable table's first column is the select column: keyed `select`,
   * centred, `2rem` wide, with no class, footer or sort action, so its cells are
   * classed `text-center` (after `text-truncate` when truncating).
   */
  lemma SelectColumnLeads(columns: seq<Column>, expandable: bool, patch: ColumnPatch, truncate: bool)
    ensures var c := Assembled(columns, true, expandable, patch)[0];
      && c.key == "select" && c.align == "center" && c.width == "2rem"
      && !c.hasFooter && HeaderSortArgument(c).None?
      && GenerateColumnClassName(c, truncate) == (if truncate then [TruncateClass] else []) + ["text-center"]
  {
    var c := Assembled(columns, true, expandable, patch)[0];
    assert c == SelectColumn;
    assert "text-" + c.align == "text-center";
    ClassNamesOfThree(if truncate then TruncateClass else "", "text-center", "");
    assert GenerateColumnClassName(c, truncate) == ClassNames([if truncate then TruncateClass else "", "text-center", ""]);
  }

  /** The expand column's own fields, before `expandableColumn` is spread over them. */
  const ExpandColumnDefaults: Column := Column("expand", "center", "", "2rem", false, None, false, false)

  /** The expand column: its defaults (centred, key `expand`, `2rem` wide) overridden field by field. */
  function ExpandColumn(patch: ColumnPatch): (c: Column)
    ensures c.key == (if patch.key.Some? then patch.key.value else "expand")
    ensures c.align == (if patch.align.Some? then patch.align.value else "center")
    ensures c.width == (if patch.width.Some? then patch.width.value else "2rem")
    ensures c.className == patch.className.GetOr("") && c.active == patch.active.GetOr(false)
    ensures c.ascending == patch.ascending && c.hasFooter == patch.hasFooter.GetOr(false) && c.sortable == patch.sortable.GetOr(false)
    ensures patch == ColumnPatch(None, None, None, None, None, None, None, None) ==> c == ExpandColumnDefaults
  {
    var d := ExpandColumnDefaults;
    Column(
      patch.key.GetOr(d.key),
      patch.align.GetOr(d.align),
      patch.className.GetOr(d.className),
      patch.width.GetOr(d.width),
      patch.active.GetOr(d.active),
      if patch.ascending.Some? then patch.ascending else d.ascending,
      patch.hasFooter.GetOr(d.hasFooter),
      patch.sortable.GetOr(d.sortable))
  }

  /**
   * The `cols` that `render` lays out: the caller's columns in their order,
   * after one select column exactly when the table is selectable and before
   * one expand column exactly when it is expandable.
   */
  function Assembled(columns: seq<Column>, selectable: bool, expandable: bool, patch: ColumnPatch): (cols: seq<Column>)
    ensures |cols| == |columns| + (if selectable then 1 else 0) + (if expandable then 1 else 0)
    ensures selectable ==> cols[0] == SelectColumn
    ensures expandable ==> cols[|cols| - 1] == ExpandColumn(patch)
    ensures var first := if selectable then 1 else 0;
      cols[first..first + |columns|] == columns
  {
    (if selectable then [SelectColumn] else []) + columns + (if expandable then [ExpandColumn(patch)] else [])
  }

  /** Builds `cols` as `render` does: copy the columns, `unshift` the select column, `push` the expand column. */
  method AssembleColumns(columns: seq<Column>, selectable: bool, expandable: bool, patch: ColumnPatch)
    returns (cols: seq<Column>)
    ensures cols == Assembled(columns, selectable, expandable, patch)
  {
    cols := columns;
    if selectable {
      cols := [SelectColumn] + cols;
    }
    if expandable {
      cols := cols + [ExpandColumn(patch)];
    }
  }

  // ---------------------------------------------------------------------------
  // Table-level predicates

  /** Some column of `columns` has a width. */
  predicate SomeWidth(columns: seq<Column>) {
    exists i :: 0 <= i < |columns| && columns[i].width != ""
  }

  /** `showColgroup`: the table is selectable or expandable, or a caller's column has a width. */
  function ShowColgroup(columns: seq<Column>, selectable: bool, expandable: bool): (r: bool)
    ensures !selectable && !expandable ==> (r <==> SomeWidth(columns))
    ensures selectable || expandable ==> r
  {
    selectable || expandable || SomeWidth(columns)
  }

  /**
   * The colgroup is shown exactly when some assembled column has a width, as
   * long as `expandableColumn` does not blank the expand column's width.
   */
  lemma ColgroupIffSomeWidth(columns: seq<Column>, selectable: bool, expandable: bool, patch: ColumnPatch)
    requires patch.width != Some("")
    ensures ShowColgroup(columns, selectable, expandable) <==> SomeWidth(Assembled(columns, selectable, expandable, patch))
  {
    var cols := Assembled(columns, selectable, expandable, patch);
    var first := if selectable then 1 else 0;
    if ShowColgroup(columns, selectable, expandable) {
      if selectable {
        assert cols[0].width != "";
      } else if expandable {
        assert cols[|cols| - 1].width != "";
      } else {
        var i :| 0 <= i < |columns| && columns[i].width != "";
        assert cols[first + i] == cols[first..first + |columns|][i];
        assert cols[first + i].width != "";
      }
    }
    if SomeWidth(cols) && !selectable && !expandable {
      var i :| 0 <= i < |cols| && cols[i].width != "";
      assert cols[0..|columns|] == columns;
      assert columns[i] == cols[i];
    }
  }

  /** `showFooter`: some caller's column has a footer. */
  predicate ShowFooter(columns: seq<Column>)
    ensures ShowFooter(columns) <==> exists c :: c in columns && c.hasFooter
  {
    exists i :: 0 <= i < |columns| && columns[i].hasFooter
  }

  /** The `<tfoot>` is emitted when column footers are shown or a table `footer` is given. */
  function ShowFooterSection(columns: seq<Column>, footerGiven: bool): (r: bool)
    ensures footerGiven ==> r
    ensures !footerGiven ==> (r <==> ShowFooter(columns))
  {
    ShowFooter(columns) || footerGiven
  }

  /**
   * What a header cell's sort action passes to `column.onSort`: the opposite of
   * the column's current direction, an undefined direction counting as
   * descending. A column without `onSort` has no sort action.
   */
  function HeaderSortArgument(column: Column): (r: Option<bool>)
    ensures r.Some? <==> column.sortable
    ensures r.Some? ==> (r.value <==> column.ascending != Some(true))
  {
    if column.sortable then Some(!column.ascending.GetOr(false)) else None
  }

  /** A column that adopts the requested direction asks for the other one next time. */
  lemma HeaderSortAlternates(column: Column)
    requires column.sortable
    ensures var next := column.(ascending := HeaderSortArgument(column));
      HeaderSortArgument(next) == Some(!HeaderSortArgument(column).value)
  {
  }

  /** `tableLayout`: `fixed` when truncating, `auto` otherwise, unless the caller's style sets it. */
  function TableLayout(truncate: bool, styleLayout: Option<string>): (r: string)
    ensures styleLayout.Some? ==> r == styleLayout.value
    ensures styleLayout.None? ==> (r == "fixed" <==> truncate) && (r == "auto" <==> !truncate)
  {
    styleLayout.GetOr(if truncate then "fixed" else "auto")
  }

  // ---------------------------------------------------------------------------
  // Rows

  /**
   * One slot of what `defaultRenderRow` returns. `NoRow` is the falsy value
   * `expanded && …` yields for a row that is not expanded.
   */
  datatype RowSlot<D> =
    | MainRow(key: string, classes: seq<string>, button: bool, cellClasses: seq<seq<string>>)
    | HiddenRow(hiddenKey: Option<string>)
    | DetailRow(detailKey: Option<string>, detailClasses: seq<string>, colSpan: nat, detail: D)
    | NoRow

  /** `rowSelected && rowSelected(row)`: a table without `rowSelected` selects no row. */
  predicate IsSelected<R>(rowSelected: Option<R -> bool>, row: R)
    ensures rowSelected.None? ==> !IsSelected(rowSelected, row)
    ensures rowSelected.Some? ==> (IsSelected(rowSelected, row) <==> rowSelected.value(row))
  {
    rowSelected.Some? && rowSelected.value(row)
  }

  /** A derived row key, `row.key ? `${row.key}<suffix>` : null`. */
  function DerivedKey(key: string, suffix: string): (r: Option<string>)
    ensures r.Some? <==> key != ""
    ensures r.Some? ==> |r.value| == |key| + |suffix| && r.value[..|key|] == key && r.value[|key|..] == suffix
  {
    if key != "" then Some(key + suffix) else None
  }

  /**
   * `defaultRenderRow`: always a main row with one cell per column; when
   * `rowExpanded(row)` is truthy, also a hidden spacer row and a detail row
   * whose single cell spans every column, and otherwise two falsy slots. Both
   * visible rows carry `table-primary` exactly when the row is selected.
   */
  function DefaultRenderRow<R, D>(
    row: R, rowKey: R -> string, columns: seq<Column>, rowClassName: R -> string,
    rowExpanded: R -> Option<D>, clickable: bool, truncate: bool, rowSelected: Option<R -> bool>): (r: seq<RowSlot<D>>)
    ensures |r| == 3
    ensures r[0].MainRow? && r[0].key == rowKey(row) && r[0].button == clickable
    ensures |r[0].cellClasses| == |columns|
    ensures forall i :: 0 <= i < |columns| ==> r[0].cellClasses[i] == GenerateColumnClassName(columns[i], truncate)
    ensures r[0].classes
         == (if IsSelected(rowSelected, row) then [SelectedRowClass] else [])
          + (if rowClassName(row) == "" then [] else [rowClassName(row)])
    ensures SelectedRowClass in r[0].classes <==> IsSelected(rowSelected, row) || rowClassName(row) == SelectedRowClass
    ensures rowExpanded(row).None? ==> r[1] == NoRow && r[2] == NoRow
    ensures rowExpanded(row).Some? ==>
      && r[1] == HiddenRow(DerivedKey(rowKey(row), "-hidden"))
      && r[2].DetailRow?
      && r[2].detailKey == DerivedKey(rowKey(row), "-expanded")
      && r[2].colSpan == |columns|
      && r[2].detail == rowExpanded(row).value
      && r[2].detailClasses == (if IsSelected(rowSelected, row) then [SelectedRowClass] else []) + [ExpandedRowClass]
      && ExpandedRowClass in r[2].detailClasses
      && (SelectedRowClass in r[2].detailClasses <==> IsSelected(rowSelected, row))
  {
    var selected := IsSelected(rowSelected, row);
    var primary := if selected then SelectedRowClass else "";
    ClassNamesOfTwo(primary, rowClassName(row));
    ClassNamesOfTwo(primary, ExpandedRowClass);
    var main := MainRow(
      rowKey(row),
      ClassNames([primary, rowClassName(row)]),
      clickable,
      seq(|columns|, i requires 0 <= i < |columns| => GenerateColumnClassName(columns[i], truncate)));
    match rowExpanded(row)
    case None => [main, NoRow, NoRow]
    case Some(detail) =>
      [main,
       HiddenRow(DerivedKey(rowKey(row), "-hidden")),
       DetailRow(DerivedKey(rowKey(row), "-expanded"), ClassNames([primary, ExpandedRowClass]), |columns|, detail)]
  }

  // ---------------------------------------------------------------------------
  // The whole table

  /** The props `render` reads (row rendering is `defaultRenderRow`). */
  datatype TableProps<!R, D> = TableProps(
    columns: seq<Column>,
    rows: seq<R>,
    rowKey: R -> string,
    styleLayout: Option<string>,
    truncate: bool,
    rowSelected: Option<R -> bool>,
    onExpandGiven: bool,
    expandableColumn: ColumnPatch,
    footerGiven: bool,
    rowClassName: R -> string,
    rowExpanded: R -> Option<D>,
    rowClickable: bool)

  /** A header cell: its classes, the column's sort display, and what its sort action would request. */
  datatype HeaderCell = HeaderCell(classes: seq<string>, active: bool, ascending: Option<bool>, sortArgument: Option<bool>)

  /** What `render` lays out. */
  datatype TableView<D> = TableView(
    layout: string,
    colWidths: Option<seq<string>>,
    headers: seq<HeaderCell>,
    body: seq<seq<RowSlot<D>>>,
    footerCells: Option<seq<seq<string>>>,
    footerSection: bool)

  /** The assembled columns for these props: selectable when `rowSelected` is given, expandable when `onExpand` is. */
  function ColumnsOf<R, D>(props: TableProps<R, D>): (cols: seq<Column>)
    ensures |cols| == |props.columns| + (if props.rowSelected.Some? then 1 else 0) + (if props.onExpandGiven then 1 else 0)
  {
    Assembled(props.columns, props.rowSelected.Some?, props.onExpandGiven, props.expandableColumn)
  }

  /** The header row: one cell per column, each with its class names, sort display and sort action. */
  function HeaderRow(cols: seq<Column>, truncate: bool): (r: seq<HeaderCell>)
    ensures |r| == |cols|
    ensures forall i :: 0 <= i < |cols| ==> r[i].classes == GenerateColumnClassName(cols[i], truncate)
    ensures forall i :: 0 <= i < |cols| ==>
      r[i].sortArgument == HeaderSortArgument(cols[i]) && r[i].active == cols[i].active && r[i].ascending == cols[i].ascending
  {
    seq(|cols|, i requires 0 <= i < |cols| =>
      HeaderCell(GenerateColumnClassName(cols[i], truncate), cols[i].active, cols[i].ascending, HeaderSortArgument(cols[i])))
  }

  /** `rows.map(row => renderRow(row, cols, …))` with the default row renderer. */
  function BodyRows<R, D>(props: TableProps<R, D>, cols: seq<Column>): (body: seq<seq<RowSlot<D>>>)
    ensures |body| == |props.rows|
    ensures forall j :: 0 <= j < |body| ==> |body[j]| == 3 && body[j][0].MainRow? && |body[j][0].cellClasses| == |cols|
    ensures forall j :: 0 <= j < |body| && body[j][2].DetailRow? ==> body[j][2].colSpan == |cols|
    ensures forall j :: 0 <= j < |body| ==> (body[j][2].DetailRow? <==> props.rowExpanded(props.rows[j]).Some?)
    ensures forall j :: 0 <= j < |body| ==>
      body[j] == DefaultRenderRow(props.rows[j], props.rowKey, cols, props.rowClassName, props.rowExpanded,
                                  props.rowClickable, props.truncate, props.rowSelected)
  {
    seq(|props.rows|, j requires 0 <= j < |props.rows| =>
      DefaultRenderRow(props.rows[j], props.rowKey, cols, props.rowClassName, props.rowExpanded,
                       props.rowClickable, props.truncate, props.rowSelected))
  }

  /** The `<col>` widths of the colgroup, one per column. */
  function ColWidths(cols: seq<Column>): (widths: seq<string>)
    ensures |widths| == |cols|
    ensures forall i :: 0 <= i < |cols| ==> widths[i] == cols[i].width
  {
    seq(|cols|, i requires 0 <= i < |cols| => cols[i].width)
  }

  /** The column-footer row: one cell per column, classed like the column. */
  function FooterRow(cols: seq<Column>, truncate: bool): (cells: seq<seq<string>>)
    ensures |cells| == |cols|
    ensures forall i :: 0 <= i < |cols| ==> cells[i] == GenerateColumnClassName(cols[i], truncate)
  {
    seq(|cols|, i requires 0 <= i < |cols| => GenerateColumnClassName(cols[i], truncate))
  }

  /**
   * A detail row's single cell spans the caller's columns and the select and
   * expand columns the table adds.
   */
  lemma DetailSpansEveryColumn<R, D>(props: TableProps<R, D>)
    ensures var body := BodyRows(props, ColumnsOf(props));
      forall j :: 0 <= j < |body| && body[j][2].DetailRow? ==>
        body[j][2].colSpan == |props.columns| + (if props.rowSelected.Some? then 1 else 0) + (if props.onExpandGiven then 1 else 0)
  {
    var cols := ColumnsOf(props);
    var body: seq<seq<RowSlot<D>>> := BodyRows(props, cols);
    forall j | 0 <= j < |body| && body[j][2].DetailRow?
      ensures body[j][2].colSpan == |props.columns| + (if props.rowSelected.Some? then 1 else 0) + (if props.onExpandGiven then 1 else 0)
    {
      assert body[j][2].colSpan == |cols|;
    }
  }

  /** `SortableTable.render` */
  method Render<R, D>(props: TableProps<R, D>) returns (view: TableView<D>)
    ensures view.layout == TableLayout(props.truncate, props.styleLayout)
    ensures view.colWidths
         == if ShowColgroup(props.columns, props.rowSelected.Some?, props.onExpandGiven) then Some(ColWidths(ColumnsOf(props))) else None
    ensures view.headers == HeaderRow(ColumnsOf(props), props.truncate)
    ensures view.body == BodyRows(props, ColumnsOf(props))
    ensures view.footerCells == if ShowFooter(props.columns) then Some(FooterRow(ColumnsOf(props), props.truncate)) else None
    ensures view.footerSection <==> ShowFooterSection(props.columns, props.footerGiven)
  {
    var selectable := props.rowSelected.Some?;
    var expandable := props.onExpandGiven;
    var cols := AssembleColumns(props.columns, selectable, expandable, props.expandableColumn);
    assert cols == ColumnsOf(props);
    var widths := if ShowColgroup(props.columns, selectable, expandable) then Some(ColWidths(cols)) else None;
    var footerCells := if ShowFooter(props.columns) then Some(FooterRow(cols, props.truncate)) else None;
    view := TableView(TableLayout(props.truncate, props.styleLayout), widths, HeaderRow(cols, props.truncate),
                      BodyRows(props, cols), footerCells, ShowFooterSection(props.columns, props.footerGiven));
  }
}
