/**
  Cell-text extraction: every `td` of a row becomes the concatenation, with no
  separator, of its child nodes' texts, each trimmed on its own.
 */
module RowExtractor {
  import opened JsSemantics

  /** A `td`, as the texts of its direct child nodes in document order. */
  type Cell = seq<string>

  /** A `tr`, as its `td` cells in document order. */
  type RawRow = seq<Cell>

  /** The extracted texts of a row, one per cell. */
  type Row = seq<string>

  /** `[...td.childNodes].map(n => n.textContent.trim()).join("")` */
  function CellText(children: Cell): (text: string)
    ensures IsTrimmed(text)
  {
    if children == [] then ""
    else
      var init := CellText(children[..|children| - 1]);
      var last := Trim(children[|children| - 1]);
      TrimResultIsTrimmed(children[|children| - 1]);
      TrimmedConcat(init, last);
      init + last
  }

  /** `root.querySelectorAll("td").map(CellText)` */
  function RowTexts(cells: RawRow): Row {
    if cells == [] then [] else [CellText(cells[0])] + RowTexts(cells[1..])
  }

  /** The extracted rows of one page, in document order. */
  function ExtractRows(rows: seq<RawRow>): seq<Row> {
    if rows == [] then [] else [RowTexts(rows[0])] + ExtractRows(rows[1..])
  }

  /** One text per cell, in cell order. */
  lemma {:induction false} RowTextsPointwise(cells: RawRow)
    ensures |RowTexts(cells)| == |cells|
    ensures forall i :: 0 <= i < |cells| ==> RowTexts(cells)[i] == CellText(cells[i])
  {
    if cells != [] {
      RowTextsPointwise(cells[1..]);
    }
  }

  /** One extracted row per `tr`, in document order. */
  lemma {:induction false} ExtractRowsPointwise(rows: seq<RawRow>)
    ensures |ExtractRows(rows)| == |rows|
    ensures forall i :: 0 <= i < |rows| ==> ExtractRows(rows)[i] == RowTexts(rows[i])
  {
    if rows != [] {
      ExtractRowsPointwise(rows[1..]);
    }
  }

  /** A cell with a single child holds that child's trimmed text. */
  lemma SingleChildCell(child: string)
    ensures CellText([child]) == Trim(child)
  {
    assert [child][..0] == [];
  }

  /** The text of adjacent child runs is the concatenation of their texts. */
  lemma {:induction false} CellTextAppend(a: Cell, b: Cell)
    ensures CellText(a + b) == CellText(a) + CellText(b)
  {
    if b == [] {
      assert a + b == a;
    } else {
      assert (a + b)[..|a + b| - 1] == a + b[..|b| - 1];
      assert (a + b)[|a + b| - 1] == b[|b| - 1];
      CellTextAppend(a, b[..|b| - 1]);
    }
  }

  /** Trimming an extracted cell text again changes nothing. */
  lemma CellTextStable(children: Cell)
    ensures Trim(CellText(children)) == CellText(children)
  {
    TrimmedIsOwnTrim(CellText(children));
  }

  /** Whitespace-only children contribute nothing to the cell's text. */
  lemma {:induction false} BlankChildrenVanish(children: Cell)
    requires forall k, i :: 0 <= k < |children| && 0 <= i < |children[k]| ==> IsWhitespace(children[k][i])
    ensures CellText(children) == ""
  {
    if children != [] {
      var last := children[|children| - 1];
      BlankChildrenVanish(children[..|children| - 1]);
      BlankTrimsToEmpty(last);
    }
  }
}
