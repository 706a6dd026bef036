/** The layout of the central panel: a label when nothing matches, otherwise
    a grid of buttons, `perRow` to a row, in the order of the filtered list. */
module Grid {
  import opened Registry

  /** One call the layout loop makes on the grid: close the current row, or
      add a button for the tool at registry index `tool`, labelled `name`. */
  datatype Cell = EndRow | Button(tool: nat, name: string)

  /** What the central panel shows. */
  datatype ToolsView = NoToolsFound | ToolGrid(cells: seq<Cell>)

  /** The cells the loop emits for `items`: before the button at position `p`
      it closes a row exactly when `p > 0` and `p` is a multiple of `perRow`. */
  function GridCells(items: seq<(nat, Tool)>, perRow: nat): seq<Cell>
    requires perRow >= 1
    decreases |items|
  {
    if |items| == 0 then []
    else
      var p := |items| - 1;
      GridCells(items[..p], perRow)
        + (if p > 0 && p % perRow == 0 then [EndRow] else [])
        + [Button(items[p].0, items[p].1.name)]
  }

  /** The view of the filtered list: a grid, or the "no tools found" label. */
  function ViewOf(items: seq<(nat, Tool)>, perRow: nat): ToolsView
    requires perRow >= 1
  {
    if |items| == 0 then NoToolsFound else ToolGrid(GridCells(items, perRow))
  }

  /** Lays out the filtered tools, one loop step per grid position. */
  method LayOutGrid(items: seq<(nat, Tool)>, perRow: nat) returns (cells: seq<Cell>)
    requires perRow >= 1
    ensures cells == GridCells(items, perRow)
  {
    cells := [];
    var gridPos := 0;
    while gridPos < |items|
      invariant gridPos <= |items|
      invariant cells == GridCells(items[..gridPos], perRow)
    {
      if gridPos > 0 && gridPos % perRow == 0 {
        cells := cells + [EndRow];
      }
      cells := cells + [Button(items[gridPos].0, items[gridPos].1.name)];
      assert items[..gridPos + 1][..gridPos] == items[..gridPos];
      gridPos := gridPos + 1;
    }
    assert items[..gridPos] == items;
  }

  /** Shows the label when the filtered list is empty, the grid otherwise. */
  method ShowTools(items: seq<(nat, Tool)>, perRow: nat) returns (view: ToolsView)
    requires perRow >= 1
    ensures view == ViewOf(items, perRow)
  {
    if |items| == 0 {
      view := NoToolsFound;
      return;
    }
    var cells := LayOutGrid(items, perRow);
    view := ToolGrid(cells);
  }

  /** The number of row breaks among `cells`. */
  function EndRows(cells: seq<Cell>): nat
  {
    if |cells| == 0 then 0
    else EndRows(cells[..|cells| - 1]) + (if cells[|cells| - 1].EndRow? then 1 else 0)
  }

  /** The buttons among `cells`, in order, as (registry index, label). */
  function Buttons(cells: seq<Cell>): seq<(nat, string)>
  {
    if |cells| == 0 then []
    else
      var last := cells[|cells| - 1];
      Buttons(cells[..|cells| - 1]) + (if last.Button? then [(last.tool, last.name)] else [])
  }

  lemma {:induction false} EndRowsAppend(a: seq<Cell>, b: seq<Cell>)
    ensures EndRows(a + b) == EndRows(a) + EndRows(b)
    decreases |b|
  {
    if |b| > 0 {
      var n := |b| - 1;
      assert (a + b)[..|a + b| - 1] == a + b[..n];
      EndRowsAppend(a, b[..n]);
    } else {
      assert a + b == a;
    }
  }

  lemma {:induction false} ButtonsAppend(a: seq<Cell>, b: seq<Cell>)
    ensures Buttons(a + b) == Buttons(a) + Buttons(b)
    decreases |b|
  {
    if |b| > 0 {
      var n := |b| - 1;
      assert (a + b)[..|a + b| - 1] == a + b[..n];
      ButtonsAppend(a, b[..n]);
    } else {
      assert a + b == a;
    }
  }

  /** Division by a positive divisor is determined by quotient and remainder. */
  lemma DivModUnique(x: int, d: int, q: int, r: int)
    requires d > 0 && 0 <= r < d && x == q * d + r
    ensures x / d == q && x % d == r
  {
    var q', r' := x / d, x % d;
    assert x == q' * d + r';
    assert (q - q') * d == r' - r;
    if q - q' >= 1 {
      assert false;
    } else if q - q' <= -1 {
      assert false;
    }
  }

  /** Stepping from `m` to `m + 1` raises the quotient by one exactly at a multiple of `d`. */
  lemma DivStep(m: nat, d: nat)
    requires d >= 1
    ensures (m + 1) / d == m / d + (if (m + 1) % d == 0 then 1 else 0)
  {
    var q, r := m / d, m % d;
    if r + 1 == d {
      DivModUnique(m + 1, d, q + 1, 0);
    } else {
      DivModUnique(m + 1, d, q, r + 1);
    }
  }

  /** Every filtered tool gets exactly one button, in filtered order, carrying
      its registry index and its name. */
  lemma {:induction false} GridButtons(items: seq<(nat, Tool)>, perRow: nat)
    requires perRow >= 1
    ensures Buttons(GridCells(items, perRow))
      == seq(|items|, i requires 0 <= i < |items| => (items[i].0, items[i].1.name))
    decreases |items|
  {
    if |items| > 0 {
      var p := |items| - 1;
      var brk: seq<Cell> := if p > 0 && p % perRow == 0 then [EndRow] else [];
      var btn := [Button(items[p].0, items[p].1.name)];
      GridButtons(items[..p], perRow);
      ButtonsAppend(GridCells(items[..p], perRow) + brk, btn);
      ButtonsAppend(GridCells(items[..p], perRow), brk);
      assert Buttons(brk) == [] by {
        if |brk| > 0 { assert brk[..0] == []; }
      }
      assert Buttons(btn) == [(items[p].0, items[p].1.name)] by {
        assert btn[..0] == [];
      }
    }
  }

  /** A grid of `n > 0` buttons has `(n - 1) / perRow` row breaks. */
  lemma {:induction false} GridEndRows(items: seq<(nat, Tool)>, perRow: nat)
    requires perRow >= 1 && |items| > 0
    ensures EndRows(GridCells(items, perRow)) == (|items| - 1) / perRow
    decreases |items|
  {
    var p := |items| - 1;
    var brk: seq<Cell> := if p > 0 && p % perRow == 0 then [EndRow] else [];
    var btn := [Button(items[p].0, items[p].1.name)];
    EndRowsAppend(GridCells(items[..p], perRow) + brk, btn);
    EndRowsAppend(GridCells(items[..p], perRow), brk);
    assert EndRows(btn) == 0 by {
      assert btn[..0] == [];
    }
    if p == 0 {
      assert items[..p] == [];
    } else {
      GridEndRows(items[..p], perRow);
      assert EndRows(brk) == (if p % perRow == 0 then 1 else 0) by {
        if |brk| > 0 { assert brk[..0] == []; }
      }
      DivStep(p - 1, perRow);
    }
  }

  /** A grid of `n > 0` buttons, `perRow` to a row, has `(n + perRow - 1) / perRow` rows. */
  lemma GridRowCount(items: seq<(nat, Tool)>, perRow: nat)
    requires perRow >= 1 && |items| > 0
    ensures EndRows(GridCells(items, perRow)) + 1 == (|items| + perRow - 1) / perRow
  {
    GridEndRows(items, perRow);
    var n := |items|;
    DivModUnique(n - 1 + perRow, perRow, (n - 1) / perRow + 1, (n - 1) % perRow);
  }

  /** The cells for a prefix of the filtered list start the cells for the whole list. */
  lemma {:induction false} GridPrefix(items: seq<(nat, Tool)>, perRow: nat, m: nat)
    requires perRow >= 1 && m <= |items|
    ensures GridCells(items[..m], perRow) <= GridCells(items, perRow)
    decreases |items| - m
  {
    if m < |items| {
      GridPrefix(items, perRow, m + 1);
      var longer := items[..m + 1];
      assert longer[..m] == items[..m];
      assert GridCells(items[..m], perRow) <= GridCells(longer, perRow);
    } else {
      assert items[..m] == items;
    }
  }

  /** The button of the tool at position `p` of the filtered list is preceded,
      in the grid, by exactly `p / perRow` row breaks: it sits in row `p / perRow`. */
  lemma GridButtonPlace(items: seq<(nat, Tool)>, perRow: nat, p: nat)
    requires perRow >= 1 && p < |items|
    ensures var upTo := GridCells(items[..p + 1], perRow);
      && upTo <= GridCells(items, perRow)
      && upTo[|upTo| - 1] == Button(items[p].0, items[p].1.name)
      && EndRows(upTo[..|upTo| - 1]) == p / perRow
  {
    var prefix := items[..p + 1];
    GridPrefix(items, perRow, p + 1);
    GridEndRows(prefix, perRow);
    var upTo := GridCells(prefix, perRow);
    assert prefix[p] == items[p];
    assert prefix[..p] == items[..p];
    var brk: seq<Cell> := if p > 0 && p % perRow == 0 then [EndRow] else [];
    var btn := [Button(items[p].0, items[p].1.name)];
    assert upTo == GridCells(items[..p], perRow) + brk + btn;
    assert upTo[..|upTo| - 1] == GridCells(items[..p], perRow) + brk;
    EndRowsAppend(upTo[..|upTo| - 1], btn);
    assert EndRows(btn) == 0 by {
      assert btn[..0] == [];
    }
    assert upTo[..|upTo| - 1] + btn == upTo;
  }
}
