/** The editable results table (components/BOMTable.tsx): the record of
    column widths with its initialisation and clamped resize, the computed
    table width, the displayed rows and the edit events a cell reports. */
module Table {
  import opened Basics
  import opened Types
  import opened Csv
  import opened Items
  import opened Registry

  /** The key of the extra delete-button column and its initial width. */
  const ActionKey: string := "action"
  const ActionWidth: int := 70

  /** The narrowest width a drag can leave a column at. */
  const MinDragWidth: int := 50

  /** The narrowest rendered table. */
  const MinTableWidth: int := 100

  /** The width record (`Record<string, number>`), as the list of its
      entries. Assigning a key that is present changes its entry in place;
      a new key is added at the end, so a key occurs at most once. */
  type Widths = seq<(string, int)>

  function WidthKeys(w: Widths): (keys: seq<string>)
    ensures |keys| == |w|
    ensures forall i :: 0 <= i < |w| ==> keys[i] == w[i].0
  {
    seq(|w|, i requires 0 <= i < |w| => w[i].0)
  }

  predicate UniqueKeys(w: Widths) {
    forall i, j :: 0 <= i < j < |w| ==> w[i].0 != w[j].0
  }

  /** `widths[key]`, or None for an absent key. */
  function Lookup(w: Widths, key: string): (r: Option<int>)
    ensures r.Some? <==> key in WidthKeys(w)
  {
    if |w| == 0 then None
    else if w[0].0 == key then Some(w[0].1)
    else
      var r := Lookup(w[1..], key);
      assert WidthKeys(w) == [w[0].0] + WidthKeys(w[1..]);
      r
  }

  /** The sum of every stored width (`Object.values(...).reduce(+, 0)`). */
  function Total(w: Widths): int {
    if |w| == 0 then 0 else w[0].1 + Total(w[1..])
  }

  /** `widths[key] = width`: afterwards `key` holds `width`, every other key
      reads as before, the total moves by the difference, and keys stay
      unique. */
  function Assign(w: Widths, key: string, width: int): (r: Widths)
    ensures Lookup(r, key) == Some(width)
    ensures forall k :: k != key ==> Lookup(r, k) == Lookup(w, k)
    ensures Total(r) == Total(w) - Lookup(w, key).GetOr(0) + width
    ensures UniqueKeys(w) ==> UniqueKeys(r)
    ensures key in WidthKeys(w) ==> |r| == |w|
    ensures key !in WidthKeys(w) ==> r == w + [(key, width)]
  {
    if |w| == 0 then [(key, width)]
    else if w[0].0 == key then
      var r := [(key, width)] + w[1..];
      assert r[1..] == w[1..];
      r
    else
      var rest := Assign(w[1..], key, width);
      var r := [w[0]] + rest;
      assert r[1..] == rest;
      assert WidthKeys(w) == [w[0].0] + WidthKeys(w[1..]);
      assert UniqueKeys(w) ==> UniqueKeys(r) by {
        if UniqueKeys(w) {
          UniqueTail(w);
          assert Lookup(rest, w[0].0).None?;
          UniqueCons(w[0], rest);
        }
      }
      r
  }

  /** A record with unique keys: its first key is absent from the rest,
      and the rest has unique keys too. */
  lemma UniqueTail(w: Widths)
    requires UniqueKeys(w) && |w| > 0
    ensures w[0].0 !in WidthKeys(w[1..])
    ensures UniqueKeys(w[1..])
  {
    forall i | 0 <= i < |w[1..]| ensures WidthKeys(w[1..])[i] != w[0].0 {
      assert w[1..][i] == w[i + 1];
    }
    forall a, b | 0 <= a < b < |w[1..]| ensures w[1..][a].0 != w[1..][b].0 {
      assert w[1..][a] == w[a + 1] && w[1..][b] == w[b + 1];
    }
  }

  /** Putting an entry with a new key in front of unique keys keeps them
      unique. */
  lemma UniqueCons(head: (string, int), rest: Widths)
    requires UniqueKeys(rest) && head.0 !in WidthKeys(rest)
    ensures UniqueKeys([head] + rest)
  {
    var r := [head] + rest;
    forall i, j | 0 <= i < j < |r| ensures r[i].0 != r[j].0 {
      if i == 0 {
        assert r[j] == rest[j - 1];
        assert WidthKeys(rest)[j - 1] == r[j].0;
      } else {
        assert r[i] == rest[i - 1] && r[j] == rest[j - 1];
      }
    }
  }

  /** The column part of the initial record: each column's key set to its
      minimum width, in column order (`columns.forEach`), so a repeated key
      keeps its last column's width. */
  function FillColumns(columns: seq<ColumnDefinition>): Widths {
    if |columns| == 0 then []
    else
      var last := columns[|columns| - 1];
      Assign(FillColumns(columns[..|columns| - 1]), last.key, last.minWidth)
  }

  /** The record set up whenever the column list changes. */
  function InitialWidths(columns: seq<ColumnDefinition>): (w: Widths)
    ensures UniqueKeys(w)
  {
    FillColumnsUnique(columns);
    Assign(FillColumns(columns), ActionKey, ActionWidth)
  }

  lemma {:induction false} FillColumnsUnique(columns: seq<ColumnDefinition>)
    ensures UniqueKeys(FillColumns(columns))
  {
    if |columns| > 0 {
      FillColumnsUnique(columns[..|columns| - 1]);
    }
  }

  /** The reference reading of the initial width of a key: the minimum width
      of the last column with that key, if any. */
  function LastMinWidth(columns: seq<ColumnDefinition>, key: string): Option<int> {
    if |columns| == 0 then None
    else if columns[|columns| - 1].key == key then Some(columns[|columns| - 1].minWidth)
    else LastMinWidth(columns[..|columns| - 1], key)
  }

  /** The sum of the columns' minimum widths. */
  function SumMinWidths(columns: seq<ColumnDefinition>): int {
    if |columns| == 0 then 0
    else SumMinWidths(columns[..|columns| - 1]) + columns[|columns| - 1].minWidth
  }

  lemma {:induction false} FillColumnsLookup(columns: seq<ColumnDefinition>, key: string)
    ensures Lookup(FillColumns(columns), key) == LastMinWidth(columns, key)
  {
    if |columns| > 0 {
      FillColumnsLookup(columns[..|columns| - 1], key);
    }
  }

  /** Initially the action column is 70 wide and every other key reads as
      the minimum width of the last column carrying it, or is absent when no
      column carries it. */
  lemma InitialWidthsLookup(columns: seq<ColumnDefinition>, key: string)
    ensures key == ActionKey ==> Lookup(InitialWidths(columns), key) == Some(ActionWidth)
    ensures key != ActionKey ==> Lookup(InitialWidths(columns), key) == LastMinWidth(columns, key)
  {
    FillColumnsLookup(columns, key);
  }

  /** With distinct keys, the last column carrying a key is the only one. */
  lemma {:induction false} LastMinWidthDistinct(columns: seq<ColumnDefinition>, j: nat)
    requires DistinctKeys(columns) && j < |columns|
    ensures LastMinWidth(columns, columns[j].key) == Some(columns[j].minWidth)
  {
    var n := |columns| - 1;
    if j < n {
      var prefix := columns[..n];
      assert DistinctKeys(prefix) by {
        forall a, b | 0 <= a < b < |prefix| ensures prefix[a].key != prefix[b].key {
          assert prefix[a] == columns[a] && prefix[b] == columns[b];
        }
      }
      assert prefix[j] == columns[j];
      LastMinWidthDistinct(prefix, j);
    }
  }

  lemma {:induction false} LastMinWidthAbsent(columns: seq<ColumnDefinition>, key: string)
    requires key !in ColumnKeys(columns)
    ensures LastMinWidth(columns, key).None?
  {
    if |columns| > 0 {
      var prefix := columns[..|columns| - 1];
      assert ColumnKeys(columns)[|columns| - 1] == columns[|columns| - 1].key;
      assert key !in ColumnKeys(prefix) by {
        forall i | 0 <= i < |prefix| ensures ColumnKeys(prefix)[i] != key {
          assert ColumnKeys(columns)[i] == prefix[i].key;
        }
      }
      LastMinWidthAbsent(prefix, key);
    }
  }

  /** With distinct column keys and no column named "action", the initial
      total is the sum of the minimum widths plus 70. */
  lemma {:induction false} InitialTotal(columns: seq<ColumnDefinition>)
    requires DistinctKeys(columns)
    requires ActionKey !in ColumnKeys(columns)
    ensures Total(InitialWidths(columns)) == SumMinWidths(columns) + ActionWidth
  {
    FillTotal(columns);
    FillColumnsLookup(columns, ActionKey);
    LastMinWidthAbsent(columns, ActionKey);
  }

  /** For every built-in column list the initial total is the sum of the
      minimum widths plus the action column. */
  lemma DefaultInitialTotal(t: DocumentType)
    ensures Total(InitialWidths(DefaultColumns(t))) == SumMinWidths(DefaultColumns(t)) + ActionWidth
  {
    var columns := DefaultConfig(t).columns;
    ColumnsAvoidReservedKeys(t);
    assert ActionKey !in ColumnKeys(columns) by {
      forall i | 0 <= i < |columns| ensures ColumnKeys(columns)[i] != ActionKey {
        assert columns[i] in DefaultColumns(t);
      }
    }
    InitialTotal(columns);
  }

  /** The BOM table starts 780 wide: 120 + 250 + 70 + 70 + 200 for its
      columns and 70 for the action column. */
  lemma BomInitialTotal()
    ensures Total(InitialWidths(BomColumns)) == 780
  {
    DefaultInitialTotal(BOM);
    assert SumMinWidths(BomColumns) == 710 by {
      BomColumnsSum();
    }
  }

  lemma BomColumnsSum()
    ensures SumMinWidths(BomColumns) == 710
  {
    var c := BomColumns;
    assert c[..1][..0] == [];
    assert SumMinWidths(c[..1]) == 120;
    assert c[..2][..1] == c[..1];
    assert SumMinWidths(c[..2]) == 370;
    assert c[..3][..2] == c[..2];
    assert SumMinWidths(c[..3]) == 440;
    assert c[..4][..3] == c[..3];
    assert SumMinWidths(c[..4]) == 510;
    assert c[..4] == c[..|c| - 1];
  }

  lemma {:induction false} FillTotal(columns: seq<ColumnDefinition>)
    requires DistinctKeys(columns)
    ensures Total(FillColumns(columns)) == SumMinWidths(columns)
  {
    if |columns| > 0 {
      var n := |columns| - 1;
      var prefix := columns[..n];
      assert DistinctKeys(prefix) by {
        forall a, b | 0 <= a < b < |prefix| ensures prefix[a].key != prefix[b].key {
          assert prefix[a] == columns[a] && prefix[b] == columns[b];
        }
      }
      FillTotal(prefix);
      assert columns[n].key !in ColumnKeys(prefix) by {
        forall i | 0 <= i < |prefix| ensures ColumnKeys(prefix)[i] != columns[n].key {
          assert prefix[i] == columns[i];
        }
      }
      LastMinWidthAbsent(prefix, columns[n].key);
      FillColumnsLookup(prefix, columns[n].key);
    }
  }

  /** One mouse move of a drag that started at width `startWidth`: the
      dragged column becomes `max(50, startWidth + delta)` wide. */
  function Resize(w: Widths, key: string, startWidth: int, delta: int): (r: Widths)
    ensures Lookup(r, key) == Some(Max(MinDragWidth, startWidth + delta))
    ensures Lookup(r, key).value >= MinDragWidth
    ensures forall k :: k != key ==> Lookup(r, k) == Lookup(w, k)
    ensures Total(r) == Total(w) - Lookup(w, key).GetOr(0) + Max(MinDragWidth, startWidth + delta)
    ensures UniqueKeys(w) ==> UniqueKeys(r)
  {
    Assign(w, key, Max(MinDragWidth, startWidth + delta))
  }

  /** Each mouse move recomputes the width from the drag's start, so only the
      latest move of a drag counts. */
  lemma LatestMoveWins(w: Widths, key: string, startWidth: int, d1: int, d2: int)
    ensures Resize(Resize(w, key, startWidth, d1), key, startWidth, d2) == Resize(w, key, startWidth, d2)
  {
    AssignTwice(w, key, Max(MinDragWidth, startWidth + d1), Max(MinDragWidth, startWidth + d2));
  }

  lemma {:induction false} AssignTwice(w: Widths, key: string, a: int, b: int)
    ensures Assign(Assign(w, key, a), key, b) == Assign(w, key, b)
  {
    if |w| > 0 && w[0].0 != key {
      AssignTwice(w[1..], key, a, b);
      var once := Assign(w, key, a);
      assert once[1..] == Assign(w[1..], key, a);
    }
  }

  /** The rendered table width: the total, but never below 100. */
  function TableWidth(w: Widths): (width: int)
    ensures width >= MinTableWidth && width >= Total(w)
    ensures width == Total(w) || width == MinTableWidth
  {
    Max(Total(w), MinTableWidth)
  }

  /** A data column's rendered width: the stored width, unless it is absent
      or zero (both falsy), in which case the column's minimum width. */
  function ColumnWidth(w: Widths, column: ColumnDefinition): (width: int)
    ensures Lookup(w, column.key).Some? && Lookup(w, column.key).value != 0 ==> width == Lookup(w, column.key).value
    ensures Lookup(w, column.key).None? || Lookup(w, column.key) == Some(0) ==> width == column.minWidth
  {
    match Lookup(w, column.key)
    case Some(v) => if v != 0 then v else column.minWidth
    case None => column.minWidth
  }

  /** The action column's rendered width, falling back to 70 the same way. */
  function ActionColumnWidth(w: Widths): (width: int)
    ensures Lookup(w, ActionKey).Some? && Lookup(w, ActionKey).value != 0 ==> width == Lookup(w, ActionKey).value
    ensures Lookup(w, ActionKey).None? || Lookup(w, ActionKey) == Some(0) ==> width == ActionWidth
  {
    ColumnWidth(w, ColumnDefinition(ActionKey, "", ActionWidth))
  }

  /** Right after initialisation a column renders at its own minimum width
      (when keys are distinct, the width is non-zero and it is not the action
      column). */
  lemma InitialColumnWidth(columns: seq<ColumnDefinition>, j: nat)
    requires DistinctKeys(columns) && j < |columns|
    requires columns[j].key != ActionKey
    ensures ColumnWidth(InitialWidths(columns), columns[j]) == columns[j].minWidth
  {
    InitialWidthsLookup(columns, columns[j].key);
    LastMinWidthDistinct(columns, j);
  }

  /** One displayed row: its 1-based number, the id its buttons report, and
      the text in each column's cell. */
  datatype Row = Row(number: nat, id: string, cells: seq<string>)

  /** The table body. An empty item list renders nothing at all; otherwise
      there is one row per item, in item order, numbered from 1, each cell
      showing the item's value for the column or "" when it has none. */
  function View(items: seq<ExtractedItem>, columns: seq<ColumnDefinition>): (r: Option<seq<Row>>)
    ensures r.None? <==> |items| == 0
    ensures r.Some? ==> |r.value| == |items|
    ensures r.Some? ==> forall i :: 0 <= i < |items| ==>
      r.value[i].number == i + 1 && r.value[i].id == ItemId(items[i])
      && |r.value[i].cells| == |columns|
      && forall j :: 0 <= j < |columns| ==> r.value[i].cells[j] == CellValue(items[i], columns[j].key)
  {
    if |items| == 0 then None
    else Some(seq(|items|, i requires 0 <= i < |items| => Row(i + 1, ItemId(items[i]), Cells(items[i], columns))))
  }

  /** The edit a cell reports when its text changes: the row's id, the
      column's key and the new text. */
  datatype Edit = Edit(id: string, field: string, value: string)

  function CellEdit(row: Row, column: ColumnDefinition, text: string): Edit {
    Edit(row.id, column.key, text)
  }

  /** Applying the edit a cell reports makes that cell show the new text and
      leaves every other cell of the table as it was, unless another row
      shares the edited row's id. */
  lemma CellEditShows(items: seq<ExtractedItem>, columns: seq<ColumnDefinition>, i: nat, j: nat, text: string)
    requires i < |items| && j < |columns|
    requires DistinctKeys(columns) && columns[j].key != IdKey
    ensures var rows := View(items, columns).value;
      var e := CellEdit(rows[i], columns[j], text);
      var after := View(UpdateItem(items, e.id, e.field, e.value), columns).value;
      after[i].cells[j] == text
      && (forall c :: 0 <= c < |columns| && c != j ==> after[i].cells[c] == rows[i].cells[c])
      && (forall r :: 0 <= r < |items| && rows[r].id != rows[i].id ==> after[r] == rows[r])
  {
    var rows := View(items, columns).value;
    var e := CellEdit(rows[i], columns[j], text);
    var updated := UpdateItem(items, e.id, e.field, e.value);
    var after := View(updated, columns).value;
    forall c | 0 <= c < |columns| && c != j ensures after[i].cells[c] == rows[i].cells[c] {
      assert columns[c].key != columns[j].key;
    }
  }
}
