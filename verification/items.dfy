/** Edits of the active record set (`handleUpdateItem` and `handleDeleteItem`
    in App.tsx): change one field of the rows with a given id, or drop the
    rows with a given id. */
module Items {
  import opened Basics
  import opened Types

  /** `items.map(item => item.id === id ? {...item, [field]: value} : item)`.
      Every row keeps its place. A row with the given id gets `field` set to
      `value` and keeps every other field; every other row is untouched. */
  function UpdateItem(items: seq<ExtractedItem>, id: string, field: string, value: string): (r: seq<ExtractedItem>)
    ensures |r| == |items|
    ensures forall i :: 0 <= i < |items| && ItemId(items[i]) == id ==> field in r[i] && r[i][field] == value
    ensures forall i, k :: 0 <= i < |items| && k != field ==>
      (k in r[i] <==> k in items[i]) && CellValue(r[i], k) == CellValue(items[i], k)
    ensures forall i :: 0 <= i < |items| && ItemId(items[i]) != id ==> r[i] == items[i]
    ensures field != IdKey ==> forall i :: 0 <= i < |items| ==> ItemId(r[i]) == ItemId(items[i])
  {
    seq(|items|, i requires 0 <= i < |items| =>
      if ItemId(items[i]) == id then items[i][field := value] else items[i])
  }

  /** `items.filter(item => item.id !== id)`. Exactly the rows with the given
      id disappear (every copy of them), every other row stays with its
      multiplicity, and the survivors keep their relative order. */
  function DeleteItem(items: seq<ExtractedItem>, id: string): (r: seq<ExtractedItem>)
    ensures forall x :: x in r <==> x in items && ItemId(x) != id
    ensures forall x :: multiset(r)[x] == if ItemId(x) != id then multiset(items)[x] else 0
    ensures Subsequence(r, items)
    ensures forall i :: 0 <= i < |r| ==> ItemId(r[i]) != id
  {
    FilterIsSubsequence(items, OtherThan(id));
    FilterContents(items, OtherThan(id));
    var r := Filter(items, OtherThan(id));
    assert forall i :: 0 <= i < |r| ==> ItemId(r[i]) != id by {
      forall i | 0 <= i < |r| ensures ItemId(r[i]) != id {
        assert r[i] in r;
      }
    }
    r
  }

  /** The filter test of a delete: rows whose id differs from `id`. */
  function OtherThan(id: string): ExtractedItem -> bool {
    (x: ExtractedItem) => ItemId(x) != id
  }

  /** Two edits of the same field of the same rows: only the last one
      counts. */
  lemma {:induction false} LastEditWins(items: seq<ExtractedItem>, id: string, field: string, a: string, b: string)
    requires field != IdKey
    ensures UpdateItem(UpdateItem(items, id, field, a), id, field, b) == UpdateItem(items, id, field, b)
  {
    var once := UpdateItem(items, id, field, a);
    var twice := UpdateItem(once, id, field, b);
    var direct := UpdateItem(items, id, field, b);
    forall i | 0 <= i < |items| ensures twice[i] == direct[i] {
      if ItemId(items[i]) == id {
        assert once[i] == items[i][field := a];
        assert twice[i] == once[i][field := b];
        assert once[i][field := b] == items[i][field := b];
      }
    }
  }

  /** Edits of two different fields commute. */
  lemma {:induction false} EditsOfDifferentFieldsCommute(items: seq<ExtractedItem>, id: string, f: string, g: string, a: string, b: string)
    requires f != g && f != IdKey && g != IdKey
    ensures UpdateItem(UpdateItem(items, id, f, a), id, g, b) == UpdateItem(UpdateItem(items, id, g, b), id, f, a)
  {
    var fg := UpdateItem(UpdateItem(items, id, f, a), id, g, b);
    var gf := UpdateItem(UpdateItem(items, id, g, b), id, f, a);
    forall i | 0 <= i < |items| ensures fg[i] == gf[i] {
      if ItemId(items[i]) == id {
        UpdatesCommute(items[i], f, a, g, b);
      }
    }
  }

  lemma UpdatesCommute(m: Fields, f: string, a: string, g: string, b: string)
    requires f != g
    ensures m[f := a][g := b] == m[g := b][f := a]
  {
    var x, y := m[f := a][g := b], m[g := b][f := a];
    assert x.Keys == y.Keys;
    forall k | k in x ensures x[k] == y[k] {
    }
  }

  /** Deleting a row that is already gone changes nothing. */
  lemma DeleteTwice(items: seq<ExtractedItem>, id: string)
    ensures DeleteItem(DeleteItem(items, id), id) == DeleteItem(items, id)
  {
    FilterIdempotent(items, OtherThan(id));
  }

  /** Deleting an id no row carries changes nothing. */
  lemma DeleteAbsent(items: seq<ExtractedItem>, id: string)
    requires forall i :: 0 <= i < |items| ==> ItemId(items[i]) != id
    ensures DeleteItem(items, id) == items
  {
    FilterKeepsAll(items, OtherThan(id));
  }

  /** Deleting one row of a list with distinct ids removes exactly one row. */
  lemma DeleteOneRow(items: seq<ExtractedItem>, k: nat)
    requires k < |items|
    requires forall i, j :: 0 <= i < j < |items| ==> ItemId(items[i]) != ItemId(items[j])
    ensures DeleteItem(items, ItemId(items[k])) == items[..k] + items[k + 1..]
  {
    var id := ItemId(items[k]);
    FilterDropsOne(items, k, OtherThan(id));
    assert DeleteItem(items, id) == Filter(items, OtherThan(id));
  }
}
