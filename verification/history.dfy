/** The history list (App.tsx): past extraction sessions, most recent first.
    New sessions are prepended, edits of the active rows are mirrored into
    the matching entry, entries are deleted by id, and the list is loaded
    once from browser storage. */
module History {
  import opened Basics
  import opened Types

  function Ids(history: seq<HistoryItem>): (ids: seq<string>)
    ensures |ids| == |history|
    ensures forall i :: 0 <= i < |history| ==> ids[i] == history[i].id
  {
    seq(|history|, i requires 0 <= i < |history| => history[i].id)
  }

  /** No two entries share an id. */
  predicate DistinctIds(history: seq<HistoryItem>) {
    forall i, j :: 0 <= i < j < |history| ==> history[i].id != history[j].id
  }

  /** `[newItem, ...prev]`: the new entry comes first and the older entries
      follow unchanged. With a fresh id, ids stay distinct. */
  function Record(history: seq<HistoryItem>, entry: HistoryItem): (r: seq<HistoryItem>)
    ensures |r| == |history| + 1 && r[0] == entry && r[1..] == history
    ensures DistinctIds(history) && entry.id !in Ids(history) ==> DistinctIds(r)
  {
    var r := [entry] + history;
    assert r[1..] == history;
    assert DistinctIds(history) && entry.id !in Ids(history) ==> DistinctIds(r) by {
      if DistinctIds(history) && entry.id !in Ids(history) {
        forall i, j | 0 <= i < j < |r| ensures r[i].id != r[j].id {
          if i == 0 {
            assert r[j] == history[j - 1];
            assert Ids(history)[j - 1] == r[j].id;
          }
        }
      }
    }
    r
  }

  /** `prev.map(h => h.id === id ? {...h, items} : h)`: the entry with the
      given id gets the new rows; nothing else changes, no entry is added or
      removed, and every entry keeps its id, time stamp, label and type. */
  function MirrorItems(history: seq<HistoryItem>, id: string, items: seq<ExtractedItem>): (r: seq<HistoryItem>)
    ensures |r| == |history|
    ensures Ids(r) == Ids(history)
    ensures forall i :: 0 <= i < |history| ==>
      r[i].id == history[i].id && r[i].timestamp == history[i].timestamp
      && r[i].fileName == history[i].fileName && r[i].docType == history[i].docType
    ensures forall i :: 0 <= i < |history| ==>
      r[i].items == if history[i].id == id then items else history[i].items
  {
    seq(|history|, i requires 0 <= i < |history| =>
      if history[i].id == id then history[i].(items := items) else history[i])
  }

  /** `prev.filter(h => h.id !== id)`. */
  function RemoveEntry(history: seq<HistoryItem>, id: string): (r: seq<HistoryItem>)
    ensures forall h :: h in r <==> h in history && h.id != id
    ensures forall h :: multiset(r)[h] == if h.id != id then multiset(history)[h] else 0
    ensures id !in Ids(r)
    ensures Subsequence(r, history)
    ensures DistinctIds(history) ==> DistinctIds(r)
  {
    var keep := (h: HistoryItem) => h.id != id;
    FilterContents(history, keep);
    FilterIsSubsequence(history, keep);
    var r := Filter(history, keep);
    assert id !in Ids(r) by {
      forall i | 0 <= i < |r| ensures r[i].id != id {
        assert r[i] in r;
      }
    }
    assert DistinctIds(history) ==> DistinctIds(r) by {
      if DistinctIds(history) {
        SubsequenceKeepsDistinct(r, history);
      }
    }
    r
  }

  lemma {:induction false} SubsequenceKeepsDistinct(a: seq<HistoryItem>, b: seq<HistoryItem>)
    requires Subsequence(a, b) && DistinctIds(b)
    ensures DistinctIds(a)
    decreases |b|
  {
    if |a| > 0 {
      if a[0] == b[0] && Subsequence(a[1..], b[1..]) {
        SubsequenceKeepsDistinct(a[1..], b[1..]);
        forall j | 0 < j < |a| ensures a[0].id != a[j].id {
          SubsequenceMembers(a[1..], b[1..]);
          assert a[j] == a[1..][j - 1];
          assert a[j] in a[1..];
          assert a[j] in b[1..];
          var k :| 0 <= k < |b[1..]| && b[1..][k] == a[j];
          assert b[k + 1] == a[j];
        }
      } else {
        SubsequenceKeepsDistinct(a, b[1..]);
      }
    }
  }

  /** Mirroring into an id that no entry carries is a no-op: an edit that
      arrives after its entry was deleted creates nothing. */
  lemma MirrorAbsentIsNoOp(history: seq<HistoryItem>, id: string, items: seq<ExtractedItem>)
    requires id !in Ids(history)
    ensures MirrorItems(history, id, items) == history
  {
    var r := MirrorItems(history, id, items);
    forall i | 0 <= i < |history| ensures r[i] == history[i] {
      assert Ids(history)[i] == history[i].id;
    }
  }

  /** Mirroring the rows an entry already holds is a no-op. */
  lemma MirrorSameIsNoOp(history: seq<HistoryItem>, id: string, items: seq<ExtractedItem>)
    requires forall i :: 0 <= i < |history| && history[i].id == id ==> history[i].items == items
    ensures MirrorItems(history, id, items) == history
  {
    var r := MirrorItems(history, id, items);
    forall i | 0 <= i < |history| ensures r[i] == history[i] {
    }
  }

  /** Loading the stored history (`localStorage.getItem` then `JSON.parse`).
      No stored text, or an empty one, gives the empty history; text that
      does not decode degrades to the empty history instead of failing. The
      decoder stands in for `JSON.parse`. */
  function LoadHistory(saved: Option<string>, decode: string -> Option<seq<HistoryItem>>): (r: seq<HistoryItem>)
    ensures saved.None? || saved == Some("") ==> r == []
    ensures saved.Some? && saved.value != "" && decode(saved.value).None? ==> r == []
    ensures saved.Some? && saved.value != "" && decode(saved.value).Some? ==> r == decode(saved.value).value
  {
    match saved
    case None => []
    case Some(text) =>
      if text == "" then []
      else decode(text).GetOr([])
  }

  /** What the store writes back after every change is read again unchanged,
      provided the decoder inverts the encoder on it. */
  lemma ReloadRestores(history: seq<HistoryItem>, encode: seq<HistoryItem> -> string, decode: string -> Option<seq<HistoryItem>>)
    requires encode(history) != ""
    requires decode(encode(history)) == Some(history)
    ensures LoadHistory(Some(encode(history)), decode) == history
  {
  }
}
