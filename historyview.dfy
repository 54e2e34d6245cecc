/**
 * The history page (src/pages/HistoryPage.jsx): the newest-first list, its
 * numbering and text-count label, the selected entry, and the confirmed
 * delete and clear actions. `window.confirm`'s answer is an input.
 */
module HistoryView {
  import opened JsText
  import opened Analysis
  import opened History

  /** `[...history].reverse()`. */
  function DisplayOrder(h: seq<HistoryEntry>): (r: seq<HistoryEntry>)
    ensures |r| == |h|
  {
    Reverse(h)
  }

  /** The number shown on the item at display index `i`: `history.length - index`. */
  function DisplayNumber(h: seq<HistoryEntry>, i: nat): int
    requires i < |h|
  {
    |h| - i
  }

  /**
   * Display index `i` shows the entry stored at `|h| - 1 - i`, numbered one
   * more than its stored position: numbers run from `|h|` down to 1.
   */
  lemma DisplayNumbering(h: seq<HistoryEntry>, i: nat)
    requires i < |h|
    ensures DisplayOrder(h)[i] == h[|h| - 1 - i]
    ensures DisplayNumber(h, i) == (|h| - 1 - i) + 1
    ensures 1 <= DisplayNumber(h, i) <= |h|
    ensures i == 0 ==> DisplayOrder(h)[i] == h[|h| - 1] && DisplayNumber(h, i) == |h|
  {
    ReverseAt(h, i);
  }

  /** `item.textCount || item.results?.length || 0`: a zero count falls through like a missing one. */
  function TextCount(e: HistoryEntry): (n: nat)
    ensures e.textCount.Some? && e.textCount.value != 0 ==> n == e.textCount.value
    ensures (e.textCount.None? || e.textCount == Some(0)) && e.results.Some? ==> n == |e.results.value|
    ensures (e.textCount.None? || e.textCount == Some(0)) && e.results.None? ==> n == 0
  {
    if e.textCount.Some? && e.textCount.value != 0 then e.textCount.value
    else if e.results.Some? && |e.results.value| != 0 then |e.results.value|
    else 0
  }

  /** The count line: the number, then `text`, with `s` exactly when the count exceeds one. */
  function CountLabel(e: HistoryEntry): string
  {
    NatToString(TextCount(e)) + " text" + (if TextCount(e) > 1 then "s" else "")
  }

  lemma CountLabelPlural(e: HistoryEntry)
    ensures var l := CountLabel(e);
      |l| >= 6 && (l[|l| - 1] == 's' <==> TextCount(e) > 1)
  {
  }

  /** "Clear All" is offered only when there is something to clear. */
  predicate ClearAllVisible(h: seq<HistoryEntry>)
  {
    |h| > 0
  }

  /** The entry shown in the detail pane is kept while others are deleted. */
  function SelectionAfterDelete(selected: Option<HistoryEntry>, id: int): (r: Option<HistoryEntry>)
    ensures r.Some? ==> r == selected && r.value.id != id
    ensures selected.Some? && selected.value.id != id ==> r == selected
  {
    if selected.Some? && selected.value.id == id then None else selected
  }

  class HistoryPage {
    const store: HistoryStore
    var selected: Option<HistoryEntry>

    constructor(s: HistoryStore)
      ensures store == s && selected == None
    {
      store := s;
      selected := None;
    }

    /** `viewHistoryItem`; the delayed scroll is presentation. */
    method ViewItem(item: HistoryEntry)
      modifies this
      ensures selected == Some(item)
    {
      selected := Some(item);
    }

    /** `handleClearHistory`: a confirmed clear empties the history and the selection. */
    method HandleClearHistory(confirmed: bool)
      requires store.Valid()
      modifies this, store
      ensures store.Valid()
      ensures confirmed ==> store.history == [] && selected == None
      ensures confirmed ==> !ClearAllVisible(store.history)
      ensures !confirmed ==> store.history == old(store.history) && selected == old(selected)
    {
      if confirmed {
        store.ClearHistory();
        selected := None;
      }
    }

    /** `handleDeleteItem`: a confirmed delete drops the id, and the selection only if it had that id. */
    method HandleDeleteItem(id: int, confirmed: bool)
      requires store.Valid()
      modifies this, store
      ensures store.Valid()
      ensures confirmed ==> store.history == Without(old(store.history), id) && selected == SelectionAfterDelete(old(selected), id)
      ensures !confirmed ==> store.history == old(store.history) && selected == old(selected)
    {
      if confirmed {
        store.RemoveFromHistory(id);
        if selected.Some? && selected.value.id == id {
          selected := None;
        }
      }
    }
  }
}
