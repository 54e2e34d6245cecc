/**
 * The analysis history store (src/context/HistoryContext.jsx): the list held
 * in the provider's state, its three updates, and the copy written to local
 * storage after every change.
 *
 * Local storage and JSON are not modelled: the stored copy is the list
 * itself, and the outcome of `JSON.parse` at start-up is an input.
 */
module History {
  import opened JsText
  import opened Analysis

  /**
   * The initial history: the parsed stored value when something non-empty is
   * stored and parses; otherwise empty. `saved` is `getItem`'s result (`None`
   * for `null`) and `parsed` what `JSON.parse` returns (`None` when it throws).
   */
  function InitialHistory(saved: Option<string>, parsed: Option<seq<HistoryEntry>>): (h: seq<HistoryEntry>)
    ensures saved.None? || saved == Some("") || parsed.None? ==> h == []
    ensures saved.Some? && saved.value != "" && parsed.Some? ==> h == parsed.value
  {
    if saved.Some? && saved.value != "" then
      match parsed
      case Some(entries) => entries
      case None => []
    else []
  }

  /** What `useHistory` does: the provided history, or the exception it throws outside a provider. */
  datatype UseHistoryResult = Provided(history: seq<HistoryEntry>) | Thrown(message: string)

  const OutsideProviderMessage: string := "useHistory must be used within HistoryProvider"

  function UseHistory(context: Option<seq<HistoryEntry>>): (r: UseHistoryResult)
    ensures r.Thrown? <==> context.None?
    ensures r.Thrown? ==> r.message == OutsideProviderMessage
    ensures r.Provided? ==> r.history == context.value
  {
    if context.None? then Thrown(OutsideProviderMessage) else Provided(context.value)
  }

  /** `prev.filter(item => item.id !== id)`. */
  function Without(h: seq<HistoryEntry>, id: int): (r: seq<HistoryEntry>)
    ensures |r| <= |h|
    ensures forall e :: e in r <==> e in h && e.id != id
  {
    if h == [] then []
    else
      assert forall e :: e in h <==> e == h[0] || e in h[1..];
      if h[0].id != id then [h[0]] + Without(h[1..], id) else Without(h[1..], id)
  }

  predicate HasId(h: seq<HistoryEntry>, id: int)
  {
    exists i :: 0 <= i < |h| && h[i].id == id
  }

  /** Removal distributes over concatenation, so what is kept stays in order. */
  lemma {:induction false} WithoutAppend(a: seq<HistoryEntry>, b: seq<HistoryEntry>, id: int)
    ensures Without(a + b, id) == Without(a, id) + Without(b, id)
  {
    if a == [] {
      assert a + b == b;
    } else {
      assert (a + b)[0] == a[0];
      assert (a + b)[1..] == a[1..] + b;
      WithoutAppend(a[1..], b, id);
    }
  }

  /** Removing an id no entry has changes nothing. */
  lemma {:induction false} WithoutAbsent(h: seq<HistoryEntry>, id: int)
    requires !HasId(h, id)
    ensures Without(h, id) == h
  {
    if h != [] {
      assert h[0].id != id;
      assert !HasId(h[1..], id) by {
        forall i | 0 <= i < |h| - 1
          ensures h[1..][i].id != id
        {
          assert h[1..][i] == h[i + 1];
        }
      }
      WithoutAbsent(h[1..], id);
      assert h == [h[0]] + h[1..];
    }
  }

  /** Every entry with the id goes, not just the first: the result is exactly the entries without it. */
  lemma WithoutRemovesAll(h: seq<HistoryEntry>, id: int)
    ensures !HasId(Without(h, id), id)
    ensures Without(Without(h, id), id) == Without(h, id)
  {
    var r := Without(h, id);
    assert forall i :: 0 <= i < |r| ==> r[i] in r;
    WithoutAbsent(r, id);
  }

  /** Adding an entry and then removing its id restores a history that did not hold that id. */
  lemma AddThenRemove(h: seq<HistoryEntry>, e: HistoryEntry)
    requires !HasId(h, e.id)
    ensures Without(h + [e], e.id) == h
  {
    WithoutAppend(h, [e], e.id);
    WithoutAbsent(h, e.id);
    assert Without([e], e.id) == [];
  }

  /** The provider's state and its persisted copy. */
  class HistoryStore {
    var history: seq<HistoryEntry>
    /** What the persist effect last wrote under `analysisHistory`. */
    var stored: seq<HistoryEntry>

    /** After every change the stored copy is the current history. */
    ghost predicate Valid()
      reads this
    {
      stored == history
    }

    /** The lazy initial state, followed by the effect's first write. */
    constructor(saved: Option<string>, parsed: Option<seq<HistoryEntry>>)
      ensures Valid()
      ensures history == InitialHistory(saved, parsed)
    {
      history := InitialHistory(saved, parsed);
      stored := history;
    }

    /** `addToHistory`: append at the end; earlier entries keep their positions. */
    method AddToHistory(result: HistoryEntry)
      modifies this
      ensures Valid()
      ensures history == old(history) + [result]
    {
      history := history + [result];
      stored := history;
    }

    /** `clearHistory`. */
    method ClearHistory()
      modifies this
      ensures Valid()
      ensures history == []
    {
      history := [];
      stored := history;
    }

    /** `removeFromHistory`. */
    method RemoveFromHistory(id: int)
      modifies this
      ensures Valid()
      ensures history == Without(old(history), id)
    {
      history := Without(history, id);
      stored := history;
    }
  }
}
