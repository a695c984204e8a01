/** The quotes list: an untrimmed three-field search, and the edit and
    delete gates that forward to the page's callbacks. */
module QuotesList {
  import opened Wrappers
  import opened Text
  import opened Lists
  import opened Entities

  /** The quote being edited and the quote pending deletion. */
  datatype ListState = ListState(query: string, editing: Option<Quote>, deleting: Option<Quote>)

  const Initial := ListState("", None, None)

  predicate Hit(q: Quote, query: string) {
    || ContainsIgnoringCase(q.quoteName, query)
    || ContainsIgnoringCase(q.description, query)
    || ContainsIgnoringCase(q.address, query)
  }

  ghost predicate HitSpec(q: Quote, query: string) {
    || (exists k :: OccursAt(Lower(q.quoteName), Lower(query), k))
    || (exists k :: OccursAt(Lower(q.description), Lower(query), k))
    || (exists k :: OccursAt(Lower(q.address), Lower(query), k))
  }

  lemma HitIff(q: Quote, query: string)
    ensures Hit(q, query) <==> HitSpec(q, query)
    ensures query == "" ==> Hit(q, query)
  {
    ContainsIgnoringCaseIff(q.quoteName, query);
    ContainsIgnoringCaseIff(q.description, query);
    ContainsIgnoringCaseIff(q.address, query);
  }

  /** The rows on show. The query is not trimmed, so a lone space hides every
      quote without one. */
  function Filtered(quotes: seq<Quote>, query: string): (r: seq<Quote>)
    ensures Subsequence(r, quotes)
    ensures forall q :: multiset(r)[q] == if Hit(q, query) then multiset(quotes)[q] else 0
  {
    var keep := (q: Quote) => Hit(q, query);
    FilterCounts(quotes, keep);
    Filter(quotes, keep)
  }

  /** A quote is on show exactly when the lowered query occurs in its
      lowered name, description or address; the empty query shows them all,
      in order. */
  lemma FilteredSpec(quotes: seq<Quote>, query: string)
    ensures forall q :: q in Filtered(quotes, query) <==> q in quotes && HitSpec(q, query)
    ensures query == "" ==> Filtered(quotes, query) == quotes
  {
    forall q | q in quotes {
      HitIff(q, query);
    }
    if query == "" {
      forall i | 0 <= i < |quotes| ensures Hit(quotes[i], query) {
        HitIff(quotes[i], query);
      }
    }
  }

  /** A call the list makes on the page. */
  datatype Callback = DeleteQuote(quoteName: string) | EditQuote(quote: Quote)

  function HandleEditClick(st: ListState, q: Quote): ListState {
    st.(editing := Some(q))
  }

  /** `handleSaveEdit`: forwards the updated quote and closes the modal. */
  function HandleSaveEdit(st: ListState, updated: Quote): (r: (ListState, seq<Callback>))
    ensures r.1 == [EditQuote(updated)]
    ensures r.0.editing.None? && r.0.(editing := st.editing) == st
  {
    (st.(editing := None), [EditQuote(updated)])
  }

  function HandleCancelEdit(st: ListState): (r: ListState)
    ensures r.editing.None? && r.(editing := st.editing) == st
  {
    st.(editing := None)
  }

  function HandleDeleteClick(st: ListState, q: Quote): ListState {
    st.(deleting := Some(q))
  }

  /** `handleConfirmDelete`, wired only while a quote is pending: passes its
      name on and clears the marker. */
  function HandleConfirmDelete(st: ListState): (r: (ListState, seq<Callback>))
    requires st.deleting.Some?
    ensures r.1 == [DeleteQuote(st.deleting.value.quoteName)]
    ensures r.0.deleting.None? && r.0.(deleting := st.deleting) == st
  {
    (st.(deleting := None), [DeleteQuote(st.deleting.value.quoteName)])
  }

  /** `handleCancelDelete`: clears the marker and calls nothing. */
  function HandleCancelDelete(st: ListState): (r: ListState)
    ensures r.deleting.None? && r.(deleting := st.deleting) == st
  {
    st.(deleting := None)
  }
}
