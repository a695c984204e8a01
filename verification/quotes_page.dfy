/** The quotes page: the in-memory quote list with append, delete by name
    and replace by name. Quotes are never written to storage. */
module QuotesPage {
  import opened Wrappers
  import opened Lists
  import opened Entities
  import QuotesList
  import EditQuoteModal

  const InitialQuotes: seq<Quote> := [
    Quote("Medical Equipment Quote", "Advanced MRI Machine",
          "123 Walnut Street Bloomington Indiana 47401", "03/19/2024"),
    Quote("Laboratory Supplies", "Annual Lab Equipment",
          "118 S Rogers St Suite 2 Bloomington, IN 47404", "03/19/2024"),
    Quote("Pharmaceutical Supply", "Quarterly Medicine Stock",
          "2009 Brown St Suite #2 Anderson, IN 46016", "03/19/2024"),
    Quote("Medical Furniture", "Hospital Beds and Cabinets",
          "2300 Ferry St Lafayette, IN 47904", "03/19/2024")]

  function Names(quotes: seq<Quote>): set<string> {
    set q | q in quotes :: q.quoteName
  }

  /** `handleAddQuote` appends, whatever the name. */
  function AddQuote(quotes: seq<Quote>, q: Quote): (r: seq<Quote>)
    ensures |r| == |quotes| + 1 && r[..|quotes|] == quotes && r[|quotes|] == q
  {
    quotes + [q]
  }

  /** `handleDeleteQuote` removes every quote with the name and keeps the
      others in order. */
  function DeleteQuote(quotes: seq<Quote>, name: string): (r: seq<Quote>)
    ensures forall q :: q in r <==> q in quotes && q.quoteName != name
    ensures Subsequence(r, quotes)
    ensures forall q :: multiset(r)[q] == if q.quoteName != name then multiset(quotes)[q] else 0
    ensures name !in Names(quotes) ==> r == quotes
  {
    var keep := (q: Quote) => q.quoteName != name;
    FilterCounts(quotes, keep);
    Filter(quotes, keep)
  }

  /** `handleEditQuote` replaces every quote carrying the updated quote's
      name, the new name, by the updated quote. */
  function EditQuote(quotes: seq<Quote>, updated: Quote): (r: seq<Quote>)
    ensures |r| == |quotes|
    ensures forall i :: 0 <= i < |quotes| ==>
      r[i] == if quotes[i].quoteName == updated.quoteName then updated else quotes[i]
  {
    MapWhere(quotes, (q: Quote) => q.quoteName == updated.quoteName, _ => updated)
  }

  /** A renamed quote matches nothing, so the edit is lost. */
  lemma EditRenamedIsLost(quotes: seq<Quote>, updated: Quote)
    requires updated.quoteName !in Names(quotes)
    ensures EditQuote(quotes, updated) == quotes
  {
    MapWhereUnchanged(quotes, (q: Quote) => q.quoteName == updated.quoteName, _ => updated);
  }

  /** Saving a quote's own values changes nothing when no other quote shares
      its name. */
  lemma EditOwnValues(quotes: seq<Quote>, q: Quote)
    requires forall i :: 0 <= i < |quotes| && quotes[i].quoteName == q.quoteName ==> quotes[i] == q
    ensures EditQuote(quotes, q) == quotes
  {
    var r := EditQuote(quotes, q);
    assert forall i :: 0 <= i < |quotes| ==> r[i] == quotes[i];
  }

  /** Adding a quote under a new name and deleting that name gives back the
      list. */
  lemma {:induction false} AddThenDelete(quotes: seq<Quote>, q: Quote)
    requires q.quoteName !in Names(quotes)
    ensures DeleteQuote(AddQuote(quotes, q), q.quoteName) == quotes
  {
    var keep := (x: Quote) => x.quoteName != q.quoteName;
    FilterAppend(quotes, [q], keep);
    assert Filter(quotes, keep) == quotes;
    assert Filter([q], keep) == [];
  }

  /** Confirming a delete in the list removes the pending quote, and every
      namesake, from the page. */
  lemma ConfirmDeleteRemoves(quotes: seq<Quote>, st: QuotesList.ListState)
    requires st.deleting.Some?
    ensures var (_, calls) := QuotesList.HandleConfirmDelete(st);
      calls == [QuotesList.DeleteQuote(st.deleting.value.quoteName)]
      && st.deleting.value.quoteName !in Names(DeleteQuote(quotes, calls[0].quoteName))
  {
  }

  /** Opening the edit modal on a quote with no namesake and saving it
      untouched leaves the page's list as it was. */
  lemma EditUntouchedRoundTrip(quotes: seq<Quote>, q: Quote)
    requires q in quotes && q.quoteName != "" && q.description != "" && q.address != ""
    requires forall i :: 0 <= i < |quotes| && quotes[i].quoteName == q.quoteName ==> quotes[i] == q
    ensures var saved := EditQuoteModal.HandleSubmit(EditQuoteModal.Init(q)).1;
      saved.Some? && EditQuote(quotes, saved.value) == quotes
  {
    EditQuoteModal.SaveUntouched(q);
    EditOwnValues(quotes, q);
  }

  lemma InitialNamesDistinct()
    ensures forall i, j :: 0 <= i < j < |InitialQuotes| ==>
      InitialQuotes[i].quoteName != InitialQuotes[j].quoteName
  {
  }
}
