/** The donations list component: an untrimmed three-field search, and the
    delete and edit gates that forward to its parent's callbacks. */
module DonationsList {
  import opened Wrappers
  import opened Text
  import opened Lists
  import opened Entities

  /** The donation pending deletion and the donation being edited. */
  datatype ListState = ListState(query: string, deleting: Option<Donation>, editing: Option<Donation>)

  const Initial := ListState("", None, None)

  predicate Hit(d: Donation, query: string) {
    || ContainsIgnoringCase(d.title, query)
    || ContainsIgnoringCase(d.description, query)
    || ContainsIgnoringCase(d.donatedBy, query)
  }

  ghost predicate HitSpec(d: Donation, query: string) {
    || (exists k :: OccursAt(Lower(d.title), Lower(query), k))
    || (exists k :: OccursAt(Lower(d.description), Lower(query), k))
    || (exists k :: OccursAt(Lower(d.donatedBy), Lower(query), k))
  }

  lemma HitIff(d: Donation, query: string)
    ensures Hit(d, query) <==> HitSpec(d, query)
    ensures query == "" ==> Hit(d, query)
  {
    ContainsIgnoringCaseIff(d.title, query);
    ContainsIgnoringCaseIff(d.description, query);
    ContainsIgnoringCaseIff(d.donatedBy, query);
  }

  /** The rows on show; the amount and the date are not searched. */
  function Filtered(donations: seq<Donation>, query: string): (r: seq<Donation>)
    ensures Subsequence(r, donations)
    ensures forall d :: multiset(r)[d] == if Hit(d, query) then multiset(donations)[d] else 0
  {
    var keep := (d: Donation) => Hit(d, query);
    FilterCounts(donations, keep);
    Filter(donations, keep)
  }

  /** A donation is on show exactly when the lowered query occurs in its
      lowered title, description or donor; the empty query shows them all, in
      order. */
  lemma FilteredSpec(donations: seq<Donation>, query: string)
    ensures forall d :: d in Filtered(donations, query) <==> d in donations && HitSpec(d, query)
    ensures query == "" ==> Filtered(donations, query) == donations
  {
    forall d | d in donations {
      HitIff(d, query);
    }
    if query == "" {
      forall i | 0 <= i < |donations| ensures Hit(donations[i], query) {
        HitIff(donations[i], query);
      }
    }
  }

  /** A call the list makes on its parent. */
  datatype Callback = Delete(title: string) | Edit(donation: Donation)

  function HandleDeleteClick(st: ListState, d: Donation): ListState {
    st.(deleting := Some(d))
  }

  /** `handleConfirmDelete`, wired only while a donation is pending: passes
      its title on and clears the marker. */
  function HandleConfirmDelete(st: ListState): (r: (ListState, seq<Callback>))
    requires st.deleting.Some?
    ensures r.1 == [Delete(st.deleting.value.title)]
    ensures r.0.deleting.None? && r.0.(deleting := st.deleting) == st
  {
    (st.(deleting := None), [Delete(st.deleting.value.title)])
  }

  /** `handleCancelDelete`: clears the marker and calls nothing. */
  function HandleCancelDelete(st: ListState): (r: ListState)
    ensures r.deleting.None? && r.(deleting := st.deleting) == st
  {
    st.(deleting := None)
  }

  function HandleEditClick(st: ListState, d: Donation): ListState {
    st.(editing := Some(d))
  }

  /** `handleSaveEdit`: forwards the updated donation and closes the modal. */
  function HandleSaveEdit(st: ListState, updated: Donation): (r: (ListState, seq<Callback>))
    ensures r.1 == [Edit(updated)]
    ensures r.0.editing.None? && r.0.(editing := st.editing) == st
  {
    (st.(editing := None), [Edit(updated)])
  }

  function HandleCancelEdit(st: ListState): (r: ListState)
    ensures r.editing.None? && r.(editing := st.editing) == st
  {
    st.(editing := None)
  }
}
