/** The donations page: an in-memory donation table with an add form and an
    edit form that share one set of error flags, an edit that replaces by
    the original title, and a delete behind a confirmation. */
module DonationsPage {
  import opened Wrappers
  import opened Lists
  import opened Entities

  /** One flag per required field; `true` marks a falsy value. */
  datatype DonationErrors = DonationErrors(title: bool, description: bool, amount: bool, donatedBy: bool)

  const NoErrors := DonationErrors(false, false, false, false)

  /** The flags a validation raises: the empty strings, and an amount of 0 or
      NaN. A negative amount is truthy and passes. */
  function Missing(d: Donation): (e: DonationErrors)
    ensures e.title <==> d.title == ""
    ensures e.description <==> d.description == ""
    ensures e.amount <==> (d.amount.NaN? || d.amount.value == 0.0)
    ensures e.donatedBy <==> d.donatedBy == ""
  {
    DonationErrors(d.title == "", d.description == "", NumberFalsy(d.amount), d.donatedBy == "")
  }

  predicate Complete(d: Donation) {
    Missing(d) == NoErrors
  }

  /** The empty draft the forms reset to. */
  function BlankDraft(date: string): Donation {
    Donation("", "", Num(0.0), "", date, None)
  }

  /** The six donations the page starts with, dated `today`. */
  function InitialDonations(today: string): seq<Donation> {
    [ Donation("Donate for Education", "Help fund education for underprivileged children.",
               Num(5000.0), "Arif Jan", today, None),
      Donation("Support for Homeless Shelters", "Provide shelter and food for the homeless this winter.",
               Num(7500.0), "Hanzallah", today, None),
      Donation("Medical Aid Fund", "Donate to help provide medical supplies for rural hospitals.",
               Num(10000.0), "Zain", today, None),
      Donation("Clean Water Initiative", "Support the construction of wells in drought-stricken areas.",
               Num(15000.0), "ALi", today, None),
      Donation("Disaster Relief Fund", "Help victims of natural disasters with essential supplies.",
               Num(12000.0), "Hamza", today, None),
      Donation("Animal Rescue Fund", "Donate to save animals from cruelty and provide care.",
               Num(8000.0), "Farah", today, None) ]
  }

  /** The page state: the donations, the original title of the donation
      being edited and its draft, the title pending deletion, the add form
      and its draft, and the shared error flags. */
  datatype PageState = PageState(
    donations: seq<Donation>,
    editing: Option<string>,
    edited: Donation,
    deleting: Option<string>,
    showAddForm: bool,
    draft: Donation,
    errors: DonationErrors)

  function Init(today: string): (st: PageState)
    ensures |st.donations| == 6 && st.editing.None? && st.deleting.None? && !st.showAddForm
    ensures forall d :: d in st.donations ==> Complete(d)
  {
    PageState(InitialDonations(today), None, BlankDraft(""), None, false, BlankDraft(today), NoErrors)
  }

  // ---------------------------------------------------------------------
  // Drafts

  /** An input of either form; the amount input yields `parseFloat` of the
      typed text. */
  datatype Change =
    | SetTitle(title: string)
    | SetDescription(description: string)
    | SetAmount(amount: Number)
    | SetDonatedBy(donatedBy: string)

  function ApplyChange(d: Donation, c: Change): (r: Donation)
    ensures r.date == d.date && r.image == d.image
    ensures c.SetTitle? ==> r == d.(title := c.title)
    ensures c.SetDescription? ==> r == d.(description := c.description)
    ensures c.SetAmount? ==> r == d.(amount := c.amount)
    ensures c.SetDonatedBy? ==> r == d.(donatedBy := c.donatedBy)
  {
    match c
    case SetTitle(t) => d.(title := t)
    case SetDescription(s) => d.(description := s)
    case SetAmount(n) => d.(amount := n)
    case SetDonatedBy(s) => d.(donatedBy := s)
  }

  function ChangeEdited(st: PageState, c: Change): PageState {
    st.(edited := ApplyChange(st.edited, c))
  }

  function ChangeDraft(st: PageState, c: Change): PageState {
    st.(draft := ApplyChange(st.draft, c))
  }

  // ---------------------------------------------------------------------
  // Delete

  function HandleDeleteClick(st: PageState, title: string): PageState {
    st.(deleting := Some(title))
  }

  /** `confirmDelete`: every donation with the pending title goes, the rest
      keep their order, and the marker clears. */
  function ConfirmDelete(st: PageState): (r: PageState)
    ensures forall d :: d in r.donations <==> d in st.donations && Some(d.title) != st.deleting
    ensures Subsequence(r.donations, st.donations)
    ensures forall d :: multiset(r.donations)[d] ==
              if Some(d.title) != st.deleting then multiset(st.donations)[d] else 0
    ensures r == st.(donations := r.donations, deleting := None)
  {
    var keep := (d: Donation) => Some(d.title) != st.deleting;
    FilterCounts(st.donations, keep);
    st.(donations := Filter(st.donations, keep), deleting := None)
  }

  function CancelDelete(st: PageState): (r: PageState)
    ensures r.donations == st.donations && r == st.(deleting := None)
  {
    st.(deleting := None)
  }

  // ---------------------------------------------------------------------
  // Edit

  /** `handleEditClick`: the donation's title is remembered as the key and
      the donation becomes the draft. */
  function HandleEditClick(st: PageState, d: Donation): PageState {
    st.(editing := Some(d.title), edited := d)
  }

  /** `handleSaveEdit`: an incomplete draft only sets the flags; a complete
      one replaces every donation carrying the original title and resets the
      edit state. The flags are left alone on success. */
  function HandleSaveEdit(st: PageState): (r: PageState)
    ensures !Complete(st.edited) ==> r == st.(errors := Missing(st.edited))
    ensures Complete(st.edited) ==>
      && |r.donations| == |st.donations|
      && (forall i :: 0 <= i < |st.donations| ==>
            r.donations[i] == if Some(st.donations[i].title) == st.editing then st.edited else st.donations[i])
      && r == st.(donations := r.donations, editing := None, edited := BlankDraft(""))
  {
    if !Complete(st.edited) then st.(errors := Missing(st.edited))
    else
      st.(donations := MapWhere(st.donations, (d: Donation) => Some(d.title) == st.editing, _ => st.edited),
          editing := None, edited := BlankDraft(""))
  }

  function CancelEdit(st: PageState): (r: PageState)
    ensures r == st.(editing := None)
  {
    st.(editing := None)
  }

  /** Because the key is the title the edit started from, renaming a donation
      through the edit form replaces it in place. */
  lemma RenameReplacesInPlace(st: PageState, i: int, title: string)
    requires 0 <= i < |st.donations| && Complete(st.donations[i]) && title != ""
    requires forall j :: 0 <= j < |st.donations| && j != i ==> st.donations[j].title != st.donations[i].title
    ensures var r := HandleSaveEdit(ChangeEdited(HandleEditClick(st, st.donations[i]), SetTitle(title)));
      r.donations == st.donations[i := st.donations[i].(title := title)]
  {
    var s1 := ChangeEdited(HandleEditClick(st, st.donations[i]), SetTitle(title));
    assert Complete(s1.edited);
    var r := HandleSaveEdit(s1);
    assert forall j :: 0 <= j < |st.donations| ==>
      r.donations[j] == st.donations[i := st.donations[i].(title := title)][j];
  }

  // ---------------------------------------------------------------------
  // Add

  /** `handleAddClick`: opens the form with a blank draft dated `today` and
      clears every flag. */
  function HandleAddClick(st: PageState, today: string): (r: PageState)
    ensures r.showAddForm && r.draft == BlankDraft(today) && r.errors == NoErrors
    ensures r.donations == st.donations
  {
    st.(showAddForm := true, draft := BlankDraft(today), errors := NoErrors)
  }

  /** `handleSaveNewDonation`: an incomplete draft only sets the flags; a
      complete one is appended and the form closes. */
  function HandleSaveNew(st: PageState): (r: PageState)
    ensures !Complete(st.draft) ==> r == st.(errors := Missing(st.draft))
    ensures Complete(st.draft) ==>
      && r.donations == st.donations + [st.draft]
      && r == st.(donations := r.donations, showAddForm := false)
  {
    if !Complete(st.draft) then st.(errors := Missing(st.draft))
    else st.(donations := st.donations + [st.draft], showAddForm := false)
  }

  function CancelAdd(st: PageState): (r: PageState)
    ensures r == st.(showAddForm := false)
  {
    st.(showAddForm := false)
  }

  /** The blank draft is refused with every flag raised. Filling in the
      three texts and any amount other than 0 or NaN, negative ones
      included, adds exactly that donation. */
  lemma AddFlow(st: PageState, today: string, title: string, description: string, amount: real, donor: string)
    requires title != "" && description != "" && donor != "" && amount != 0.0
    ensures HandleSaveNew(HandleAddClick(st, today)).errors == DonationErrors(true, true, true, true)
    ensures HandleSaveNew(HandleAddClick(st, today)).donations == st.donations
    ensures var s := HandleAddClick(st, today);
      var s' := ChangeDraft(ChangeDraft(ChangeDraft(ChangeDraft(s, SetTitle(title)),
                  SetDescription(description)), SetAmount(Num(amount))), SetDonatedBy(donor));
      HandleSaveNew(s').donations == st.donations + [Donation(title, description, Num(amount), donor, today, None)]
  {
  }

  /** An amount the number input could not parse is refused like a zero. */
  lemma NaNAmountRefused(st: PageState)
    requires st.draft.amount.NaN?
    ensures HandleSaveNew(st).donations == st.donations && HandleSaveNew(st).errors.amount
  {
  }

  /** Adding a donation under a new title and deleting that title gives back
      the list. */
  lemma {:induction false} AddThenDelete(st: PageState)
    requires Complete(st.draft)
    requires forall d :: d in st.donations ==> d.title != st.draft.title
    ensures ConfirmDelete(HandleDeleteClick(HandleSaveNew(st), st.draft.title)).donations == st.donations
  {
    var keep := (d: Donation) => Some(d.title) != Some(st.draft.title);
    FilterAppend(st.donations, [st.draft], keep);
    assert Filter(st.donations, keep) == st.donations;
    assert Filter([st.draft], keep) == [];
  }
}
