/** The add-quote page: a blank form stamped with today's date; a submit
    that passes validation hands the form to the page and goes back to the
    list. */
module AddQuote {
  import opened Wrappers
  import opened Entities
  import opened QuoteForm

  /** The page state: the form and the error flags shown under it. */
  datatype AddState = AddState(form: Quote, errors: Errors)

  /** The page as first shown; `today` is `new Date().toLocaleDateString()`. */
  function Fresh(today: string): (st: AddState)
    ensures forall f :: Get(st.form, f) == "" && !GetFlag(st.errors, f)
    ensures st.form.dateAdded == today
  {
    AddState(Quote("", "", "", today), NoErrors)
  }

  /** What a submit did: the new state, and the quote given to `onAddQuote`
      (after which the page navigates to the list), if any. */
  datatype Outcome = Outcome(state: AddState, added: Option<Quote>)

  function HandleSubmit(st: AddState): (r: Outcome)
    ensures r.added.Some? <==> forall f :: Get(st.form, f) != ""
    ensures r.added.Some? ==> r.added.value == st.form && r.state.errors == NoErrors
    ensures forall f :: GetFlag(r.state.errors, f) <==> Get(st.form, f) == ""
    ensures r.state.form == st.form
  {
    var (errors, payload) := Submit(st.form);
    Outcome(AddState(st.form, errors), payload)
  }

  function HandleInput(st: AddState, field: QuoteField, value: string): (r: AddState)
    ensures r.errors == st.errors
    ensures Get(r.form, field) == value
    ensures forall f :: f != field ==> Get(r.form, f) == Get(st.form, f)
  {
    st.(form := HandleChange(st.form, field, value))
  }

  /** Submitting the untouched page raises all three flags and adds nothing;
      once all three fields are typed in, the quote is added with the date
      the page was opened on. */
  lemma FillInThenSubmit(today: string, name: string, description: string, address: string)
    requires name != "" && description != "" && address != ""
    ensures HandleSubmit(Fresh(today)).added.None?
    ensures HandleSubmit(Fresh(today)).state.errors == Errors(true, true, true)
    ensures var st := HandleInput(HandleInput(HandleInput(Fresh(today), QuoteName, name),
                                              Description, description), Address, address);
      HandleSubmit(st).added == Some(Quote(name, description, address, today))
  {
    var st := HandleInput(HandleInput(HandleInput(Fresh(today), QuoteName, name),
                                      Description, description), Address, address);
    assert st.form == Quote(name, description, address, today);
  }
}
