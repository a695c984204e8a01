/** The edit-quote modal: a form copied from the quote, the shared
    validation, and `onSave` with the form data when it passes. */
module EditQuoteModal {
  import opened Wrappers
  import opened Entities
  import opened QuoteForm

  datatype ModalState = ModalState(form: Quote, errors: Errors)

  /** The state once the effect has copied the quote's four fields. */
  function Init(q: Quote): (st: ModalState)
    ensures forall f :: Get(st.form, f) == Get(q, f)
    ensures st.form.dateAdded == q.dateAdded
    ensures st.errors == NoErrors
  {
    ModalState(Quote(q.quoteName, q.description, q.address, q.dateAdded), NoErrors)
  }

  /** `handleSubmit`: the new flags, and the quote passed to `onSave` if no
      flag is raised. */
  function HandleSubmit(st: ModalState): (r: (ModalState, Option<Quote>))
    ensures r.1.Some? <==> forall f :: Get(st.form, f) != ""
    ensures r.1.Some? ==> r.1.value == st.form
    ensures forall f :: GetFlag(r.0.errors, f) <==> Get(st.form, f) == ""
    ensures r.0.form == st.form
  {
    var (errors, payload) := Submit(st.form);
    (ModalState(st.form, errors), payload)
  }

  function HandleInput(st: ModalState, field: QuoteField, value: string): (r: ModalState)
    ensures r.errors == st.errors
    ensures Get(r.form, field) == value
    ensures forall f :: f != field ==> Get(r.form, f) == Get(st.form, f)
    ensures r.form.dateAdded == st.form.dateAdded
  {
    st.(form := HandleChange(st.form, field, value))
  }

  /** Opening the modal and saving straight away hands back the quote
      itself, provided none of its required fields is empty; a quote with an
      empty field cannot be saved until it is filled in. */
  lemma SaveUntouched(q: Quote)
    ensures q.quoteName != "" && q.description != "" && q.address != "" ==>
      HandleSubmit(Init(q)).1 == Some(q)
    ensures q.quoteName == "" || q.description == "" || q.address == "" ==>
      HandleSubmit(Init(q)).1.None?
  {
    assert Get(q, QuoteName) == q.quoteName && Get(q, Description) == q.description
        && Get(q, Address) == q.address;
  }

  /** A rename keeps the quote's date: the saved quote differs from the
      original in its name only. */
  lemma RenameKeepsDate(q: Quote, name: string)
    requires name != "" && q.description != "" && q.address != ""
    ensures HandleSubmit(HandleInput(Init(q), QuoteName, name)).1 == Some(q.(quoteName := name))
  {
    var st := HandleInput(Init(q), QuoteName, name);
    assert st.form == q.(quoteName := name);
  }
}
