/** The quote form that the add page and the edit modal share: the same three
    required fields, the same error flags and the same `handleChange`. */
module QuoteForm {
  import opened Wrappers
  import opened Entities

  /** The per-field error flags; `true` marks a missing value. */
  datatype Errors = Errors(quoteName: bool, description: bool, address: bool)

  const NoErrors := Errors(false, false, false)

  predicate AnyError(e: Errors) {
    e.quoteName || e.description || e.address
  }

  /** The inputs of the form, by their `name` attribute. */
  datatype QuoteField = QuoteName | Description | Address

  function Get(q: Quote, field: QuoteField): string {
    match field
    case QuoteName => q.quoteName
    case Description => q.description
    case Address => q.address
  }

  function GetFlag(e: Errors, field: QuoteField): bool {
    match field
    case QuoteName => e.quoteName
    case Description => e.description
    case Address => e.address
  }

  /** `handleChange`: the named field takes the typed value; every other
      field, the date included, is kept. */
  function HandleChange(q: Quote, field: QuoteField, value: string): (r: Quote)
    ensures Get(r, field) == value
    ensures forall other :: other != field ==> Get(r, other) == Get(q, other)
    ensures r.dateAdded == q.dateAdded
  {
    match field
    case QuoteName => q.(quoteName := value)
    case Description => q.(description := value)
    case Address => q.(address := value)
  }

  /** The validation both forms run on submit: a flag per required field,
      raised exactly when that field is the empty string. The date is not
      checked. */
  function Validate(q: Quote): (e: Errors)
    ensures forall f :: GetFlag(e, f) <==> Get(q, f) == ""
  {
    Errors(q.quoteName == "", q.description == "", q.address == "")
  }

  /** `handleSubmit`: the error flags are replaced by the fresh validation,
      and the form data goes to the callback, unchanged, exactly when no
      flag is raised. */
  function Submit(q: Quote): (r: (Errors, Option<Quote>))
    ensures r.0 == Validate(q)
    ensures r.1.Some? <==> forall f :: Get(q, f) != ""
    ensures r.1.Some? ==> r.1.value == q && r.0 == NoErrors
  {
    var e := Validate(q);
    assert !AnyError(e) <==> forall f :: Get(q, f) != "" by {
      assert Get(q, QuoteName) == q.quoteName;
      assert Get(q, Description) == q.description;
      assert Get(q, Address) == q.address;
    }
    (e, if AnyError(e) then None else Some(q))
  }

  /** Every field the user fills in after a refused submit is cleared on the
      next submit: the flags are recomputed, never accumulated. */
  lemma ResubmitRecomputesFlags(q: Quote, field: QuoteField, value: string)
    requires value != ""
    ensures !GetFlag(Submit(HandleChange(q, field, value)).0, field)
    ensures forall f :: f != field ==> GetFlag(Submit(HandleChange(q, field, value)).0, f) == (Get(q, f) == "")
  {
  }
}
