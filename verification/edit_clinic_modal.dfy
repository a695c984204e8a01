/** The edit-clinic modal: a form seeded from the clinic with defaults for
    missing values, and a submit that only checks that some picture is
    present. Field changes, tag toggles and file choice are the shared
    handlers of `ClinicForm`. */
module EditClinicModal {
  import opened Wrappers
  import opened Entities
  import opened ClinicForm
  import ClinicList

  /** `value || fallback` for an optional string. */
  function OrElse(v: Option<string>, fallback: string): string {
    if v.Some? && v.value != "" then v.value else fallback
  }

  /** The initial state: every field from the clinic, falling back to '' for
      text, [] for tags, '00:00' for office hours and null for the picture;
      the preview starts at the clinic's picture, or ''. */
  function Init(c: Clinic): (st: FormState)
    ensures st.form.name == c.name && st.form.address == c.address
    ensures st.form.description == c.description.GetOr("")
    ensures st.form.coordinates == c.coordinates.GetOr("")
    ensures st.form.mobileNumber == c.mobileNumber.GetOr("")
    ensures st.form.website == c.website.GetOr("")
    ensures st.form.types == c.types.GetOr([])
    ensures c.officeTimeStart.None? || c.officeTimeStart == Some("") ==> st.form.officeTimeStart == "00:00"
    ensures c.officeTimeEnd.None? || c.officeTimeEnd == Some("") ==> st.form.officeTimeEnd == "00:00"
    ensures c.officeTimeStart.Some? && c.officeTimeStart.value != "" ==> st.form.officeTimeStart == c.officeTimeStart.value
    ensures c.officeTimeEnd.Some? && c.officeTimeEnd.value != "" ==> st.form.officeTimeEnd == c.officeTimeEnd.value
    ensures PictureTruthy(c.picture) ==> st.form.picture == c.picture && st.preview == c.picture.value
    ensures !PictureTruthy(c.picture) ==> st.form.picture.None? && st.preview == Text("")
    ensures st.pictureError.None?
  {
    var form := Form(
      OrElse(Some(c.name), ""), OrElse(c.description, ""), OrElse(Some(c.address), ""),
      OrElse(c.coordinates, ""), OrElse(c.mobileNumber, ""), OrElse(c.website, ""),
      c.types.GetOr([]), OrElse(c.officeTimeStart, "00:00"), OrElse(c.officeTimeEnd, "00:00"),
      if PictureTruthy(c.picture) then c.picture else None);
    FormState(form, None, if PictureTruthy(c.picture) then c.picture.value else Text(""))
  }

  /** The calls the modal makes on its parent, in order. */
  datatype Effect = Save(form: Form) | Close

  /** `handleSubmit`: refused, with the picture error and no call, when both
      the picture and the preview are falsy; otherwise `onSave(formData)`
      then `onClose()`. */
  function HandleSubmit(st: FormState): (r: (FormState, seq<Effect>))
    ensures r.1 == [] <==> !PictureTruthy(st.form.picture) && !PictureTruthy(Some(st.preview))
    ensures r.1 != [] ==> r.1 == [Save(st.form), Close] && r.0 == st
    ensures r.1 == [] ==> r.0 == st.(pictureError := Some(PictureRequired))
  {
    if !PictureTruthy(st.form.picture) && !PictureTruthy(Some(st.preview)) then
      (st.(pictureError := Some(PictureRequired)), [])
    else
      (st, [Save(st.form), Close])
  }

  /** A clinic that already has a picture passes the check, however its text
      fields and tags are edited afterwards. */
  lemma ExistingPictureAlwaysPasses(c: Clinic, edits: seq<(Field, string)>, tags: seq<string>)
    requires PictureTruthy(c.picture)
    ensures HandleSubmit(ApplyEdits(Init(c), edits, tags)).1 == [Save(ApplyEdits(Init(c), edits, tags).form), Close]
  {
    ApplyEditsKeepPicture(Init(c), edits, tags);
  }

  /** Typing into the text inputs, then toggling the given tags. */
  function ApplyEdits(st: FormState, edits: seq<(Field, string)>, tags: seq<string>): FormState
    decreases |edits| + |tags|
  {
    if edits != [] then ApplyEdits(HandleChange(st, edits[0].0, edits[0].1), edits[1..], tags)
    else if tags != [] then ApplyEdits(HandleTypeToggle(st, tags[0]), [], tags[1..])
    else st
  }

  lemma {:induction false} ApplyEditsKeepPicture(st: FormState, edits: seq<(Field, string)>, tags: seq<string>)
    ensures ApplyEdits(st, edits, tags).form.picture == st.form.picture
    ensures ApplyEdits(st, edits, tags).preview == st.preview
    decreases |edits| + |tags|
  {
    if edits != [] {
      ApplyEditsKeepPicture(HandleChange(st, edits[0].0, edits[0].1), edits[1..], tags);
    } else if tags != [] {
      ApplyEditsKeepPicture(HandleTypeToggle(st, tags[0]), [], tags[1..]);
    }
  }

  /** A clinic with no picture cannot be saved until a file is accepted. */
  lemma NoPictureRefused(c: Clinic)
    requires !PictureTruthy(c.picture)
    ensures HandleSubmit(Init(c)).1 == []
  {
  }

  /** Saving the untouched modal through the list page's overlay gives back
      a clinic that already had every field (non-empty office hours, a
      truthy picture or none); a built-in clinic lacking fields instead gains
      the defaults. */
  lemma UntouchedSaveIsIdentity(c: Clinic)
    requires c.description.Some? && c.coordinates.Some? && c.mobileNumber.Some? && c.website.Some?
    requires c.types.Some?
    requires c.officeTimeStart.Some? && c.officeTimeStart.value != ""
    requires c.officeTimeEnd.Some? && c.officeTimeEnd.value != ""
    requires c.picture.None? || PictureTruthy(c.picture)
    ensures ClinicList.Overlay(c, Init(c).form) == c
  {
  }

  lemma UntouchedSaveFillsDefaults()
    ensures var c := ClinicList.SeedClinics[1];
      var c' := ClinicList.Overlay(c, Init(c).form);
      && c'.description == Some("") && c'.officeTimeStart == Some("00:00") && c'.types == Some([])
      && c' != c
  {
  }
}
