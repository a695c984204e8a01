/** The add-clinic page: a fresh form, whose only validated field is the
    picture, and a submit that appends the new clinic to the stored list. */
module AddClinic {
  import opened Wrappers
  import opened Entities
  import opened Storage
  import opened ClinicForm

  /** The form a visitor of the page starts from. */
  const FreshForm: Form := Form("", "", "", "", "", "", [], "09:00", "17:00", None)

  const FreshState: FormState := FormState(FreshForm, None, Text(""))

  /** A fresh form has no tags, office hours 09:00 to 17:00 and no picture,
      so submitting it straight away is refused. */
  lemma FreshFormShape()
    ensures FreshState.form.types == []
    ensures FreshState.form.officeTimeStart == "09:00" && FreshState.form.officeTimeEnd == "17:00"
    ensures !PictureTruthy(FreshState.form.picture)
    ensures HandleSubmit(FreshState, map[], "data:", "").Rejected?
  {
  }

  /** The outcome of `handleSubmit`: the form stays with its error, or the
      storage is written and the page navigates to the clinic list. */
  datatype Submission = Rejected(state: FormState) | Saved(store: Store)

  /** The stored record: every form field, the picture replaced by its data
      URL and the date added. */
  function NewClinic(f: Form, dataUrl: string, today: string): Clinic {
    Clinic(f.name, Some(f.description), f.address, Some(f.coordinates), Some(f.mobileNumber),
           Some(f.website), Some(f.types), Some(f.officeTimeStart), Some(f.officeTimeEnd),
           Some(Text(dataUrl)), Some(today))
  }

  /** `handleSubmit`. `dataUrl` stands for the `FileReader` result for the
      chosen picture and `today` for `new Date().toLocaleDateString()`. */
  function HandleSubmit(st: FormState, store: Store, dataUrl: string, today: string): (r: Submission)
    ensures r.Rejected? <==> !PictureTruthy(st.form.picture)
    ensures r.Rejected? ==> r.state == st.(pictureError := Some(PictureRequired))
    ensures r.Saved? ==>
      && var saved := ReadClinics(r.store);
      && |saved| == |ReadClinics(store)| + 1
      && saved[..|ReadClinics(store)|] == ReadClinics(store)
      && var c := saved[|saved| - 1];
      && c.name == st.form.name && c.address == st.form.address
      && c.description == Some(st.form.description) && c.coordinates == Some(st.form.coordinates)
      && c.mobileNumber == Some(st.form.mobileNumber) && c.website == Some(st.form.website)
      && c.types == Some(st.form.types)
      && c.officeTimeStart == Some(st.form.officeTimeStart) && c.officeTimeEnd == Some(st.form.officeTimeEnd)
      && c.picture == Some(Text(dataUrl)) && c.dateAdded == Some(today)
    ensures r.Saved? ==> r.store.Keys == store.Keys + {ClinicsKey}
    ensures r.Saved? ==> forall k :: k in store && k != ClinicsKey ==> r.store[k] == store[k]
  {
    if !PictureTruthy(st.form.picture) then
      Rejected(st.(pictureError := Some(PictureRequired)))
    else
      var existing := ReadClinics(store);
      Saved(store[ClinicsKey := Clinics(existing + [NewClinic(st.form, dataUrl, today)])])
  }

  /** Only the picture is validated: a form with a picture is saved however
      empty its other fields are, and an accepted image file is enough. */
  lemma ImageFileMakesFormSubmittable(st: FormState, file: MediaFile, objectUrl: string,
                                      store: Store, dataUrl: string, today: string)
    requires IsImage(file)
    ensures HandleSubmit(HandleFileChange(st, Some(file), objectUrl), store, dataUrl, today).Saved?
  {
  }

  /** A rejected file does not make a picture-less form submittable. */
  lemma NonImageFileKeepsRejection(st: FormState, file: MediaFile, objectUrl: string,
                                   store: Store, dataUrl: string, today: string)
    requires !IsImage(file) && !PictureTruthy(st.form.picture)
    ensures HandleSubmit(HandleFileChange(st, Some(file), objectUrl), store, dataUrl, today).Rejected?
  {
  }
}
