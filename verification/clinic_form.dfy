/** The clinic form state that the add page and the edit modal share
    verbatim: the form fields, the picture error and the preview. Both
    components define `handleChange`, `handleTypeToggle` and
    `handleFileChange` with the same code; it is modelled once here. */
module ClinicForm {
  import opened Wrappers
  import opened Text
  import opened Lists
  import opened Entities

  /** `formData`: every text field, the service tags (`type`) and the picture,
      which is `null`, a string URL or a chosen `File`. */
  datatype Form = Form(
    name: string,
    description: string,
    address: string,
    coordinates: string,
    mobileNumber: string,
    website: string,
    types: seq<string>,
    officeTimeStart: string,
    officeTimeEnd: string,
    picture: Option<Picture>)

  /** The text inputs, by their `name` attribute. */
  datatype Field =
    | Name | Description | Address | Coordinates | MobileNumber | Website
    | OfficeTimeStart | OfficeTimeEnd

  function Get(f: Form, field: Field): string {
    match field
    case Name => f.name
    case Description => f.description
    case Address => f.address
    case Coordinates => f.coordinates
    case MobileNumber => f.mobileNumber
    case Website => f.website
    case OfficeTimeStart => f.officeTimeStart
    case OfficeTimeEnd => f.officeTimeEnd
  }

  /** The state of the component: the form, the `errors.picture` entry
      (`None` while `errors` has no picture key) and the preview URL, which
      the edit modal may seed with a non-string picture. */
  datatype FormState = FormState(form: Form, pictureError: Option<string>, preview: Picture)

  const PictureRequired := "Clinic picture is required"
  const NotAnImage := "Please upload an image file"

  /** `handleChange`: the named input takes the typed value and nothing else
      in the state moves. */
  function HandleChange(st: FormState, field: Field, value: string): (r: FormState)
    ensures Get(r.form, field) == value
    ensures forall other :: other != field ==> Get(r.form, other) == Get(st.form, other)
    ensures r.form.types == st.form.types && r.form.picture == st.form.picture
    ensures r.pictureError == st.pictureError && r.preview == st.preview
  {
    var f := st.form;
    var f' := match field
      case Name => f.(name := value)
      case Description => f.(description := value)
      case Address => f.(address := value)
      case Coordinates => f.(coordinates := value)
      case MobileNumber => f.(mobileNumber := value)
      case Website => f.(website := value)
      case OfficeTimeStart => f.(officeTimeStart := value)
      case OfficeTimeEnd => f.(officeTimeEnd := value);
    st.(form := f')
  }

  /** `handleTypeToggle`: flips the membership of one tag in `type` and leaves
      every other tag and every other field as it was. */
  function HandleTypeToggle(st: FormState, tag: string): (r: FormState)
    ensures tag in r.form.types <==> tag !in st.form.types
    ensures forall t :: t != tag ==> (t in r.form.types <==> t in st.form.types)
    ensures r.form == st.form.(types := r.form.types)
    ensures r.pictureError == st.pictureError && r.preview == st.preview
  {
    st.(form := st.form.(types := Toggle(st.form.types, tag)))
  }

  /** Toggling an unselected tag on and off again restores the tag list, and
      a toggle never makes a tag appear twice. */
  lemma TypeToggleTwice(st: FormState, tag: string)
    requires tag !in st.form.types
    ensures HandleTypeToggle(HandleTypeToggle(st, tag), tag) == st
  {
    ToggleTwice(st.form.types, tag);
  }

  lemma TypeToggleNoDuplicates(st: FormState, tag: string)
    requires NoDuplicates(st.form.types)
    ensures NoDuplicates(HandleTypeToggle(st, tag).form.types)
  {
    ToggleNoDuplicates(st.form.types, tag);
  }

  /** `file.type.startsWith('image/')`. */
  predicate IsImage(file: MediaFile) {
    StartsWith(file.mediaType, "image/")
  }

  /** `handleFileChange` for the first chosen file (`None` when the dialog
      was cancelled); `objectUrl` is what `URL.createObjectURL` returns. */
  function HandleFileChange(st: FormState, file: Option<MediaFile>, objectUrl: string): (r: FormState)
    ensures file.None? ==> r == st
    ensures file.Some? && IsImage(file.value) ==>
      && r.form == st.form.(picture := Some(File(file.value)))
      && r.pictureError == Some("") && r.preview == Text(objectUrl)
    ensures file.Some? && !IsImage(file.value) ==>
      r.form == st.form && r.preview == st.preview && r.pictureError == Some(NotAnImage)
  {
    match file
    case None => st
    case Some(f) =>
      if IsImage(f) then
        FormState(st.form.(picture := Some(File(f))), Some(""), Text(objectUrl))
      else
        st.(pictureError := Some(NotAnImage))
  }

  /** A file is taken as the picture exactly when its media type starts with
      "image/"; a rejected file leaves the picture as it was. */
  lemma FileAcceptedIff(st: FormState, file: MediaFile, objectUrl: string)
    ensures HandleFileChange(st, Some(file), objectUrl).form.picture == Some(File(file))
            <==> IsImage(file) || st.form.picture == Some(File(file))
    ensures HandleFileChange(st, Some(file), objectUrl).pictureError == Some(NotAnImage)
            <==> !IsImage(file)
  {
  }
}
