/** The flat records the dashboard keeps. A JavaScript property that may be
    missing (or `null`) is an `Option`; one the code always sets is a plain
    field. None of the records refers to another. */
module Entities {
  import opened Wrappers

  /** A file chosen in a file input: its media type (`file.type`) and its
      bytes, which the model never inspects. */
  datatype MediaFile = MediaFile(mediaType: string, content: seq<int>)

  /** The value of a clinic's `picture` property: either a string (a data URL
      written by the add form, or an object URL) or a `File` object the edit
      form placed there. */
  datatype Picture = Text(url: string) | File(file: MediaFile)

  /** JavaScript truthiness of an optional picture: `null`/missing and the
      empty string are falsy, every `File` object is truthy. */
  predicate PictureTruthy(p: Option<Picture>) {
    match p
    case None => false
    case Some(Text(u)) => u != ""
    case Some(File(_)) => true
  }

  /** A clinic of the clinic directory; `name` is its natural key. The field
      holding the service tags is called `type` in the source. */
  datatype Clinic = Clinic(
    name: string,
    description: Option<string>,
    address: string,
    coordinates: Option<string>,
    mobileNumber: Option<string>,
    website: Option<string>,
    types: Option<seq<string>>,
    officeTimeStart: Option<string>,
    officeTimeEnd: Option<string>,
    picture: Option<Picture>,
    dateAdded: Option<string>)

  /** A quote; `quoteName` is its natural key. */
  datatype Quote = Quote(quoteName: string, description: string, address: string, dateAdded: string)

  /** A JavaScript number as produced by `parseFloat`: a finite value or NaN. */
  datatype Number = Num(value: real) | NaN

  /** `!amount`: zero and NaN are the falsy numbers. */
  predicate NumberFalsy(n: Number) {
    n.NaN? || n.value == 0.0
  }

  /** A donation; `title` is its natural key. */
  datatype Donation = Donation(
    title: string,
    description: string,
    amount: Number,
    donatedBy: string,
    date: string,
    image: Option<string>)

  datatype Role = UserRole | AdminRole

  /** A user of the users page; `id` is the creation timestamp. */
  datatype User = User(
    id: int,
    firstName: string,
    lastName: string,
    email: string,
    mobile: string,
    address: string,
    role: Role,
    createdAt: string)

  /** An administrator account. The four default accounts carry a password
      and no id; accounts added on the settings page carry an id and no
      password. */
  datatype Admin = Admin(
    firstName: string,
    lastName: string,
    email: string,
    password: Option<string>,
    address: string,
    mobile: string,
    profilePhoto: string,
    id: Option<int>)
}
