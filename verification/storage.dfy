/** The browser's `localStorage`, as a map from key to an already parsed
    value. JSON encoding is not modelled: each key holds either a raw string
    (the session flags) or the typed value its writer stored. */
module Storage {
  import opened Entities

  datatype Value =
    | Raw(text: string)
    | Admins(admins: seq<Admin>)
    | OneAdmin(admin: Admin)
    | Clinics(clinics: seq<Clinic>)
    | Users(users: seq<User>)

  type Store = map<string, Value>

  const AdminsKey := "admins"
  const ClinicsKey := "clinics"
  const UsersKey := "users"
  const IsLoggedInKey := "isLoggedIn"
  const IsSuperAdminKey := "isSuperAdmin"
  const LoggedInAdminKey := "loggedInAdmin"

  /** `JSON.parse(localStorage.getItem('clinics')) || []`. */
  function ReadClinics(store: Store): seq<Clinic>
  {
    if ClinicsKey in store && store[ClinicsKey].Clinics? then store[ClinicsKey].clinics else []
  }

  /** `JSON.parse(localStorage.getItem('users') || '[]')`. */
  function ReadUsers(store: Store): seq<User>
  {
    if UsersKey in store && store[UsersKey].Users? then store[UsersKey].users else []
  }

  /** `JSON.parse(localStorage.getItem('admins')) || []` as the settings page
      reads it. */
  function ReadAdmins(store: Store): seq<Admin>
  {
    if AdminsKey in store && store[AdminsKey].Admins? then store[AdminsKey].admins else []
  }
}
