/** The application shell: seeding the default admins, the login decision,
    logout, and restoring the session flags from storage on load. */
module App {
  import opened Wrappers
  import opened Lists
  import opened Entities
  import opened Storage

  const SuperAdminEmail := "superadmin@gmail.com"
  const SuperAdminPassword := "superadmin#@"
  const SuperAdminPhoto := "https://encrypted-tbn0.gstatic.com/images?q=tbn:ANd9GcTgj9zAP5dPVfTc357VxZrF9hXYbG2ybB4vJQ&s"

  /** The four accounts written on first load; they have passwords and no
      ids. */
  const DefaultAdmins: seq<Admin> := [
    Admin("Admin1", "User", "admin1@example.com", Some("password1"), "Address 1", "1234567890",
          "https://w0.peakpx.com/wallpaper/435/732/HD-wallpaper-laptop-numbers-dark.jpg", None),
    Admin("Admin2", "User", "admin2@example.com", Some("password2"), "Address 2", "2345678901",
          "https://encrypted-tbn0.gstatic.com/images?q=tbn:ANd9GcSfoAOwO0FQGbhxQE8oX8KBBRmInYVJOSFWeA&s", None),
    Admin("Admin3", "User", "admin3@example.com", Some("password3"), "Address 3", "3456789012",
          "https://img.freepik.com/free-photo/painting-mountain-lake-with-mountain-background_188544-9126.jpg", None),
    Admin("Admin4", "User", "admin4@example.com", Some("password4"), "Address 4", "4567890123",
          "https://encrypted-tbn0.gstatic.com/images?q=tbn:ANd9GcQ5vRWZOPhy_XraJ-qbhoVWZfMFZxMBKdDx-g&s", None)]

  /** The shell's state: the two flags and the header's profile photo. */
  datatype Session = Session(isLoggedIn: bool, isSuperAdmin: bool, profilePhoto: Option<string>)

  const Fresh := Session(false, false, None)

  /** `!localStorage.getItem('admins')`: the key is missing or holds the
      empty string. A stored list, even an empty one, is a non-empty JSON
      text. */
  predicate AdminsMissing(store: Store) {
    AdminsKey !in store || store[AdminsKey] == Raw("")
  }

  /** The seeding half of the mount effect. */
  function SeedAdmins(store: Store): (r: Store)
    ensures AdminsMissing(store) ==> r == store[AdminsKey := Admins(DefaultAdmins)]
    ensures !AdminsMissing(store) ==> r == store
    ensures !AdminsMissing(r)
  {
    if AdminsMissing(store) then store[AdminsKey := Admins(DefaultAdmins)] else store
  }

  /** Seeding never overwrites, so a second load changes nothing. */
  lemma SeedIdempotent(store: Store)
    ensures SeedAdmins(SeedAdmins(store)) == SeedAdmins(store)
  {
  }

  /** The flag half of the mount effect: each flag is on exactly when its key
      holds the text "true"; the photo comes from the stored admin, if any. */
  function Restore(store: Store): (s: Session)
    ensures s.isLoggedIn <==> IsLoggedInKey in store && store[IsLoggedInKey] == Raw("true")
    ensures s.isSuperAdmin <==> IsSuperAdminKey in store && store[IsSuperAdminKey] == Raw("true")
    ensures LoggedInAdminKey in store && store[LoggedInAdminKey].OneAdmin? ==>
      s.profilePhoto == Some(store[LoggedInAdminKey].admin.profilePhoto)
  {
    var photo :=
      if LoggedInAdminKey in store && store[LoggedInAdminKey].OneAdmin? then
        Some(store[LoggedInAdminKey].admin.profilePhoto)
      else None;
    Session(IsLoggedInKey in store && store[IsLoggedInKey] == Raw("true"),
            IsSuperAdminKey in store && store[IsSuperAdminKey] == Raw("true"),
            photo)
  }

  /** The whole mount effect. */
  function Load(store: Store): (Session, Store) {
    var seeded := SeedAdmins(store);
    (Restore(seeded), seeded)
  }

  /** A stored admin whose email and password both equal the typed ones. An
      admin without a password never matches. */
  predicate Matches(a: Admin, email: string, password: string) {
    a.email == email && a.password == Some(password)
  }

  /** The outcome of `handleLogin`; `None` is the crash on an admins key that
      holds no list. */
  function HandleLogin(s: Session, store: Store, email: string, password: string): (r: Option<(Session, Store)>)
    ensures email == SuperAdminEmail && password == SuperAdminPassword ==>
      r == Some((Session(true, true, Some(SuperAdminPhoto)),
                 store[IsLoggedInKey := Raw("true")][IsSuperAdminKey := Raw("true")]))
    ensures r.None? <==>
      !(email == SuperAdminEmail && password == SuperAdminPassword)
      && !(AdminsKey in store && store[AdminsKey].Admins?)
    ensures r.Some? && !(email == SuperAdminEmail && password == SuperAdminPassword) ==>
      var admins := store[AdminsKey].admins;
      && ((exists i :: 0 <= i < |admins| && Matches(admins[i], email, password)) ==>
            exists i :: 0 <= i < |admins| && Matches(admins[i], email, password)
              && (forall j :: 0 <= j < i ==> !Matches(admins[j], email, password))
              && r.value.0 == Session(true, false, Some(admins[i].profilePhoto))
              && r.value.1 == store[IsLoggedInKey := Raw("true")][IsSuperAdminKey := Raw("false")]
                                   [LoggedInAdminKey := OneAdmin(admins[i])])
      && ((forall i :: 0 <= i < |admins| ==> !Matches(admins[i], email, password)) ==>
            r.value == (s.(isLoggedIn := false, isSuperAdmin := false), store))
  {
    if email == SuperAdminEmail && password == SuperAdminPassword then
      Some((Session(true, true, Some(SuperAdminPhoto)),
            store[IsLoggedInKey := Raw("true")][IsSuperAdminKey := Raw("true")]))
    else if !(AdminsKey in store && store[AdminsKey].Admins?) then None
    else
      var found := Find(store[AdminsKey].admins, (a: Admin) => Matches(a, email, password));
      match found
      case Some(a) =>
        Some((Session(true, false, Some(a.profilePhoto)),
              store[IsLoggedInKey := Raw("true")][IsSuperAdminKey := Raw("false")]
                   [LoggedInAdminKey := OneAdmin(a)]))
      case None => Some((s.(isLoggedIn := false, isSuperAdmin := false), store))
  }

  /** `handleLogout`: the three session keys go, nothing else in storage
      changes, and both flags drop. */
  function HandleLogout(s: Session, store: Store): (r: (Session, Store))
    ensures !r.0.isLoggedIn && !r.0.isSuperAdmin && r.0.profilePhoto == s.profilePhoto
    ensures r.1.Keys == store.Keys - {IsLoggedInKey, IsSuperAdminKey, LoggedInAdminKey}
    ensures forall k :: k in r.1 ==> r.1[k] == store[k]
  {
    (s.(isLoggedIn := false, isSuperAdmin := false),
     store - {IsLoggedInKey, IsSuperAdminKey, LoggedInAdminKey})
  }

  /** After a load, no login attempt crashes as long as the admins key was
      missing, empty, or held a list some page wrote: the key then holds the
      defaults or that list. */
  lemma LoginAfterFirstLoadNeverFails(store: Store, email: string, password: string)
    requires AdminsMissing(store) || store[AdminsKey].Admins?
    ensures HandleLogin(Load(store).0, Load(store).1, email, password).Some?
  {
  }

  /** The first stored admin whose email and password match is the one
      logged in, whatever matches further down the list. */
  lemma FirstMatchLogsIn(s: Session, store: Store, email: string, password: string, i: int)
    requires !(email == SuperAdminEmail && password == SuperAdminPassword)
    requires AdminsKey in store && store[AdminsKey].Admins?
    requires 0 <= i < |store[AdminsKey].admins| && Matches(store[AdminsKey].admins[i], email, password)
    requires forall j :: 0 <= j < i ==> !Matches(store[AdminsKey].admins[j], email, password)
    ensures var r := HandleLogin(s, store, email, password);
      && r.Some?
      && r.value.0 == Session(true, false, Some(store[AdminsKey].admins[i].profilePhoto))
      && r.value.1 == store[IsLoggedInKey := Raw("true")][IsSuperAdminKey := Raw("false")]
                           [LoggedInAdminKey := OneAdmin(store[AdminsKey].admins[i])]
  {
    var admins := store[AdminsKey].admins;
    var r := HandleLogin(s, store, email, password);
    var k :| 0 <= k < |admins| && Matches(admins[k], email, password)
      && (forall j :: 0 <= j < k ==> !Matches(admins[j], email, password))
      && r.value.0 == Session(true, false, Some(admins[k].profilePhoto))
      && r.value.1 == store[IsLoggedInKey := Raw("true")][IsSuperAdminKey := Raw("false")]
                           [LoggedInAdminKey := OneAdmin(admins[k])];
    assert k == i;
  }

  /** Each default account logs in with its own password. */
  lemma DefaultAccountsLogIn(store: Store, i: int)
    requires AdminsKey !in store && 0 <= i < 4
    ensures var seeded := Load(store).1;
      var r := HandleLogin(Load(store).0, seeded, DefaultAdmins[i].email, DefaultAdmins[i].password.value);
      r.Some? && r.value.0.isLoggedIn && !r.value.0.isSuperAdmin
      && r.value.1[LoggedInAdminKey] == OneAdmin(DefaultAdmins[i])
  {
    var seeded := Load(store).1;
    assert seeded[AdminsKey].admins == DefaultAdmins;
    assert forall j :: 0 <= j < i ==> DefaultAdmins[j].email != DefaultAdmins[i].email;
    FirstMatchLogsIn(Load(store).0, seeded, DefaultAdmins[i].email, DefaultAdmins[i].password.value, i);
  }

  /** Whoever a stored-admin login lets in carries the typed password, so an
      admin the settings page adds from the blank form, which has none, never
      logs in. */
  lemma LoggedInAdminHasPassword(s: Session, store: Store, email: string, password: string)
    ensures var r := HandleLogin(s, store, email, password);
      r.Some? && r.value.0.isLoggedIn && !r.value.0.isSuperAdmin ==>
        && LoggedInAdminKey in r.value.1 && r.value.1[LoggedInAdminKey].OneAdmin?
        && r.value.1[LoggedInAdminKey].admin.password == Some(password)
        && r.value.1[LoggedInAdminKey].admin.email == email
  {
  }

  /** A reload right after a login restores what the login set; a reload
      after logout restores a logged-out session. */
  lemma ReloadKeepsSession(s: Session, store: Store, email: string, password: string)
    ensures var r := HandleLogin(s, store, email, password);
      r.Some? && r.value.0.isLoggedIn ==>
        Restore(r.value.1).isLoggedIn && Restore(r.value.1).isSuperAdmin == r.value.0.isSuperAdmin
    ensures var (s', store') := HandleLogout(s, store);
      !Restore(store').isLoggedIn && !Restore(store').isSuperAdmin && Restore(store').profilePhoto.None?
  {
  }
}
