/** The admin settings page: the admin list loaded from storage, a form that
    validates five required fields and the email pattern, an add that always
    appends under a fresh id, and a delete by id behind a confirmation. */
module SettingsPage {
  import opened Wrappers
  import opened Lists
  import opened Entities
  import opened Storage
  import EmailPattern

  /** The validated inputs of the form, by their `name` attribute. */
  datatype AdminField = FirstName | LastName | Email | Address | Mobile

  function Get(a: Admin, field: AdminField): string {
    match field
    case FirstName => a.firstName
    case LastName => a.lastName
    case Email => a.email
    case Address => a.address
    case Mobile => a.mobile
  }

  /** The blank `newAdmin`: no password and no id. */
  const BlankAdmin := Admin("", "", "", None, "", "", "", None)

  /** The page state. `errors` holds the fields whose error is set to true;
      the draft is an `Admin` because editing copies a stored admin, password
      and id included, into it. */
  datatype SettingsState = SettingsState(
    admins: seq<Admin>,
    draft: Admin,
    visible: bool,
    errors: set<AdminField>,
    toDelete: Option<Admin>)

  /** The state after the mount effect has loaded the stored admins. */
  function Mount(store: Store): (st: SettingsState)
    ensures st.admins == ReadAdmins(store) && st.draft == BlankAdmin && st.errors == {}
  {
    SettingsState(ReadAdmins(store), BlankAdmin, false, {}, None)
  }

  /** Writes the admin list and nothing else. */
  function Persist(store: Store, admins: seq<Admin>): (r: Store)
    ensures ReadAdmins(r) == admins
    ensures r.Keys == store.Keys + {AdminsKey}
    ensures forall k :: k in store && k != AdminsKey ==> r[k] == store[k]
  {
    store[AdminsKey := Admins(admins)]
  }

  /** `validateForm`: every empty field is flagged, and so is a non-empty
      email in which `\S+@\S+\.\S+` finds no match. */
  function Validate(a: Admin): (errs: set<AdminField>)
    ensures forall f :: f in errs <==>
      Get(a, f) == "" || (f == Email && a.email != "" && !EmailPattern.PatternFound(a.email))
  {
    EmailPattern.TestIff(a.email);
    (set f: AdminField | Get(a, f) == "")
      + (if a.email != "" && !EmailPattern.Test(a.email) then {Email} else {})
  }

  /** The form passes exactly when all five fields are filled in and the
      email contains a match of the pattern. */
  lemma ValidIff(a: Admin)
    ensures Validate(a) == {} <==>
      && a.firstName != "" && a.lastName != "" && a.address != "" && a.mobile != ""
      && EmailPattern.PatternFound(a.email)
  {
    if Validate(a) == {} {
      assert Email !in Validate(a);
      assert a.email != "";
      assert EmailPattern.PatternFound(a.email);
      assert FirstName !in Validate(a) && LastName !in Validate(a);
      assert Address !in Validate(a) && Mobile !in Validate(a);
    } else {
      var f :| f in Validate(a);
      if f == Email && a.email == "" {
        EmailPattern.TestIff(a.email);
        assert !EmailPattern.Test(a.email);
      }
    }
  }

  /** `handleAddAdmin`: an invalid draft only records its errors; a valid one
      is appended with id `now`, the list is written back, and the form
      resets and closes. */
  function HandleAddAdmin(st: SettingsState, store: Store, now: int): (r: (SettingsState, Store))
    ensures r.0.errors == Validate(st.draft)
    ensures Validate(st.draft) != {} ==> r == (st.(errors := Validate(st.draft)), store)
    ensures Validate(st.draft) == {} ==>
      && r.0.admins == st.admins + [st.draft.(id := Some(now))]
      && ReadAdmins(r.1) == r.0.admins
      && r.1.Keys == store.Keys + {AdminsKey}
      && (forall k :: k in store && k != AdminsKey ==> r.1[k] == store[k])
      && r.0 == st.(admins := r.0.admins, draft := BlankAdmin, visible := false, errors := {})
  {
    var errs := Validate(st.draft);
    if errs != {} then (st.(errors := errs), store)
    else
      var admins := st.admins + [st.draft.(id := Some(now))];
      (st.(admins := admins, draft := BlankAdmin, visible := false, errors := errs), Persist(store, admins))
  }

  /** `handleChange`: sets the field and clears only its error. */
  function HandleChange(st: SettingsState, field: AdminField, value: string): (r: SettingsState)
    ensures Get(r.draft, field) == value
    ensures forall f :: f != field ==> Get(r.draft, f) == Get(st.draft, f)
    ensures r.draft.password == st.draft.password && r.draft.id == st.draft.id
    ensures r.errors == st.errors - {field}
    ensures r.admins == st.admins && r.visible == st.visible && r.toDelete == st.toDelete
  {
    var a := st.draft;
    var a' := match field
      case FirstName => a.(firstName := value)
      case LastName => a.(lastName := value)
      case Email => a.(email := value)
      case Address => a.(address := value)
      case Mobile => a.(mobile := value);
    st.(draft := a', errors := st.errors - {field})
  }

  /** `handleEditAdmin`: copies the admin at `index` into the form. */
  function HandleEditAdmin(st: SettingsState, index: int): (r: SettingsState)
    requires 0 <= index < |st.admins|
    ensures r == st.(draft := st.admins[index], visible := true)
  {
    st.(draft := st.admins[index], visible := true)
  }

  /** The Cancel and close buttons of the form. */
  function CancelForm(st: SettingsState): (r: SettingsState)
    ensures r == st.(visible := false, draft := BlankAdmin, errors := {})
  {
    st.(visible := false, draft := BlankAdmin, errors := {})
  }

  /** "Edit" never updates: saving an edited admin appends a copy under a new
      id and leaves the original in place. */
  lemma EditAppendsCopy(st: SettingsState, store: Store, index: int, now: int)
    requires 0 <= index < |st.admins|
    requires Validate(st.admins[index]) == {}
    ensures var r := HandleAddAdmin(HandleEditAdmin(st, index), store, now).0;
      && |r.admins| == |st.admins| + 1
      && r.admins[index] == st.admins[index]
      && r.admins[|st.admins|] == st.admins[index].(id := Some(now))
  {
  }

  function HandleDeleteClick(st: SettingsState, a: Admin): SettingsState {
    st.(toDelete := Some(a))
  }

  /** `handleDeleteConfirm`, wired only while an admin is pending: removes
      every admin whose id equals the pending admin's, missing ids comparing
      equal, writes the list back and clears the marker. */
  function HandleDeleteConfirm(st: SettingsState, store: Store): (r: (SettingsState, Store))
    requires st.toDelete.Some?
    ensures forall a :: a in r.0.admins <==> a in st.admins && a.id != st.toDelete.value.id
    ensures Subsequence(r.0.admins, st.admins)
    ensures forall a :: multiset(r.0.admins)[a] ==
              if a.id != st.toDelete.value.id then multiset(st.admins)[a] else 0
    ensures ReadAdmins(r.1) == r.0.admins
    ensures r.1.Keys == store.Keys + {AdminsKey}
    ensures forall k :: k in store && k != AdminsKey ==> r.1[k] == store[k]
    ensures r.0 == st.(admins := r.0.admins, toDelete := None)
  {
    var keep := (a: Admin) => a.id != st.toDelete.value.id;
    FilterCounts(st.admins, keep);
    var admins := Filter(st.admins, keep);
    (st.(admins := admins, toDelete := None), Persist(store, admins))
  }

  function HandleDeleteCancel(st: SettingsState): (r: SettingsState)
    ensures r == st.(toDelete := None) && r.admins == st.admins
  {
    st.(toDelete := None)
  }

  /** Deleting any of the id-less admins (the four defaults) deletes all of
      them, and keeps every admin that has an id. */
  lemma DeleteIdlessRemovesAll(st: SettingsState, store: Store, a: Admin)
    requires a.id.None?
    ensures var r := HandleDeleteConfirm(HandleDeleteClick(st, a), store).0;
      && (forall b :: b in r.admins ==> b.id.Some?)
      && (forall b :: b in st.admins && b.id.Some? ==> b in r.admins)
  {
  }

  /** An admin with an id is deleted together with exactly its id-sharers. */
  lemma DeleteWithId(st: SettingsState, store: Store, a: Admin)
    requires a.id.Some?
    requires forall i, j :: 0 <= i < j < |st.admins| ==> st.admins[i].id.None? || st.admins[i].id != st.admins[j].id
    requires a in st.admins
    ensures var r := HandleDeleteConfirm(HandleDeleteClick(st, a), store).0;
      |r.admins| == |st.admins| - 1
  {
    var keep := (b: Admin) => b.id != a.id;
    var i :| 0 <= i < |st.admins| && st.admins[i] == a;
    FilterDropsOne(st.admins, keep, i);
  }
}
