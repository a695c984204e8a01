/** The users page: the user list loaded from storage, add and edit modals
    sharing one form, a confirmed delete, a three-field search, and a write
    of the whole list back to storage after every change. */
module UsersPage {
  import opened Wrappers
  import opened Text
  import opened Lists
  import opened Entities
  import opened Storage

  /** `formData`. It starts as the blank form, but opening the edit modal
      copies the whole user into it, `id` and `createdAt` included. */
  datatype UserDraft = UserDraft(
    id: Option<int>,
    firstName: string,
    lastName: string,
    email: string,
    mobile: string,
    address: string,
    role: Role,
    createdAt: Option<string>)

  const BlankForm := UserDraft(None, "", "", "", "", "", UserRole, None)

  function DraftOf(u: User): UserDraft {
    UserDraft(Some(u.id), u.firstName, u.lastName, u.email, u.mobile, u.address, u.role, Some(u.createdAt))
  }

  datatype UsersState = UsersState(
    users: seq<User>,
    query: string,
    showAdd: bool,
    showEdit: bool,
    selected: Option<User>,
    form: UserDraft)

  /** The list in memory is the list in storage. */
  predicate Mirrored(st: UsersState, store: Store) {
    ReadUsers(store) == st.users
  }

  /** The state after the mount effect has loaded the stored users. */
  function Mount(store: Store): (st: UsersState)
    ensures Mirrored(st, store)
    ensures st.form == BlankForm && !st.showAdd && !st.showEdit && st.selected.None?
  {
    UsersState(ReadUsers(store), "", false, false, None, BlankForm)
  }

  /** Writes the list under the users key and nothing else. */
  function Persist(store: Store, users: seq<User>): (r: Store)
    ensures ReadUsers(r) == users
    ensures r.Keys == store.Keys + {UsersKey}
    ensures forall k :: k in store && k != UsersKey ==> r[k] == store[k]
  {
    store[UsersKey := Users(users)]
  }

  // ---------------------------------------------------------------------
  // Add

  /** The record an add creates: the form's fields under the given id, with
      `nowIso` (`new Date().toISOString()`) as the creation time. */
  function NewUser(form: UserDraft, id: int, nowIso: string): User {
    User(id, form.firstName, form.lastName, form.email, form.mobile, form.address, form.role, nowIso)
  }

  /** `handleAddUser` corrected: one user, built from the form under the
      clock's id `now`, goes at the end; storage mirrors the list and the
      form resets and closes. The page itself lets an id left in the form
      override `now`; see `HandleAddUserAsWritten`. */
  function HandleAddUser(st: UsersState, store: Store, now: int, nowIso: string): (r: (UsersState, Store))
    ensures |r.0.users| == |st.users| + 1 && r.0.users[..|st.users|] == st.users
    ensures var u := r.0.users[|st.users|];
      && u.id == now
      && u.firstName == st.form.firstName && u.lastName == st.form.lastName
      && u.email == st.form.email && u.mobile == st.form.mobile && u.address == st.form.address
      && u.role == st.form.role && u.createdAt == nowIso
    ensures Mirrored(r.0, r.1)
    ensures r.1.Keys == store.Keys + {UsersKey}
    ensures forall k :: k in store && k != UsersKey ==> r.1[k] == store[k]
    ensures r.0 == st.(users := r.0.users, showAdd := false, form := BlankForm)
  {
    var users := st.users + [NewUser(st.form, now, nowIso)];
    (st.(users := users, showAdd := false, form := BlankForm), Persist(store, users))
  }

  // ---------------------------------------------------------------------
  // Edit

  /** `handleEditUser`: selects the user, copies it into the form and opens
      the edit modal. */
  function HandleEditUser(st: UsersState, u: User): (r: UsersState)
    ensures r == st.(selected := Some(u), form := DraftOf(u), showEdit := true)
    ensures r.form.id == Some(u.id) && r.form.createdAt == Some(u.createdAt)
  {
    st.(selected := Some(u), form := DraftOf(u), showEdit := true)
  }

  /** `{...user, ...formData}`. */
  function Overlay(u: User, form: UserDraft): User {
    User(form.id.GetOr(u.id), form.firstName, form.lastName, form.email, form.mobile,
         form.address, form.role, form.createdAt.GetOr(u.createdAt))
  }

  /** `handleUpdateUser`, wired only while a user is selected: overlays the
      form onto exactly the users with the selected id, writes the list back
      and resets the form. */
  function HandleUpdateUser(st: UsersState, store: Store): (r: (UsersState, Store))
    requires st.selected.Some?
    ensures |r.0.users| == |st.users|
    ensures forall i :: 0 <= i < |st.users| ==>
      r.0.users[i] == if st.users[i].id == st.selected.value.id then Overlay(st.users[i], st.form) else st.users[i]
    ensures Mirrored(r.0, r.1)
    ensures r.1.Keys == store.Keys + {UsersKey}
    ensures forall k :: k in store && k != UsersKey ==> r.1[k] == store[k]
    ensures r.0 == st.(users := r.0.users, showEdit := false, selected := None, form := BlankForm)
  {
    var id := st.selected.value.id;
    var users := MapWhere(st.users, (u: User) => u.id == id, u => Overlay(u, st.form));
    (st.(users := users, showEdit := false, selected := None, form := BlankForm), Persist(store, users))
  }

  /** Closing the edit modal with Cancel keeps the copied form. */
  function CancelEdit(st: UsersState): (r: UsersState)
    ensures r == st.(showEdit := false)
  {
    st.(showEdit := false)
  }

  function OpenAdd(st: UsersState): (r: UsersState)
    ensures r == st.(showAdd := true)
  {
    st.(showAdd := true)
  }

  /** The editable fields of the form. */
  datatype Change =
    | SetFirstName(s: string) | SetLastName(s: string) | SetEmail(s: string)
    | SetMobile(s: string) | SetAddress(s: string) | SetRole(role: Role)

  function ChangeForm(st: UsersState, c: Change): (r: UsersState)
    ensures c.SetFirstName? ==> r.form == st.form.(firstName := c.s)
    ensures c.SetLastName? ==> r.form == st.form.(lastName := c.s)
    ensures c.SetEmail? ==> r.form == st.form.(email := c.s)
    ensures c.SetMobile? ==> r.form == st.form.(mobile := c.s)
    ensures c.SetAddress? ==> r.form == st.form.(address := c.s)
    ensures c.SetRole? ==> r.form == st.form.(role := c.role)
    ensures r.form.id == st.form.id && r.form.createdAt == st.form.createdAt
    ensures r == st.(form := r.form)
  {
    var f := st.form;
    st.(form := match c
      case SetFirstName(s) => f.(firstName := s)
      case SetLastName(s) => f.(lastName := s)
      case SetEmail(s) => f.(email := s)
      case SetMobile(s) => f.(mobile := s)
      case SetAddress(s) => f.(address := s)
      case SetRole(role) => f.(role := role))
  }

  /** Saving an edit leaves the user's id and creation time, changing only
      the fields typed into the form. */
  lemma UpdateKeepsIdentity(st: UsersState, store: Store, u: User, changes: seq<Change>)
    requires u in st.users
    ensures var r := HandleUpdateUser(ApplyChanges(HandleEditUser(st, u), changes), store).0;
      forall i :: 0 <= i < |st.users| && st.users[i].id == u.id ==>
        r.users[i].id == u.id && r.users[i].createdAt == u.createdAt
  {
  }

  /** Typing a sequence of changes into the form never touches the copied
      id and creation time, the selection or the list. */
  function ApplyChanges(st: UsersState, changes: seq<Change>): (r: UsersState)
    ensures r.form.id == st.form.id && r.form.createdAt == st.form.createdAt
    ensures r.selected == st.selected && r.users == st.users
    decreases |changes|
  {
    if changes == [] then st else ApplyChanges(ChangeForm(st, changes[0]), changes[1..])
  }

  // ---------------------------------------------------------------------
  // Delete

  /** `handleDeleteUser`; `confirmed` is the answer to `window.confirm`. A
      refused confirmation changes nothing and writes nothing. */
  function HandleDeleteUser(st: UsersState, store: Store, id: int, confirmed: bool): (r: (UsersState, Store))
    ensures !confirmed ==> r == (st, store)
    ensures confirmed ==>
      && (forall u :: u in r.0.users <==> u in st.users && u.id != id)
      && Subsequence(r.0.users, st.users)
      && (forall u :: multiset(r.0.users)[u] == if u.id != id then multiset(st.users)[u] else 0)
      && r.0 == st.(users := r.0.users)
      && Mirrored(r.0, r.1)
      && r.1.Keys == store.Keys + {UsersKey}
      && (forall k :: k in store && k != UsersKey ==> r.1[k] == store[k])
  {
    if !confirmed then (st, store)
    else
      var keep := (u: User) => u.id != id;
      FilterCounts(st.users, keep);
      var users := Filter(st.users, keep);
      (st.(users := users), Persist(store, users))
  }

  // ---------------------------------------------------------------------
  // Search

  predicate Hit(u: User, query: string) {
    || ContainsIgnoringCase(u.firstName, query)
    || ContainsIgnoringCase(u.lastName, query)
    || ContainsIgnoringCase(u.email, query)
  }

  ghost predicate HitSpec(u: User, query: string) {
    || (exists k :: OccursAt(Lower(u.firstName), Lower(query), k))
    || (exists k :: OccursAt(Lower(u.lastName), Lower(query), k))
    || (exists k :: OccursAt(Lower(u.email), Lower(query), k))
  }

  lemma HitIff(u: User, query: string)
    ensures Hit(u, query) <==> HitSpec(u, query)
    ensures query == "" ==> Hit(u, query)
  {
    ContainsIgnoringCaseIff(u.firstName, query);
    ContainsIgnoringCaseIff(u.lastName, query);
    ContainsIgnoringCaseIff(u.email, query);
  }

  /** The rows on show: the query is not trimmed. */
  function Filtered(st: UsersState): (r: seq<User>)
    ensures Subsequence(r, st.users)
    ensures forall u :: multiset(r)[u] == if Hit(u, st.query) then multiset(st.users)[u] else 0
  {
    var keep := (u: User) => Hit(u, st.query);
    FilterCounts(st.users, keep);
    Filter(st.users, keep)
  }

  /** A user is on show exactly when the lowered query occurs in the lowered
      first name, last name or email; the empty query shows everyone. */
  lemma FilteredSpec(st: UsersState)
    ensures forall u :: u in Filtered(st) <==> u in st.users && HitSpec(u, st.query)
    ensures st.query == "" ==> Filtered(st) == st.users
  {
    forall u | u in st.users {
      HitIff(u, st.query);
    }
    if st.query == "" {
      forall i | 0 <= i < |st.users| ensures Hit(st.users[i], st.query) {
        HitIff(st.users[i], st.query);
      }
    }
  }

  // ---------------------------------------------------------------------
  // Events

  /** A user action; the clock readings and the confirmation answer come
      with the action. */
  datatype Event =
    | Search(query: string)
    | ClickAdd
    | Add(now: int, nowIso: string)
    | CloseAdd
    | Edit(user: User)
    | Update
    | CloseEdit
    | Type(change: Change)
    | Delete(id: int, confirmed: bool)

  /** Where an added user's id comes from: as on the page, an id left in
      the form wins over the clock; corrected, the clock alone decides. */
  datatype IdRule = FormIdWins | ClockOnly

  /** One action. Update is only reachable while a user is selected; an
      update without one is ignored here. */
  function Apply(st: UsersState, store: Store, e: Event, rule: IdRule): (UsersState, Store) {
    match e
    case Search(q) => (st.(query := q), store)
    case ClickAdd => (OpenAdd(st), store)
    case Add(now, iso) =>
      if rule == FormIdWins then HandleAddUserAsWritten(st, store, now, iso)
      else HandleAddUser(st, store, now, iso)
    case CloseAdd => (st.(showAdd := false), store)
    case Edit(u) => (HandleEditUser(st, u), store)
    case Update => if st.selected.Some? then HandleUpdateUser(st, store) else (st, store)
    case CloseEdit => (CancelEdit(st), store)
    case Type(c) => (ChangeForm(st, c), store)
    case Delete(id, ok) => HandleDeleteUser(st, store, id, ok)
  }

  function Run(st: UsersState, store: Store, events: seq<Event>, rule: IdRule): (UsersState, Store)
    decreases |events|
  {
    if events == [] then (st, store)
    else
      var (st', store') := Apply(st, store, events[0], rule);
      Run(st', store', events[1..], rule)
  }

  /** From a mirrored state, whatever the user does, storage holds exactly
      the list on screen, with the page's add as with the corrected one. */
  lemma {:induction false} RunMirrored(st: UsersState, store: Store, events: seq<Event>, rule: IdRule)
    requires Mirrored(st, store)
    ensures var (st', store') := Run(st, store, events, rule); Mirrored(st', store')
    decreases |events|
  {
    if events != [] {
      var (st', store') := Apply(st, store, events[0], rule);
      assert Mirrored(st', store');
      RunMirrored(st', store', events[1..], rule);
    }
  }

  lemma MountedPageStaysMirrored(store: Store, events: seq<Event>, rule: IdRule)
    ensures var (st', store') := Run(Mount(store), store, events, rule); Mirrored(st', store')
  {
    RunMirrored(Mount(store), store, events, rule);
  }

  // ---------------------------------------------------------------------
  // Ids

  /** `handleAddUser` as the page writes it: the record is
      `{id: now, ...formData, createdAt}`, so an id still in the form
      overrides the clock's. */
  function HandleAddUserAsWritten(st: UsersState, store: Store, now: int, nowIso: string): (r: (UsersState, Store))
    ensures |r.0.users| == |st.users| + 1 && r.0.users[..|st.users|] == st.users
    ensures st.form.id.None? ==> r.0.users[|st.users|].id == now
    ensures st.form.id.Some? ==> r.0.users[|st.users|].id == st.form.id.value
    ensures var u := r.0.users[|st.users|];
      && u.firstName == st.form.firstName && u.lastName == st.form.lastName
      && u.email == st.form.email && u.mobile == st.form.mobile && u.address == st.form.address
      && u.role == st.form.role && u.createdAt == nowIso
    ensures Mirrored(r.0, r.1)
    ensures r.1.Keys == store.Keys + {UsersKey}
    ensures forall k :: k in store && k != UsersKey ==> r.1[k] == store[k]
    ensures r.0 == st.(users := r.0.users, showAdd := false, form := BlankForm)
  {
    var users := st.users + [NewUser(st.form, st.form.id.GetOr(now), nowIso)];
    (st.(users := users, showAdd := false, form := BlankForm), Persist(store, users))
  }

  ghost predicate DistinctIds(users: seq<User>) {
    forall i, j :: 0 <= i < j < |users| ==> users[i].id != users[j].id
  }

  /** As written, opening the edit modal, cancelling it and adding a user
      gives the new user the edited user's id, whatever the clock says. */
  lemma CancelledEditLeaksId(st: UsersState, store: Store, u: User, now: int, nowIso: string)
    ensures var (r, _) := HandleAddUserAsWritten(OpenAdd(CancelEdit(HandleEditUser(st, u))), store, now, nowIso);
      r.users[|r.users| - 1].id == u.id
  {
  }

  /** The same leak on the page's own run of actions: edit a user, close
      the modal, open the add form and add. */
  lemma PageRunLeaksId(st: UsersState, store: Store, u: User, now: int, nowIso: string)
    ensures var (r, _) := Run(st, store, [Edit(u), CloseEdit, ClickAdd, Add(now, nowIso)], FormIdWins);
      |r.users| == |st.users| + 1 && r.users[|st.users|].id == u.id
  {
    var events := [Edit(u), CloseEdit, ClickAdd, Add(now, nowIso)];
    var s1 := HandleEditUser(st, u);
    var s2 := CancelEdit(s1);
    var s3 := OpenAdd(s2);
    var (s4, store4) := HandleAddUserAsWritten(s3, store, now, nowIso);
    assert events[1..] == [CloseEdit, ClickAdd, Add(now, nowIso)];
    assert events[1..][1..] == [ClickAdd, Add(now, nowIso)];
    assert events[1..][1..][1..] == [Add(now, nowIso)];
    assert Run(s3, store, [Add(now, nowIso)], FormIdWins) == (s4, store4);
    assert Run(s2, store, events[1..][1..], FormIdWins) == (s4, store4);
    assert Run(s1, store, events[1..], FormIdWins) == (s4, store4);
    assert Run(st, store, events, FormIdWins) == (s4, store4);
    assert s4.users[|st.users|].id == u.id;
  }

  /** So the ids stop being unique, and a later delete of that id removes
      both users. */
  lemma LeakedIdDeletesBoth(st: UsersState, store: Store, u: User, now: int, nowIso: string)
    requires u in st.users
    ensures var (r, s) := HandleAddUserAsWritten(OpenAdd(CancelEdit(HandleEditUser(st, u))), store, now, nowIso);
      && !DistinctIds(r.users)
      && var (r', _) := HandleDeleteUser(r, s, u.id, true);
         |r'.users| <= |st.users| - 1
  {
    var (r, s) := HandleAddUserAsWritten(OpenAdd(CancelEdit(HandleEditUser(st, u))), store, now, nowIso);
    var i :| 0 <= i < |st.users| && st.users[i] == u;
    assert r.users[i] == u && r.users[|st.users|].id == u.id;
    var (r', _) := HandleDeleteUser(r, s, u.id, true);
    var keep := (x: User) => x.id != u.id;
    assert r'.users == Filter(r.users, keep);
    assert r.users == st.users + [r.users[|st.users|]];
    FilterAppend(st.users, [r.users[|st.users|]], keep);
    FilterShorter(st.users, keep, i);
  }

  /** With the model's add and a clock reading no stored id uses, ids stay
      unique whatever the form holds, a cancelled edit's id included. */
  lemma AddKeepsIdsDistinct(st: UsersState, store: Store, now: int, nowIso: string)
    requires DistinctIds(st.users)
    requires forall u :: u in st.users ==> u.id != now
    ensures DistinctIds(HandleAddUser(st, store, now, nowIso).0.users)
  {
    var r := HandleAddUser(st, store, now, nowIso).0.users;
    forall i, j | 0 <= i < j < |r| ensures r[i].id != r[j].id {
      assert r[i] == st.users[i];
      if j < |st.users| {
        assert r[j] == st.users[j];
      } else {
        assert st.users[i] in st.users;
      }
    }
  }
}
