/** The dashboard overview: an in-memory table of six clinics with a search
    box, a wholesale edit, a delete behind a confirmation, and a "recent
    activity" log that keeps the newest four entries. Nothing here touches
    the storage. */
module MainContent {
  import opened Wrappers
  import opened Text
  import opened Lists

  /** A row of the table; `status` is absent from the blank draft. */
  datatype DashboardClinic = DashboardClinic(name: string, address: string, date: string, status: Option<string>)

  /** An entry of the activity log (its icon and colour are not modelled). */
  datatype Activity = Activity(id: int, action: string, user: string, time: string)

  /** The six clinics the page starts with, all dated `today`. */
  function InitialClinics(today: string): seq<DashboardClinic> {
    [ DashboardClinic("Clinic A", "123 Main St", today, Some("Active")),
      DashboardClinic("Clinic B", "456 Oak Ave", today, Some("Active")),
      DashboardClinic("Clinic C", "789 Pine Rd", today, Some("Inactive")),
      DashboardClinic("Clinic D", "101 Maple Dr", today, Some("Active")),
      DashboardClinic("Clinic E", "202 Cedar Ln", today, Some("Active")),
      DashboardClinic("Clinic F", "303 Birch Blvd", today, Some("Inactive")) ]
  }

  const InitialActivities: seq<Activity> := [
    Activity(1, "New clinic added", "Admin1", "2 hours ago"),
    Activity(2, "Donation received", "Admin2", "3 hours ago"),
    Activity(3, "Quote approved", "Admin3", "5 hours ago"),
    Activity(4, "New user registered", "Admin1", "1 day ago")]

  /** The draft the edit form is reset to. */
  const BlankDraft := DashboardClinic("", "", "", None)

  /** The component state: the clinics, the rows on show, the search box,
      the name being edited with its draft, the name pending deletion, and
      the activity log. */
  datatype Dashboard = Dashboard(
    clinics: seq<DashboardClinic>,
    filtered: seq<DashboardClinic>,
    query: string,
    editing: Option<string>,
    edited: DashboardClinic,
    deleting: Option<string>,
    activities: seq<Activity>)

  function Init(today: string): (d: Dashboard)
    ensures |d.clinics| == 6 && d.filtered == d.clinics && d.query == ""
    ensures forall i, j :: 0 <= i < j < |d.clinics| ==> d.clinics[i].name != d.clinics[j].name
    ensures d.editing.None? && d.deleting.None?
    ensures |d.activities| == 4 && DistinctIds(d.activities)
  {
    Dashboard(InitialClinics(today), InitialClinics(today), "", None, BlankDraft, None, InitialActivities)
  }

  // ---------------------------------------------------------------------
  // Search

  predicate Hit(c: DashboardClinic, query: string) {
    ContainsIgnoringCase(c.name, query) || ContainsIgnoringCase(c.address, query)
  }

  /** The search effect: the whole list for a blank query, otherwise the
      clinics whose name or address contains the untrimmed query. */
  function Search(clinics: seq<DashboardClinic>, query: string): (r: seq<DashboardClinic>)
    ensures Subsequence(r, clinics)
    ensures forall c :: multiset(r)[c] ==
              if Trim(query) == "" || Hit(c, query) then multiset(clinics)[c] else 0
  {
    SubsequenceReflexive(clinics);
    if Trim(query) == "" then clinics
    else
      var keep := (c: DashboardClinic) => Hit(c, query);
      FilterCounts(clinics, keep);
      Filter(clinics, keep)
  }

  /** The query, lowered, occurs at some index of the lowered name or of the
      lowered address. */
  ghost predicate HitSpec(c: DashboardClinic, query: string) {
    || (exists k :: OccursAt(Lower(c.name), Lower(query), k))
    || (exists k :: OccursAt(Lower(c.address), Lower(query), k))
  }

  lemma HitIff(c: DashboardClinic, query: string)
    ensures Hit(c, query) <==> HitSpec(c, query)
  {
    ContainsIgnoringCaseIff(c.name, query);
    ContainsIgnoringCaseIff(c.address, query);
  }

  /** A query of white space alone shows every clinic; any other query shows
      exactly the clinics where it occurs, ignoring ASCII case, in the name
      or the address. */
  lemma SearchSpec(clinics: seq<DashboardClinic>, query: string)
    ensures (forall i :: 0 <= i < |query| ==> IsSpace(query[i])) ==> Search(clinics, query) == clinics
    ensures (exists i :: 0 <= i < |query| && !IsSpace(query[i])) ==>
      forall c :: c in Search(clinics, query) <==> c in clinics && HitSpec(c, query)
  {
    TrimEmptyIff(query);
    forall c | c in clinics {
      HitIff(c, query);
    }
  }

  /** The effect that re-runs the search whenever the query or the clinics
      change. */
  function Settle(d: Dashboard): (r: Dashboard)
    ensures r.filtered == Search(d.clinics, d.query)
    ensures r.(filtered := d.filtered) == d
  {
    d.(filtered := Search(d.clinics, d.query))
  }

  function SetQuery(d: Dashboard, query: string): Dashboard {
    Settle(d.(query := query))
  }

  /** The table lists the first five rows on show, or all of them when
      there are fewer. */
  function Shown(d: Dashboard): (r: seq<DashboardClinic>)
    ensures |r| == (if |d.filtered| <= 5 then |d.filtered| else 5) && r <= d.filtered
  {
    if |d.filtered| <= 5 then d.filtered else d.filtered[..5]
  }

  // ---------------------------------------------------------------------
  // Activity log

  /** The log as the page writes it: the new entry is numbered one past the
      log's length, and at most three of the older entries stay. */
  function LogActivityAsWritten(acts: seq<Activity>, action: string): (r: seq<Activity>)
    ensures 1 <= |r| <= 4 && |r| == 1 + (if |acts| < 3 then |acts| else 3)
    ensures r[0] == Activity(|acts| + 1, action, "Admin", "Just now")
    ensures r[1..] <= acts
  {
    [Activity(|acts| + 1, action, "Admin", "Just now")] + (if |acts| < 3 then acts else acts[..3])
  }

  /** The largest id in the log, 0 for the empty log. */
  function MaxId(acts: seq<Activity>): (m: int)
    ensures forall a :: a in acts ==> a.id <= m
    ensures acts != [] ==> exists a :: a in acts && a.id == m
  {
    if acts == [] then 0
    else if |acts| == 1 then acts[0].id
    else
      var rest := MaxId(acts[1..]);
      assert forall a :: a in acts ==> a == acts[0] || a in acts[1..];
      if acts[0].id >= rest then acts[0].id else rest
  }

  ghost predicate DistinctIds(acts: seq<Activity>) {
    forall i, j :: 0 <= i < j < |acts| ==> acts[i].id != acts[j].id
  }

  /** The corrected log: as on the page, except that the new entry is
      numbered one past the largest id in the log rather than one past its
      length. */
  function LogActivity(acts: seq<Activity>, action: string): (r: seq<Activity>)
    ensures 1 <= |r| <= 4 && |r| == 1 + (if |acts| < 3 then |acts| else 3)
    ensures r[0].action == action && r[0].user == "Admin" && r[0].time == "Just now"
    ensures forall a :: a in acts ==> a.id < r[0].id
    ensures r[1..] <= acts
  {
    [Activity(MaxId(acts) + 1, action, "Admin", "Just now")] + (if |acts| < 3 then acts else acts[..3])
  }

  /** With that numbering the ids in the log stay pairwise distinct, however
      many entries are logged. */
  lemma LogActivityKeepsIdsDistinct(acts: seq<Activity>, action: string)
    requires DistinctIds(acts)
    ensures DistinctIds(LogActivity(acts, action))
  {
    var r := LogActivity(acts, action);
    forall i, j | 0 <= i < j < |r|
      ensures r[i].id != r[j].id
    {
      assert r[j] == acts[j - 1];
      if i > 0 {
        assert r[i] == acts[i - 1];
      }
    }
  }

  /** How a handler numbers the entry it logs: as the page does, one past
      the log's length, or one past the largest id in the log. */
  datatype Numbering = ByLength | ByMaxId

  /** Logging under either numbering: the new entry goes in front and at
      most three older entries stay, in order. */
  function Log(n: Numbering, acts: seq<Activity>, action: string): (r: seq<Activity>)
    ensures 1 <= |r| <= 4 && |r| == 1 + (if |acts| < 3 then |acts| else 3)
    ensures r[0].action == action && r[0].user == "Admin" && r[0].time == "Just now"
    ensures r[1..] <= acts
    ensures n == ByLength ==> r[0].id == |acts| + 1
    ensures n == ByMaxId ==> forall a :: a in acts ==> a.id < r[0].id
  {
    match n
    case ByLength => LogActivityAsWritten(acts, action)
    case ByMaxId => LogActivity(acts, action)
  }

  /** A template literal shows a null name as "null". */
  function NullableText(s: Option<string>): string {
    if s.Some? then s.value else "null"
  }

  // ---------------------------------------------------------------------
  // Delete

  function HandleDeleteClick(d: Dashboard, name: string): Dashboard {
    d.(deleting := Some(name))
  }

  /** `confirmDelete`: every clinic with the pending name goes (none when no
      name is pending), the rows on show become the new list before the
      search effect runs again, the marker clears and the deletion is
      logged under the numbering `n`. */
  function ConfirmDelete(d: Dashboard, n: Numbering): (r: Dashboard)
    ensures forall c :: c in r.clinics <==> c in d.clinics && Some(c.name) != d.deleting
    ensures Subsequence(r.clinics, d.clinics)
    ensures forall c :: multiset(r.clinics)[c] ==
              if Some(c.name) != d.deleting then multiset(d.clinics)[c] else 0
    ensures d.deleting.None? ==> r.clinics == d.clinics
    ensures r.filtered == r.clinics && r.deleting.None?
    ensures r.query == d.query && r.editing == d.editing && r.edited == d.edited
    ensures r.activities == Log(n, d.activities, "Deleted clinic: " + NullableText(d.deleting))
  {
    var keep := (c: DashboardClinic) => Some(c.name) != d.deleting;
    FilterCounts(d.clinics, keep);
    var updated := Filter(d.clinics, keep);
    d.(clinics := updated, filtered := updated, deleting := None,
       activities := Log(n, d.activities, "Deleted clinic: " + NullableText(d.deleting)))
  }

  /** `cancelDelete` only clears the marker. */
  function CancelDelete(d: Dashboard): (r: Dashboard)
    ensures r.deleting.None?
    ensures r.(deleting := d.deleting) == d
  {
    d.(deleting := None)
  }

  /** Once the search effect has run, the rows on show after a delete are the
      search over the remaining clinics. */
  lemma DeleteThenSettle(d: Dashboard, n: Numbering)
    ensures Settle(ConfirmDelete(d, n)).filtered == Search(ConfirmDelete(d, n).clinics, d.query)
    ensures Trim(d.query) == "" ==> Settle(ConfirmDelete(d, n)) == ConfirmDelete(d, n)
  {
  }

  // ---------------------------------------------------------------------
  // Edit

  /** `handleEditClick`: the clinic's name marks what to replace and the
      clinic itself becomes the draft. */
  function HandleEditClick(d: Dashboard, c: DashboardClinic): Dashboard {
    d.(editing := Some(c.name), edited := c)
  }

  /** The three inputs of the edit form. */
  datatype DraftField = DraftName | DraftAddress | DraftStatus

  function HandleDraftChange(d: Dashboard, field: DraftField, value: string): (r: Dashboard)
    ensures field == DraftName ==> r.edited == d.edited.(name := value)
    ensures field == DraftAddress ==> r.edited == d.edited.(address := value)
    ensures field == DraftStatus ==> r.edited == d.edited.(status := Some(value))
    ensures r.(edited := d.edited) == d
  {
    match field
    case DraftName => d.(edited := d.edited.(name := value))
    case DraftAddress => d.(edited := d.edited.(address := value))
    case DraftStatus => d.(edited := d.edited.(status := Some(value)))
  }

  /** `handleSaveEdit`: every clinic named as the edited one is replaced
      wholesale by the draft, others stay; the rows on show become the new
      list, the edit state resets and the update is logged under the draft's
      name and the numbering `n`. */
  function HandleSaveEdit(d: Dashboard, n: Numbering): (r: Dashboard)
    ensures |r.clinics| == |d.clinics|
    ensures forall i :: 0 <= i < |d.clinics| ==>
      r.clinics[i] == (if Some(d.clinics[i].name) == d.editing then d.edited else d.clinics[i])
    ensures d.editing.None? ==> r.clinics == d.clinics
    ensures r.filtered == r.clinics && r.editing.None? && r.edited == BlankDraft
    ensures r.query == d.query && r.deleting == d.deleting
    ensures r.activities == Log(n, d.activities, "Updated clinic: " + d.edited.name)
  {
    var updated := MapWhere(d.clinics, (c: DashboardClinic) => Some(c.name) == d.editing, _ => d.edited);
    d.(clinics := updated, filtered := updated, editing := None, edited := BlankDraft,
       activities := Log(n, d.activities, "Updated clinic: " + d.edited.name))
  }

  /** `cancelEdit` clears the edited name and keeps the draft. */
  function CancelEdit(d: Dashboard): (r: Dashboard)
    ensures r.editing.None? && r.(editing := d.editing) == d
  {
    d.(editing := None)
  }

  /** Opening the edit form on a clinic whose name no other clinic shares and
      saving it untouched leaves the clinics as they were. */
  lemma SaveUntouchedEdit(d: Dashboard, c: DashboardClinic, n: Numbering)
    requires forall i :: 0 <= i < |d.clinics| && d.clinics[i].name == c.name ==> d.clinics[i] == c
    ensures HandleSaveEdit(HandleEditClick(d, c), n).clinics == d.clinics
  {
    var r := HandleSaveEdit(HandleEditClick(d, c), n);
    assert forall i :: 0 <= i < |d.clinics| ==> r.clinics[i] == d.clinics[i];
  }

  /** Replacement is wholesale: two clinics sharing the edited name both
      become the draft, so a rename collapses them into duplicates. */
  lemma SaveEditCollapsesNamesakes(d: Dashboard, i: int, j: int, n: Numbering)
    requires 0 <= i < j < |d.clinics| && d.editing == Some(d.clinics[i].name)
    requires d.clinics[j].name == d.clinics[i].name
    ensures HandleSaveEdit(d, n).clinics[i] == HandleSaveEdit(d, n).clinics[j] == d.edited
  {
  }

  // ---------------------------------------------------------------------
  // Events

  /** A user action on the page. */
  datatype Event =
    | Query(query: string)
    | EditClick(clinic: DashboardClinic)
    | DraftChange(field: DraftField, value: string)
    | SaveEdit
    | CancelEditing
    | DeleteClick(name: string)
    | ConfirmDeleting
    | CancelDeleting

  /** One action, with the handlers logging under the numbering `n`. */
  function Apply(d: Dashboard, e: Event, n: Numbering): Dashboard {
    match e
    case Query(q) => SetQuery(d, q)
    case EditClick(c) => HandleEditClick(d, c)
    case DraftChange(f, v) => HandleDraftChange(d, f, v)
    case SaveEdit => Settle(HandleSaveEdit(d, n))
    case CancelEditing => CancelEdit(d)
    case DeleteClick(name) => HandleDeleteClick(d, name)
    case ConfirmDeleting => Settle(ConfirmDelete(d, n))
    case CancelDeleting => CancelDelete(d)
  }

  /** Only a save and a confirmed delete write to the log. */
  lemma ApplyLog(d: Dashboard, e: Event, n: Numbering)
    ensures Apply(d, e, n).activities ==
              if e.SaveEdit? then Log(n, d.activities, "Updated clinic: " + d.edited.name)
              else if e.ConfirmDeleting? then Log(n, d.activities, "Deleted clinic: " + NullableText(d.deleting))
              else d.activities
  {
  }

  function Run(d: Dashboard, events: seq<Event>, n: Numbering): Dashboard
    decreases |events|
  {
    if events == [] then d else Run(Apply(d, events[0], n), events[1..], n)
  }

  /** However many actions follow, and under either numbering, the log
      never holds more than four entries, and after a search the rows on
      show are the search over the clinics. Only numbering by the largest
      id keeps the ids distinct. */
  lemma {:induction false} RunInvariant(d: Dashboard, events: seq<Event>, n: Numbering)
    requires |d.activities| <= 4
    ensures |Run(d, events, n).activities| <= 4
    ensures n == ByMaxId && DistinctIds(d.activities) ==> DistinctIds(Run(d, events, n).activities)
    ensures events != [] && Last(events).Query? ==>
      Run(d, events, n).filtered == Search(Run(d, events, n).clinics, Run(d, events, n).query)
    decreases |events|
  {
    if events != [] {
      var d' := Apply(d, events[0], n);
      ApplyKeepsLogWellFormed(d, events[0], n);
      RunInvariant(d', events[1..], n);
      if events[1..] != [] {
        assert Last(events[1..]) == Last(events);
      }
    }
  }

  /** One action keeps the log within four entries, and numbering by the
      largest id keeps its ids distinct. */
  lemma ApplyKeepsLogWellFormed(d: Dashboard, e: Event, n: Numbering)
    requires |d.activities| <= 4
    ensures |Apply(d, e, n).activities| <= 4
    ensures n == ByMaxId && DistinctIds(d.activities) ==> DistinctIds(Apply(d, e, n).activities)
  {
    if n == ByMaxId && DistinctIds(d.activities) {
      if e.SaveEdit? {
        LogActivityKeepsIdsDistinct(d.activities, "Updated clinic: " + d.edited.name);
      } else if e.ConfirmDeleting? {
        LogActivityKeepsIdsDistinct(d.activities, "Deleted clinic: " + NullableText(d.deleting));
      }
    }
  }

  /** From the opened page, whatever the user does, the log keeps at most
      four entries; with the corrected numbering no two share an id. */
  lemma ActivityLogStaysWellFormed(today: string, events: seq<Event>, n: Numbering)
    ensures |Run(Init(today), events, n).activities| <= 4
    ensures n == ByMaxId ==> DistinctIds(Run(Init(today), events, n).activities)
  {
    RunInvariant(Init(today), events, n);
  }

  function Last<T>(xs: seq<T>): T
    requires xs != []
  {
    xs[|xs| - 1]
  }

  // ---------------------------------------------------------------------
  // Activity numbering as written

  /** With the page's own numbering, two actions after opening the page
      leave the two newest log entries with the same id: the log's length
      stops growing at four, so every later entry is numbered 5. The ids key
      the rendered list. */
  lemma ActivityIdsCollide(n1: string, n2: string)
    ensures var log := LogActivityAsWritten(LogActivityAsWritten(InitialActivities, "Deleted clinic: " + n1),
                                            "Deleted clinic: " + n2);
      |log| == 4 && log[0].id == log[1].id == 5
  {
  }

  /** Four actions in a row. */
  lemma {:induction false} RunFour(d: Dashboard, events: seq<Event>, n: Numbering)
    requires |events| == 4
    ensures Run(d, events, n) ==
      Apply(Apply(Apply(Apply(d, events[0], n), events[1], n), events[2], n), events[3], n)
  {
    var d1 := Apply(d, events[0], n);
    var d2 := Apply(d1, events[1], n);
    var d3 := Apply(d2, events[2], n);
    var d4 := Apply(d3, events[3], n);
    assert events[1..][0] == events[1] && events[1..][1..] == events[2..];
    assert events[2..][0] == events[2] && events[2..][1..] == events[3..];
    assert events[3..][0] == events[3] && events[3..][1..] == [];
    assert Run(d3, events[3..], n) == Run(d4, [], n) == d4;
    assert Run(d2, events[2..], n) == Run(d3, events[3..], n);
    assert Run(d1, events[1..], n) == Run(d2, events[2..], n);
  }

  /** The same collision on the page itself: opening the dashboard and
      deleting two clinics under the page's numbering leaves two log
      entries numbered 5. */
  lemma PageRunRepeatsIds(today: string, n1: string, n2: string)
    ensures var d := Run(Init(today), [DeleteClick(n1), ConfirmDeleting, DeleteClick(n2), ConfirmDeleting], ByLength);
      && |d.activities| == 4 && d.activities[0].id == d.activities[1].id == 5
      && !DistinctIds(d.activities)
  {
    var events := [DeleteClick(n1), ConfirmDeleting, DeleteClick(n2), ConfirmDeleting];
    RunFour(Init(today), events, ByLength);
    var d1 := Apply(Init(today), events[0], ByLength);
    var d2 := Apply(d1, events[1], ByLength);
    var d3 := Apply(d2, events[2], ByLength);
    var d4 := Apply(d3, events[3], ByLength);
    ApplyLog(Init(today), events[0], ByLength);
    ApplyLog(d1, events[1], ByLength);
    ApplyLog(d2, events[2], ByLength);
    ApplyLog(d3, events[3], ByLength);
    assert d4.activities[1] == d3.activities[0];
  }
}
