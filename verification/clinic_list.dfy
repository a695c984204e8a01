/** The clinic list page: the four built-in clinics merged with the stored
    ones, the search box, and edit and delete, each applied to the list in
    memory and, separately, to the stored list. */
module ClinicList {
  import opened Wrappers
  import opened Text
  import opened Lists
  import opened Entities
  import opened Storage
  import ClinicForm
  import AddClinic

  /** `initialClinics`: the built-in clinics, which are never written to
      storage. */
  const SeedClinics: seq<Clinic> := [
    Clinic("Test ABC Bloomington Clinic", Some("Fentanyl test strips, syringes"),
           "123 Walnut Street Bloomington Indiana 47401",
           Some("41.87000104130843, -87.62447533396624"),
           None, None, None, None, None, None, Some("03/19/2024")),
    Clinic("Indiana Recovery Alliance MCSSP", None, "118 S Rogers St Suite 2 Bloomington, IN 47404",
           None, None, None, None, None, None, None, Some("03/19/2024")),
    Clinic("Aspire Indiana Health HARP", None, "2009 Brown St Suite #2 Anderson, IN 46016",
           None, None, None, None, None, None, None, Some("03/19/2024")),
    Clinic("Tippecanoe County Health Department", None, "2300 Ferry St Lafayette, IN 47904",
           None, None, None, None, None, None, None, Some("03/19/2024"))
  ]

  function Names(cs: seq<Clinic>): set<string> {
    set c | c in cs :: c.name
  }

  ghost predicate DistinctNames(cs: seq<Clinic>) {
    forall i, j :: 0 <= i < j < |cs| ==> cs[i].name != cs[j].name
  }

  /** `c` is the first clinic of `cs` that carries its name. */
  ghost predicate FirstOfItsName(cs: seq<Clinic>, c: Clinic) {
    exists i :: 0 <= i < |cs| && cs[i] == c && forall j :: 0 <= j < i ==> cs[j].name != c.name
  }

  lemma NamesAppend(a: seq<Clinic>, b: seq<Clinic>)
    ensures Names(a + b) == Names(a) + Names(b)
  {
    forall n | n in Names(a) + Names(b)
      ensures n in Names(a + b)
    {
      if n in Names(a) {
        var c :| c in a && c.name == n;
        assert c in a + b;
      } else {
        var c :| c in b && c.name == n;
        assert c in a + b;
      }
    }
  }

  /** The `forEach` of the mount effect: each saved clinic is pushed onto
      `combined` unless some clinic already there has its name. */
  function MergeInto(combined: seq<Clinic>, saved: seq<Clinic>): (r: seq<Clinic>)
    ensures |combined| <= |r| <= |combined| + |saved|
    ensures r[..|combined|] == combined
    decreases |saved|
  {
    if saved == [] then combined
    else if saved[0].name in Names(combined) then MergeInto(combined, saved[1..])
    else
      var r := MergeInto(combined + [saved[0]], saved[1..]);
      assert r[..|combined|] == (r[..|combined| + 1])[..|combined|];
      r
  }

  /** The merge never drops a name and never invents one. */
  lemma {:induction false} MergeIntoNames(combined: seq<Clinic>, saved: seq<Clinic>)
    ensures Names(MergeInto(combined, saved)) == Names(combined) + Names(saved)
    decreases |saved|
  {
    if saved != [] {
      var s0, rest := saved[0], saved[1..];
      assert saved == [s0] + rest;
      NamesAppend([s0], rest);
      assert Names([s0]) == {s0.name};
      if s0.name in Names(combined) {
        MergeIntoNames(combined, rest);
      } else {
        MergeIntoNames(combined + [s0], rest);
        NamesAppend(combined, [s0]);
      }
    }
  }

  /** A name already present is never added again, so distinct names stay
      distinct. */
  lemma {:induction false} MergeIntoDistinct(combined: seq<Clinic>, saved: seq<Clinic>)
    requires DistinctNames(combined)
    ensures DistinctNames(MergeInto(combined, saved))
    decreases |saved|
  {
    if saved != [] {
      var s0, rest := saved[0], saved[1..];
      if s0.name in Names(combined) {
        MergeIntoDistinct(combined, rest);
      } else {
        var c' := combined + [s0];
        assert DistinctNames(c') by {
          forall i, j | 0 <= i < j < |c'|
            ensures c'[i].name != c'[j].name
          {
            if j == |combined| {
              assert c'[i] in combined;
            }
          }
        }
        MergeIntoDistinct(c', rest);
      }
    }
  }

  /** The clinics added after `combined` come from `saved`, in saved order. */
  lemma {:induction false} MergeIntoOrder(combined: seq<Clinic>, saved: seq<Clinic>)
    ensures var r := MergeInto(combined, saved); Subsequence(r[|combined|..], saved)
    decreases |saved|
  {
    var r := MergeInto(combined, saved);
    if saved == [] {
      assert r[|combined|..] == [];
    } else {
      var s0, rest := saved[0], saved[1..];
      if s0.name in Names(combined) {
        MergeIntoOrder(combined, rest);
      } else {
        var c' := combined + [s0];
        MergeIntoOrder(c', rest);
        assert r[|combined|..][1..] == r[|c'|..];
      }
    }
  }

  /** Every clinic added after `combined` carries a name `combined` lacked
      and is the first saved clinic of that name. */
  lemma {:induction false} MergeIntoFirst(combined: seq<Clinic>, saved: seq<Clinic>)
    ensures var r := MergeInto(combined, saved);
      forall k :: |combined| <= k < |r| ==>
        r[k].name !in Names(combined) && FirstOfItsName(saved, r[k])
    decreases |saved|
  {
    var r := MergeInto(combined, saved);
    if saved != [] {
      var s0, rest := saved[0], saved[1..];
      if s0.name in Names(combined) {
        MergeIntoFirst(combined, rest);
        forall k | |combined| <= k < |r|
          ensures FirstOfItsName(saved, r[k])
        {
          assert r == MergeInto(combined, rest);
          assert r[k].name !in Names(combined) && FirstOfItsName(rest, r[k]);
          FirstShifts(saved, r[k]);
        }
      } else {
        var c' := combined + [s0];
        MergeIntoFirst(c', rest);
        NamesAppend(combined, [s0]);
        assert Names([s0]) == {s0.name};
        forall k | |combined| <= k < |r|
          ensures r[k].name !in Names(combined) && FirstOfItsName(saved, r[k])
        {
          if k == |combined| {
            assert r == MergeInto(c', rest);
            assert r[..|c'|] == c';
            assert r[k] == c'[k] == s0;
            assert saved[0] == s0 && 0 < |saved|;
          } else {
            assert r == MergeInto(c', rest);
            assert r[k].name !in Names(c') && FirstOfItsName(rest, r[k]);
            FirstShifts(saved, r[k]);
          }
        }
      }
    }
  }

  /** A first occurrence in the tail is a first occurrence in the whole list
      when the head has another name. */
  lemma FirstShifts(saved: seq<Clinic>, c: Clinic)
    requires saved != [] && saved[0].name != c.name && FirstOfItsName(saved[1..], c)
    ensures FirstOfItsName(saved, c)
  {
    var rest := saved[1..];
    var i :| 0 <= i < |rest| && rest[i] == c && forall j :: 0 <= j < i ==> rest[j].name != c.name;
    assert saved[i + 1] == c;
    forall j | 0 <= j < i + 1
      ensures saved[j].name != c.name
    {
      if j > 0 {
        assert saved[j] == rest[j - 1];
      }
    }
  }

  lemma SeedNamesDistinct()
    ensures DistinctNames(SeedClinics)
  {
  }

  /** Search matching: the lowercased name, address or (if present and
      non-empty) description includes `term`. */
  predicate Matches(c: Clinic, term: string) {
    || Includes(Lower(c.name), term)
    || Includes(Lower(c.address), term)
    || (c.description.Some? && c.description.value != "" && Includes(Lower(c.description.value), term))
  }

  /** The same condition through explicit occurrence indices. */
  ghost predicate MatchesSpec(c: Clinic, term: string) {
    || (exists k :: OccursAt(Lower(c.name), term, k))
    || (exists k :: OccursAt(Lower(c.address), term, k))
    || (c.description.Some? && c.description.value != ""
        && exists k :: OccursAt(Lower(c.description.value), term, k))
  }

  lemma MatchesIff(c: Clinic, term: string)
    ensures Matches(c, term) <==> MatchesSpec(c, term)
  {
    IncludesIff(Lower(c.name), term);
    IncludesIff(Lower(c.address), term);
    if c.description.Some? {
      IncludesIff(Lower(c.description.value), term);
    }
  }

  /** The search effect: a query that is blank after trimming shows every
      clinic; otherwise the (untrimmed) lowercased query is matched. */
  function Search(clinics: seq<Clinic>, query: string): (r: seq<Clinic>)
    ensures Subsequence(r, clinics)
    ensures forall c :: multiset(r)[c] ==
              if Trim(query) == "" || Matches(c, Lower(query)) then multiset(clinics)[c] else 0
  {
    SubsequenceReflexive(clinics);
    if Trim(query) == "" then clinics
    else
      var keep := (c: Clinic) => Matches(c, Lower(query));
      FilterCounts(clinics, keep);
      Filter(clinics, keep)
  }

  /** A blank query shows the whole list; any other query shows exactly the
      clinics in which the lowercased query occurs in a searched field, in
      list order. */
  lemma SearchSpec(clinics: seq<Clinic>, query: string)
    ensures (forall i :: 0 <= i < |query| ==> IsSpace(query[i])) ==> Search(clinics, query) == clinics
    ensures (exists i :: 0 <= i < |query| && !IsSpace(query[i])) ==>
      forall c :: c in Search(clinics, query) <==> c in clinics && MatchesSpec(c, Lower(query))
  {
    TrimEmptyIff(query);
    forall c | c in clinics {
      MatchesIff(c, Lower(query));
    }
  }

  /** The page state besides the storage; the filtered list is `Search`
      applied to `clinics` and `query`. */
  datatype ListState = ListState(
    clinics: seq<Clinic>,
    query: string,
    selected: Option<Clinic>,
    showEditModal: bool,
    toDelete: Option<Clinic>,
    showDeleteModal: bool)

  datatype Step = Step(state: ListState, store: Store)

  /** The mount effect. */
  function Mount(store: Store): ListState {
    ListState(MergeInto(SeedClinics, ReadClinics(store)), "", None, false, None, false)
  }

  /** After mounting, the list is the four built-in clinics in their order,
      then the stored clinics that survive the merge, in stored order, and no
      two clinics share a name. */
  lemma MountSpec(store: Store)
    ensures var cs := Mount(store).clinics;
      && cs[..4] == SeedClinics
      && DistinctNames(cs)
      && Names(cs) == Names(SeedClinics) + Names(ReadClinics(store))
      && Subsequence(cs[4..], ReadClinics(store))
      && forall k :: 4 <= k < |cs| ==>
           cs[k].name !in Names(SeedClinics) && FirstOfItsName(ReadClinics(store), cs[k])
  {
    SeedNamesDistinct();
    MergeIntoNames(SeedClinics, ReadClinics(store));
    MergeIntoDistinct(SeedClinics, ReadClinics(store));
    MergeIntoOrder(SeedClinics, ReadClinics(store));
    MergeIntoFirst(SeedClinics, ReadClinics(store));
  }

  function Visible(st: ListState): seq<Clinic> {
    Search(st.clinics, st.query)
  }

  function HandleEditClick(st: ListState, c: Clinic): ListState {
    st.(selected := Some(c), showEditModal := true)
  }

  /** `{ ...clinic, ...updatedClinic }` for the edit modal's form: every form
      field replaces the clinic's, `dateAdded` survives. */
  function Overlay(c: Clinic, f: ClinicForm.Form): Clinic {
    Clinic(f.name, Some(f.description), f.address, Some(f.coordinates), Some(f.mobileNumber),
           Some(f.website), Some(f.types), Some(f.officeTimeStart), Some(f.officeTimeEnd),
           f.picture, c.dateAdded)
  }

  /** `handleEditSave`: the form is laid over every clinic named like the
      selected one, in memory and in the stored list; nothing else moves. */
  function HandleEditSave(st: ListState, store: Store, f: ClinicForm.Form): (r: Step)
    requires st.selected.Some?
    ensures var n := st.selected.value.name;
      && |r.state.clinics| == |st.clinics|
      && (forall i :: 0 <= i < |st.clinics| ==>
            r.state.clinics[i] == if st.clinics[i].name == n then Overlay(st.clinics[i], f) else st.clinics[i])
      && var saved, saved' := ReadClinics(store), ReadClinics(r.store);
      && |saved'| == |saved|
      && (forall i :: 0 <= i < |saved| ==>
            saved'[i] == if saved[i].name == n then Overlay(saved[i], f) else saved[i])
    ensures forall i :: 0 <= i < |st.clinics| ==> r.state.clinics[i].dateAdded == st.clinics[i].dateAdded
    ensures r.state == st.(clinics := r.state.clinics, selected := None, showEditModal := false)
    ensures r.store.Keys == store.Keys + {ClinicsKey}
    ensures forall k :: k in store && k != ClinicsKey ==> r.store[k] == store[k]
  {
    var n := st.selected.value.name;
    var clinics := MapWhere(st.clinics, (c: Clinic) => c.name == n, (c: Clinic) => Overlay(c, f));
    var saved := MapWhere(ReadClinics(store), (c: Clinic) => c.name == n, (c: Clinic) => Overlay(c, f));
    Step(st.(clinics := clinics, selected := None, showEditModal := false),
         store[ClinicsKey := Clinics(saved)])
  }

  /** Editing a clinic that exists only as a built-in changes the list on
      screen but not the stored list, so the edit is lost on the next mount. */
  lemma EditOfBuiltInNotStored(st: ListState, store: Store, f: ClinicForm.Form)
    requires st.selected.Some? && st.selected.value.name !in Names(ReadClinics(store))
    ensures ReadClinics(HandleEditSave(st, store, f).store) == ReadClinics(store)
  {
    var saved := ReadClinics(store);
    var saved' := ReadClinics(HandleEditSave(st, store, f).store);
    forall i | 0 <= i < |saved|
      ensures saved'[i] == saved[i]
    {
      assert saved[i] in saved;
    }
  }

  function HandleDeleteClick(st: ListState, c: Clinic): ListState {
    st.(toDelete := Some(c), showDeleteModal := true)
  }

  /** The clinics not named `n`, each kept as often as it occurs. */
  function WithoutName(cs: seq<Clinic>, n: string): (r: seq<Clinic>)
    ensures forall c :: c in r <==> c in cs && c.name != n
    ensures Subsequence(r, cs)
    ensures forall c :: multiset(r)[c] == if c.name != n then multiset(cs)[c] else 0
  {
    var keep := (c: Clinic) => c.name != n;
    FilterCounts(cs, keep);
    Filter(cs, keep)
  }

  /** `handleDeleteConfirm`: every clinic named like the one to delete goes,
      from memory and from the stored list; the rest keep their order. */
  function HandleDeleteConfirm(st: ListState, store: Store): (r: Step)
    requires st.toDelete.Some?
    ensures var n := st.toDelete.value.name;
      && (forall c :: c in r.state.clinics <==> c in st.clinics && c.name != n)
      && Subsequence(r.state.clinics, st.clinics)
      && (forall c :: c in ReadClinics(r.store) <==> c in ReadClinics(store) && c.name != n)
      && Subsequence(ReadClinics(r.store), ReadClinics(store))
    ensures forall c :: multiset(r.state.clinics)[c] ==
              if c.name != st.toDelete.value.name then multiset(st.clinics)[c] else 0
    ensures forall c :: multiset(ReadClinics(r.store))[c] ==
              if c.name != st.toDelete.value.name then multiset(ReadClinics(store))[c] else 0
    ensures r.state == st.(clinics := r.state.clinics, toDelete := None, showDeleteModal := false)
    ensures r.store.Keys == store.Keys + {ClinicsKey}
    ensures forall k :: k in store && k != ClinicsKey ==> r.store[k] == store[k]
  {
    var n := st.toDelete.value.name;
    var clinics := WithoutName(st.clinics, n);
    var saved := WithoutName(ReadClinics(store), n);
    Step(st.(clinics := clinics, toDelete := None, showDeleteModal := false),
         store[ClinicsKey := Clinics(saved)])
  }

  /** After a delete, the next mount shows no clinic of the deleted name,
      unless that name belongs to a built-in clinic, which comes back. */
  lemma DeleteThenRemount(st: ListState, store: Store)
    requires st.toDelete.Some?
    ensures var n := st.toDelete.value.name;
      var cs := Mount(HandleDeleteConfirm(st, store).store).clinics;
      && (n in Names(SeedClinics) ==> n in Names(cs))
      && (n !in Names(SeedClinics) ==> n !in Names(cs))
  {
    var store' := HandleDeleteConfirm(st, store).store;
    MountSpec(store');
  }

  lemma MergeFresh(combined: seq<Clinic>, c: Clinic)
    requires c.name !in Names(combined)
    ensures MergeInto(combined, [c]) == combined + [c]
  {
    assert [c][1..] == [];
  }

  lemma TestClinicNotBuiltIn()
    ensures "Test Clinic" !in Names(SeedClinics)
  {
    var names := ["Test ABC Bloomington Clinic", "Indiana Recovery Alliance MCSSP",
                  "Aspire Indiana Health HARP", "Tippecanoe County Health Department"];
    assert forall c :: c in SeedClinics ==> c.name in names;
    assert "Test Clinic" !in names;
  }

  /** Starting with no stored clinics, adding "Test Clinic" with a picture
      makes the list show the built-ins followed by exactly that clinic. */
  lemma AddThenList(form: ClinicForm.FormState, dataUrl: string, today: string)
    requires form.form.name == "Test Clinic" && PictureTruthy(form.form.picture)
    ensures var sub := AddClinic.HandleSubmit(form, map[], dataUrl, today);
      && sub.Saved?
      && Mount(sub.store).clinics == SeedClinics + [AddClinic.NewClinic(form.form, dataUrl, today)]
  {
    var sub := AddClinic.HandleSubmit(form, map[], dataUrl, today);
    var c := AddClinic.NewClinic(form.form, dataUrl, today);
    assert ReadClinics(sub.store) == [c];
    TestClinicNotBuiltIn();
    MergeFresh(SeedClinics, c);
  }

  /** Removing a name that no built-in clinic carries from the built-ins
      followed by one clinic of that name leaves the built-ins. */
  lemma WithoutAddedName(c: Clinic)
    requires c.name !in Names(SeedClinics)
    ensures WithoutName(SeedClinics + [c], c.name) == SeedClinics
    ensures WithoutName([c], c.name) == []
  {
    var keep := (x: Clinic) => x.name != c.name;
    FilterAppend(SeedClinics, [c], keep);
    assert Filter(SeedClinics, keep) == SeedClinics by {
      forall i | 0 <= i < |SeedClinics|
        ensures keep(SeedClinics[i])
      {
        assert SeedClinics[i] in SeedClinics;
      }
    }
    assert Filter([c], keep) == [];
  }

  /** Deleting that clinic again brings both the list and the next mount
      back to the built-ins. */
  lemma DeleteAddedClinic(st: ListState, store: Store, c: Clinic)
    requires c.name !in Names(SeedClinics)
    requires st.clinics == SeedClinics + [c] && ReadClinics(store) == [c]
    ensures var del := HandleDeleteConfirm(HandleDeleteClick(st, c), store);
      && del.state.clinics == SeedClinics
      && Mount(del.store).clinics == SeedClinics
  {
    WithoutAddedName(c);
    var del := HandleDeleteConfirm(HandleDeleteClick(st, c), store);
    assert ReadClinics(del.store) == [];
  }
}
