/** The "Add Tenants to Rental Group" modal: which tenants may still be picked, the
    duplicate-free selection, tenants typed in on the spot under a "temp-" id, and the
    save that creates those tenants and adds one member row per selected tenant. */
module TenantGroups {
  import opened Wrappers
  import opened Seqs
  import opened Text
  import opened Listing
  import opened Tenants

  /** A member of a rental group, as embedded in the group row (`tenant_id`). */
  datatype MemberRef = MemberRef(tenantId: string)

  /** An active `apartment_tenants` row of the apartment; `members` is None when the
      backend embeds no member list. */
  datatype ActiveGroup = ActiveGroup(id: string, members: Option<seq<MemberRef>>)

  /** `group.members?.map(member => member.tenant_id) || []` */
  function MemberIds(g: ActiveGroup): seq<string> {
    if g.members.None? then []
    else seq(|g.members.value|, i requires 0 <= i < |g.members.value| => g.members.value[i].tenantId)
  }

  /** `groups.flatMap(MemberIds)` */
  function FlatMemberIds(groups: seq<ActiveGroup>): seq<string>
    decreases |groups|
  {
    if groups == [] then [] else MemberIds(groups[0]) + FlatMemberIds(groups[1..])
  }

  /** Some group of `groups` has a member with this tenant id. */
  ghost predicate AssignedIn(groups: seq<ActiveGroup>, id: string) {
    exists g, m :: g in groups && g.members.Some? && m in g.members.value && m.tenantId == id
  }

  lemma {:induction false} FlatMemberIdsSpec(groups: seq<ActiveGroup>)
    ensures forall id :: id in FlatMemberIds(groups) <==> AssignedIn(groups, id)
    decreases |groups|
  {
    if groups != [] {
      FlatMemberIdsSpec(groups[1..]);
      var g := groups[0];
      forall id | id in FlatMemberIds(groups)
        ensures AssignedIn(groups, id)
      {
        if id in MemberIds(g) {
          var i :| 0 <= i < |MemberIds(g)| && MemberIds(g)[i] == id;
          assert g.members.value[i] in g.members.value;
        } else {
          assert AssignedIn(groups[1..], id);
          var h, m :| h in groups[1..] && h.members.Some? && m in h.members.value && m.tenantId == id;
          assert h in groups;
        }
      }
      forall id | AssignedIn(groups, id)
        ensures id in FlatMemberIds(groups)
      {
        var h, m :| h in groups && h.members.Some? && m in h.members.value && m.tenantId == id;
        if h == g {
          var i :| 0 <= i < |g.members.value| && g.members.value[i] == m;
          assert MemberIds(g)[i] == id;
        } else {
          assert h in groups[1..];
          assert AssignedIn(groups[1..], id);
        }
      }
    }
  }

  /** `new Set(assignedTenants?.flatMap(...) || [])`: the ids of the tenants that are
      members of some active group of the apartment. */
  function AssignedIds(groups: Option<seq<ActiveGroup>>): (r: set<string>)
    ensures forall id :: id in r <==> groups.Some? && AssignedIn(groups.value, id)
  {
    if groups.None? then {}
    else
      FlatMemberIdsSpec(groups.value);
      set id | id in FlatMemberIds(groups.value)
  }

  function Unassigned(taken: set<string>): Tenant -> bool {
    (t: Tenant) => t.id !in taken
  }

  /** `allTenants.filter(tenant => !assignedTenantIds.has(tenant.id))`: every tenant
      that is in no active group, as often as before and in the original order. */
  function Available(allTenants: seq<Tenant>, taken: set<string>): (r: seq<Tenant>)
    ensures IsSubsequence(r, allTenants)
    ensures forall t :: t in r <==> t in allTenants && t.id !in taken
    ensures forall t: Tenant :: t.id !in taken ==> multiset(r)[t] == multiset(allTenants)[t]
  {
    KeepCounts(allTenants, Unassigned(taken));
    Keep(allTenants, Unassigned(taken))
  }

  /** `filteredTenants` never holds a tenant who is already in an active group, and
      keeps the order of the available list. */
  lemma FilteredTenantsUnassigned(allTenants: seq<Tenant>, taken: set<string>, term: string)
    ensures var shown := Filtered(Available(allTenants, taken), term);
      && IsSubsequence(shown, Available(allTenants, taken))
      && forall t :: t in shown ==> t in allTenants && t.id !in taken && NameMatches(t.fullName, term)
  {
  }

  /** `searchTerm` is never set by the modal, so `filteredTenants` is the whole
      available list. */
  lemma FilteredTenantsIsAvailable(available: seq<Tenant>)
    ensures Filtered(available, "") == available
  {
    EmptyTermKeepsAll(available, FullNameOf);
  }

  /** `tenants.some(t => t.id === id)` */
  predicate HasId(tenants: seq<Tenant>, id: string) {
    exists t :: t in tenants && t.id == id
  }

  /** No two entries share an id. */
  ghost predicate UniqueIds(tenants: seq<Tenant>) {
    forall i, j :: 0 <= i < j < |tenants| ==> tenants[i].id != tenants[j].id
  }

  /** `tenants.find(t => t.id === id)`: the first entry with that id, if any. */
  function FindById(tenants: seq<Tenant>, id: string): (r: Option<Tenant>)
    ensures r.None? <==> !HasId(tenants, id)
    ensures r.Some? ==> exists i :: 0 <= i < |tenants| && tenants[i] == r.value && r.value.id == id
                                    && forall j :: 0 <= j < i ==> tenants[j].id != id
    decreases |tenants|
  {
    if tenants == [] then None
    else if tenants[0].id == id then Some(tenants[0])
    else
      var r := FindById(tenants[1..], id);
      assert r.Some? ==> exists i :: 1 <= i < |tenants| && tenants[i] == r.value && r.value.id == id
                                     && forall j :: 0 <= j < i ==> tenants[j].id != id by {
        if r.Some? {
          var i :| 0 <= i < |tenants[1..]| && tenants[1..][i] == r.value && r.value.id == id
                   && forall j :: 0 <= j < i ==> tenants[1..][j].id != id;
          assert tenants[i + 1] == r.value;
          assert forall j :: 1 <= j < i + 1 ==> tenants[j].id != id by {
            forall j | 1 <= j < i + 1 ensures tenants[j].id != id {
              assert tenants[j] == tenants[1..][j - 1];
            }
          }
        }
      }
      assert HasId(tenants[1..], id) ==> HasId(tenants, id);
      r
  }

  /** `addTenantToSelection`: appends the tenant unless an entry with its id is
      already selected, in which case the selection is unchanged. */
  function AddToSelection(selected: seq<Tenant>, tenant: Tenant): (r: seq<Tenant>)
    ensures HasId(r, tenant.id)
    ensures HasId(selected, tenant.id) ==> r == selected
    ensures !HasId(selected, tenant.id) ==> r == selected + [tenant]
    ensures UniqueIds(selected) ==> UniqueIds(r)
  {
    if HasId(selected, tenant.id) then selected
    else
      var r := selected + [tenant];
      assert r[|selected|] == tenant;
      assert forall i :: 0 <= i < |selected| ==> selected[i] in selected;
      r
  }

  function HasOtherId(id: string): Tenant -> bool {
    (t: Tenant) => t.id != id
  }

  /** A selection with unique ids keeps them in every subsequence. */
  lemma {:induction false} SubsequenceKeepsUniqueIds(a: seq<Tenant>, b: seq<Tenant>)
    requires IsSubsequence(a, b) && UniqueIds(b)
    ensures UniqueIds(a)
    decreases |b|
  {
    if a != [] {
      assert b != [];
      assert UniqueIds(b[1..]) by {
        forall i, j | 0 <= i < j < |b[1..]| ensures b[1..][i].id != b[1..][j].id {
          assert b[1..][i] == b[i + 1] && b[1..][j] == b[j + 1];
        }
      }
      if a[0] == b[0] && IsSubsequence(a[1..], b[1..]) {
        SubsequenceKeepsUniqueIds(a[1..], b[1..]);
        SubsequenceMembers(a[1..], b[1..]);
        forall i, j | 0 <= i < j < |a| ensures a[i].id != a[j].id {
          assert a[j] == a[1..][j - 1];
          if i == 0 {
            assert a[j] in b[1..];
            var k :| 0 <= k < |b[1..]| && b[1..][k] == a[j];
            assert b[k + 1] == a[j];
          } else {
            assert a[i] == a[1..][i - 1];
          }
        }
      } else {
        SubsequenceKeepsUniqueIds(a, b[1..]);
      }
    }
  }

  /** `removeTenantFromSelection`: every entry with that id leaves the selection, every
      other entry stays, as often as before and in the same order. */
  function RemoveFromSelection(selected: seq<Tenant>, id: string): (r: seq<Tenant>)
    ensures IsSubsequence(r, selected)
    ensures !HasId(r, id)
    ensures forall t: Tenant :: t.id != id ==> multiset(r)[t] == multiset(selected)[t]
    ensures UniqueIds(selected) ==> UniqueIds(r)
  {
    var r := Keep(selected, HasOtherId(id));
    KeepCounts(selected, HasOtherId(id));
    assert UniqueIds(selected) ==> UniqueIds(r) by {
      if UniqueIds(selected) {
        SubsequenceKeepsUniqueIds(r, selected);
      }
    }
    r
  }

  /** The in-modal "Add New Tenant" form. */
  datatype NewTenantForm = NewTenantForm(fullName: string, contactInfo: string)

  const EmptyNewTenant := NewTenantForm("", "")

  /** Marks an entry that exists only in the modal until the save creates it. */
  const TempPrefix: string := "temp-"

  /** `id.startsWith('temp-')` */
  predicate IsTemp(id: string) {
    StartsWith(id, TempPrefix)
  }

  /** The entry `handleCreateTenant` builds. `stamp` and `now` stand for the clock
      readings `Date.now()` and `new Date().toISOString()`. */
  function TempTenant(form: NewTenantForm, stamp: string, now: string): (t: Tenant)
    ensures IsTemp(t.id)
    ensures t.fullName == form.fullName && t.contactInfo == Some(form.contactInfo)
  {
    assert (TempPrefix + stamp)[..|TempPrefix|] == TempPrefix;
    Tenant(TempPrefix + stamp, form.fullName, Some(form.contactInfo), now)
  }

  /** The row the save inserts into `tenants` for one "temp-" entry. */
  datatype NewTenantRow = NewTenantRow(fullName: string, contactInfo: Option<string>)

  /** An entry typed in on the spot, not yet a tenant row. */
  predicate IsTempEntry(t: Tenant) {
    IsTemp(t.id)
  }

  /** The tenant inserts the save issues: one per "temp-" entry, in selection order, the
      j-th carrying the full name and contact of the j-th "temp-" entry. */
  function TenantInserts(selected: seq<Tenant>): (r: seq<NewTenantRow>)
    ensures var temps := Keep(selected, IsTempEntry);
      && |r| == |temps|
      && forall j :: 0 <= j < |r| ==> r[j] == NewTenantRow(temps[j].fullName, temps[j].contactInfo)
    ensures |r| <= |selected|
    ensures (forall i :: 0 <= i < |selected| ==> !IsTemp(selected[i].id)) ==> r == []
    decreases |selected|
  {
    if selected == [] then []
    else
      var rest := TenantInserts(selected[1..]);
      if IsTemp(selected[0].id) then [NewTenantRow(selected[0].fullName, selected[0].contactInfo)] + rest
      else rest
  }

  /** The id step of `handleSave`. `created[i]` is the backend's answer to the insert of
      entry `i` when that entry is a "temp-" one: the new row's id, or None when the
      insert failed. The result has one id per entry, in order: a "temp-" id replaced by
      the created id, any other id passed through; it is None when some insert failed. */
  function ResolveIds(selected: seq<Tenant>, created: seq<Option<string>>): (r: Option<seq<string>>)
    requires |created| == |selected|
    ensures r.None? <==> exists i :: 0 <= i < |selected| && IsTemp(selected[i].id) && created[i].None?
    ensures r.Some? ==> |r.value| == |selected|
    ensures r.Some? ==> forall i :: 0 <= i < |selected| ==>
              if IsTemp(selected[i].id) then created[i].Some? && r.value[i] == created[i].value
              else r.value[i] == selected[i].id
    decreases |selected|
  {
    if selected == [] then Some([])
    else
      var first := if IsTemp(selected[0].id) then created[0] else Some(selected[0].id);
      var rest := ResolveIds(selected[1..], created[1..]);
      if first.None? then
        None
      else if rest.None? then
        var i :| 0 <= i < |selected[1..]| && IsTemp(selected[1..][i].id) && created[1..][i].None?;
        assert selected[1..][i] == selected[i + 1] && created[1..][i] == created[i + 1];
        None
      else
        var ids := [first.value] + rest.value;
        assert forall i :: 0 <= i < |selected| ==>
                 if IsTemp(selected[i].id) then created[i].Some? && ids[i] == created[i].value
                 else ids[i] == selected[i].id by {
          forall i | 1 <= i < |selected|
            ensures if IsTemp(selected[i].id) then created[i].Some? && ids[i] == created[i].value
                    else ids[i] == selected[i].id
          {
            assert selected[1..][i - 1] == selected[i] && created[1..][i - 1] == created[i];
            assert ids[i] == rest.value[i - 1];
          }
        }
        Some(ids)
  }

  /** When the backend hands out ids that do not start with "temp-", no resolved id
      does either: every pending entry is turned into a real tenant before the member
      rows are built. */
  lemma ResolvedIdsAreReal(selected: seq<Tenant>, created: seq<Option<string>>)
    requires |created| == |selected|
    requires forall i :: 0 <= i < |created| && created[i].Some? ==> !IsTemp(created[i].value)
    ensures var r := ResolveIds(selected, created);
      r.Some? ==> forall i :: 0 <= i < |r.value| ==> !IsTemp(r.value[i])
  {
  }

  /** A row of `apartment_tenant_members`. */
  datatype MemberRow = MemberRow(groupId: string, tenantId: string)

  /** `tenantIds.map(tenantId => ({ apartment_tenant_id: groupId, tenant_id: tenantId }))` */
  function MemberRows(groupId: string, ids: seq<string>): (r: seq<MemberRow>)
    ensures |r| == |ids|
    ensures forall i :: 0 <= i < |r| ==> r[i].groupId == groupId && r[i].tenantId == ids[i]
  {
    seq(|ids|, i requires 0 <= i < |ids| => MemberRow(groupId, ids[i]))
  }

  /** An entry of the list handed to `onSaved`. */
  datatype SavedTenant = SavedTenant(id: string, fullName: string, contactInfo: Option<string>)

  /** As written: `selectedTenants.map(tenant => ({ id: tenant.id, ... }))`, which still
      carries the "temp-" ids although real tenants were just created for them. */
  function ReportedAsWritten(selected: seq<Tenant>): (r: seq<SavedTenant>)
    ensures |r| == |selected|
    ensures forall i :: 0 <= i < |r| ==> r[i].id == selected[i].id
  {
    seq(|selected|, i requires 0 <= i < |selected| =>
      SavedTenant(selected[i].id, selected[i].fullName, selected[i].contactInfo))
  }

  /** A save of one freshly typed tenant: the member row goes in under the created id,
      but the list handed to `onSaved` names the tenant by its "temp-" id, an id no
      tenant row has. */
  lemma ReportedAsWrittenKeepsTempId()
    ensures var selected := [Tenant("temp-1717000000000", "Somchai", Some("0812345678"), "2024-05-29")];
      var ids := ResolveIds(selected, [Some("a1b2")]);
      && ids == Some(["a1b2"])
      && MemberRows("g1", ids.value)[0].tenantId == "a1b2"
      && IsTemp(ReportedAsWritten(selected)[0].id)
      && ReportedAsWritten(selected)[0].id != ids.value[0]
  {
    var selected := [Tenant("temp-1717000000000", "Somchai", Some("0812345678"), "2024-05-29")];
    var created := [Some("a1b2")];
    assert IsTemp(selected[0].id) by {
      assert selected[0].id[..5] == "temp-";
    }
    var ids := ResolveIds(selected, created);
    assert ids.Some? && |ids.value| == 1 && ids.value[0] == "a1b2";
    assert ids.value == ["a1b2"];
  }

  /** Corrected: each entry reported under the id its member row was inserted with. */
  function ReportedResolved(selected: seq<Tenant>, ids: seq<string>): (r: seq<SavedTenant>)
    requires |ids| == |selected|
    ensures |r| == |selected|
    ensures forall i :: 0 <= i < |r| ==>
      r[i].id == ids[i] && r[i].fullName == selected[i].fullName && r[i].contactInfo == selected[i].contactInfo
  {
    seq(|selected|, i requires 0 <= i < |selected| =>
      SavedTenant(ids[i], selected[i].fullName, selected[i].contactInfo))
  }

  /** What `handleSave` does with a non-empty selection, by how far it gets. */
  datatype SaveOutcome =
    | NothingSelected
    | CreateFailed(inserts: seq<NewTenantRow>)
    | MembersFailed(inserts: seq<NewTenantRow>, rows: seq<MemberRow>)
    | AddedMembers(inserts: seq<NewTenantRow>, rows: seq<MemberRow>, reported: seq<SavedTenant>)

  /** `handleSave`, corrected: an empty selection does no backend work. Otherwise every
      "temp-" entry is inserted as a tenant; if one of those inserts fails the save stops
      before any member row; else exactly one member row per entry is inserted, all under
      `groupId`, with the entry's resolved id. Only when that insert succeeds
      (`membersFailed` false) is the selection reported, under the same ids. */
  function SavePlan(selected: seq<Tenant>, groupId: string, created: seq<Option<string>>,
                    membersFailed: bool): (r: SaveOutcome)
    requires |created| == |selected|
    ensures r.NothingSelected? <==> selected == []
    ensures r.CreateFailed? <==>
      selected != [] && exists i :: 0 <= i < |selected| && IsTemp(selected[i].id) && created[i].None?
    ensures r.AddedMembers? ==> !membersFailed
    ensures r.MembersFailed? ==> membersFailed
    ensures !r.NothingSelected? ==> r.inserts == TenantInserts(selected)
    ensures r.MembersFailed? || r.AddedMembers? ==>
      && |r.rows| == |selected|
      && forall i :: 0 <= i < |selected| ==>
           && r.rows[i].groupId == groupId
           && r.rows[i].tenantId == if IsTemp(selected[i].id) then created[i].value else selected[i].id
    ensures r.AddedMembers? ==>
      && |r.reported| == |selected|
      && forall i :: 0 <= i < |selected| ==>
           && r.reported[i].id == r.rows[i].tenantId
           && r.reported[i].fullName == selected[i].fullName
  {
    if selected == [] then NothingSelected
    else
      match ResolveIds(selected, created)
      case None => CreateFailed(TenantInserts(selected))
      case Some(ids) =>
        if membersFailed then MembersFailed(TenantInserts(selected), MemberRows(groupId, ids))
        else AddedMembers(TenantInserts(selected), MemberRows(groupId, ids), ReportedResolved(selected, ids))
  }

  /** `handleSave` as written: the same backend work and the same stopping points as
      `SavePlan`, but a completed save reports every entry under its own id, "temp-" ids
      included (`ReportedAsWritten`). */
  function SaveAsWritten(selected: seq<Tenant>, groupId: string, created: seq<Option<string>>,
                         membersFailed: bool): (r: SaveOutcome)
    requires |created| == |selected|
    ensures var plan := SavePlan(selected, groupId, created, membersFailed);
      && (r.AddedMembers? <==> plan.AddedMembers?)
      && (!r.AddedMembers? ==> r == plan)
      && (r.AddedMembers? ==> r.inserts == plan.inserts && r.rows == plan.rows)
    ensures r.AddedMembers? ==> r.reported == ReportedAsWritten(selected)
  {
    if selected == [] then NothingSelected
    else
      match ResolveIds(selected, created)
      case None => CreateFailed(TenantInserts(selected))
      case Some(ids) =>
        if membersFailed then MembersFailed(TenantInserts(selected), MemberRows(groupId, ids))
        else AddedMembers(TenantInserts(selected), MemberRows(groupId, ids), ReportedAsWritten(selected))
  }

  /** As written, whenever a save completes, every entry that was typed in on the spot is
      reported under its "temp-" id, which is not the id its member row was inserted
      with when the backend hands out ids that do not start with "temp-". */
  lemma AsWrittenReportsTempIds(selected: seq<Tenant>, groupId: string, created: seq<Option<string>>,
                                membersFailed: bool, i: int)
    requires |created| == |selected|
    requires forall j :: 0 <= j < |created| && created[j].Some? ==> !IsTemp(created[j].value)
    requires SaveAsWritten(selected, groupId, created, membersFailed).AddedMembers?
    requires 0 <= i < |selected| && IsTemp(selected[i].id)
    ensures var r := SaveAsWritten(selected, groupId, created, membersFailed);
      && IsTemp(r.reported[i].id)
      && r.reported[i].id != r.rows[i].tenantId
  {
    var plan := SavePlan(selected, groupId, created, membersFailed);
    assert plan.rows[i].tenantId == created[i].value;
  }

  class AddTenantToGroupModal {
    const groupId: string
    const apartmentId: string
    var selectedTenants: seq<Tenant>
    var availableTenants: seq<Tenant>
    var searchTerm: string
    var showNewTenantForm: bool
    var newTenant: NewTenantForm
    var pendingNewTenant: Option<NewTenantForm>

    /** `filteredTenants`: computed on every render but read nowhere; the picker lists
        `availableTenants` itself. */
    function FilteredTenants(): seq<Tenant>
      reads this
    {
      Filtered(availableTenants, searchTerm)
    }

    constructor (groupId: string, apartmentId: string)
      ensures this.groupId == groupId && this.apartmentId == apartmentId
      ensures selectedTenants == [] && availableTenants == [] && searchTerm == ""
      ensures !showNewTenantForm && newTenant == EmptyNewTenant && pendingNewTenant == None
    {
      this.groupId := groupId;
      this.apartmentId := apartmentId;
      selectedTenants := [];
      availableTenants := [];
      searchTerm := "";
      showNewTenantForm := false;
      newTenant := EmptyNewTenant;
      pendingNewTenant := None;
    }

    /** The success path of the modal's `fetchTenants`: all tenants, minus those in an
        active group of the apartment. */
    method TenantsLoaded(allTenants: seq<Tenant>, activeGroups: Option<seq<ActiveGroup>>)
      modifies this`availableTenants
      ensures availableTenants == Available(allTenants, AssignedIds(activeGroups))
      ensures forall t :: t in availableTenants <==>
                t in allTenants && !(activeGroups.Some? && AssignedIn(activeGroups.value, t.id))
    {
      availableTenants := Available(allTenants, AssignedIds(activeGroups));
    }

    /** `addTenantToSelection` */
    method AddTenantToSelection(tenant: Tenant)
      modifies this`selectedTenants
      ensures selectedTenants == AddToSelection(old(selectedTenants), tenant)
      ensures UniqueIds(old(selectedTenants)) ==> UniqueIds(selectedTenants)
    {
      if !HasId(selectedTenants, tenant.id) {
        selectedTenants := selectedTenants + [tenant];
      }
    }

    /** The picker's onChange: the available tenant with the chosen id, if any, is
        added to the selection. */
    method TenantPicked(value: string)
      modifies this`selectedTenants
      ensures match FindById(availableTenants, value)
              case None => selectedTenants == old(selectedTenants)
              case Some(t) => selectedTenants == AddToSelection(old(selectedTenants), t)
    {
      var tenant := FindById(availableTenants, value);
      if tenant.Some? {
        AddTenantToSelection(tenant.value);
      }
    }

    /** `removeTenantFromSelection` */
    method RemoveTenantFromSelection(id: string)
      modifies this`selectedTenants
      ensures selectedTenants == RemoveFromSelection(old(selectedTenants), id)
      ensures !HasId(selectedTenants, id)
    {
      selectedTenants := RemoveFromSelection(selectedTenants, id);
    }

    method NewTenantFormToggled(show: bool)
      modifies this`showNewTenantForm
      ensures showNewTenantForm == show
    {
      showNewTenantForm := show;
    }

    method NewTenantNameChanged(value: string)
      modifies this`newTenant
      ensures newTenant == old(newTenant).(fullName := value)
    {
      newTenant := newTenant.(fullName := value);
    }

    method NewTenantContactChanged(value: string)
      modifies this`newTenant
      ensures newTenant == old(newTenant).(contactInfo := value)
    {
      newTenant := newTenant.(contactInfo := value);
    }

    /** `handleCreateTenant`: an empty full name changes nothing (the user is alerted).
        Otherwise exactly one entry is appended, with a "temp-" id and the entered name
        and contact; the form is remembered as pending, cleared and hidden. */
    method HandleCreateTenant(stamp: string, now: string)
      modifies this`selectedTenants, this`pendingNewTenant, this`newTenant, this`showNewTenantForm
      ensures old(newTenant).fullName == "" ==>
        && selectedTenants == old(selectedTenants) && newTenant == old(newTenant)
        && pendingNewTenant == old(pendingNewTenant) && showNewTenantForm == old(showNewTenantForm)
      ensures old(newTenant).fullName != "" ==>
        && selectedTenants == old(selectedTenants) + [TempTenant(old(newTenant), stamp, now)]
        && IsTemp(selectedTenants[|selectedTenants| - 1].id)
        && pendingNewTenant == Some(old(newTenant))
        && newTenant == EmptyNewTenant && !showNewTenantForm
    {
      if newTenant.fullName == "" {
        return;
      }
      selectedTenants := selectedTenants + [TempTenant(newTenant, stamp, now)];
      pendingNewTenant := Some(newTenant);
      newTenant := EmptyNewTenant;
      showNewTenantForm := false;
    }

    /** `handleSave` as written, with `created` standing for the backend's answers to the
        tenant inserts and `membersFailed` for a failed member-row insert. It reads the
        selection and changes no field of the modal. */
    method HandleSave(created: seq<Option<string>>, membersFailed: bool) returns (outcome: SaveOutcome)
      requires |created| == |selectedTenants|
      ensures outcome == SaveAsWritten(selectedTenants, groupId, created, membersFailed)
      ensures outcome.NothingSelected? <==> selectedTenants == []
      ensures outcome.AddedMembers? ==> !membersFailed && outcome.reported == ReportedAsWritten(selectedTenants)
    {
      outcome := SaveAsWritten(selectedTenants, groupId, created, membersFailed);
    }
  }
}
