/** The tenants list page: the same list view as the apartments page, over tenant rows,
    plus the create/edit form whose save is refused for a blank full name. */
module Tenants {
  import opened Wrappers
  import opened Seqs
  import opened Text
  import opened Listing

  datatype Tenant = Tenant(
    id: string,
    fullName: string,
    contactInfo: Option<string>,
    createdAt: string)

  function FullNameOf(t: Tenant): string { t.fullName }

  /** Tenants whose full name contains the search term, ignoring case, in list order. */
  function Filtered(tenants: seq<Tenant>, search: string): (r: seq<Tenant>)
    ensures IsSubsequence(r, tenants)
    ensures forall t :: t in r <==> t in tenants && NameMatches(t.fullName, search)
    ensures forall t :: multiset(r)[t] == if NameMatches(t.fullName, search) then multiset(tenants)[t] else 0
  {
    FilterByName(tenants, FullNameOf, search)
  }

  /** The write the form's Save button sends to the backend. */
  datatype TenantWrite =
    | UpdateTenant(id: string, fullName: string, contactInfo: string)
    | InsertTenant(fullName: string, contactInfo: string)

  /** `handleSave`'s decision: nothing for a full name that is blank after trimming;
      otherwise an update of the tenant being edited, or an insert when none is, carrying
      the name and contact exactly as typed (untrimmed). */
  function SaveRequest(fullName: string, contactInfo: string, editing: Option<Tenant>): (r: Option<TenantWrite>)
    ensures r.None? <==> IsBlank(fullName)
    ensures r.Some? ==> r.value.fullName == fullName && r.value.contactInfo == contactInfo
    ensures r.Some? ==> (r.value.UpdateTenant? <==> editing.Some?)
    ensures r.Some? && editing.Some? ==> r.value.id == editing.value.id
  {
    if Trim(fullName) == "" then None
    else if editing.Some? then Some(UpdateTenant(editing.value.id, fullName, contactInfo))
    else Some(InsertTenant(fullName, contactInfo))
  }

  /** `tenant.contact_info || ''` */
  function ContactText(contactInfo: Option<string>): string {
    if contactInfo.Some? then contactInfo.value else ""
  }

  class TenantsPage {
    var tenants: seq<Tenant>
    var search: string
    var perPage: nat
    var currentPage: int
    var formOpen: bool
    var editingTenant: Option<Tenant>
    var fullName: string
    var contactInfo: string
    var showDeleteConfirm: bool
    var tenantToDelete: Option<Tenant>

    ghost predicate Valid()
      reads this`perPage, this`currentPage
    {
      perPage in PageSizes && currentPage >= 0
    }

    function Rows(): seq<Tenant>
      reads this
    {
      Filtered(tenants, search)
    }

    function PageCountNow(): nat
      reads this
      requires Valid()
    {
      PageSizesPositive(perPage);
      PageCount(|Rows()|, perPage)
    }

    /** The rows of the table body. */
    function PageRows(): (r: seq<Tenant>)
      reads this
      requires Valid()
      ensures |r| <= perPage
      ensures forall t :: t in r ==> t in tenants && NameMatches(t.fullName, search)
    {
      PageSlice(Rows(), currentPage, perPage)
    }

    constructor ()
      ensures Valid()
      ensures tenants == [] && search == "" && perPage == DefaultPageSize && currentPage == 1
      ensures !formOpen && editingTenant == None && fullName == "" && contactInfo == ""
      ensures !showDeleteConfirm && tenantToDelete == None
    {
      tenants := [];
      search := "";
      perPage := DefaultPageSize;
      currentPage := 1;
      formOpen := false;
      editingTenant := None;
      fullName := "";
      contactInfo := "";
      showDeleteConfirm := false;
      tenantToDelete := None;
    }

    /** `fetchTenants`: the rows replace the list when the backend answers with data. */
    method FetchCompleted(data: Option<seq<Tenant>>)
      requires Valid()
      modifies this`tenants
      ensures Valid()
      ensures tenants == if data.Some? then data.value else old(tenants)
    {
      if data.Some? {
        tenants := data.value;
      }
    }

    /** The page-size select: the new size, and back to page 1; the rows are kept. */
    method PerPageChanged(size: nat)
      requires Valid() && size in PageSizes
      modifies this`perPage, this`currentPage
      ensures Valid()
      ensures perPage == size && currentPage == 1
      ensures tenants == old(tenants) && search == old(search)
    {
      perPage := size;
      currentPage := 1;
    }

    /** The search box: the new term, and back to page 1; the rows are kept. */
    method SearchChanged(term: string)
      requires Valid()
      modifies this`search, this`currentPage
      ensures Valid()
      ensures search == term && currentPage == 1
      ensures tenants == old(tenants) && perPage == old(perPage)
    {
      search := term;
      currentPage := 1;
    }

    /** The Prev button: one page back, never below page 1. */
    method PrevClicked()
      requires Valid()
      modifies this`currentPage
      ensures Valid()
      ensures currentPage == PrevPage(old(currentPage)) && currentPage >= 1
    {
      if !PrevDisabled(currentPage) {
        currentPage := PrevPage(currentPage);
      }
    }

    /** The Next button: one page on, never past the page count. */
    method NextClicked()
      requires Valid()
      modifies this`currentPage
      ensures Valid()
      ensures currentPage == NextPage(old(currentPage), PageCountNow())
      ensures currentPage <= PageCountNow()
    {
      if !NextDisabled(currentPage, PageCountNow()) {
        currentPage := NextPage(currentPage, PageCountNow());
      }
    }

    /** The "Add Tenant" button: an empty form, not editing anyone. */
    method AddClicked()
      requires Valid()
      modifies this`editingTenant, this`fullName, this`contactInfo, this`formOpen
      ensures Valid()
      ensures editingTenant == None && fullName == "" && contactInfo == "" && formOpen
    {
      editingTenant := None;
      fullName := "";
      contactInfo := "";
      formOpen := true;
    }

    /** The edit icon of a row: the form filled from that tenant. */
    method EditClicked(tenant: Tenant)
      requires Valid()
      modifies this`editingTenant, this`fullName, this`contactInfo, this`formOpen
      ensures Valid()
      ensures editingTenant == Some(tenant) && fullName == tenant.fullName
      ensures contactInfo == ContactText(tenant.contactInfo) && formOpen
    {
      editingTenant := Some(tenant);
      fullName := tenant.fullName;
      contactInfo := ContactText(tenant.contactInfo);
      formOpen := true;
    }

    method FullNameChanged(value: string)
      requires Valid()
      modifies this`fullName
      ensures Valid() && fullName == value
    {
      fullName := value;
    }

    method ContactInfoChanged(value: string)
      requires Valid()
      modifies this`contactInfo
      ensures Valid() && contactInfo == value
    {
      contactInfo := value;
    }

    /** `resetForm`, also the form's Cancel button. */
    method ResetForm()
      requires Valid()
      modifies this`editingTenant, this`fullName, this`contactInfo, this`formOpen
      ensures Valid()
      ensures editingTenant == None && fullName == "" && contactInfo == "" && !formOpen
    {
      fullName := "";
      contactInfo := "";
      editingTenant := None;
      formOpen := false;
    }

    /** `handleSave`: a blank full name sends nothing and changes nothing; otherwise the
        update or insert of `SaveRequest` is sent (`write`), and the form is reset when
        the backend reports no error. The list itself is refreshed by a later fetch. */
    method HandleSave(writeFailed: bool) returns (write: Option<TenantWrite>)
      requires Valid()
      modifies this`editingTenant, this`fullName, this`contactInfo, this`formOpen
      ensures Valid()
      ensures write == SaveRequest(old(fullName), old(contactInfo), old(editingTenant))
      ensures write.None? <==> IsBlank(old(fullName))
      ensures if write.Some? && !writeFailed then
                editingTenant == None && fullName == "" && contactInfo == "" && !formOpen
              else
                editingTenant == old(editingTenant) && fullName == old(fullName)
                && contactInfo == old(contactInfo) && formOpen == old(formOpen)
    {
      write := SaveRequest(fullName, contactInfo, editingTenant);
      if write.Some? && !writeFailed {
        ResetForm();
      }
    }

    /** The delete icon of a row: remember it and ask for confirmation. */
    method DeleteClicked(tenant: Tenant)
      requires Valid()
      modifies this`tenantToDelete, this`showDeleteConfirm
      ensures Valid()
      ensures tenantToDelete == Some(tenant) && showDeleteConfirm
    {
      tenantToDelete := Some(tenant);
      showDeleteConfirm := true;
    }

    /** The Cancel button of the delete confirmation. */
    method DeleteCancelled()
      requires Valid()
      modifies this`tenantToDelete, this`showDeleteConfirm
      ensures Valid()
      ensures tenantToDelete == None && !showDeleteConfirm
    {
      showDeleteConfirm := false;
      tenantToDelete := None;
    }

    /** `handleDelete`: nothing is sent when no tenant is remembered; otherwise a delete
        by its id, and the confirmation closes when the backend reports no error. Unlike
        the apartments page, the list is not edited locally but refetched. */
    method HandleDelete(deleteFailed: bool) returns (request: Option<string>)
      requires Valid()
      modifies this`tenantToDelete, this`showDeleteConfirm
      ensures Valid()
      ensures request.None? <==> old(tenantToDelete).None?
      ensures request.Some? ==> request.value == old(tenantToDelete).value.id
      ensures if request.Some? && !deleteFailed then tenantToDelete == None && !showDeleteConfirm
              else tenantToDelete == old(tenantToDelete) && showDeleteConfirm == old(showDeleteConfirm)
    {
      if tenantToDelete.None? {
        return None;
      }
      request := Some(tenantToDelete.value.id);
      if !deleteFailed {
        showDeleteConfirm := false;
        tenantToDelete := None;
      }
    }
  }
}
