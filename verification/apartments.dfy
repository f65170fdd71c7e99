/** The apartments list page: the fetched rows, the search box, the page-size select,
    the current page, and the delete confirmation whose success removes the row locally. */
module Apartments {
  import opened Wrappers
  import opened Seqs
  import opened Listing

  datatype Apartment = Apartment(
    id: string,
    name: string,
    description: string,
    basePrice: real,
    roomCount: int,
    createdAt: string)

  function NameOf(a: Apartment): string { a.name }

  /** The rows the table draws from: apartments whose name contains the search term,
      ignoring case, in fetched order. */
  function Filtered(apartments: seq<Apartment>, search: string): (r: seq<Apartment>)
    ensures IsSubsequence(r, apartments)
    ensures forall a :: a in r <==> a in apartments && NameMatches(a.name, search)
    ensures forall a :: multiset(r)[a] == if NameMatches(a.name, search) then multiset(apartments)[a] else 0
  {
    FilterByName(apartments, NameOf, search)
  }

  function HasOtherId(id: string): Apartment -> bool {
    (a: Apartment) => a.id != id
  }

  /** `apartments.filter(a => a.id !== id)`: every row with that id is gone, every other
      row stays, as often as before and in the same order. */
  function WithoutId(apartments: seq<Apartment>, id: string): (r: seq<Apartment>)
    ensures IsSubsequence(r, apartments)
    ensures forall a :: a in r ==> a.id != id
    ensures forall a: Apartment :: a.id != id ==> multiset(r)[a] == multiset(apartments)[a]
    ensures (forall a :: a in apartments ==> a.id != id) ==> r == apartments
  {
    var r := Keep(apartments, HasOtherId(id));
    KeepCounts(apartments, HasOtherId(id));
    assert (forall a :: a in apartments ==> a.id != id) ==> r == apartments by {
      if forall a :: a in apartments ==> a.id != id {
        KeepAll(apartments, HasOtherId(id));
      }
    }
    r
  }

  class ApartmentsPage {
    var apartments: seq<Apartment>
    var search: string
    var perPage: nat
    var currentPage: int
    var modalOpen: bool
    var selectedApartment: Option<Apartment>
    var apartmentToDelete: Option<Apartment>
    var showDeleteConfirm: bool

    /** The page size is one the select offers; the page number is never negative
        (it is 0 only after Next on an empty list). */
    ghost predicate Valid()
      reads this`perPage, this`currentPage
    {
      perPage in PageSizes && currentPage >= 0
    }

    function Rows(): seq<Apartment>
      reads this
    {
      Filtered(apartments, search)
    }

    function PageCountNow(): nat
      reads this
      requires Valid()
    {
      PageSizesPositive(perPage);
      PageCount(|Rows()|, perPage)
    }

    /** The rows of the table body. */
    function PageRows(): (r: seq<Apartment>)
      reads this
      requires Valid()
      ensures |r| <= perPage
      ensures forall a :: a in r ==> a in apartments && NameMatches(a.name, search)
    {
      PageSlice(Rows(), currentPage, perPage)
    }

    /** The labels of the page-number buttons. */
    function Buttons(): seq<int>
      reads this
      requires Valid()
    {
      WindowLabels(currentPage, PageCountNow())
    }

    constructor ()
      ensures Valid()
      ensures apartments == [] && search == "" && perPage == DefaultPageSize && currentPage == 1
      ensures !modalOpen && selectedApartment == None
      ensures apartmentToDelete == None && !showDeleteConfirm
    {
      apartments := [];
      search := "";
      perPage := DefaultPageSize;
      currentPage := 1;
      modalOpen := false;
      selectedApartment := None;
      apartmentToDelete := None;
      showDeleteConfirm := false;
    }

    /** `fetchApartments`: the rows replace the list when the backend answers with data;
        on an error (`data == None`) nothing changes. */
    method FetchCompleted(data: Option<seq<Apartment>>)
      requires Valid()
      modifies this`apartments
      ensures Valid()
      ensures apartments == if data.Some? then data.value else old(apartments)
    {
      if data.Some? {
        apartments := data.value;
      }
    }

    /** The page-size select: the new size, and back to page 1; the rows are kept. */
    method PerPageChanged(size: nat)
      requires Valid() && size in PageSizes
      modifies this`perPage, this`currentPage
      ensures Valid()
      ensures perPage == size && currentPage == 1
      ensures apartments == old(apartments) && search == old(search)
    {
      perPage := size;
      currentPage := 1;
    }

    /** The search box: the new term, and back to page 1; the rows are kept. */
    method SearchChanged(term: string)
      requires Valid()
      modifies this`search, this`currentPage
      ensures Valid()
      ensures search == term && currentPage == 1
      ensures apartments == old(apartments) && perPage == old(perPage)
    {
      search := term;
      currentPage := 1;
    }

    /** The Prev button: one page back, never below page 1. */
    method PrevClicked()
      requires Valid()
      modifies this`currentPage
      ensures Valid()
      ensures currentPage == PrevPage(old(currentPage)) && currentPage >= 1
    {
      if !PrevDisabled(currentPage) {
        currentPage := PrevPage(currentPage);
      }
    }

    /** The Next button: one page on, never past the page count (which is 0 for an
        empty list). */
    method NextClicked()
      requires Valid()
      modifies this`currentPage
      ensures Valid()
      ensures currentPage == NextPage(old(currentPage), PageCountNow())
      ensures currentPage <= PageCountNow()
    {
      if !NextDisabled(currentPage, PageCountNow()) {
        currentPage := NextPage(currentPage, PageCountNow());
      }
    }

    /** A page-number button: jumps to its label, a page between 1 and the page count. */
    method PageButtonClicked(page: int)
      requires Valid() && page in Buttons()
      modifies this`currentPage
      ensures Valid()
      ensures currentPage == page && 1 <= currentPage <= PageCountNow()
    {
      currentPage := page;
    }

    /** The "Create Apartment" button: the form opens with no apartment to edit. */
    method CreateClicked()
      requires Valid()
      modifies this`selectedApartment, this`modalOpen
      ensures Valid()
      ensures selectedApartment == None && modalOpen
    {
      selectedApartment := None;
      modalOpen := true;
    }

    /** The Edit link of a row: the form opens on that apartment. */
    method EditClicked(apartment: Apartment)
      requires Valid()
      modifies this`selectedApartment, this`modalOpen
      ensures Valid()
      ensures selectedApartment == Some(apartment) && modalOpen
    {
      selectedApartment := Some(apartment);
      modalOpen := true;
    }

    /** The form's `onClose`: closed, and no apartment selected. */
    method FormClosed()
      requires Valid()
      modifies this`selectedApartment, this`modalOpen
      ensures Valid()
      ensures selectedApartment == None && !modalOpen
    {
      modalOpen := false;
      selectedApartment := None;
    }

    /** `handleSave`, the form's `onSaved`: the form closes and the list is fetched
        again, `data` being the backend's answer to that fetch. */
    method Saved(data: Option<seq<Apartment>>)
      requires Valid()
      modifies this`selectedApartment, this`modalOpen, this`apartments
      ensures Valid()
      ensures selectedApartment == None && !modalOpen
      ensures apartments == if data.Some? then data.value else old(apartments)
    {
      modalOpen := false;
      selectedApartment := None;
      FetchCompleted(data);
    }

    /** The Delete link of a row: remember it and ask for confirmation. */
    method DeleteClicked(apartment: Apartment)
      requires Valid()
      modifies this`apartmentToDelete, this`showDeleteConfirm
      ensures Valid()
      ensures apartmentToDelete == Some(apartment) && showDeleteConfirm
    {
      apartmentToDelete := Some(apartment);
      showDeleteConfirm := true;
    }

    /** The Cancel button of the confirmation. */
    method DeleteCancelled()
      requires Valid()
      modifies this`apartmentToDelete, this`showDeleteConfirm
      ensures Valid()
      ensures apartmentToDelete == None && !showDeleteConfirm
    {
      apartmentToDelete := None;
      showDeleteConfirm := false;
    }

    /** `handleDelete`: with no row remembered nothing is sent. Otherwise a delete by
        that row's id is sent (`request`); when the backend reports no error the rows
        with that id leave the local list and the confirmation closes, and on an error
        the state stays as it was. */
    method HandleDelete(deleteFailed: bool) returns (request: Option<string>)
      requires Valid()
      modifies this`apartments, this`apartmentToDelete, this`showDeleteConfirm
      ensures Valid()
      ensures request.None? <==> old(apartmentToDelete).None?
      ensures request.Some? ==> request.value == old(apartmentToDelete).value.id
      ensures if request.Some? && !deleteFailed then
                apartments == WithoutId(old(apartments), request.value)
                && apartmentToDelete == None && !showDeleteConfirm
              else
                apartments == old(apartments)
                && apartmentToDelete == old(apartmentToDelete)
                && showDeleteConfirm == old(showDeleteConfirm)
    {
      if apartmentToDelete.None? {
        return None;
      }
      request := Some(apartmentToDelete.value.id);
      if !deleteFailed {
        apartments := WithoutId(apartments, request.value);
        showDeleteConfirm := false;
        apartmentToDelete := None;
      }
    }
  }
}
