/** The expenses page: create guard and prepend, delete, pagination over the whole list, the total. */
module Depenses {

  import opened Wrappers
  import Seqs
  import RecordList
  import Pagination

  /** An expense row; `somme` may be null. */
  datatype Depense = Depense(id: int, nomDepense: string, motif: string, somme: Option<int>)

  function IdOf(d: Depense): int {
    d.id
  }

  /** `newDepense`, which is also the inserted row. */
  datatype NewDepense = NewDepense(nomDepense: string, motif: string, somme: int)

  const EmptyDepense := NewDepense("", "", 0)

  /** The create guard: a name and a strictly positive amount. */
  predicate CreateAccepted(f: NewDepense) {
    f.nomDepense != "" && f.somme > 0
  }

  /** `curr.somme || 0`. */
  function SommeOf(d: Depense): int {
    d.somme.GetOr(0)
  }

  /** `totalSomme`. */
  function TotalSomme(ds: seq<Depense>): int {
    Seqs.SumOf(ds, SommeOf)
  }

  /** Prepending a stored expense adds its amount to the total. */
  lemma TotalAfterCreate(row: Depense, ds: seq<Depense>)
    ensures TotalSomme([row] + ds) == TotalSomme(ds) + SommeOf(row)
  {
    assert ([row] + ds)[1..] == ds;
  }

  /** A delete lowers the total by exactly the expenses it removes. */
  lemma TotalAfterDelete(ds: seq<Depense>, id: int)
    ensures TotalSomme(RecordList.RemoveById(ds, IdOf, id))
            + Seqs.SumOf(RecordList.WithId(ds, IdOf, id), SommeOf)
            == TotalSomme(ds)
  {
    RecordList.SumAfterRemove(ds, IdOf, id, SommeOf);
  }

  /** Only expenses that passed the guard, each positive or null, give a total that is not negative. */
  lemma {:induction false} TotalNonNegative(ds: seq<Depense>)
    requires forall i :: 0 <= i < |ds| ==> SommeOf(ds[i]) >= 0
    ensures TotalSomme(ds) >= 0
  {
    if ds != [] {
      TotalNonNegative(ds[1..]);
    }
  }

  class DepensePage {
    var depenses: seq<Depense>
    var newDepense: NewDepense
    var currentPage: int

    constructor ()
      ensures depenses == [] && newDepense == EmptyDepense && currentPage == 1
    {
      depenses := [];
      newDepense := EmptyDepense;
      currentPage := 1;
    }

    /** `paginatedDepenses`: pages over the whole list (the page has no search). */
    function Paginated(): (r: seq<Depense>)
      reads this
      ensures |r| <= Pagination.ItemsPerPage
    {
      Pagination.Page(depenses, currentPage)
    }

    /**
     * `handleCreate`: the guard decides whether the form is sent as the insert (`request`); a stored
     * row then goes to the front of the list and the form is cleared.
     */
    method HandleCreate(outcome: RecordList.Written<Depense>) returns (request: Option<NewDepense>)
      modifies this
      ensures request.Some? <==> CreateAccepted(old(newDepense))
      ensures request.Some? ==> request.value == old(newDepense)
      ensures request.Some? && outcome.Written? ==> depenses == [outcome.row] + old(depenses) && newDepense == EmptyDepense
      ensures !(request.Some? && outcome.Written?) ==> depenses == old(depenses) && newDepense == old(newDepense)
      ensures currentPage == old(currentPage)
    {
      request := if CreateAccepted(newDepense) then Some(newDepense) else None;
      if request.Some? && outcome.Written? {
        depenses := [outcome.row] + depenses;
        newDepense := EmptyDepense;
      }
    }

    /** `handleDelete`: only a confirmed delete the backend accepted removes rows. */
    method HandleDelete(id: int, confirmed: bool, deleted: bool)
      modifies this
      ensures confirmed && deleted ==> depenses == RecordList.RemoveById(old(depenses), IdOf, id)
      ensures !(confirmed && deleted) ==> depenses == old(depenses)
      ensures newDepense == old(newDepense) && currentPage == old(currentPage)
    {
      if confirmed && deleted {
        depenses := RecordList.RemoveById(depenses, IdOf, id);
      }
    }

    /** `handlePageChange`. */
    method HandlePageChange(page: int)
      modifies this
      ensures 1 <= page <= Pagination.TotalPages(|depenses|) ==> currentPage == page
      ensures !(1 <= page <= Pagination.TotalPages(|depenses|)) ==> currentPage == old(currentPage)
      ensures depenses == old(depenses) && newDepense == old(newDepense)
    {
      currentPage := Pagination.PageChange(currentPage, page, |depenses|);
    }

    /** The form fields. */
    method EditForm(f: NewDepense)
      modifies this
      ensures newDepense == f
      ensures depenses == old(depenses) && currentPage == old(currentPage)
    {
      newDepense := f;
    }
  }

  /**
   * Deleting the only row of the last page leaves `currentPage` past the end:
   * nine expenses on page 2, delete the ninth, and page 2 is now empty.
   */
  lemma DeleteCanEmptyTheLastPage(ds: seq<Depense>)
    requires |ds| == 9 && RecordList.UniqueIds(ds, IdOf)
    ensures Pagination.Page(ds, 2) != []
    ensures Pagination.TotalPages(|RecordList.RemoveById(ds, IdOf, ds[8].id)|) == 1
    ensures Pagination.Page(RecordList.RemoveById(ds, IdOf, ds[8].id), 2) == []
  {
    RecordList.RemoveUniqueId(ds, IdOf, 8);
    assert ds[9..] == [];
    Pagination.PageInRange(ds, 2);
    Pagination.PageBeyondEnd(RecordList.RemoveById(ds, IdOf, ds[8].id), 2);
  }
}
