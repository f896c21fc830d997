/** The services page: search, pagination, the revenue total, the submit guard and delete. */
module Prestations {

  import opened Wrappers
  import Js
  import Text
  import Seqs
  import RecordList
  import Pagination

  /** A service row; `quantite` may be null. */
  datatype Prestation = Prestation(
    id: int, nomPrestation: string, nomClient: string, date: Js.Text, telephone: string,
    prix: int, quantite: Option<int>)

  function IdOf(p: Prestation): int {
    p.id
  }

  /** `currentPrestation`: the dialog's form, with `id: null` when adding. */
  datatype Draft = Draft(
    id: Option<int>, nomPrestation: string, nomClient: string, date: string, telephone: string,
    prix: int, quantite: Option<int>)

  /** The columns sent by `handleSubmit`. */
  datatype Row = Row(nomPrestation: string, nomClient: string, date: string, telephone: string, prix: int, quantite: Option<int>)

  datatype SubmitRequest = Rejected | UpdateRow(id: Option<int>, row: Row) | InsertRow(row: Row)

  /** The form `handleOpenAdd` shows, dated `today` (the clock is a parameter). */
  function AddDraft(today: string): Draft {
    Draft(None, "", "", today, "", 0, Some(1))
  }

  /** `handleOpenEdit`: the row, with today's date when it has none. */
  function EditDraft(p: Prestation, today: string): (d: Draft)
    ensures d.id == Some(p.id) && d.nomPrestation == p.nomPrestation && d.nomClient == p.nomClient
    ensures d.telephone == p.telephone && d.prix == p.prix && d.quantite == p.quantite
    ensures d.date == if Js.Truthy(p.date) then p.date.value else today
  {
    Draft(Some(p.id), p.nomPrestation, p.nomClient, Js.Or(p.date, today), p.telephone, p.prix, p.quantite)
  }

  /** The submit guard: both names filled in and a price that is not negative. */
  predicate SubmitAccepted(d: Draft) {
    d.nomPrestation != "" && d.nomClient != "" && d.prix >= 0
  }

  /** `handleSubmit`: rejected by the guard, else an update when editing, else an insert. */
  function SubmitRequestOf(d: Draft, isEditing: bool): (r: SubmitRequest)
    ensures r.Rejected? <==> d.nomPrestation == "" || d.nomClient == "" || d.prix < 0
    ensures r.UpdateRow? <==> SubmitAccepted(d) && isEditing
    ensures r.UpdateRow? ==> r.id == d.id
    ensures !r.Rejected? ==> r.row == Row(d.nomPrestation, d.nomClient, d.date, d.telephone, d.prix, d.quantite)
  {
    if !SubmitAccepted(d) then Rejected
    else if isEditing then UpdateRow(d.id, Row(d.nomPrestation, d.nomClient, d.date, d.telephone, d.prix, d.quantite))
    else InsertRow(Row(d.nomPrestation, d.nomClient, d.date, d.telephone, d.prix, d.quantite))
  }

  /** A freshly opened add form is rejected until both names are typed in. */
  lemma AddDraftNeedsNames(today: string)
    ensures SubmitRequestOf(AddDraft(today), false).Rejected?
    ensures SubmitRequestOf(AddDraft(today).(nomPrestation := "Audit", nomClient := "Client"), false).InsertRow?
  {
  }

  /** The search test: the lower-cased term occurs in the lower-cased service or client name. */
  predicate MatchesSearch(p: Prestation, term: string) {
    Text.Contains(Text.ToLower(p.nomPrestation), Text.ToLower(term))
    || Text.Contains(Text.ToLower(p.nomClient), Text.ToLower(term))
  }

  /** `filteredPrestations`. */
  function Filtered(ps: seq<Prestation>, term: string): (r: seq<Prestation>)
    ensures forall x :: x in r <==> x in ps && MatchesSearch(x, term)
  {
    Seqs.Filter(ps, (p: Prestation) => MatchesSearch(p, term))
  }

  /** An empty search keeps every service. */
  lemma EmptySearchKeepsAll(ps: seq<Prestation>)
    ensures Filtered(ps, "") == ps
  {
    forall p: Prestation
      ensures MatchesSearch(p, "")
    {
      Text.ContainsEmpty(Text.ToLower(p.nomPrestation));
    }
    Seqs.FilterKeepsAll(ps, (p: Prestation) => MatchesSearch(p, ""));
  }

  /** The search keeps the list order. */
  lemma FilteredKeepsOrder(ps: seq<Prestation>, term: string)
    ensures Seqs.IsSubsequence(Filtered(ps, term), ps)
  {
    Seqs.FilterIsSubsequence(ps, (p: Prestation) => MatchesSearch(p, term));
  }

  /** A part of a client name, typed in any letter case, finds the service. */
  lemma ClientNameIsSearchable(p: Prestation, term: string)
    requires Text.Contains(p.nomClient, term)
    ensures MatchesSearch(p, term)
  {
    Text.ContainsToLower(p.nomClient, term);
  }

  /** Price times quantity for one service; a null quantity makes the line 0. */
  function LineTotal(p: Prestation): (r: int)
    ensures p.quantite.None? ==> r == 0
  {
    p.prix * p.quantite.GetOr(0)
  }

  /** `totalRevenu`: over all services, whatever the search. */
  function TotalRevenu(ps: seq<Prestation>): int {
    Seqs.SumOf(ps, LineTotal)
  }

  /** A delete lowers the revenue total by exactly the lines it removes. */
  lemma RevenueAfterDelete(ps: seq<Prestation>, id: int)
    ensures TotalRevenu(RecordList.RemoveById(ps, IdOf, id))
            + Seqs.SumOf(RecordList.WithId(ps, IdOf, id), LineTotal)
            == TotalRevenu(ps)
  {
    RecordList.SumAfterRemove(ps, IdOf, id, LineTotal);
  }

  /** With prices and quantities never negative the revenue is not negative. */
  lemma {:induction false} RevenueNonNegative(ps: seq<Prestation>)
    requires forall i :: 0 <= i < |ps| ==> ps[i].prix >= 0 && ps[i].quantite.GetOr(0) >= 0
    ensures TotalRevenu(ps) >= 0
  {
    if ps != [] {
      RevenueNonNegative(ps[1..]);
    }
  }

  class PrestationsPage {
    var prestations: seq<Prestation>
    var searchTerm: string
    var isEditing: bool
    var currentPrestation: Draft
    var currentPage: int

    constructor (today: string)
      ensures prestations == [] && searchTerm == "" && !isEditing
      ensures currentPrestation == AddDraft(today) && currentPage == 1
    {
      prestations := [];
      searchTerm := "";
      isEditing := false;
      currentPrestation := AddDraft(today);
      currentPage := 1;
    }

    /** `totalPages` of the filtered list. */
    function TotalPages(): nat
      reads this
    {
      Pagination.TotalPages(|Filtered(prestations, searchTerm)|)
    }

    /** `paginatedPrestations`. */
    function Paginated(): (r: seq<Prestation>)
      reads this
      ensures |r| <= Pagination.ItemsPerPage
    {
      Pagination.Page(Filtered(prestations, searchTerm), currentPage)
    }

    /** `handlePageChange`. */
    method HandlePageChange(page: int)
      modifies this
      ensures 1 <= page <= TotalPages() ==> currentPage == page
      ensures !(1 <= page <= TotalPages()) ==> currentPage == old(currentPage)
      ensures prestations == old(prestations) && searchTerm == old(searchTerm)
      ensures isEditing == old(isEditing) && currentPrestation == old(currentPrestation)
    {
      currentPage := Pagination.PageChange(currentPage, page, |Filtered(prestations, searchTerm)|);
    }

    /** `handleDelete`: only a confirmed delete the backend accepted removes rows. */
    method HandleDelete(id: int, confirmed: bool, deleted: bool)
      modifies this
      ensures confirmed && deleted ==> prestations == RecordList.RemoveById(old(prestations), IdOf, id)
      ensures !(confirmed && deleted) ==> prestations == old(prestations)
      ensures searchTerm == old(searchTerm) && currentPage == old(currentPage)
      ensures isEditing == old(isEditing) && currentPrestation == old(currentPrestation)
    {
      if confirmed && deleted {
        prestations := RecordList.RemoveById(prestations, IdOf, id);
      }
    }

    /** `handleOpenAdd`. */
    method HandleOpenAdd(today: string)
      modifies this
      ensures !isEditing && currentPrestation == AddDraft(today)
      ensures prestations == old(prestations) && searchTerm == old(searchTerm) && currentPage == old(currentPage)
    {
      isEditing := false;
      currentPrestation := AddDraft(today);
    }

    /** `handleOpenEdit`. */
    method HandleOpenEdit(p: Prestation, today: string)
      modifies this
      ensures isEditing && currentPrestation == EditDraft(p, today)
      ensures prestations == old(prestations) && searchTerm == old(searchTerm) && currentPage == old(currentPage)
    {
      isEditing := true;
      currentPrestation := EditDraft(p, today);
    }

    /** `handleSubmit` decides from the form alone; a rejected submit changes nothing. */
    method HandleSubmit() returns (request: SubmitRequest)
      ensures request == SubmitRequestOf(currentPrestation, isEditing)
      ensures request.Rejected? <==> !SubmitAccepted(currentPrestation)
    {
      request := SubmitRequestOf(currentPrestation, isEditing);
    }

    /** The search box; the current page is kept as it is. */
    method SetSearchTerm(term: string)
      modifies this
      ensures searchTerm == term
      ensures prestations == old(prestations) && currentPage == old(currentPage)
      ensures isEditing == old(isEditing) && currentPrestation == old(currentPrestation)
    {
      searchTerm := term;
    }
  }
}
