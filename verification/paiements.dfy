/** The payments page: guards, list updates, the default inscription and the filtered list. */
module Paiements {

  import opened Wrappers
  import Js
  import Text
  import Seqs
  import RecordList

  /** A payment row with the names joined through its inscription. */
  datatype Paiement = Paiement(
    id: int, inscriptionId: int, montantTotal: int, montantPaye: int, estSolde: bool,
    etudiantNom: Js.Text, etudiantPrenom: Js.Text, logicielNom: string)

  function IdOf(p: Paiement): int {
    p.id
  }

  /** `newPaiement`: the select stores the inscription id as a string. */
  datatype NewPaiement = NewPaiement(inscriptionId: string, montantTotal: int, montantPaye: int, estSolde: bool)

  /** `selectedPaiement`. */
  datatype Selected = Selected(id: int, inscriptionId: RecordList.IdValue, montantTotal: int, montantPaye: int, estSolde: bool)

  /** The columns sent by an insert or an update; an unreadable id is `None` (NaN). */
  datatype Payload = Payload(inscriptionId: Option<int>, montantTotal: int, montantPaye: int, estSolde: bool)

  /** The create guard: an inscription chosen and a strictly positive total. */
  predicate CreateAccepted(f: NewPaiement) {
    f.inscriptionId != "" && f.montantTotal > 0
  }

  /** The update guard, the same test on the selection. */
  predicate UpdateAccepted(s: Selected) {
    RecordList.IdTruthy(s.inscriptionId) && s.montantTotal > 0
  }

  function CreatePayload(f: NewPaiement): (p: Payload)
    ensures p.inscriptionId == Js.ParseInt(f.inscriptionId)
    ensures f.inscriptionId == "" ==> p.inscriptionId.None?
    ensures p.montantTotal == f.montantTotal && p.montantPaye == f.montantPaye && p.estSolde == f.estSolde
  {
    Payload(Js.ParseInt(f.inscriptionId), f.montantTotal, f.montantPaye, f.estSolde)
  }

  function UpdatePayload(s: Selected): (p: Payload)
    ensures p.montantTotal == s.montantTotal && p.montantPaye == s.montantPaye && p.estSolde == s.estSolde
    ensures s.inscriptionId.IdNum? ==> p.inscriptionId == Some(s.inscriptionId.n)
    ensures s.inscriptionId.IdText? ==> p.inscriptionId == Js.ParseInt(s.inscriptionId.s)
  {
    Payload(RecordList.ParseId(s.inscriptionId), s.montantTotal, s.montantPaye, s.estSolde)
  }

  /** The form after a create: the first inscription's id, or "" when there is none, and zero amounts. */
  function ResetForm(inscriptionIds: seq<int>): (f: NewPaiement)
    ensures inscriptionIds == [] <==> f.inscriptionId == ""
    ensures f.montantTotal == 0 && f.montantPaye == 0 && !f.estSolde
  {
    NewPaiement(if |inscriptionIds| > 0 then Js.NumberToString(inscriptionIds[0]) else "", 0, 0, false)
  }

  /** The default inscription chosen by the page is the one the insert sends. */
  lemma ResetFormSendsFirstInscription(inscriptionIds: seq<int>, total: int)
    requires inscriptionIds != []
    ensures CreatePayload(ResetForm(inscriptionIds)).inscriptionId == Some(inscriptionIds[0])
    ensures !CreateAccepted(ResetForm(inscriptionIds))
    ensures total > 0 <==> CreateAccepted(ResetForm(inscriptionIds).(montantTotal := total))
  {
    Js.ParseIntOfNumberToString(inscriptionIds[0]);
  }

  /** Opening the edit dialog on a row sends that row's inscription back unchanged. */
  lemma EditKeepsInscription(p: Paiement)
    ensures UpdatePayload(Selected(p.id, RecordList.IdNum(p.inscriptionId), p.montantTotal, p.montantPaye, p.estSolde)).inscriptionId
            == Some(p.inscriptionId)
  {
  }

  /** An inscription re-picked in the edit select, stored as `id.toString()`, is sent unchanged. */
  lemma RepickedInscriptionIsSent(s: Selected, n: int)
    ensures UpdatePayload(s.(inscriptionId := RecordList.IdText(Js.NumberToString(n)))).inscriptionId == Some(n)
  {
    Js.ParseIntOfNumberToString(n);
  }

  /** The status filter: "all" passes everything, "true" the settled payments, any other value the unsettled ones. */
  predicate PassesStatus(p: Paiement, filterEstSolde: string) {
    filterEstSolde == "all" || p.estSolde == (filterEstSolde == "true")
  }

  /** The student's surname and first name as the template renders them, joined by a space. */
  function StudentName(p: Paiement): string {
    Js.Render(p.etudiantNom) + " " + Js.Render(p.etudiantPrenom)
  }

  /** The search: an empty term passes, else the student name or the course name contains it, ignoring case. */
  predicate PassesSearch(p: Paiement, term: string) {
    term == ""
    || Text.Contains(Text.ToLower(StudentName(p)), Text.ToLower(term))
    || Text.Contains(Text.ToLower(p.logicielNom), Text.ToLower(term))
  }

  /** `filteredAndSearchedPaiements`. */
  function Filtered(ps: seq<Paiement>, filterEstSolde: string, term: string): (r: seq<Paiement>)
    ensures forall x :: x in r <==> x in ps && PassesStatus(x, filterEstSolde) && PassesSearch(x, term)
    ensures |r| <= |ps|
  {
    Seqs.Filter(ps, (p: Paiement) => PassesStatus(p, filterEstSolde) && PassesSearch(p, term))
  }

  /** The "all" filter with an empty search shows every payment. */
  lemma NoFilterShowsAll(ps: seq<Paiement>)
    ensures Filtered(ps, "all", "") == ps
  {
    Seqs.FilterKeepsAll(ps, (p: Paiement) => PassesStatus(p, "all") && PassesSearch(p, ""));
  }

  /** The "true" and "false" filters split what "all" shows, for any search. */
  lemma {:induction false} StatusFiltersPartition(ps: seq<Paiement>, term: string)
    ensures |Filtered(ps, "true", term)| + |Filtered(ps, "false", term)| == |Filtered(ps, "all", term)|
  {
    if ps != [] {
      StatusFiltersPartition(ps[1..], term);
    }
  }

  /** A filter value other than "all" and "true" behaves as "false". */
  lemma OtherFilterIsFalse(ps: seq<Paiement>, filterEstSolde: string, term: string)
    requires filterEstSolde != "all" && filterEstSolde != "true"
    ensures Filtered(ps, filterEstSolde, term) == Filtered(ps, "false", term)
  {
    Seqs.FilterSameTest(ps, (p: Paiement) => PassesStatus(p, filterEstSolde) && PassesSearch(p, term),
                            (p: Paiement) => PassesStatus(p, "false") && PassesSearch(p, term));
  }

  /** A part of the student's last name, in any case, finds the payment. */
  lemma StudentNameIsSearchable(p: Paiement, term: string)
    requires p.etudiantNom.Str? && Text.Contains(p.etudiantNom.value, term)
    ensures PassesSearch(p, term)
  {
    var name := StudentName(p);
    assert name == [] + p.etudiantNom.value + (" " + Js.Render(p.etudiantPrenom));
    Text.ContainsInfix([], p.etudiantNom.value, " " + Js.Render(p.etudiantPrenom));
    Text.ContainsTransitive(name, p.etudiantNom.value, term);
    Text.ContainsToLower(name, term);
  }

  class PaiementsPage {
    var paiements: seq<Paiement>
    var inscriptionIds: seq<int>
    var newPaiement: NewPaiement
    var selectedPaiement: Option<Selected>
    var filterEstSolde: string
    var searchTerm: string

    constructor ()
      ensures paiements == [] && inscriptionIds == [] && newPaiement == NewPaiement("", 0, 0, false)
      ensures selectedPaiement == None && filterEstSolde == "all" && searchTerm == ""
    {
      paiements := [];
      inscriptionIds := [];
      newPaiement := NewPaiement("", 0, 0, false);
      selectedPaiement := None;
      filterEstSolde := "all";
      searchTerm := "";
    }

    /** The rows the table shows. */
    function Shown(): (r: seq<Paiement>)
      reads this
      ensures forall x :: x in r <==> x in paiements && PassesStatus(x, filterEstSolde) && PassesSearch(x, searchTerm)
    {
      Filtered(paiements, filterEstSolde, searchTerm)
    }

    /**
     * `fetchInscriptions` once the query has answered (`None` for an error): keep the
     * ids, and preselect the first one when the form has no inscription yet.
     */
    method AfterFetchInscriptions(result: Option<seq<int>>)
      modifies this
      ensures result.None? ==> inscriptionIds == old(inscriptionIds) && newPaiement == old(newPaiement)
      ensures result.Some? ==> inscriptionIds == result.value
      ensures result.Some? && |result.value| > 0 && old(newPaiement).inscriptionId == "" ==>
        newPaiement == old(newPaiement).(inscriptionId := Js.NumberToString(result.value[0]))
      ensures result.Some? && !(|result.value| > 0 && old(newPaiement).inscriptionId == "") ==>
        newPaiement == old(newPaiement)
      ensures paiements == old(paiements) && selectedPaiement == old(selectedPaiement)
      ensures filterEstSolde == old(filterEstSolde) && searchTerm == old(searchTerm)
    {
      if result.Some? {
        inscriptionIds := result.value;
        if |result.value| > 0 && newPaiement.inscriptionId == "" {
          newPaiement := newPaiement.(inscriptionId := Js.NumberToString(result.value[0]));
        }
      }
    }

    /** `handleCreate`: the guard decides whether the insert is sent; a stored row is appended. */
    method HandleCreate(outcome: RecordList.Written<Paiement>) returns (request: Option<Payload>)
      modifies this
      ensures request.Some? <==> CreateAccepted(old(newPaiement))
      ensures request.Some? ==> request.value == CreatePayload(old(newPaiement))
      ensures request.Some? && outcome.Written? ==>
        paiements == old(paiements) + [outcome.row] && newPaiement == ResetForm(inscriptionIds)
      ensures !(request.Some? && outcome.Written?) ==> paiements == old(paiements) && newPaiement == old(newPaiement)
      ensures inscriptionIds == old(inscriptionIds) && selectedPaiement == old(selectedPaiement)
      ensures filterEstSolde == old(filterEstSolde) && searchTerm == old(searchTerm)
    {
      request := if CreateAccepted(newPaiement) then Some(CreatePayload(newPaiement)) else None;
      if request.Some? && outcome.Written? {
        paiements := paiements + [outcome.row];
        newPaiement := ResetForm(inscriptionIds);
      }
    }

    /**
     * `handleUpdate`: nothing is sent without a selection or when the guard fails;
     * a stored row replaces the one with the selected id and the selection is cleared.
     */
    method HandleUpdate(outcome: RecordList.Written<Paiement>) returns (request: Option<Payload>)
      modifies this
      ensures request.Some? <==> old(selectedPaiement).Some? && UpdateAccepted(old(selectedPaiement).value)
      ensures request.Some? ==> request.value == UpdatePayload(old(selectedPaiement).value)
      ensures request.Some? && outcome.Written? ==>
        paiements == RecordList.ReplaceById(old(paiements), IdOf, old(selectedPaiement).value.id, outcome.row)
        && selectedPaiement == None
      ensures !(request.Some? && outcome.Written?) ==> paiements == old(paiements) && selectedPaiement == old(selectedPaiement)
      ensures inscriptionIds == old(inscriptionIds) && newPaiement == old(newPaiement)
      ensures filterEstSolde == old(filterEstSolde) && searchTerm == old(searchTerm)
    {
      request := if selectedPaiement.Some? && UpdateAccepted(selectedPaiement.value)
                 then Some(UpdatePayload(selectedPaiement.value)) else None;
      if request.Some? && outcome.Written? {
        paiements := RecordList.ReplaceById(paiements, IdOf, selectedPaiement.value.id, outcome.row);
        selectedPaiement := None;
      }
    }

    /** `handleDelete` once the backend has answered (`deleted` is the absence of an error). */
    method HandleDelete(id: int, deleted: bool)
      modifies this
      ensures deleted ==> paiements == RecordList.RemoveById(old(paiements), IdOf, id)
      ensures !deleted ==> paiements == old(paiements)
      ensures inscriptionIds == old(inscriptionIds) && newPaiement == old(newPaiement)
      ensures selectedPaiement == old(selectedPaiement)
      ensures filterEstSolde == old(filterEstSolde) && searchTerm == old(searchTerm)
    {
      if deleted {
        paiements := RecordList.RemoveById(paiements, IdOf, id);
      }
    }

    /** Re-picking the inscription in the edit dialog, which is only open with a selection. */
    method PickEditInscription(value: string)
      requires selectedPaiement.Some?
      modifies this
      ensures selectedPaiement == Some(old(selectedPaiement).value.(inscriptionId := RecordList.IdText(value)))
      ensures paiements == old(paiements) && inscriptionIds == old(inscriptionIds) && newPaiement == old(newPaiement)
      ensures filterEstSolde == old(filterEstSolde) && searchTerm == old(searchTerm)
    {
      selectedPaiement := Some(selectedPaiement.value.(inscriptionId := RecordList.IdText(value)));
    }

    /** `openEditDialog`: the row becomes the selection, with its inscription id as a number. */
    method OpenEditDialog(p: Paiement)
      modifies this
      ensures selectedPaiement == Some(Selected(p.id, RecordList.IdNum(p.inscriptionId), p.montantTotal, p.montantPaye, p.estSolde))
      ensures paiements == old(paiements) && inscriptionIds == old(inscriptionIds) && newPaiement == old(newPaiement)
      ensures filterEstSolde == old(filterEstSolde) && searchTerm == old(searchTerm)
    {
      selectedPaiement := Some(Selected(p.id, RecordList.IdNum(p.inscriptionId), p.montantTotal, p.montantPaye, p.estSolde));
    }
  }
}
