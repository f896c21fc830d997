/** The inscriptions page: the list held in component state and its status filter. */
module Inscriptions {

  import opened Wrappers
  import Js
  import Seqs
  import RecordList

  /** An inscription row as the page keeps it. */
  datatype Inscription = Inscription(id: int, etudiantId: int, logicielId: int, statut: string, prixInscription: int)

  function IdOf(i: Inscription): int {
    i.id
  }

  /** The create form: the two ids are the string values of the selects. */
  datatype Form = Form(etudiantId: string, logicielId: string, statut: string, prixInscription: int)

  /** The form after a successful create. */
  const EmptyForm := Form("", "", "inscrit", 0)

  /** `statutOptions`. */
  const StatutOptions: seq<string> := ["inscrit", "termine", "abandon"]

  /** The row sent by `handleCreate`; an id `parseInt` cannot read is `None` (NaN). */
  datatype Payload = Payload(etudiantId: Option<int>, logicielId: Option<int>, statut: string, prixInscription: int)

  function CreatePayload(f: Form): (p: Payload)
    ensures p.statut == f.statut && p.prixInscription == f.prixInscription
    ensures f.etudiantId == "" ==> p.etudiantId.None?
    ensures f.logicielId == "" ==> p.logicielId.None?
  {
    Payload(Js.ParseInt(f.etudiantId), Js.ParseInt(f.logicielId), f.statut, f.prixInscription)
  }

  /**
   * `selectedInscription`: the row as opened for editing. The two ids are numbers
   * until the edit selects are re-picked, which store the option's string.
   */
  datatype Selected = Selected(id: int, etudiantId: RecordList.IdValue, logicielId: RecordList.IdValue, statut: string, prixInscription: int)

  /** The selection made from a listed row: both ids still numbers. */
  function SelectionOf(row: Inscription): (s: Selected)
    ensures s.id == row.id && s.statut == row.statut && s.prixInscription == row.prixInscription
    ensures s.etudiantId == RecordList.IdNum(row.etudiantId) && s.logicielId == RecordList.IdNum(row.logicielId)
  {
    Selected(row.id, RecordList.IdNum(row.etudiantId), RecordList.IdNum(row.logicielId), row.statut, row.prixInscription)
  }

  /** The columns `handleUpdate` sends: both ids through `parseInt`. */
  function UpdatePayload(s: Selected): (p: Payload)
    ensures p.statut == s.statut && p.prixInscription == s.prixInscription
    ensures s.etudiantId.IdNum? ==> p.etudiantId == Some(s.etudiantId.n)
    ensures s.etudiantId.IdText? ==> p.etudiantId == Js.ParseInt(s.etudiantId.s)
    ensures s.logicielId.IdNum? ==> p.logicielId == Some(s.logicielId.n)
    ensures s.logicielId.IdText? ==> p.logicielId == Js.ParseInt(s.logicielId.s)
  {
    Payload(RecordList.ParseId(s.etudiantId), RecordList.ParseId(s.logicielId), s.statut, s.prixInscription)
  }

  /** An untouched edit sends the row's own ids back. */
  lemma UntouchedEditSendsOwnIds(row: Inscription)
    ensures UpdatePayload(SelectionOf(row)) == Payload(Some(row.etudiantId), Some(row.logicielId), row.statut, row.prixInscription)
  {
  }

  /** Ids re-picked in the edit selects, stored as `id.toString()`, reach the backend unchanged. */
  lemma RepickedIdsAreSent(s: Selected, etudiant: int, logiciel: int)
    ensures UpdatePayload(s.(etudiantId := RecordList.IdText(Js.NumberToString(etudiant)),
                             logicielId := RecordList.IdText(Js.NumberToString(logiciel))))
         == Payload(Some(etudiant), Some(logiciel), s.statut, s.prixInscription)
  {
    Js.ParseIntOfNumberToString(etudiant);
    Js.ParseIntOfNumberToString(logiciel);
  }

  /** Ids picked in the selects, whose values are `id.toString()`, reach the backend unchanged. */
  lemma SelectedIdsAreSent(etudiant: int, logiciel: int, statut: string, prix: int)
    ensures CreatePayload(Form(Js.NumberToString(etudiant), Js.NumberToString(logiciel), statut, prix))
         == Payload(Some(etudiant), Some(logiciel), statut, prix)
  {
    Js.ParseIntOfNumberToString(etudiant);
    Js.ParseIntOfNumberToString(logiciel);
  }

  /** `filteredInscriptions`: everything for "all", otherwise the rows whose statut is the filter. */
  function Filtered(s: seq<Inscription>, filter: string): (r: seq<Inscription>)
    ensures filter == "all" ==> r == s
    ensures filter != "all" ==> forall x :: x in r <==> x in s && x.statut == filter
  {
    if filter == "all" then s else Seqs.Filter(s, (i: Inscription) => i.statut == filter)
  }

  /** The filter keeps the table order. */
  lemma FilteredKeepsOrder(s: seq<Inscription>, filter: string)
    ensures Seqs.IsSubsequence(Filtered(s, filter), s)
  {
    if filter == "all" {
      Seqs.FilterKeepsAll(s, (i: Inscription) => true);
      Seqs.FilterIsSubsequence(s, (i: Inscription) => true);
    } else {
      Seqs.FilterIsSubsequence(s, (i: Inscription) => i.statut == filter);
    }
  }

  class InscriptionsPage {
    var inscriptions: seq<Inscription>
    var newInscription: Form
    var selectedInscription: Option<Selected>
    var filter: string

    constructor ()
      ensures inscriptions == [] && newInscription == EmptyForm
      ensures selectedInscription == None && filter == "all"
    {
      inscriptions := [];
      newInscription := EmptyForm;
      selectedInscription := None;
      filter := "all";
    }

    /** The rows the table shows. */
    function Shown(): (r: seq<Inscription>)
      reads this
      ensures filter == "all" ==> r == inscriptions
      ensures filter != "all" ==> forall x :: x in r <==> x in inscriptions && x.statut == filter
    {
      Filtered(inscriptions, filter)
    }

    /** `handleCreate` (no guard): send the form, then append the stored row and reset the form. */
    method HandleCreate(outcome: RecordList.Written<Inscription>) returns (request: Payload)
      modifies this
      ensures request == CreatePayload(old(newInscription))
      ensures outcome.Written? ==> inscriptions == old(inscriptions) + [outcome.row] && newInscription == EmptyForm
      ensures outcome.WriteFailed? ==> inscriptions == old(inscriptions) && newInscription == old(newInscription)
      ensures selectedInscription == old(selectedInscription) && filter == old(filter)
    {
      request := CreatePayload(newInscription);
      if outcome.Written? {
        inscriptions := inscriptions + [outcome.row];
        newInscription := EmptyForm;
      }
    }

    /**
     * `handleUpdate`: nothing without a selection; otherwise the selection is sent,
     * and after a stored update the row with the selected id is replaced and the
     * selection cleared.
     */
    method HandleUpdate(outcome: RecordList.Written<Inscription>) returns (request: Option<Payload>)
      modifies this
      ensures request.Some? <==> old(selectedInscription).Some?
      ensures request.Some? ==> request.value == UpdatePayload(old(selectedInscription).value)
      ensures request.Some? && outcome.Written? ==>
        inscriptions == RecordList.ReplaceById(old(inscriptions), IdOf, old(selectedInscription).value.id, outcome.row)
        && selectedInscription == None
      ensures !(request.Some? && outcome.Written?) ==>
        inscriptions == old(inscriptions) && selectedInscription == old(selectedInscription)
      ensures newInscription == old(newInscription) && filter == old(filter)
    {
      request := if selectedInscription.Some? then Some(UpdatePayload(selectedInscription.value)) else None;
      if request.Some? && outcome.Written? {
        inscriptions := RecordList.ReplaceById(inscriptions, IdOf, selectedInscription.value.id, outcome.row);
        selectedInscription := None;
      }
    }

    /** Re-picking the student in the edit dialog, which is only open with a selection. */
    method PickEditEtudiant(value: string)
      requires selectedInscription.Some?
      modifies this
      ensures selectedInscription == Some(old(selectedInscription).value.(etudiantId := RecordList.IdText(value)))
      ensures inscriptions == old(inscriptions) && newInscription == old(newInscription) && filter == old(filter)
    {
      selectedInscription := Some(selectedInscription.value.(etudiantId := RecordList.IdText(value)));
    }

    /** Re-picking the course in the edit dialog. */
    method PickEditLogiciel(value: string)
      requires selectedInscription.Some?
      modifies this
      ensures selectedInscription == Some(old(selectedInscription).value.(logicielId := RecordList.IdText(value)))
      ensures inscriptions == old(inscriptions) && newInscription == old(newInscription) && filter == old(filter)
    {
      selectedInscription := Some(selectedInscription.value.(logicielId := RecordList.IdText(value)));
    }

    /** `handleDelete` once the delete has answered (`deleted` is the absence of an error). */
    method HandleDelete(id: int, deleted: bool)
      modifies this
      ensures deleted ==> inscriptions == RecordList.RemoveById(old(inscriptions), IdOf, id)
      ensures !deleted ==> inscriptions == old(inscriptions)
      ensures newInscription == old(newInscription) && selectedInscription == old(selectedInscription)
      ensures filter == old(filter)
    {
      if deleted {
        inscriptions := RecordList.RemoveById(inscriptions, IdOf, id);
      }
    }

    /** `openEditDialog`: the row becomes the selection. */
    method OpenEditDialog(row: Inscription)
      modifies this
      ensures selectedInscription == Some(SelectionOf(row))
      ensures inscriptions == old(inscriptions) && newInscription == old(newInscription) && filter == old(filter)
    {
      selectedInscription := Some(SelectionOf(row));
    }

    /** The status select. */
    method SetFilter(value: string)
      modifies this
      ensures filter == value
      ensures inscriptions == old(inscriptions) && newInscription == old(newInscription)
      ensures selectedInscription == old(selectedInscription)
    {
      filter := value;
    }
  }
}
