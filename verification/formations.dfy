/** The course catalogue page: each handler updates the course list, the create form or the selection. */
module Formations {

  import opened Wrappers
  import RecordList

  /** A course ("logiciel") row. */
  datatype Logiciel = Logiciel(id: int, codeLogiciel: string, nom: string, description: string, duree: string, prix: int)

  function IdOf(l: Logiciel): int {
    l.id
  }

  /** `newLogiciel`, which is also the inserted row. */
  datatype NewLogiciel = NewLogiciel(codeLogiciel: string, nom: string, description: string, duree: string, prix: int)

  /** The form on first render and after a create. */
  const EmptyLogiciel := NewLogiciel("", "", "", "indefini", 0)

  /** `dureeOptions`: the seven durations, "indefini" last. */
  function DureeOptions(): (options: seq<string>)
    ensures |options| == 7 && options[6] == EmptyLogiciel.duree
    ensures forall i, j :: 0 <= i < j < |options| ==> options[i] != options[j]
  {
    ["1semaine", "2semaines", "3semaines", "1mois", "2mois", "3mois", "indefini"]
  }

  class FormationsPage {
    var logiciels: seq<Logiciel>
    var newLogiciel: NewLogiciel
    var selectedLogiciel: Option<Logiciel>

    /** Course ids are unique. */
    predicate Valid()
      reads this
    {
      RecordList.UniqueIds(logiciels, IdOf)
    }

    constructor ()
      ensures logiciels == [] && newLogiciel == EmptyLogiciel && selectedLogiciel == None
      ensures Valid()
    {
      logiciels := [];
      newLogiciel := EmptyLogiciel;
      selectedLogiciel := None;
    }

    /** `handleCreate` (no guard): the form is sent as is, and a stored row is appended. */
    method HandleCreate(outcome: RecordList.Written<Logiciel>) returns (sentRow: NewLogiciel)
      modifies this
      ensures sentRow == old(newLogiciel)
      ensures outcome.Written? ==> logiciels == old(logiciels) + [outcome.row] && newLogiciel == EmptyLogiciel
      ensures outcome.WriteFailed? ==> logiciels == old(logiciels) && newLogiciel == old(newLogiciel)
      ensures selectedLogiciel == old(selectedLogiciel)
      ensures old(Valid()) && (outcome.Written? ==> forall l :: l in old(logiciels) ==> l.id != outcome.row.id)
        ==> Valid()
    {
      sentRow := newLogiciel;
      if outcome.Written? {
        RecordList.AppendKeepsUniqueIds(logiciels, IdOf, outcome.row);
        logiciels := logiciels + [outcome.row];
        newLogiciel := EmptyLogiciel;
      }
    }

    /**
     * `handleUpdate`: nothing without a selection; the selection itself is sent, a
     * stored row replaces the one with its id, and the selection is cleared.
     */
    method HandleUpdate(outcome: RecordList.Written<Logiciel>) returns (sentRow: Option<Logiciel>)
      modifies this
      ensures sentRow == old(selectedLogiciel)
      ensures sentRow.Some? && outcome.Written? ==>
        logiciels == RecordList.ReplaceById(old(logiciels), IdOf, sentRow.value.id, outcome.row)
        && selectedLogiciel == None
      ensures !(sentRow.Some? && outcome.Written?) ==>
        logiciels == old(logiciels) && selectedLogiciel == old(selectedLogiciel)
      ensures newLogiciel == old(newLogiciel)
      ensures old(Valid()) && (sentRow.Some? && outcome.Written? ==> outcome.row.id == sentRow.value.id)
        ==> Valid()
    {
      sentRow := selectedLogiciel;
      if selectedLogiciel.Some? && outcome.Written? {
        var id := selectedLogiciel.value.id;
        RecordList.ReplaceKeepsUniqueIds(logiciels, IdOf, id, outcome.row);
        logiciels := RecordList.ReplaceById(logiciels, IdOf, id, outcome.row);
        selectedLogiciel := None;
      }
    }

    /** `handleDelete` once the backend has answered (`deleted` is the absence of an error). */
    method HandleDelete(id: int, deleted: bool)
      modifies this
      ensures deleted ==> logiciels == RecordList.RemoveById(old(logiciels), IdOf, id)
      ensures !deleted ==> logiciels == old(logiciels)
      ensures newLogiciel == old(newLogiciel) && selectedLogiciel == old(selectedLogiciel)
      ensures old(Valid()) ==> Valid()
    {
      if deleted {
        RecordList.RemoveKeepsUniqueIds(logiciels, IdOf, id);
        logiciels := RecordList.RemoveById(logiciels, IdOf, id);
      }
    }

    /** `openEditDialog`: the row becomes the selection. */
    method OpenEditDialog(l: Logiciel)
      modifies this
      ensures selectedLogiciel == Some(l)
      ensures logiciels == old(logiciels) && newLogiciel == old(newLogiciel)
    {
      selectedLogiciel := Some(l);
    }
  }
}
