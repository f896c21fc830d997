/** The timetable page: each handler updates the slot list and the two forms in place. */
module Schedule {

  import opened Wrappers
  import Js
  import RecordList

  /** A timetable slot as fetched with its course. */
  datatype EmploiTemps = EmploiTemps(id: int, logicielId: int, jourSemaine: string, heureDebut: string, heureFin: string)

  function IdOf(e: EmploiTemps): int {
    e.id
  }

  /** `newEmploiTemps`: the course select holds the id as a string. */
  datatype NewEmploiTemps = NewEmploiTemps(logicielId: string, jourSemaine: string, heureDebut: string, heureFin: string)

  /** `selectedEmploiTemps`: the slot being edited. */
  datatype Selected = Selected(id: int, logicielId: RecordList.IdValue, jourSemaine: string, heureDebut: string, heureFin: string)

  /** The columns sent by an insert or an update; an unreadable course id is `None` (NaN). */
  datatype Payload = Payload(logicielId: Option<int>, jourSemaine: string, heureDebut: string, heureFin: string)

  /** `joursSemaineOptions`. */
  function JoursSemaine(): (days: seq<string>)
    ensures |days| == 7 && days[0] == "lundi" && days[6] == "dimanche"
    ensures forall i, j :: 0 <= i < j < |days| ==> days[i] != days[j]
  {
    ["lundi", "mardi", "mercredi", "jeudi", "vendredi", "samedi", "dimanche"]
  }

  /** The create form on first render and after a create: Monday, no times, the first course or none. */
  function ResetForm(logicielIds: seq<int>): (f: NewEmploiTemps)
    ensures f.jourSemaine == "lundi" && f.heureDebut == "" && f.heureFin == ""
    ensures logicielIds == [] <==> f.logicielId == ""
    ensures logicielIds != [] ==> Js.ParseInt(f.logicielId) == Some(logicielIds[0])
  {
    if |logicielIds| > 0 then
      Js.ParseIntOfNumberToString(logicielIds[0]);
      NewEmploiTemps(Js.NumberToString(logicielIds[0]), "lundi", "", "")
    else
      NewEmploiTemps("", "lundi", "", "")
  }

  /** The create guard: a course and both times filled in. */
  predicate CreateAccepted(f: NewEmploiTemps) {
    f.logicielId != "" && f.heureDebut != "" && f.heureFin != ""
  }

  /** The update guard: the same three fields of the selection. */
  predicate UpdateAccepted(s: Selected) {
    RecordList.IdTruthy(s.logicielId) && s.heureDebut != "" && s.heureFin != ""
  }

  function CreatePayload(f: NewEmploiTemps): (p: Payload)
    ensures p.jourSemaine == f.jourSemaine && p.heureDebut == f.heureDebut && p.heureFin == f.heureFin
    ensures p.logicielId == Js.ParseInt(f.logicielId)
    ensures f.logicielId == "" ==> p.logicielId.None?
  {
    Payload(Js.ParseInt(f.logicielId), f.jourSemaine, f.heureDebut, f.heureFin)
  }

  /** A course picked in the create select, whose value is `id.toString()`, is sent unchanged. */
  lemma SelectedCourseIsSent(f: NewEmploiTemps, n: int)
    ensures CreatePayload(f.(logicielId := Js.NumberToString(n))).logicielId == Some(n)
  {
    Js.ParseIntOfNumberToString(n);
  }

  function UpdatePayload(s: Selected): (p: Payload)
    ensures p.jourSemaine == s.jourSemaine && p.heureDebut == s.heureDebut && p.heureFin == s.heureFin
    ensures s.logicielId.IdNum? ==> p.logicielId == Some(s.logicielId.n)
    ensures s.logicielId.IdText? ==> p.logicielId == Js.ParseInt(s.logicielId.s)
  {
    Payload(RecordList.ParseId(s.logicielId), s.jourSemaine, s.heureDebut, s.heureFin)
  }

  /** A course re-picked in the edit select, stored as `id.toString()`, is sent unchanged. */
  lemma RepickedCourseIsSent(s: Selected, n: int)
    ensures UpdatePayload(s.(logicielId := RecordList.IdText(Js.NumberToString(n)))).logicielId == Some(n)
  {
    Js.ParseIntOfNumberToString(n);
  }

  /** The reset form is rejected until both times are entered, and then sends the first course. */
  lemma ResetFormNeedsTimes(logicielIds: seq<int>, debut: string, fin: string)
    requires logicielIds != []
    ensures !CreateAccepted(ResetForm(logicielIds))
    ensures var f := ResetForm(logicielIds).(heureDebut := debut, heureFin := fin);
      (CreateAccepted(f) <==> debut != "" && fin != "") && CreatePayload(f).logicielId == Some(logicielIds[0])
  {
  }

  class SchedulePage {
    var emploisTemps: seq<EmploiTemps>
    var logicielIds: seq<int>
    var newEmploiTemps: NewEmploiTemps
    var selectedEmploiTemps: Option<Selected>

    /** Slot ids are unique. */
    predicate Valid()
      reads this
    {
      RecordList.UniqueIds(emploisTemps, IdOf)
    }

    constructor ()
      ensures emploisTemps == [] && logicielIds == [] && selectedEmploiTemps == None
      ensures newEmploiTemps == ResetForm([])
      ensures Valid()
    {
      emploisTemps := [];
      logicielIds := [];
      newEmploiTemps := ResetForm([]);
      selectedEmploiTemps := None;
    }

    /**
     * `fetchLogiciels` once the query has answered (`None` for an error): keep the
     * course ids and preselect the first one when the form has no course yet.
     */
    method AfterFetchLogiciels(result: Option<seq<int>>)
      modifies this
      ensures result.None? ==> logicielIds == old(logicielIds) && newEmploiTemps == old(newEmploiTemps)
      ensures result.Some? ==> logicielIds == result.value
      ensures result.Some? && |result.value| > 0 && old(newEmploiTemps).logicielId == "" ==>
        newEmploiTemps == old(newEmploiTemps).(logicielId := Js.NumberToString(result.value[0]))
      ensures result.Some? && !(|result.value| > 0 && old(newEmploiTemps).logicielId == "") ==>
        newEmploiTemps == old(newEmploiTemps)
      ensures emploisTemps == old(emploisTemps) && selectedEmploiTemps == old(selectedEmploiTemps)
    {
      if result.Some? {
        logicielIds := result.value;
        if |result.value| > 0 && newEmploiTemps.logicielId == "" {
          newEmploiTemps := newEmploiTemps.(logicielId := Js.NumberToString(result.value[0]));
        }
      }
    }

    /** `handleCreate`: the guard decides whether the insert is sent; a stored slot is appended. */
    method HandleCreate(outcome: RecordList.Written<EmploiTemps>) returns (request: Option<Payload>)
      modifies this
      ensures request.Some? <==> CreateAccepted(old(newEmploiTemps))
      ensures request.Some? ==> request.value == CreatePayload(old(newEmploiTemps))
      ensures request.Some? && outcome.Written? ==>
        emploisTemps == old(emploisTemps) + [outcome.row] && newEmploiTemps == ResetForm(logicielIds)
      ensures !(request.Some? && outcome.Written?) ==>
        emploisTemps == old(emploisTemps) && newEmploiTemps == old(newEmploiTemps)
      ensures logicielIds == old(logicielIds) && selectedEmploiTemps == old(selectedEmploiTemps)
      ensures old(Valid()) && (outcome.Written? ==> forall e :: e in old(emploisTemps) ==> e.id != outcome.row.id)
        ==> Valid()
    {
      request := if CreateAccepted(newEmploiTemps) then Some(CreatePayload(newEmploiTemps)) else None;
      if request.Some? && outcome.Written? {
        RecordList.AppendKeepsUniqueIds(emploisTemps, IdOf, outcome.row);
        emploisTemps := emploisTemps + [outcome.row];
        newEmploiTemps := ResetForm(logicielIds);
      }
    }

    /**
     * `handleUpdate`: nothing is sent without a selection or when the guard fails; a
     * stored slot replaces the one with the selected id and the selection is cleared.
     */
    method HandleUpdate(outcome: RecordList.Written<EmploiTemps>) returns (request: Option<Payload>)
      modifies this
      ensures request.Some? <==> old(selectedEmploiTemps).Some? && UpdateAccepted(old(selectedEmploiTemps).value)
      ensures request.Some? ==> request.value == UpdatePayload(old(selectedEmploiTemps).value)
      ensures request.Some? && outcome.Written? ==>
        emploisTemps == RecordList.ReplaceById(old(emploisTemps), IdOf, old(selectedEmploiTemps).value.id, outcome.row)
        && selectedEmploiTemps == None
      ensures !(request.Some? && outcome.Written?) ==>
        emploisTemps == old(emploisTemps) && selectedEmploiTemps == old(selectedEmploiTemps)
      ensures logicielIds == old(logicielIds) && newEmploiTemps == old(newEmploiTemps)
      ensures old(Valid()) && (request.Some? && outcome.Written? ==> outcome.row.id == old(selectedEmploiTemps).value.id)
        ==> Valid()
    {
      request := if selectedEmploiTemps.Some? && UpdateAccepted(selectedEmploiTemps.value)
                 then Some(UpdatePayload(selectedEmploiTemps.value)) else None;
      if request.Some? && outcome.Written? {
        var id := selectedEmploiTemps.value.id;
        RecordList.ReplaceKeepsUniqueIds(emploisTemps, IdOf, id, outcome.row);
        emploisTemps := RecordList.ReplaceById(emploisTemps, IdOf, id, outcome.row);
        selectedEmploiTemps := None;
      }
    }

    /** `handleDelete` once the backend has answered (`deleted` is the absence of an error). */
    method HandleDelete(id: int, deleted: bool)
      modifies this
      ensures deleted ==> emploisTemps == RecordList.RemoveById(old(emploisTemps), IdOf, id)
      ensures !deleted ==> emploisTemps == old(emploisTemps)
      ensures logicielIds == old(logicielIds) && newEmploiTemps == old(newEmploiTemps)
      ensures selectedEmploiTemps == old(selectedEmploiTemps)
      ensures old(Valid()) ==> Valid()
    {
      if deleted {
        RecordList.RemoveKeepsUniqueIds(emploisTemps, IdOf, id);
        emploisTemps := RecordList.RemoveById(emploisTemps, IdOf, id);
      }
    }

    /** Re-picking the course in the edit dialog, which is only open with a selection. */
    method PickEditLogiciel(value: string)
      requires selectedEmploiTemps.Some?
      modifies this
      ensures selectedEmploiTemps == Some(old(selectedEmploiTemps).value.(logicielId := RecordList.IdText(value)))
      ensures emploisTemps == old(emploisTemps) && logicielIds == old(logicielIds)
      ensures newEmploiTemps == old(newEmploiTemps)
    {
      selectedEmploiTemps := Some(selectedEmploiTemps.value.(logicielId := RecordList.IdText(value)));
    }

    /** `openEditDialog`: the slot becomes the selection, its course id copied as a number. */
    method OpenEditDialog(e: EmploiTemps)
      modifies this
      ensures selectedEmploiTemps == Some(Selected(e.id, RecordList.IdNum(e.logicielId), e.jourSemaine, e.heureDebut, e.heureFin))
      ensures emploisTemps == old(emploisTemps) && logicielIds == old(logicielIds)
      ensures newEmploiTemps == old(newEmploiTemps)
    {
      selectedEmploiTemps := Some(Selected(e.id, RecordList.IdNum(e.logicielId), e.jourSemaine, e.heureDebut, e.heureFin));
    }
  }
}
