/** The students page: the save guard and payload, the edit form, the badge and the search filter. */
module Students {

  import opened Wrappers
  import Js
  import Text
  import Seqs

  /** A student as the form holds it (`Partial<Student>`): any field may be missing. */
  datatype Student = Student(
    id: Option<int>, matricule: Js.Text, nom: Js.Text, prenom: Js.Text, email: Js.Text,
    telephone: Js.Text, adresse: Js.Text, dateNaissance: Js.Text, statut: Js.Text,
    photo: Js.Text, extraitNaissance: Js.Text)

  /** `emptyStudent`: every field "" except statut "actif". */
  const EmptyStudent := Student(
    None, Js.Str(""), Js.Str(""), Js.Str(""), Js.Str(""), Js.Str(""), Js.Str(""), Js.Str(""),
    Js.Str("actif"), Js.Str(""), Js.Str(""))

  /** The columns sent by an update or an insert. */
  datatype Row = Row(
    matricule: Js.Text, nom: Js.Text, prenom: Js.Text, email: Js.Text, telephone: Js.Text,
    adresse: Js.Text, dateNaissance: Js.Text, statut: string, photo: Js.Text, extraitNaissance: Js.Text)

  /** What `handleSave` sends: nothing, an update of an existing id, or an insert. */
  datatype SaveRequest = Rejected | UpdateRow(id: int, row: Row) | InsertRow(row: Row)

  /** Nom, prénom, email and matricule must all be non-empty. */
  predicate RequiredFilled(f: Student) {
    Js.Truthy(f.nom) && Js.Truthy(f.prenom) && Js.Truthy(f.email) && Js.Truthy(f.matricule)
  }

  function RowOf(f: Student): Row {
    Row(f.matricule, f.nom, f.prenom, f.email, f.telephone, f.adresse, f.dateNaissance,
        Js.Or(f.statut, "actif"), f.photo, f.extraitNaissance)
  }

  /** `handleSave`: the guard, then an update when the form has a (truthy) id and an insert otherwise. */
  function SaveRequestOf(f: Student): (r: SaveRequest)
    ensures r.Rejected? <==> !RequiredFilled(f)
    ensures r.UpdateRow? <==> RequiredFilled(f) && f.id.Some? && f.id.value != 0
    ensures r.UpdateRow? ==> r.id == f.id.value
    ensures !r.Rejected? ==> r.row.statut == (if Js.Truthy(f.statut) then f.statut.value else "actif")
    ensures !r.Rejected? ==>
              r.row.nom == f.nom && r.row.prenom == f.prenom && r.row.email == f.email
              && r.row.matricule == f.matricule && r.row.telephone == f.telephone && r.row.adresse == f.adresse
              && r.row.dateNaissance == f.dateNaissance && r.row.photo == f.photo
              && r.row.extraitNaissance == f.extraitNaissance
  {
    if !RequiredFilled(f) then Rejected
    else if f.id.Some? && f.id.value != 0 then UpdateRow(f.id.value, RowOf(f))
    else InsertRow(RowOf(f))
  }

  /** The add form, once its required fields are typed in, is inserted as an active student. */
  lemma AddFormInsertsActive(matricule: string, nom: string, prenom: string, email: string)
    requires matricule != "" && nom != "" && prenom != "" && email != ""
    ensures
      var f := EmptyStudent.(matricule := Js.Str(matricule), nom := Js.Str(nom),
                             prenom := Js.Str(prenom), email := Js.Str(email));
      SaveRequestOf(f).InsertRow? && SaveRequestOf(f).row.statut == "actif"
  {
  }

  /** The edit form's `date_naissance`: the part before the first 'T', or "" when missing. */
  function EditDate(d: Js.Text): (r: string)
    ensures !Js.Truthy(d) ==> r == ""
    ensures Js.Truthy(d) ==> Text.IsPrefix(r, d.value) && 'T' !in r
    ensures Js.Truthy(d) && |r| < |d.value| ==> d.value[|r|] == 'T'
  {
    if Js.Truthy(d) then Text.BeforeFirst(d.value, 'T') else ""
  }

  /** A timestamp `date + 'T' + time` loads into the form as its date part. */
  lemma EditDateOfTimestamp(date: string, time: string)
    requires 'T' !in date
    ensures EditDate(Js.Str(date + "T" + time)) == date
  {
    Text.BeforeFirstOfJoin(date, 'T', time);
  }

  /** The six fields the search looks at, as a template literal renders them. */
  function Fields(s: Student): (fs: seq<string>)
    ensures |fs| == 6
  {
    [Js.Render(s.nom), Js.Render(s.prenom), Js.Render(s.matricule), Js.Render(s.email),
     Js.Render(s.telephone), Js.Render(s.adresse)]
  }

  /** The six fields rendered into one text, separated by single spaces. */
  function Haystack(s: Student): string {
    var fs := Fields(s);
    fs[0] + " " + fs[1] + " " + fs[2] + " " + fs[3] + " " + fs[4] + " " + fs[5]
  }

  predicate MatchesSearch(s: Student, search: string) {
    Text.Contains(Text.ToLower(Haystack(s)), Text.ToLower(search))
  }

  predicate MatchesStatut(s: Student, filterStatut: string) {
    filterStatut == "all" || s.statut == Js.Str(filterStatut)
  }

  /** `filtered`: the students matching both the search and the status filter, in order. */
  function Filtered(students: seq<Student>, search: string, filterStatut: string): (r: seq<Student>)
    ensures forall x :: x in r <==> x in students && MatchesSearch(x, search) && MatchesStatut(x, filterStatut)
  {
    Seqs.Filter(students, (s: Student) => MatchesSearch(s, search) && MatchesStatut(s, filterStatut))
  }

  /** Each field appears whole in the haystack. */
  lemma FieldInHaystack(s: Student, k: nat)
    requires k < 6
    ensures Text.Contains(Haystack(s), Fields(s)[k])
  {
    var fs, sp, n := Fields(s), " ", Fields(s)[k];
    assert Text.IsPrefix(n, n);
    var h1 := fs[0] + sp + fs[1];
    var h2 := h1 + sp + fs[2];
    var h3 := h2 + sp + fs[3];
    var h4 := h3 + sp + fs[4];
    Text.ContainsEitherHalf(fs[0], sp, n);
    Text.ContainsEitherHalf(fs[0] + sp, fs[1], n);
    Text.ContainsEitherHalf(h1, sp, n);
    Text.ContainsEitherHalf(h1 + sp, fs[2], n);
    Text.ContainsEitherHalf(h2, sp, n);
    Text.ContainsEitherHalf(h2 + sp, fs[3], n);
    Text.ContainsEitherHalf(h3, sp, n);
    Text.ContainsEitherHalf(h3 + sp, fs[4], n);
    Text.ContainsEitherHalf(h4, sp, n);
    Text.ContainsEitherHalf(h4 + sp, fs[5], n);
  }

  /** Searching for any part of any one field, in any letter case, finds the student. */
  lemma SearchFindsEachField(s: Student, k: nat, term: string)
    requires k < 6 && Text.Contains(Fields(s)[k], term)
    ensures MatchesSearch(s, term)
  {
    FieldInHaystack(s, k);
    Text.ContainsTransitive(Haystack(s), Fields(s)[k], term);
    Text.ContainsToLower(Haystack(s), term);
  }

  /** An empty search and the "all" filter show every student. */
  lemma EmptySearchShowsAll(students: seq<Student>)
    ensures Filtered(students, "", "all") == students
  {
    forall s: Student
      ensures MatchesSearch(s, "") && MatchesStatut(s, "all")
    {
      Text.ContainsEmpty(Text.ToLower(Haystack(s)));
    }
    Seqs.FilterKeepsAll(students, (s: Student) => MatchesSearch(s, "") && MatchesStatut(s, "all"));
  }

  /** A missing field is rendered "undefined", so that word finds every student missing a field. */
  lemma MissingFieldMatchesUndefined(s: Student)
    requires s.telephone.Undefined?
    ensures MatchesSearch(s, "undefined")
  {
    assert Text.Contains(Fields(s)[4], "undefined") by {
      Text.ContainsEmpty([]);
      assert Fields(s)[4] == "undefined";
      assert Text.IsPrefix("undefined", Fields(s)[4]);
    }
    SearchFindsEachField(s, 4, "undefined");
  }

  class StudentsPage {
    var students: seq<Student>
    var search: string
    var filterStatut: string
    var currentStudent: Student

    constructor ()
      ensures students == [] && search == "" && filterStatut == "all" && currentStudent == EmptyStudent
    {
      students := [];
      search := "";
      filterStatut := "all";
      currentStudent := EmptyStudent;
    }

    /** The rows the table shows. */
    function Shown(): (r: seq<Student>)
      reads this
      ensures forall x :: x in r <==> x in students && MatchesSearch(x, search) && MatchesStatut(x, filterStatut)
    {
      Filtered(students, search, filterStatut)
    }

    /** `openAddDialog`: the form starts from `emptyStudent`. */
    method OpenAddDialog()
      modifies this
      ensures currentStudent == EmptyStudent
      ensures students == old(students) && search == old(search) && filterStatut == old(filterStatut)
    {
      currentStudent := EmptyStudent;
    }

    /** `openEditDialog`: the student's fields, with the birth date cut to its date part. */
    method OpenEditDialog(s: Student)
      modifies this
      ensures currentStudent == s.(dateNaissance := Js.Str(EditDate(s.dateNaissance)))
      ensures students == old(students) && search == old(search) && filterStatut == old(filterStatut)
    {
      currentStudent := s.(dateNaissance := Js.Str(EditDate(s.dateNaissance)));
    }

    /** `openDetailDialog`: the student as fetched. */
    method OpenDetailDialog(s: Student)
      modifies this
      ensures currentStudent == s
      ensures students == old(students) && search == old(search) && filterStatut == old(filterStatut)
    {
      currentStudent := s;
    }

    /** `handleSave` decides on the current form and changes no state before the backend answers. */
    method HandleSave() returns (request: SaveRequest)
      ensures request == SaveRequestOf(currentStudent)
      ensures request.Rejected? <==> !RequiredFilled(currentStudent)
    {
      request := SaveRequestOf(currentStudent);
    }
  }
}
