/** The administrators page: the role badge, the save plan with its guards, and delete outcomes. */
module Users {

  import opened Wrappers
  import Js

  /** A row of `utilisateurs`; ids are the auth service's string ids. */
  datatype User = User(
    id: string, nom: string, prenom: string, email: string, role: string, actif: bool,
    telephone: Js.Text, adresse: Js.Text)

  /** `currentUser` (`Partial<User>` plus `mot_de_passe`): any text field may be missing. */
  datatype UserForm = UserForm(
    id: Js.Text, nom: Js.Text, prenom: Js.Text, email: Js.Text, role: Js.Text,
    motDePasse: Js.Text, actif: bool, telephone: Js.Text, adresse: Js.Text)

  /** `emptyUser`. */
  const EmptyUser := UserForm(
    Js.Undefined, Js.Str(""), Js.Str(""), Js.Str(""), Js.Str("admin"), Js.Str(""), true,
    Js.Undefined, Js.Undefined)

  const AdminClass := "bg-primary/10 text-primary"
  const AdminJuniorClass := "bg-blue-100 text-blue-700 dark:bg-blue-900/30 dark:text-blue-300"

  /** `roleBadge`: a class for each of the two roles, "" for anything else. */
  function RoleBadge(role: string): (classes: string)
    ensures role == "admin" ==> classes == AdminClass
    ensures role == "admin_junior" ==> classes == AdminJuniorClass
    ensures role != "admin" && role != "admin_junior" <==> classes == ""
  {
    var table := map["admin" := AdminClass, "admin_junior" := AdminJuniorClass];
    if role in table then table[role] else ""
  }

  /** The columns written to `utilisateurs`. */
  datatype Row = Row(nom: Js.Text, prenom: Js.Text, email: Js.Text, role: Js.Text, actif: bool, telephone: Js.Text, adresse: Js.Text)

  function RowOf(f: UserForm): Row {
    Row(f.nom, f.prenom, f.email, f.role, f.actif, f.telephone, f.adresse)
  }

  /**
   * What `handleSave` does: reject for missing fields, reject a new user's short
   * password, update an existing user (also updating the auth email when it
   * changed), or create the auth account and then the row.
   */
  datatype SavePlan =
    | MissingFields
    | ShortPassword
    | UpdateUser(id: string, row: Row, updateAuthEmail: bool)
    | CreateUser(email: Js.Text, password: string, row: Row)

  /** The position of the first user with that id. */
  function FindIndex(users: seq<User>, id: string): (r: Option<nat>)
    ensures r.None? <==> forall i :: 0 <= i < |users| ==> users[i].id != id
    ensures r.Some? ==>
              r.value < |users| && users[r.value].id == id
              && forall j :: 0 <= j < r.value ==> users[j].id != id
  {
    if users == [] then None
    else if users[0].id == id then Some(0)
    else
      match FindIndex(users[1..], id)
      case None => None
      case Some(i) => Some(i + 1)
  }

  /** The first listed user with the id, if any. */
  function FindUser(users: seq<User>, id: string): (r: Option<User>)
    ensures r.None? <==> forall i :: 0 <= i < |users| ==> users[i].id != id
    ensures r.Some? ==> r.value in users && r.value.id == id
    ensures r.Some? ==> exists i :: 0 <= i < |users| && users[i] == r.value && forall j :: 0 <= j < i ==> users[j].id != id
  {
    match FindIndex(users, id)
    case None => None
    case Some(i) => Some(users[i])
  }

  predicate RequiredFilled(f: UserForm) {
    Js.Truthy(f.nom) && Js.Truthy(f.prenom) && Js.Truthy(f.email) && Js.Truthy(f.role)
  }

  /** A new user's password must be present and at least 6 characters long. */
  predicate PasswordAccepted(pw: Js.Text) {
    Js.Truthy(pw) && |pw.value| >= 6
  }

  /** The auth email is updated only when the stored user with that id had another email. */
  predicate EmailChanged(users: seq<User>, f: UserForm)
    requires Js.Truthy(f.id)
  {
    var original := FindUser(users, f.id.value);
    original.Some? && Js.Str(original.value.email) != f.email
  }

  function PlanSave(users: seq<User>, f: UserForm): (plan: SavePlan)
    ensures plan.MissingFields? <==> !RequiredFilled(f)
    ensures plan.UpdateUser? <==> RequiredFilled(f) && Js.Truthy(f.id)
    ensures plan.ShortPassword? <==> RequiredFilled(f) && !Js.Truthy(f.id) && !PasswordAccepted(f.motDePasse)
    ensures plan.CreateUser? ==> |plan.password| >= 6 && plan.email == f.email && plan.row == RowOf(f)
    ensures plan.UpdateUser? ==>
              plan.id == f.id.value && plan.row == RowOf(f)
              && (plan.updateAuthEmail <==> EmailChanged(users, f))
  {
    if !RequiredFilled(f) then MissingFields
    else if Js.Truthy(f.id) then UpdateUser(f.id.value, RowOf(f), EmailChanged(users, f))
    else if !PasswordAccepted(f.motDePasse) then ShortPassword
    else CreateUser(f.email, f.motDePasse.value, RowOf(f))
  }

  /** `openEditDialog`: the user's fields with the password field emptied. */
  function EditForm(u: User): (f: UserForm)
    ensures f.motDePasse == Js.Str("") && f.id == Js.Str(u.id)
    ensures f.nom == Js.Str(u.nom) && f.prenom == Js.Str(u.prenom) && f.email == Js.Str(u.email)
    ensures f.role == Js.Str(u.role) && f.actif == u.actif && f.telephone == u.telephone && f.adresse == u.adresse
  {
    UserForm(Js.Str(u.id), Js.Str(u.nom), Js.Str(u.prenom), Js.Str(u.email), Js.Str(u.role), Js.Str(""),
             u.actif, u.telephone, u.adresse)
  }

  /** Saving an unedited edit form of a listed user never touches the auth email. */
  lemma UneditedSaveKeepsAuthEmail(users: seq<User>, k: nat)
    requires k < |users| && users[k].id != ""
    requires forall i, j :: 0 <= i < j < |users| ==> users[i].id != users[j].id
    ensures var f := EditForm(users[k]);
      RequiredFilled(f) ==> PlanSave(users, f) == UpdateUser(users[k].id, RowOf(f), false)
  {
    var i := FindIndex(users, users[k].id);
    assert i.Some?;
    assert i.value == k;
  }

  /** The add form always fails the password check until a password is typed. */
  lemma AddFormNeedsPassword(users: seq<User>, nom: string, prenom: string, email: string)
    requires nom != "" && prenom != "" && email != ""
    ensures PlanSave(users, EmptyUser.(nom := Js.Str(nom), prenom := Js.Str(prenom), email := Js.Str(email)))
            == ShortPassword
  {
  }

  /** How a confirmed delete ends: whether the row delete failed, and whether a warning is shown. */
  datatype DeleteOutcome = NotConfirmed | DeleteFailed(authWarning: bool) | Deleted(authWarning: bool)

  /**
   * `handleDelete`: `authError` is the auth delete's error message, `dbDeleted` the
   * absence of a row delete error. "User not found" in auth is not reported.
   */
  function DeleteOutcomeOf(confirmed: bool, authError: Option<string>, dbDeleted: bool): (r: DeleteOutcome)
    ensures r.NotConfirmed? <==> !confirmed
    ensures r.Deleted? <==> confirmed && dbDeleted
    ensures !r.NotConfirmed? ==> (r.authWarning <==> authError.Some? && authError.value != "User not found")
  {
    if !confirmed then NotConfirmed
    else
      var warn := authError.Some? && authError.value != "User not found";
      if dbDeleted then Deleted(warn) else DeleteFailed(warn)
  }

  /** An auth failure alone never stops the row from being deleted. */
  lemma AuthErrorDoesNotBlockDelete(message: string)
    ensures DeleteOutcomeOf(true, Some(message), true).Deleted?
    ensures DeleteOutcomeOf(true, Some("User not found"), true) == Deleted(false)
  {
  }

  class UsersPage {
    var users: seq<User>
    var currentUser: UserForm

    constructor ()
      ensures users == [] && currentUser == EmptyUser
    {
      users := [];
      currentUser := EmptyUser;
    }

    /** `openAddDialog`. */
    method OpenAddDialog()
      modifies this
      ensures currentUser == EmptyUser && users == old(users)
    {
      currentUser := EmptyUser;
    }

    /** `openEditDialog`: the password field is always cleared. */
    method OpenEditDialog(u: User)
      modifies this
      ensures currentUser == EditForm(u) && currentUser.motDePasse == Js.Str("")
      ensures users == old(users)
    {
      currentUser := EditForm(u);
    }

    /** `handleSave` decides from the form and the listed users alone, before any call. */
    method HandleSave() returns (plan: SavePlan)
      ensures plan == PlanSave(users, currentUser)
      ensures plan.CreateUser? ==> PasswordAccepted(currentUser.motDePasse)
    {
      plan := PlanSave(users, currentUser);
    }
  }
}
