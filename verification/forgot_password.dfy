/** The password reset page: a three-step machine, email then reset then success. */
module ForgotPassword {

  import Js
  import Text
  import Seqs

  datatype Step = Email | Reset | Success

  /** Position of a step in the flow. */
  function Rank(s: Step): nat {
    match s
    case Email => 0
    case Reset => 1
    case Success => 2
  }

  /**
   * The answer of the lookup of the trimmed address, which expects at most one
   * row: a query error, or the e-mails stored in the table.
   */
  datatype Lookup = QueryFailed | Table(emails: seq<string>)

  /** The rows the query selects. */
  function Matching(emails: seq<string>, address: string): (r: seq<string>)
    ensures forall e :: e in r <==> e in emails && e == address
  {
    Seqs.Filter(emails, (e: string) => e == address)
  }

  /** `maybeSingle` yields a row only when exactly one row matches; two or more is an error. */
  predicate Found(lookup: Lookup, email: string) {
    lookup.Table? && |Matching(lookup.emails, Text.Trim(email))| == 1
  }

  /** `handleCheckEmail`: move to the reset step once the trimmed address is found. */
  function AfterCheckEmail(email: string, lookup: Lookup): (next: Step)
    ensures next == Reset <==> Found(lookup, email)
    ensures next == Email <==> !Found(lookup, email)
  {
    if Found(lookup, email) then Reset else Email
  }

  /** Spaces typed around the address do not change the outcome of the lookup. */
  lemma LookupIgnoresSurroundingSpaces(email: string, lookup: Lookup)
    ensures AfterCheckEmail(email, lookup) == AfterCheckEmail(Text.Trim(email), lookup)
  {
    Text.TrimIdempotent(email);
  }

  /** An address stored once is found; one not stored at all is not. */
  lemma StoredOnceIsFound(emails: seq<string>, k: nat, email: string)
    requires k < |emails| && emails[k] == Text.Trim(email)
    requires forall i :: 0 <= i < |emails| && i != k ==> emails[i] != emails[k]
    ensures AfterCheckEmail(email, Table(emails)) == Reset
  {
    MatchingHasOne(emails, Text.Trim(email), k);
  }

  lemma {:induction false} MatchingHasOne(emails: seq<string>, address: string, k: nat)
    requires k < |emails| && emails[k] == address
    requires forall i :: 0 <= i < |emails| && i != k ==> emails[i] != address
    ensures |Matching(emails, address)| == 1
  {
    if k == 0 {
      Seqs.FilterKeepsAll(emails[1..], (e: string) => e != address);
      NoneMatching(emails[1..], address);
    } else {
      MatchingHasOne(emails[1..], address, k - 1);
    }
  }

  lemma {:induction false} NoneMatching(emails: seq<string>, address: string)
    requires forall i :: 0 <= i < |emails| ==> emails[i] != address
    ensures Matching(emails, address) == []
  {
    if emails != [] {
      NoneMatching(emails[1..], address);
    }
  }

  /** The client-side checks of the new password, in the order they are made. */
  datatype PasswordCheck = Mismatch | TooShort | Accepted

  function CheckPasswords(password: string, confirmPassword: string): (c: PasswordCheck)
    ensures c == Mismatch <==> password != confirmPassword
    ensures c == TooShort <==> password == confirmPassword && |password| < 6
    ensures c == Accepted <==> password == confirmPassword && |password| >= 6
  {
    if password != confirmPassword then Mismatch
    else if |password| < 6 then TooShort
    else Accepted
  }

  /** The answer of `auth.updateUser({ password })`. */
  datatype UpdateOutcome = Updated | UpdateError(message: string)

  /** `handleResetPassword`: success after an update, or after a "not logged in" error. */
  function AfterReset(password: string, confirmPassword: string, outcome: UpdateOutcome): (next: Step)
    ensures next == Success <==>
      CheckPasswords(password, confirmPassword) == Accepted
      && (outcome.Updated? || Text.Contains(outcome.message, "not logged in"))
    ensures next != Success ==> next == Reset
  {
    if CheckPasswords(password, confirmPassword) != Accepted then Reset
    else if outcome.Updated? || Text.Contains(outcome.message, "not logged in") then Success
    else Reset
  }

  /** Reaching success needs two equal passwords of at least 6 characters. */
  lemma SuccessNeedsValidPassword(password: string, confirmPassword: string, outcome: UpdateOutcome)
    requires AfterReset(password, confirmPassword, outcome) == Success
    ensures password == confirmPassword && |password| >= 6
  {
  }

  /** Any error whose message mentions "not logged in" counts as success. */
  lemma NotLoggedInCountsAsSuccess(password: string, before: string, after: string)
    requires |password| >= 6
    ensures AfterReset(password, password, UpdateError(before + "not logged in" + after)) == Success
  {
    Text.ContainsInfix(before, "not logged in", after);
  }

  /** Both handlers only move forward, one step at a time. */
  lemma StepsOnlyMoveForward(email: string, lookup: Lookup, password: string, confirmPassword: string, outcome: UpdateOutcome)
    ensures Rank(AfterCheckEmail(email, lookup)) - Rank(Email) in {0, 1}
    ensures Rank(AfterReset(password, confirmPassword, outcome)) - Rank(Reset) in {0, 1}
  {
  }

  class ForgotPasswordPage {
    var step: Step
    var email: string
    var password: string
    var confirmPassword: string

    constructor ()
      ensures step == Email && email == "" && password == "" && confirmPassword == ""
    {
      step := Email;
      email := "";
      password := "";
      confirmPassword := "";
    }

    /** The email form, rendered in the first step only. */
    method HandleCheckEmail(lookup: Lookup) returns (queried: string)
      requires step == Email
      modifies this
      ensures email == old(email) && password == old(password) && confirmPassword == old(confirmPassword)
      ensures queried == Text.Trim(old(email))
      ensures step == AfterCheckEmail(old(email), lookup)
    {
      var address := email;
      queried := Text.Trim(address);
      var found := Found(lookup, address);
      if found {
        step := Reset;
      }
    }

    /** The new password form, rendered in the reset step only; the update is attempted only past the checks. */
    method HandleResetPassword(outcome: UpdateOutcome) returns (attempted: bool)
      requires step == Reset
      modifies this
      ensures attempted <==> CheckPasswords(password, confirmPassword) == Accepted
      ensures step == AfterReset(password, confirmPassword, outcome)
      ensures email == old(email) && password == old(password) && confirmPassword == old(confirmPassword)
    {
      if password != confirmPassword {
        attempted := false;
        return;
      }
      if |password| < 6 {
        attempted := false;
        return;
      }
      attempted := true;
      match outcome
      case Updated =>
        step := Success;
      case UpdateError(message) =>
        if Text.Contains(message, "not logged in") {
          step := Success;
        }
    }

    /** Typing in a field. */
    method SetFields(newEmail: string, newPassword: string, newConfirm: string)
      modifies this
      ensures email == newEmail && password == newPassword && confirmPassword == newConfirm
      ensures step == old(step)
    {
      email, password, confirmPassword := newEmail, newPassword, newConfirm;
    }
  }
}
