/**
 * The in-memory list updates every page performs after a successful backend call:
 * a delete keeps the rows whose id differs, an update swaps the stored row in for
 * every row carrying the selected id, and appending or prepending the stored row
 * is plain sequence concatenation.
 */
module RecordList {

  import opened Wrappers
  import Js
  import Seqs

  /** The outcome of an insert or update followed by `.select()`: an error, or the stored row. */
  datatype Written<T> = WriteFailed | Written(row: T)

  /**
   * The id held by an edit form: the number copied from the row when the dialog
   * opens, or the string a select puts back once the user picks again.
   */
  datatype IdValue = IdNum(n: int) | IdText(s: string)

  /** JavaScript truthiness of the id: neither 0 nor "". */
  predicate IdTruthy(v: IdValue) {
    match v
    case IdNum(n) => n != 0
    case IdText(s) => s != ""
  }

  /** `parseInt(v)`: a number goes through its decimal string first; `None` stands for NaN. */
  function ParseId(v: IdValue): (r: Option<int>)
    ensures v.IdNum? ==> r == Some(v.n)
    ensures v.IdText? ==> r == Js.ParseInt(v.s)
  {
    match v
    case IdNum(n) => Js.ParseIntOfNumberToString(n); Js.ParseInt(Js.NumberToString(n))
    case IdText(s) => Js.ParseInt(s)
  }

  /** Every record carries a different id. */
  predicate UniqueIds<T>(s: seq<T>, idOf: T -> int) {
    forall i, j :: 0 <= i < j < |s| ==> idOf(s[i]) != idOf(s[j])
  }

  /** Delete: keep exactly the records whose id differs. */
  function RemoveById<T(==,!new)>(s: seq<T>, idOf: T -> int, id: int): (r: seq<T>)
    ensures forall x :: x in r <==> x in s && idOf(x) != id
  {
    Seqs.Filter(s, x => idOf(x) != id)
  }

  /** The records that survive a delete keep their order. */
  lemma RemoveByIdKeepsOrder<T(!new)>(s: seq<T>, idOf: T -> int, id: int)
    ensures Seqs.IsSubsequence(RemoveById(s, idOf, id), s)
  {
    Seqs.FilterIsSubsequence(s, x => idOf(x) != id);
  }

  /** Deleting an id no record has changes nothing. */
  lemma RemoveAbsentId<T(!new)>(s: seq<T>, idOf: T -> int, id: int)
    requires forall i :: 0 <= i < |s| ==> idOf(s[i]) != id
    ensures RemoveById(s, idOf, id) == s
  {
    Seqs.FilterKeepsAll(s, x => idOf(x) != id);
  }

  /** With unique ids, deleting the id of record `k` removes that record and nothing else. */
  lemma RemoveUniqueId<T(!new)>(s: seq<T>, idOf: T -> int, k: nat)
    requires k < |s| && UniqueIds(s, idOf)
    ensures RemoveById(s, idOf, idOf(s[k])) == s[..k] + s[k + 1..]
  {
    var id := idOf(s[k]);
    Seqs.FilterDropsOne(s, x => idOf(x) != id, k);
  }

  /** The records a delete of `id` takes away. */
  function WithId<T(==,!new)>(s: seq<T>, idOf: T -> int, id: int): (r: seq<T>)
    ensures forall x :: x in r <==> x in s && idOf(x) == id
  {
    Seqs.Filter(s, x => idOf(x) == id)
  }

  /** A total over the list drops by exactly the records a delete takes away. */
  lemma SumAfterRemove<T(!new)>(s: seq<T>, idOf: T -> int, id: int, value: T -> int)
    ensures Seqs.SumOf(RemoveById(s, idOf, id), value) + Seqs.SumOf(WithId(s, idOf, id), value) == Seqs.SumOf(s, value)
  {
    Seqs.SumOfFilterSplit(s, x => idOf(x) != id, x => idOf(x) == id, value);
  }

  /** Update: every record with the id is replaced by `row`; the others stay in place. */
  function ReplaceById<T>(s: seq<T>, idOf: T -> int, id: int, row: T): (r: seq<T>)
    ensures |r| == |s|
    ensures forall i :: 0 <= i < |s| ==> r[i] == if idOf(s[i]) == id then row else s[i]
  {
    if s == [] then [] else [if idOf(s[0]) == id then row else s[0]] + ReplaceById(s[1..], idOf, id, row)
  }

  /** Updating an id no record has changes nothing. */
  lemma ReplaceAbsentId<T>(s: seq<T>, idOf: T -> int, id: int, row: T)
    requires forall i :: 0 <= i < |s| ==> idOf(s[i]) != id
    ensures ReplaceById(s, idOf, id, row) == s
  {
    var r := ReplaceById(s, idOf, id, row);
    assert forall i :: 0 <= i < |s| ==> r[i] == s[i];
  }

  /** With unique ids, updating the id of record `k` replaces that one position only. */
  lemma ReplaceUniqueId<T>(s: seq<T>, idOf: T -> int, k: nat, row: T)
    requires k < |s| && UniqueIds(s, idOf)
    ensures ReplaceById(s, idOf, idOf(s[k]), row) == s[k := row]
  {
    var r := ReplaceById(s, idOf, idOf(s[k]), row);
    assert forall i :: 0 <= i < |s| ==> r[i] == s[k := row][i];
  }

  /** Appending a record whose id is new keeps the ids unique. */
  lemma AppendKeepsUniqueIds<T>(s: seq<T>, idOf: T -> int, row: T)
    ensures UniqueIds(s, idOf) && (forall i :: 0 <= i < |s| ==> idOf(s[i]) != idOf(row)) ==>
      UniqueIds(s + [row], idOf)
  {
  }

  /** A delete keeps the ids unique. */
  lemma {:induction false} RemoveKeepsUniqueIds<T(!new)>(s: seq<T>, idOf: T -> int, id: int)
    ensures UniqueIds(s, idOf) ==> UniqueIds(RemoveById(s, idOf, id), idOf)
  {
    if s != [] && UniqueIds(s, idOf) {
      assert UniqueIds(s[1..], idOf) by {
        forall i, j | 0 <= i < j < |s[1..]|
          ensures idOf(s[1..][i]) != idOf(s[1..][j])
        {
          assert s[1..][i] == s[i + 1] && s[1..][j] == s[j + 1];
        }
      }
      RemoveKeepsUniqueIds(s[1..], idOf, id);
      var rest := RemoveById(s[1..], idOf, id);
      if idOf(s[0]) != id {
        assert RemoveById(s, idOf, id) == [s[0]] + rest;
        forall j | 0 <= j < |rest|
          ensures idOf(rest[j]) != idOf(s[0])
        {
          assert rest[j] in rest;
          var k :| 0 <= k < |s[1..]| && s[1..][k] == rest[j];
          assert s[k + 1] == rest[j];
        }
      }
    }
  }

  /** Replacing by a row that carries the same id keeps the ids unique. */
  lemma ReplaceKeepsUniqueIds<T>(s: seq<T>, idOf: T -> int, id: int, row: T)
    ensures UniqueIds(s, idOf) && idOf(row) == id ==> UniqueIds(ReplaceById(s, idOf, id, row), idOf)
  {
    if idOf(row) == id {
      var r := ReplaceById(s, idOf, id, row);
      assert forall i :: 0 <= i < |s| ==> idOf(r[i]) == idOf(s[i]);
    }
  }
}
