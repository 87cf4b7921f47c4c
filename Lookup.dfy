/** The `SingleOrDefault` query that FindUserByTokenAsync and FindRoleByTokenAsync run against a
    table, with the table as a sequence of rows. */
module Lookup {
  import opened Wrappers
  import opened Failures

  /** No row when none matches, the one row when exactly one matches, and an exception when two
      or more do. */
  function SingleOrDefault<T>(rows: seq<T>, matches: T -> bool): (r: Result<Option<T>, Failure>)
    ensures r == Success(None) <==> forall i :: 0 <= i < |rows| ==> !matches(rows[i])
    ensures r.Success? && r.value.Some? ==>
      exists i :: 0 <= i < |rows| && rows[i] == r.value.value && matches(rows[i]) &&
        forall j :: 0 <= j < |rows| && j != i ==> !matches(rows[j])
    ensures r.Failure? <==>
      exists i, j :: 0 <= i < j < |rows| && matches(rows[i]) && matches(rows[j])
    ensures r.Failure? ==> r.error == MoreThanOneMatch
  {
    if rows == [] then Success(None)
    else
      match SingleOrDefault(rows[1..], matches)
      case Failure(e) => Failure(e)
      case Success(None) => if matches(rows[0]) then Success(Some(rows[0])) else Success(None)
      case Success(Some(row)) => if matches(rows[0]) then Failure(MoreThanOneMatch) else Success(Some(row))
  }

  /** When exactly the row at `k` matches, that row is the answer. */
  lemma SingleOrDefaultOfUnique<T>(rows: seq<T>, matches: T -> bool, k: nat)
    requires k < |rows| && matches(rows[k])
    requires forall j :: 0 <= j < |rows| && j != k ==> !matches(rows[j])
    ensures SingleOrDefault(rows, matches) == Success(Some(rows[k]))
  {
  }
}
