/** The outcome of a conditional (`IF NOT EXISTS`) write as the bulk loader reads it
    (`_is_applied`), the retry decision taken when the write did not apply (`_cb_insert`),
    and the chain of read-then-insert rounds that decision produces. */
module CasResult {
  import opened PyRuntime

  /** The column in which Cassandra reports whether a lightweight transaction applied. */
  const AppliedColumn := "[applied]"

  /** A result row, by column name; only boolean columns matter here. */
  type Row = map<string, bool>

  /** What the driver hands to the callback: nothing, or a list of rows. */
  datatype ExecResult = NoResult | Rows(rows: seq<Row>)

  /** Python's truth value of the result: `None` and an empty list are false. */
  predicate IsEmpty(result: ExecResult) {
    result.NoResult? || |result.rows| == 0
  }

  /** `result[0]['[applied]']`: the flag, or KeyError when the first row lacks the column. */
  function FirstRowFlag(rows: seq<Row>): Result<bool>
    requires |rows| > 0
  {
    if AppliedColumn in rows[0] then Ok(rows[0][AppliedColumn]) else Err(KeyError)
  }

  /** `_is_applied`: an empty result counts as applied; otherwise the lookup of the first
      row's flag is tried, and whatever it raises is caught as "not applied". */
  function IsApplied(result: ExecResult): (applied: bool)
    ensures applied <==> IsEmpty(result) || (AppliedColumn in result.rows[0] && result.rows[0][AppliedColumn])
  {
    if IsEmpty(result) then true
    else
      match FirstRowFlag(result.rows)
      case Ok(flag) => flag
      case Err(_) => false
  }

  /** What `_cb_insert` does next. */
  datatype NextStep = Done | ReadAgain

  /** `_cb_insert`: start over with a fresh read exactly when the write did not apply. */
  function AfterInsert(result: ExecResult): (step: NextStep)
    ensures step == ReadAgain <==> !IsEmpty(result) && (AppliedColumn !in result.rows[0] || !result.rows[0][AppliedColumn])
  {
    if !IsApplied(result) then ReadAgain else Done
  }

  /** Only the first row is consulted: rows after it never change the decision. */
  lemma FirstRowDecides(first: Row, rest: seq<Row>)
    ensures IsApplied(Rows([first] + rest)) == IsApplied(Rows([first]))
  {
    assert ([first] + rest)[0] == first;
  }

  /** A write the server reports as applied is never retried; one it reports as rejected
      always is. */
  lemma AppliedIsFinal(row: Row)
    requires AppliedColumn in row
    ensures AfterInsert(Rows([row])) == Done <==> row[AppliedColumn]
  {
  }

  /** The rounds `put_item_async` → read → insert → `_cb_insert` run for one record, given
      the results its successive inserts get: the chain stops after the first round whose
      insert applied, and runs out with the results when none does. */
  function Rounds(results: seq<ExecResult>): (n: nat)
    ensures n <= |results|
    ensures forall k :: 0 <= k < n - 1 ==> AfterInsert(results[k]) == ReadAgain
    ensures 0 < n ==> (AfterInsert(results[n - 1]) == Done || n == |results|)
    ensures (exists k :: 0 <= k < |results| && IsApplied(results[k])) ==>
              0 < n && AfterInsert(results[n - 1]) == Done
    ensures |results| > 0 ==> n > 0
  {
    if |results| == 0 then 0
    else if AfterInsert(results[0]) == Done then 1
    else
      var rest := Rounds(results[1..]);
      assert forall k :: 0 < k < |results| ==> results[k] == results[1..][k - 1];
      1 + rest
  }
}
