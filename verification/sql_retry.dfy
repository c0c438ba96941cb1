/**
 * How the client library talks to SQLite: which row callback a statement
 * is executed with, and the retry loop around `sqlite3_exec`.
 *
 * The return codes of successive `sqlite3_exec` attempts are a parameter;
 * the standard SQLite values OK = 0, BUSY = 5 and LOCKED = 6 are used.
 */
module SqlRetry {

  const SqliteOk: int := 0
  const SqliteBusy: int := 5
  const SqliteLocked: int := 6

  /** The result type a statement is issued for (the template argument). */
  datatype ResultType = BgkResult | BgkMassesResult | LbmResult | NoResult

  /** The row callback handed to `sqlite3_exec`. */
  datatype Callback = ReadBgk | ReadColBgk | Dummy

  /** `makeSQLRequest`: BGK results are read into the global table; anything else is ignored. */
  function MakeSqlRequest(t: ResultType): (c: Callback)
    ensures c == ReadBgk <==> t == BgkResult
    ensures c != ReadColBgk
  {
    if t == BgkResult then ReadBgk else Dummy
  }

  /** `makeColSQLRequest`: BGK results are read into the per-rank tables; anything else is ignored. */
  function MakeColSqlRequest(t: ResultType): (c: Callback)
    ensures c == ReadColBgk <==> t == BgkResult
    ensures c != ReadBgk
  {
    if t == BgkResult then ReadColBgk else Dummy
  }

  /** Whether the library was built against SQLite (`SOLVER_SIDE_SQLITE`). */
  datatype Build = WithSqlite | WithoutSqlite

  /**
   * How a call ends: returned after `attempts` calls, exited with a
   * status, or still retrying when the given codes run out.
   */
  datatype Outcome = Returned(attempts: nat) | Exited(attempts: nat, status: int) | Retrying

  /** A code that keeps the loop going. */
  predicate Transient(code: int)
  {
    code == SqliteBusy || code == SqliteLocked
  }

  /** The loop after the first attempt, from attempt `k` on. */
  function RetryFrom(codes: seq<int>, k: nat): (r: Outcome)
    requires 1 <= k <= |codes|
    decreases |codes| - k
  {
    if k == |codes| then Retrying
    else if codes[k] == SqliteOk then Returned(k + 1)
    else if !Transient(codes[k]) then Exited(k + 1, 1)
    else RetryFrom(codes, k + 1)
  }

  /**
   * `sendSQLCommand` (and `sendWriteRequest`, the same loop): the first
   * attempt only decides whether to loop; every retry that is neither OK
   * nor BUSY/LOCKED closes the handle and exits with status 1. Built
   * without SQLite, every entry point exits at once.
   */
  function SendSqlCommand(build: Build, codes: seq<int>): (r: Outcome)
    ensures build == WithoutSqlite ==> r == Exited(0, 1)
  {
    if build == WithoutSqlite then Exited(0, 1)
    else if codes == [] then Retrying
    else if codes[0] == SqliteOk then Returned(1)
    else RetryFrom(codes, 1)
  }

  lemma {:induction false} RetryFromSpec(codes: seq<int>, k: nat)
    requires 1 <= k <= |codes|
    requires forall j :: 1 <= j < k ==> Transient(codes[j])
    ensures RetryFrom(codes, k).Returned? ==>
      var n := RetryFrom(codes, k).attempts;
      k < n <= |codes| && codes[n - 1] == SqliteOk && forall j :: 1 <= j < n - 1 ==> Transient(codes[j])
    ensures RetryFrom(codes, k).Exited? ==>
      var n := RetryFrom(codes, k).attempts;
      k < n <= |codes| && codes[n - 1] != SqliteOk && !Transient(codes[n - 1])
      && RetryFrom(codes, k).status == 1 && forall j :: 1 <= j < n - 1 ==> Transient(codes[j])
    ensures RetryFrom(codes, k).Retrying? <==> forall j :: 1 <= j < |codes| ==> Transient(codes[j])
    decreases |codes| - k
  {
    if k < |codes| && Transient(codes[k]) {
      RetryFromSpec(codes, k + 1);
    } else if k < |codes| {
      assert !Transient(codes[k]) && !(forall j :: 1 <= j < |codes| ==> Transient(codes[j]));
    }
  }

  /**
   * The call returns only after an attempt answered OK, every attempt
   * between the first and that one being BUSY or LOCKED.
   */
  lemma ReturnsOnlyOnOk(codes: seq<int>)
    requires SendSqlCommand(WithSqlite, codes).Returned?
    ensures var n := SendSqlCommand(WithSqlite, codes).attempts;
      1 <= n <= |codes| && codes[n - 1] == SqliteOk
      && (forall j :: 0 <= j < n - 1 ==> codes[j] != SqliteOk)
      && forall j :: 1 <= j < n - 1 ==> Transient(codes[j])
  {
    if codes[0] != SqliteOk {
      RetryFromSpec(codes, 1);
    }
  }

  /** An exit follows a retry that was neither OK nor BUSY/LOCKED, never the first attempt. */
  lemma ExitsOnlyOnFatalRetry(codes: seq<int>)
    requires SendSqlCommand(WithSqlite, codes).Exited?
    ensures var n := SendSqlCommand(WithSqlite, codes).attempts;
      2 <= n <= |codes| && codes[n - 1] != SqliteOk && !Transient(codes[n - 1])
      && SendSqlCommand(WithSqlite, codes).status == 1
  {
    RetryFromSpec(codes, 1);
  }

  /** Whatever the first attempt returns, a retry that answers OK ends the call: a fatal first code is retried once. */
  lemma FirstCodeNeverFatal(first: int)
    ensures SendSqlCommand(WithSqlite, [first, SqliteOk]) == Returned(if first == SqliteOk then 1 else 2)
  {
  }
}
