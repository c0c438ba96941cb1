/**
 * The request-submit helper (`submitFGSJob.py`): it numbers requests with
 * a function-attribute counter and turns each BGK request into a
 * parameterised insert into the request table, the same row the service
 * later reads back with `processReqRow`.
 */
module Submit {
  import opened Fallible
  import opened Text
  import opened GlueTypes
  import opened Sql
  import opened GroundTruth

  /** What may be handed to `getSQLFromReq`: a BGK request, or anything else. */
  datatype SubmitInput = BgkInput(x: BGKInputs) | OtherInput

  /** `?, ?, ..., ?` with `n` placeholders. */
  function PlaceholderList(n: nat): string
    decreases n
  {
    if n == 0 then "" else if n == 1 then "?" else "?, " + PlaceholderList(n - 1)
  }

  lemma {:induction false} PlaceholderListCount(n: nat)
    ensures CountChar(PlaceholderList(n), '?') == n
    decreases n
  {
    if n > 1 {
      PlaceholderListCount(n - 1);
      assert multiset("?, ")['?'] == 1;
      assert multiset("?, " + PlaceholderList(n - 1)) == multiset("?, ") + multiset(PlaceholderList(n - 1));
    } else if n == 1 {
      assert multiset("?")['?'] == 1;
    }
  }

  const InsertBgkReqsHead: string := "INSERT INTO BGKREQS VALUES("

  /** The statement text of `getSQLFromReq`: thirteen placeholders. */
  function InsertBgkReqs(): string
  {
    InsertBgkReqsHead + PlaceholderList(13) + ")"
  }

  lemma InsertBgkReqsPlaceholders()
    ensures Placeholders(InsertBgkReqs()) == 13
  {
    assert '?' !in InsertBgkReqsHead;
    PlaceholderListCount(13);
    assert multiset(InsertBgkReqs()) == multiset(InsertBgkReqsHead) + multiset(PlaceholderList(13)) + multiset(")");
  }

  /** The argument tuple of a request: tag, rank −1, request number, the nine fields, the FGS mode. */
  function RequestArgs(input: SubmitInput, tag: string, reqNum: int): (r: Result<seq<SqlValue>>)
    ensures r.Ok? <==> input.BgkInput?
    ensures r.Ok? ==> |r.value| == 13
  {
    match input
    case BgkInput(x) =>
      Ok([SqlText(tag), SqlInt(-1), SqlInt(reqNum), SqlReal(x.temperature),
          SqlReal(x.density[0]), SqlReal(x.density[1]), SqlReal(x.density[2]), SqlReal(x.density[3]),
          SqlReal(x.charges[0]), SqlReal(x.charges[1]), SqlReal(x.charges[2]), SqlReal(x.charges[3]),
          SqlInt(ModeCode(FGS))])
    case OtherInput => Err("Invalid input passed to getSQLFromReq() in submitFGSJob.py")
  }

  /**
   * `getSQLFromReq`: the request-table insert bound to the request's
   * argument tuple, one value per placeholder; anything but a BGK
   * request raises.
   */
  function GetSqlFromReq(input: SubmitInput, tag: string, reqNum: int): (r: Result<Query>)
    ensures r.Ok? <==> input.BgkInput?
    ensures r.Ok? ==> Bound(r.value) && r.value.sql == InsertBgkReqs()
  {
    match RequestArgs(input, tag, reqNum)
    case Err(e) => Err(e)
    case Ok(args) =>
      InsertBgkReqsPlaceholders();
      Ok(Query(InsertBgkReqs(), args))
  }

  /** The request-table row a bound insert stores, when every value has its column's type. */
  function StoredRow(args: seq<SqlValue>): Option<ReqRow>
  {
    if |args| == 13 && args[0].SqlText? && args[1].SqlInt? && args[2].SqlInt? && args[12].SqlInt?
       && forall j :: 3 <= j < 12 ==> args[j].SqlReal?
    then
      Some(ReqRow(args[0].text, args[1].i, args[2].i, args[3].r,
        [args[4].r, args[5].r, args[6].r, args[7].r], [args[8].r, args[9].r, args[10].r, args[11].r], args[12].i))
    else None
  }

  /**
   * A submitted request is stored as the row of rank −1 with the given
   * tag and number, and the service reads that row back as the same
   * request in FGS mode.
   */
  lemma SubmittedRowIsServed(x: BGKInputs, tag: string, reqNum: int)
    ensures RequestArgs(BgkInput(x), tag, reqNum).Ok?
    ensures StoredRow(RequestArgs(BgkInput(x), tag, reqNum).value)
            == Some(ReqRow(tag, -1, reqNum, x.temperature, x.density, x.charges, ModeCode(FGS)))
    ensures ProcessReqRow(StoredRow(RequestArgs(BgkInput(x), tag, reqNum).value).value, Bgk) == Ok((x, FGS))
  {
    var args := RequestArgs(BgkInput(x), tag, reqNum).value;
    assert forall j :: 3 <= j < 12 ==> args[j].SqlReal?;
    assert [args[4].r, args[5].r, args[6].r, args[7].r] == x.density;
    assert [args[8].r, args[9].r, args[10].r, args[11].r] == x.charges;
    ModeCodeRoundTrip(FGS, 0);
  }

  /**
   * `getPersistentReqNumber`: the counter is an attribute of the
   * function that does not exist before the first call; the first call
   * creates it at 0 and every later call adds one.
   */
  function NextPersistentReqNumber(counter: Option<int>): (r: (int, Option<int>))
    ensures r.1 == Some(r.0)
  {
    match counter
    case None => (0, Some(0))
    case Some(c) => (c + 1, Some(c + 1))
  }

  /** The numbers `n` successive calls hand out, and the counter afterwards. */
  function PersistentReqNumbers(counter: Option<int>, n: nat): (seq<int>, Option<int>)
    decreases n
  {
    if n == 0 then ([], counter)
    else
      var (id, next) := NextPersistentReqNumber(counter);
      var (ids, last) := PersistentReqNumbers(next, n - 1);
      ([id] + ids, last)
  }

  lemma {:induction false} PersistentReqNumbersFrom(c: int, n: nat)
    ensures var (ids, last) := PersistentReqNumbers(Some(c), n);
      |ids| == n && (forall k :: 0 <= k < n ==> ids[k] == c + 1 + k) && last == Some(c + n)
    decreases n
  {
    if n > 0 {
      PersistentReqNumbersFrom(c + 1, n - 1);
    }
  }

  /** Starting before the first call, the numbers are 0, 1, 2, ... */
  lemma PersistentReqNumbersFromStart(n: nat)
    ensures var (ids, last) := PersistentReqNumbers(None, n);
      |ids| == n && (forall k :: 0 <= k < n ==> ids[k] == k) && (n > 0 ==> last == Some(n - 1))
  {
    if n > 0 {
      PersistentReqNumbersFrom(0, n - 1);
    }
  }

  /**
   * `submitFGSJobs` without the database write: each request takes the
   * next number and its argument tuple is bound to the request-table
   * insert; a non-BGK request raises and stops the loop.
   */
  function SubmitFgsJobs(inputs: seq<SubmitInput>, counter: Option<int>, tag: string): Result<(seq<seq<SqlValue>>, Option<int>)>
    decreases |inputs|
  {
    if inputs == [] then Ok(([], counter))
    else
      var (id, next) := NextPersistentReqNumber(counter);
      match RequestArgs(inputs[0], tag, id)
      case Err(e) => Err(e)
      case Ok(args) =>
        match SubmitFgsJobs(inputs[1..], next, tag)
        case Err(e) => Err(e)
        case Ok((rest, last)) => Ok(([args] + rest, last))
  }

  /** The stored row of `args` carries request number `id` and is served as `x` in FGS mode. */
  predicate ServedAs(args: seq<SqlValue>, x: BGKInputs, id: int)
  {
    StoredRow(args).Some? && StoredRow(args).value.req == id
    && ProcessReqRow(StoredRow(args).value, Bgk) == Ok((x, FGS))
  }

  /** A batch is submitted iff every request in it is a BGK request. */
  lemma {:induction false} SubmitFgsJobsRaises(inputs: seq<SubmitInput>, counter: Option<int>, tag: string)
    ensures SubmitFgsJobs(inputs, counter, tag).Ok? <==> forall k :: 0 <= k < |inputs| ==> inputs[k].BgkInput?
    decreases |inputs|
  {
    if inputs != [] {
      var next := NextPersistentReqNumber(counter).1;
      SubmitFgsJobsRaises(inputs[1..], next, tag);
      assert (forall k :: 0 <= k < |inputs| ==> inputs[k].BgkInput?)
        <==> inputs[0].BgkInput? && forall k :: 0 <= k < |inputs[1..]| ==> inputs[1..][k].BgkInput?;
    }
  }

  /**
   * A batch of BGK requests is submitted whole, request `k` under the
   * `k`-th number the counter hands out, and the service reads each back
   * as the request it came from.
   */
  lemma {:induction false} SubmitFgsJobsSpec(inputs: seq<SubmitInput>, counter: Option<int>, tag: string)
    requires forall k :: 0 <= k < |inputs| ==> inputs[k].BgkInput?
    ensures SubmitFgsJobs(inputs, counter, tag).Ok?
    ensures var sent, first := SubmitFgsJobs(inputs, counter, tag).value.0, NextPersistentReqNumber(counter).0;
      |sent| == |inputs| && forall k :: 0 <= k < |inputs| ==> ServedAs(sent[k], inputs[k].x, first + k)
    decreases |inputs|
  {
    SubmitFgsJobsRaises(inputs, counter, tag);
    if inputs != [] {
      var (first, next) := NextPersistentReqNumber(counter);
      SubmitFgsJobsSpec(inputs[1..], next, tag);
      SubmittedRowIsServed(inputs[0].x, tag, first);
      var args := RequestArgs(inputs[0], tag, first).value;
      var sent, rest := SubmitFgsJobs(inputs, counter, tag).value.0, SubmitFgsJobs(inputs[1..], next, tag).value.0;
      assert sent == [args] + rest;
      forall k | 1 <= k < |inputs| ensures ServedAs(sent[k], inputs[k].x, first + k) {
        assert sent[k] == rest[k - 1] && inputs[k] == inputs[1..][k - 1];
      }
    }
  }

  const UndefinedDbPath: string := "name 'dbPath' is not defined"

  /**
   * `submitFGSJobs` as written: the connection is opened on `dbPath`, a
   * name bound nowhere (the parameter is `sqlDBPath`), so the first request
   * to get that far raises after taking its number and before anything is
   * written.
   */
  function SubmitFgsJobsAsWritten(inputs: seq<SubmitInput>, counter: Option<int>, tag: string): (r: Result<(seq<seq<SqlValue>>, Option<int>)>)
    ensures r.Ok? <==> inputs == []
    ensures inputs != [] && inputs[0].BgkInput? ==> r == Err(UndefinedDbPath)
  {
    if inputs == [] then Ok(([], counter))
    else
      var (id, _) := NextPersistentReqNumber(counter);
      match RequestArgs(inputs[0], tag, id)
      case Err(e) => Err(e)
      case Ok(_) => Err(UndefinedDbPath)
  }

  /**
   * Every non-empty batch of BGK requests that the intended loop submits
   * whole is lost as written.
   */
  lemma SubmitAsWrittenLosesBatch(inputs: seq<SubmitInput>, counter: Option<int>, tag: string)
    requires inputs != [] && forall k :: 0 <= k < |inputs| ==> inputs[k].BgkInput?
    ensures SubmitFgsJobs(inputs, counter, tag).Ok?
    ensures |SubmitFgsJobs(inputs, counter, tag).value.0| == |inputs|
    ensures SubmitFgsJobsAsWritten(inputs, counter, tag) == Err(UndefinedDbPath)
  {
    SubmitFgsJobsSpec(inputs, counter, tag);
  }
}
