/**
 * The request side of the client library: the request-id counters, the
 * rows a client writes into the request table, the serial single and
 * batch requests, the stop sentinel, and connecting to and leaving the
 * service.
 *
 * The database is seen through what the client writes (a sequence of
 * request rows) and what its lookups find (result tables handed in as
 * parameters); the blocking spin on a missing result is a finite sequence
 * of lookups.
 */
module Client {
  import opened Fallible
  import opened GlueTypes

  /** A row of `BGKREQS` as the client writes it. */
  datatype Request = Request(tag: string, rank: int, req: int, args: BGKInputs, mode: Mode)

  // ------------------------------------------------------------- counters

  /**
   * `getReqNumber`: the static counter hands out its current value and
   * moves on by one.
   */
  function NextReq(counter: int): (r: (int, int))
    ensures r.1 - r.0 == 1 && r.0 == counter
  {
    (counter, counter + 1)
  }

  /** `n` successive calls, the ids in call order. */
  function IssueReqs(counter: int, n: nat): (r: (seq<int>, int))
    decreases n
  {
    if n == 0 then ([], counter)
    else
      var (id, next) := NextReq(counter);
      var (rest, last) := IssueReqs(next, n - 1);
      ([id] + rest, last)
  }

  /** From a fresh counter the ids are 0, 1, 2, …, and the counter ends at the number of calls. */
  lemma {:induction false} IssueReqsCountsUp(counter: int, n: nat)
    ensures |IssueReqs(counter, n).0| == n
    ensures forall i :: 0 <= i < n ==> IssueReqs(counter, n).0[i] == counter + i
    ensures IssueReqs(counter, n).1 == counter + n
    decreases n
  {
    if n > 0 {
      IssueReqsCountsUp(counter + 1, n - 1);
    }
  }

  /** The per-rank counter vector read as a total map: ranks it has not grown to yet are at 0. */
  function CountOf(counters: seq<int>, rank: nat): int
  {
    if rank < |counters| then counters[rank] else 0
  }

  /**
   * `getReqNumberForRank`: grow the vector with zeros up to `rank`, hand
   * out that rank's value and move it on by one.
   */
  function NextForRank(counters: seq<int>, rank: nat): (r: (int, seq<int>))
    ensures r.0 == CountOf(counters, rank)
    ensures CountOf(r.1, rank) == r.0 + 1
    ensures forall q: nat :: q != rank ==> CountOf(r.1, q) == CountOf(counters, q)
    ensures |r.1| == if rank < |counters| then |counters| else rank + 1
  {
    var grown := if |counters| <= rank then counters + seq(rank + 1 - |counters|, _ => 0) else counters;
    assert forall q: nat :: q < |counters| ==> grown[q] == counters[q];
    (grown[rank], grown[rank := grown[rank] + 1])
  }

  /** A rank's first id is 0. */
  lemma FirstIdForRankIsZero(counters: seq<int>, rank: nat)
    requires rank >= |counters|
    ensures NextForRank(counters, rank).0 == 0
  {
  }

  // ------------------------------------------------------------ insertion

  /**
   * `col_insertReqs`: one id per input from the rank's counter, each input
   * written under the fixed tag `TAG` in mode DEFAULT. The returned vector
   * holds the id used for each input, in input order.
   */
  method ColInsertReqs(counters: seq<int>, inputs: seq<BGKInputs>, rank: nat)
    returns (ids: seq<int>, next: seq<int>, writes: seq<Request>)
    ensures |ids| == |inputs| && |writes| == |inputs|
    ensures forall i :: 0 <= i < |inputs| ==> ids[i] == CountOf(counters, rank) + i
    ensures forall i :: 0 <= i < |inputs| ==> writes[i] == Request("TAG", rank, ids[i], inputs[i], Default)
    ensures CountOf(next, rank) == CountOf(counters, rank) + |inputs|
    ensures forall q: nat :: q != rank ==> CountOf(next, q) == CountOf(counters, q)
  {
    ids, writes, next := [], [], counters;
    var i := 0;
    while i < |inputs|
      invariant 0 <= i <= |inputs| && |ids| == i && |writes| == i
      invariant forall k :: 0 <= k < i ==> ids[k] == CountOf(counters, rank) + k
      invariant forall k :: 0 <= k < i ==> writes[k] == Request("TAG", rank, ids[k], inputs[k], Default)
      invariant CountOf(next, rank) == CountOf(counters, rank) + i
      invariant forall q: nat :: q != rank ==> CountOf(next, q) == CountOf(counters, q)
    {
      var (id, n) := NextForRank(next, rank);
      ids := ids + [id];
      writes := writes + [Request("TAG", rank, id, inputs[i], Default)];
      next := n;
      i := i + 1;
    }
  }

  // ------------------------------------------------------ ascending order

  predicate StrictlyIncreasing(r: seq<int>)
  {
    forall i, j :: 0 <= i < j < |r| ==> r[i] < r[j]
  }

  lemma ConsIncreasing(h: int, t: seq<int>)
    requires StrictlyIncreasing(t)
    requires forall y :: y in t ==> h < y
    ensures StrictlyIncreasing([h] + t)
  {
    forall i, j | 0 <= i < j < |[h] + t| ensures ([h] + t)[i] < ([h] + t)[j] {
      assert ([h] + t)[j] == t[j - 1];
      if i > 0 {
        assert ([h] + t)[i] == t[i - 1];
      } else {
        assert t[j - 1] in t;
      }
    }
  }

  lemma HeadIsLeast(r: seq<int>)
    requires StrictlyIncreasing(r) && r != []
    ensures forall y :: y in r[1..] ==> r[0] < y
  {
    forall y | y in r[1..] ensures r[0] < y {
      var j :| 0 <= j < |r[1..]| && r[1..][j] == y;
      assert r[1..][j] == r[j + 1];
    }
  }

  /** Adding one id to a `std::set<int>` held as its ascending enumeration. */
  function InsertSorted(r: seq<int>, x: int): (t: seq<int>)
    requires StrictlyIncreasing(r)
    ensures StrictlyIncreasing(t)
    ensures forall y :: y in t <==> y in r || y == x
    decreases |r|
  {
    if r == [] then [x]
    else if x == r[0] then r
    else
      HeadIsLeast(r);
      assert r == [r[0]] + r[1..];
      if x < r[0] then
        ConsIncreasing(x, r);
        [x] + r
      else
        var t := InsertSorted(r[1..], x);
        ConsIncreasing(r[0], t);
        [r[0]] + t
  }

  /**
   * The `std::set<int>` built by inserting `xs` in order, as the sequence
   * its iterator visits: every element once, ascending.
   */
  function SetOf(xs: seq<int>): (r: seq<int>)
    ensures StrictlyIncreasing(r)
    ensures forall y :: y in r <==> y in xs
    decreases |xs|
  {
    if xs == [] then []
    else
      var r := InsertSorted(SetOf(xs[..|xs| - 1]), xs[|xs| - 1]);
      assert xs == xs[..|xs| - 1] + [xs[|xs| - 1]];
      r
  }

  lemma SameLeast(a: seq<int>, b: seq<int>)
    requires StrictlyIncreasing(a) && StrictlyIncreasing(b) && a != [] && b != []
    requires forall x :: x in a <==> x in b
    ensures a[0] == b[0]
  {
    assert a[0] in a && b[0] in b;
    var j :| 0 <= j < |b| && b[j] == a[0];
    assert b[0] <= a[0] by { if j > 0 { assert b[0] < b[j]; } }
    var k :| 0 <= k < |a| && a[k] == b[0];
    assert a[0] <= b[0] by { if k > 0 { assert a[0] < a[k]; } }
  }

  lemma SameRest(a: seq<int>, b: seq<int>)
    requires StrictlyIncreasing(a) && StrictlyIncreasing(b) && a != [] && b != [] && a[0] == b[0]
    requires forall x :: x in a <==> x in b
    ensures forall x :: x in a[1..] <==> x in b[1..]
  {
    HeadIsLeast(a);
    HeadIsLeast(b);
    assert a == [a[0]] + a[1..] && b == [b[0]] + b[1..];
    forall x ensures x in a[1..] <==> x in b[1..] {
      assert x in a <==> x == a[0] || x in a[1..];
      assert x in b <==> x == b[0] || x in b[1..];
    }
  }

  /** Two strictly increasing sequences with the same elements are the same sequence. */
  lemma {:induction false} IncreasingUnique(a: seq<int>, b: seq<int>)
    requires StrictlyIncreasing(a) && StrictlyIncreasing(b)
    requires forall x :: x in a <==> x in b
    ensures a == b
    decreases |a|
  {
    assert a == [] <==> b == [] by {
      if a != [] { assert a[0] in a; }
      if b != [] { assert b[0] in b; }
    }
    if a != [] {
      SameLeast(a, b);
      SameRest(a, b);
      IncreasingUnique(a[1..], b[1..]);
      assert a == [a[0]] + a[1..] && b == [b[0]] + b[1..];
    }
  }

  /** The set of consecutive ids is iterated in issue order. */
  lemma SetOfIssued(counter: int, n: nat)
    ensures SetOf(IssueReqs(counter, n).0) == IssueReqs(counter, n).0
  {
    var ids := IssueReqs(counter, n).0;
    IssueReqsCountsUp(counter, n);
    assert StrictlyIncreasing(ids);
    IncreasingUnique(SetOf(ids), ids);
  }

  // ------------------------------------------------------ serial requests

  /**
   * `readResult_blocking`: a KILL request returns at once without a
   * query; any other polls (one `SELECT` per element of `polls`, each the
   * result table as that query left it) until the id shows up. Running out
   * of polls means it is still spinning. The second component counts the
   * queries sent.
   */
  function ReadResultBlocking<R>(reqType: Mode, req: int, polls: seq<map<int, R>>): (r: Result<(Option<R>, nat)>)
    ensures reqType == Kill ==> r == Ok((None, 0))
    ensures reqType != Kill && r.Ok? ==>
      var q := r.value.1;
      1 <= q <= |polls| && req in polls[q - 1] && r.value.0 == Some(polls[q - 1][req])
      && forall k :: 0 <= k < q - 1 ==> req !in polls[k]
    ensures reqType != Kill ==> (r.Ok? <==> exists k :: 0 <= k < |polls| && req in polls[k])
  {
    if reqType == Kill then Ok((None, 0)) else Spin(req, polls, 0)
  }

  function Spin<R>(req: int, polls: seq<map<int, R>>, k: nat): (r: Result<(Option<R>, nat)>)
    requires k <= |polls|
    requires forall j :: 0 <= j < k ==> req !in polls[j]
    ensures r.Ok? ==>
      var q := r.value.1;
      k < q <= |polls| && req in polls[q - 1] && r.value.0 == Some(polls[q - 1][req])
      && forall j :: 0 <= j < q - 1 ==> req !in polls[j]
    ensures r.Ok? <==> exists j :: k <= j < |polls| && req in polls[j]
    decreases |polls| - k
  {
    if k == |polls| then Err("no result yet")
    else if req in polls[k] then Ok((Some(polls[k][req]), k + 1))
    else Spin(req, polls, k + 1)
  }

  /** What a serial request leaves behind: the rows written, the id counter, the result and the queries sent. */
  datatype Exchange<R> = Exchange(writes: seq<Request>, counter: int, result: Option<R>, queries: nat)

  /** `req_single_with_reqtype`: take an id, write the request, read its result. */
  function ReqSingle<R>(counter: int, x: BGKInputs, rank: int, tag: string, reqType: Mode, polls: seq<map<int, R>>): (r: Result<Exchange<R>>)
    ensures r.Ok? ==> r.value.writes == [Request(tag, rank, counter, x, reqType)] && r.value.counter == counter + 1
    ensures reqType != Kill ==> (r.Ok? <==> exists k :: 0 <= k < |polls| && counter in polls[k])
    ensures r.Ok? && reqType != Kill ==> 1 <= r.value.queries <= |polls| && counter in polls[r.value.queries - 1]
    ensures r.Ok? && reqType != Kill ==> r.value.result == Some(polls[r.value.queries - 1][counter])
  {
    var (id, next) := NextReq(counter);
    var read := ReadResultBlocking(reqType, id, polls);
    if read.Err? then Err(read.msg)
    else Ok(Exchange([Request(tag, rank, id, x, reqType)], next, read.value.0, read.value.1))
  }

  /** The stop sentinel: every field zero (negative zero in the source). */
  const StopArgs: BGKInputs := BGKInputs(0.0, Zeros4(), Zeros4())

  /** `bgk_stop_service`: a single KILL request. */
  function StopService<R>(counter: int, rank: int, tag: string): (r: Exchange<R>)
  {
    ReqSingle(counter, StopArgs, rank, tag, Kill, []).value
  }

  /** Stopping the service writes exactly one KILL request with all-zero fields and issues no query. */
  lemma StopServiceSendsOneKill<R>(counter: int, rank: int, tag: string)
    ensures ReqSingle<R>(counter, StopArgs, rank, tag, Kill, []).Ok?
    ensures var e := StopService<R>(counter, rank, tag);
      e.writes == [Request(tag, rank, counter, BGKInputs(0.0, Zeros4(), Zeros4()), Kill)]
      && e.queries == 0 && e.result == None && e.counter == counter + 1
  {
  }

  /**
   * The blocking reads of a batch, one per id in `order`: `snapshots(id)` is
   * the sequence of result-table snapshots the read of `id` observes. The
   * batch is still waiting while any read is.
   */
  function ReadAll<R>(order: seq<int>, reqType: Mode, snapshots: int -> seq<map<int, R>>): (r: Result<seq<Option<R>>>)
    ensures r.Ok? <==> forall k :: 0 <= k < |order| ==> ReadResultBlocking(reqType, order[k], snapshots(order[k])).Ok?
    ensures r.Ok? ==> |r.value| == |order|
    ensures r.Ok? ==> forall k :: 0 <= k < |order| ==>
      r.value[k] == ReadResultBlocking(reqType, order[k], snapshots(order[k])).value.0
    decreases |order|
  {
    if order == [] then Ok([])
    else
      match ReadResultBlocking(reqType, order[0], snapshots(order[0]))
      case Err(e) => Err(e)
      case Ok(p) =>
        match ReadAll(order[1..], reqType, snapshots)
        case Err(e) => Err(e)
        case Ok(rest) => Ok([p.0] + rest)
  }

  /**
   * `req_batch_with_reqtype`: every input is written with a fresh id, then
   * the ids are read back with `readResult_blocking` in the order of the
   * `std::set` holding them. The writes and the counter are returned even
   * while the reads are still waiting.
   */
  function ReqBatch<R>(counter: int, inputs: seq<BGKInputs>, rank: int, tag: string, reqType: Mode,
                       snapshots: int -> seq<map<int, R>>): (r: (seq<Request>, int, Result<seq<Option<R>>>))
    ensures |r.0| == |inputs| && r.1 == counter + |inputs|
    ensures forall i :: 0 <= i < |inputs| ==> r.0[i] == Request(tag, rank, counter + i, inputs[i], reqType)
    ensures r.2.Ok? ==> |r.2.value| == |inputs|
  {
    var (ids, next) := IssueReqs(counter, |inputs|);
    IssueReqsCountsUp(counter, |inputs|);
    SetOfIssued(counter, |inputs|);
    var order := SetOf(ids);
    (seq(|inputs|, i requires 0 <= i < |inputs| => Request(tag, rank, ids[i], inputs[i], reqType)),
     next,
     ReadAll(order, reqType, snapshots))
  }

  /** The batch returns exactly when the blocking read of every input's request returns. */
  lemma ReqBatchReturnsIffAllReadsReturn<R>(counter: int, inputs: seq<BGKInputs>, rank: int, tag: string, reqType: Mode,
                                            snapshots: int -> seq<map<int, R>>)
    ensures var r := ReqBatch(counter, inputs, rank, tag, reqType, snapshots);
      r.2.Ok? <==> forall i :: 0 <= i < |inputs| ==> ReadResultBlocking(reqType, r.0[i].req, snapshots(r.0[i].req)).Ok?
  {
    var ids := IssueReqs(counter, |inputs|).0;
    IssueReqsCountsUp(counter, |inputs|);
    SetOfIssued(counter, |inputs|);
    var r := ReqBatch(counter, inputs, rank, tag, reqType, snapshots);
    assert r.2 == ReadAll(ids, reqType, snapshots);
    forall i | 0 <= i < |inputs|
      ensures ids[i] == r.0[i].req
    {
    }
  }

  /**
   * The batch's `i`-th result is what the blocking read of the `i`-th
   * input's request returned: the set of fresh ids iterates in input order.
   */
  lemma ReqBatchInInputOrder<R>(counter: int, inputs: seq<BGKInputs>, rank: int, tag: string, reqType: Mode,
                                snapshots: int -> seq<map<int, R>>)
    ensures var r := ReqBatch(counter, inputs, rank, tag, reqType, snapshots);
      r.2.Ok? ==> forall i :: 0 <= i < |inputs| ==>
        var read := ReadResultBlocking(reqType, r.0[i].req, snapshots(r.0[i].req));
        read.Ok? && r.2.value[i] == read.value.0
  {
    var ids := IssueReqs(counter, |inputs|).0;
    IssueReqsCountsUp(counter, |inputs|);
    SetOfIssued(counter, |inputs|);
    var r := ReqBatch(counter, inputs, rank, tag, reqType, snapshots);
    assert r.2 == ReadAll(ids, reqType, snapshots);
    forall i | 0 <= i < |inputs|
      ensures ids[i] == r.0[i].req
    {
    }
  }

  /** A KILL batch never queries: it comes back at once with no result for any input. */
  lemma ReqBatchKillHasNoResults<R>(counter: int, inputs: seq<BGKInputs>, rank: int, tag: string,
                                    snapshots: int -> seq<map<int, R>>)
    ensures ReqBatch(counter, inputs, rank, tag, Kill, snapshots).2 == Ok(seq(|inputs|, _ => None))
  {
    var r := ReqBatch(counter, inputs, rank, tag, Kill, snapshots);
    ReqBatchReturnsIffAllReadsReturn(counter, inputs, rank, tag, Kill, snapshots);
    ReqBatchInInputOrder(counter, inputs, rank, tag, Kill, snapshots);
    assert forall i :: 0 <= i < |inputs| ==> ReadResultBlocking(Kill, r.0[i].req, snapshots(r.0[i].req)) == Ok((None, 0));
    assert r.2.value == seq(|inputs|, _ => None);
  }

  // --------------------------------------------------------- connections

  /** Rank 0's view of the library: the database connection, the per-rank result tables, the rows written. */
  datatype Session<R> = Session(dbOpen: bool, colTables: seq<map<int, R>>, writes: seq<Request>, counter: int)

  /**
   * `connectGlue`: only rank 0 connects. The collective library also sizes
   * the per-rank result tables to the communicator (`sizeTables`); the
   * older copy does not have them.
   */
  function ConnectGlue<R>(s: Session<R>, myRank: int, commSize: nat, sizeTables: bool): (r: Session<R>)
    ensures myRank != 0 ==> r == s
    ensures myRank == 0 ==> r.dbOpen && r.writes == s.writes && r.counter == s.counter
    ensures myRank == 0 && sizeTables ==>
      (|r.colTables| == commSize && forall k :: 0 <= k < commSize && k < |s.colTables| ==> r.colTables[k] == s.colTables[k])
    ensures myRank == 0 && sizeTables ==> forall k :: |s.colTables| <= k < commSize ==> r.colTables[k] == map[]
    ensures !sizeTables ==> r.colTables == s.colTables
  {
    if myRank != 0 then s
    else if !sizeTables then s.(dbOpen := true)
    else
      var tables := if commSize <= |s.colTables| then s.colTables[..commSize]
                    else s.colTables + seq(commSize - |s.colTables|, _ => map[]);
      s.(dbOpen := true, colTables := tables)
  }

  /** `closeGlue`: rank 0 sends the stop sentinel under tag `TAG` as rank 0, then disconnects. */
  function CloseGlue<R>(s: Session<R>, myRank: int): (r: Session<R>)
    ensures myRank != 0 ==> r == s
    ensures myRank == 0 ==> !r.dbOpen && r.colTables == s.colTables && r.counter == s.counter + 1
    ensures myRank == 0 ==> r.writes == s.writes + [Request("TAG", 0, s.counter, StopArgs, Kill)]
  {
    if myRank != 0 then s
    else
      StopServiceSendsOneKill<R>(s.counter, 0, "TAG");
      var e := StopService<R>(s.counter, 0, "TAG");
      s.(writes := s.writes + e.writes, counter := e.counter, dbOpen := false)
  }

  /** `preprocess_icf`: the duplicate removal is still to be written, so the input comes back as it is. */
  function Preprocess(input: seq<BGKInputs>): (r: (seq<BGKInputs>, nat))
    ensures r.1 == |r.0| && r.0 == input
  {
    (input, |input|)
  }
}
