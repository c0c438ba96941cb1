/**
 * The client library's result tables and the collective read path.
 *
 * A `SELECT` on `BGKRESULTS` hands each row to a row callback, which
 * files the result under its request id in either the global table or
 * the table of the row's rank; the first row for an id is kept.
 * `getRangeOfResults` polls until the rank's table holds something in
 * the requested range, and `col_extractResults` matches the polled
 * results back to a batch's request ids.
 *
 * The sixteen text columns of a row arrive already converted: the
 * conversion by `atoi`/`atof` is not part of this model.
 */
module ResultTables {
  import opened Fallible
  import opened GlueTypes
  import opened SqlRetry

  /** A `BGKRESULTS` row: tag, rank, request id, the twelve output columns, provenance. */
  datatype ResultRow = ResultRow(tag: string, rank: int, req: int, fields: seq<real>, provenance: int)

  /** A row carries the twelve output columns of the table. */
  predicate RowShape(row: ResultRow)
  {
    |row.fields| == 12
  }

  /** The result a row callback builds from a row: viscosity, conductivity, the ten diffusion coefficients, provenance. */
  function ParseRow(row: ResultRow): (r: BGKResult)
    requires RowShape(row)
    ensures OutputFields(r.outputs) == row.fields
    ensures r.provenance == row.provenance
  {
    var y := BGKOutputs(row.fields[0], row.fields[1], row.fields[2..12]);
    assert OutputFields(y) == row.fields;
    BGKResult(y, row.provenance)
  }

  type Table = map<int, BGKResult>

  /** Filing one row: an id already present keeps its result. */
  function FileRow(table: Table, row: ResultRow): (t: Table)
    requires RowShape(row)
    ensures t.Keys == table.Keys + {row.req}
    ensures forall id :: id in table ==> t[id] == table[id]
  {
    if row.req in table then table else table[row.req := ParseRow(row)]
  }

  /** The request ids of some rows. */
  function Reqs(rows: seq<ResultRow>): set<int>
  {
    set i | 0 <= i < |rows| :: rows[i].req
  }

  lemma ReqsCons(rows: seq<ResultRow>)
    requires rows != []
    ensures Reqs(rows) == {rows[0].req} + Reqs(rows[1..])
  {
    forall id | id in Reqs(rows) ensures id in {rows[0].req} + Reqs(rows[1..]) {
      var i :| 0 <= i < |rows| && rows[i].req == id;
      if i > 0 { assert rows[1..][i - 1] == rows[i]; }
    }
    forall id | id in Reqs(rows[1..]) ensures id in Reqs(rows) {
      var i :| 0 <= i < |rows[1..]| && rows[1..][i].req == id;
      assert rows[i + 1] == rows[1..][i];
    }
  }

  /** Filing a sequence of rows in order. */
  function FileRows(table: Table, rows: seq<ResultRow>): (t: Table)
    requires forall i :: 0 <= i < |rows| ==> RowShape(rows[i])
    ensures t.Keys == table.Keys + Reqs(rows)
    ensures forall id :: id in table ==> t[id] == table[id]
    decreases |rows|
  {
    if rows == [] then table
    else
      ReqsCons(rows);
      FileRows(FileRow(table, rows[0]), rows[1..])
  }

  /** The first row for an id is the one whose result is kept. */
  lemma {:induction false} FirstRowWins(table: Table, rows: seq<ResultRow>, k: nat)
    requires forall i :: 0 <= i < |rows| ==> RowShape(rows[i])
    requires k < |rows| && rows[k].req !in table
    requires forall j :: 0 <= j < k ==> rows[j].req != rows[k].req
    ensures FileRows(table, rows)[rows[k].req] == ParseRow(rows[k])
    decreases k
  {
    if k == 0 {
      assert FileRow(table, rows[0])[rows[0].req] == ParseRow(rows[0]);
    } else {
      assert rows[1..][k - 1] == rows[k];
      FirstRowWins(FileRow(table, rows[0]), rows[1..], k - 1);
    }
  }

  /** The global table and one table per rank. */
  datatype Tables = Tables(global: Table, col: seq<Table>)

  /** A row the callback `cb` can take: the per-rank callback needs the row's rank to name an existing table. */
  predicate Fits(cb: Callback, tabs: Tables, row: ResultRow)
  {
    RowShape(row) && (cb == ReadColBgk ==> 0 <= row.rank < |tabs.col|)
  }

  /** One row through a callback: `readCallback_bgk`, `readCallback_colbgk` or `dummyCallback`. */
  function RunCallback(cb: Callback, tabs: Tables, row: ResultRow): (r: Tables)
    requires Fits(cb, tabs, row)
    ensures |r.col| == |tabs.col|
  {
    match cb
    case ReadBgk => tabs.(global := FileRow(tabs.global, row))
    case ReadColBgk => tabs.(col := tabs.col[row.rank := FileRow(tabs.col[row.rank], row)])
    case Dummy => tabs
  }

  /** `sqlite3_exec` handing every row of a result to the callback, in order. */
  function Exec(cb: Callback, tabs: Tables, rows: seq<ResultRow>): (r: Tables)
    requires forall i :: 0 <= i < |rows| ==> Fits(cb, tabs, rows[i])
    ensures |r.col| == |tabs.col|
    ensures cb != ReadBgk ==> r.global == tabs.global
    ensures cb != ReadColBgk ==> r.col == tabs.col
    decreases |rows|
  {
    if rows == [] then tabs
    else
      var next := RunCallback(cb, tabs, rows[0]);
      assert forall i :: 0 <= i < |rows| - 1 ==> Fits(cb, next, rows[1..][i]) by {
        forall i | 0 <= i < |rows| - 1 ensures Fits(cb, next, rows[1..][i]) {
          assert rows[1..][i] == rows[i + 1] && Fits(cb, tabs, rows[i + 1]);
        }
      }
      Exec(cb, next, rows[1..])
  }

  /** Rows of one rank through the per-rank callback: that rank's table files them, no other table changes. */
  lemma {:induction false} ExecColOneRank(tabs: Tables, rows: seq<ResultRow>, rank: nat)
    requires rank < |tabs.col|
    requires forall i :: 0 <= i < |rows| ==> RowShape(rows[i]) && rows[i].rank == rank
    ensures forall i :: 0 <= i < |rows| ==> Fits(ReadColBgk, tabs, rows[i])
    ensures Exec(ReadColBgk, tabs, rows).col == tabs.col[rank := FileRows(tabs.col[rank], rows)]
    decreases |rows|
  {
    if rows != [] {
      var next := RunCallback(ReadColBgk, tabs, rows[0]);
      ExecColOneRank(next, rows[1..], rank);
      assert next.col[rank := FileRows(next.col[rank], rows[1..])]
        == tabs.col[rank := FileRows(tabs.col[rank], rows)];
    }
  }

  /** The range test of `getRangeOfResults`: an id at most `maxId` or at least `nextId`. */
  predicate InRange(id: int, nextId: int, maxId: int)
  {
    id <= maxId || id >= nextId
  }

  /**
   * The hits of one pass over a rank's table. The test keeps an id below
   * the range as well as one above it, so for any range with
   * `nextId <= maxId + 1` every entry is a hit.
   */
  function Hits(table: Table, nextId: int, maxId: int): (hits: Table)
    ensures hits.Keys <= table.Keys
    ensures forall id :: id in hits ==> hits[id] == table[id]
    ensures nextId <= maxId + 1 ==> hits == table
  {
    map id | id in table && InRange(id, nextId, maxId) :: table[id]
  }

  /**
   * `getRangeOfResults`: a `KILL` request returns nothing at once;
   * otherwise each poll runs the range `SELECT` through `cb`, then looks
   * in a copy of the rank's table, so that taking the hits out of it
   * leaves the real table as it was. The call returns with the first
   * non-empty set of hits; it is still spinning when the polls run out.
   */
  function GetRangeOfResults(cb: Callback, reqType: Mode, tabs: Tables, rank: nat, nextId: int, maxId: int,
                             polls: seq<seq<ResultRow>>): (r: Result<(Table, Tables)>)
    requires rank < |tabs.col|
    requires forall k, i :: 0 <= k < |polls| && 0 <= i < |polls[k]| ==>
      RowShape(polls[k][i]) && (cb == ReadColBgk ==> polls[k][i].rank == rank)
    ensures r.Ok? ==> |r.value.1.col| == |tabs.col|
    ensures r.Ok? && reqType != Kill ==> r.value.0 != map[]
    ensures cb != ReadColBgk && reqType != Kill && r.Ok? ==> tabs.col[rank] != map[]
    decreases |polls|
  {
    if reqType == Kill then Ok((map[], tabs))
    else if polls == [] then Err("no result in range yet: still polling")
    else
      var after := Exec(cb, tabs, polls[0]);
      var hits := Hits(after.col[rank], nextId, maxId);
      if hits != map[] then Ok((hits, after))
      else GetRangeOfResults(cb, reqType, after, rank, nextId, maxId, polls[1..])
  }

  /**
   * As written, the range `SELECT` is sent with `makeSQLRequest`, whose
   * callback files rows in the global table; a rank's table that starts
   * empty stays empty, and the call never returns.
   */
  lemma {:induction false} RangeAsWrittenSpins(tabs: Tables, rank: nat, nextId: int, maxId: int,
                                               polls: seq<seq<ResultRow>>)
    requires rank < |tabs.col| && tabs.col[rank] == map[]
    requires forall k, i :: 0 <= k < |polls| && 0 <= i < |polls[k]| ==> RowShape(polls[k][i])
    ensures GetRangeOfResults(MakeSqlRequest(BgkResult), Default, tabs, rank, nextId, maxId, polls).Err?
    decreases |polls|
  {
    if polls != [] {
      var after := Exec(ReadBgk, tabs, polls[0]);
      assert after.col == tabs.col;
      RangeAsWrittenSpins(after, rank, nextId, maxId, polls[1..]);
    }
  }

  /**
   * Sent with `makeColSQLRequest` instead, the first poll that returns a
   * row of the rank ends the call, with every result of the rank's table.
   */
  lemma RangeColumnarReturns(tabs: Tables, rank: nat, nextId: int, maxId: int, rows: seq<ResultRow>,
                             later: seq<seq<ResultRow>>)
    requires rank < |tabs.col| && nextId <= maxId + 1
    requires rows != []
    requires forall i :: 0 <= i < |rows| ==> RowShape(rows[i]) && rows[i].rank == rank
    requires forall k, i :: 0 <= k < |later| && 0 <= i < |later[k]| ==>
      RowShape(later[k][i]) && later[k][i].rank == rank
    ensures var r := GetRangeOfResults(MakeColSqlRequest(BgkResult), Default, tabs, rank, nextId, maxId, [rows] + later);
      r.Ok? && r.value.0 == FileRows(tabs.col[rank], rows)
      && r.value.1.col == tabs.col[rank := FileRows(tabs.col[rank], rows)]
  {
    ExecColOneRank(tabs, rows, rank);
    var polls := [rows] + later;
    assert polls[0] == rows && polls[1..] == later;
    assert rows[0].req in FileRows(tabs.col[rank], rows);
  }

  /**
   * One matching pass of `col_extractResults` over the polled results:
   * every pending id (not yet `-1`) found among them is copied out and
   * set to `-1`; the pass ends the loop when the results were non-empty
   * and nothing pending was missing.
   */
  function MatchRound<T>(list: seq<int>, ret: seq<T>, results: map<int, T>): (r: (seq<int>, seq<T>, bool))
    requires |ret| == |list|
    ensures |r.0| == |list| && |r.1| == |list|
  {
    var hit := (i: int) requires 0 <= i < |list| => list[i] != -1 && list[i] in results;
    (seq(|list|, i requires 0 <= i < |list| => if hit(i) then -1 else list[i]),
     seq(|list|, i requires 0 <= i < |list| => if hit(i) then results[list[i]] else ret[i]),
     |results| > 0 && forall i :: 0 <= i < |list| && list[i] != -1 ==> list[i] in results)
  }

  /** The index of the first round holding `id`, or the number of rounds. */
  function Earliest<T>(id: int, rounds: seq<map<int, T>>): (e: nat)
    ensures e <= |rounds|
    ensures e < |rounds| ==> id in rounds[e]
    ensures forall j :: 0 <= j < e ==> id !in rounds[j]
  {
    if rounds == [] then 0
    else if id in rounds[0] then 0
    else
      var e := Earliest(id, rounds[1..]);
      assert forall j :: 1 <= j < 1 + e ==> rounds[j] == rounds[1..][j - 1];
      1 + e
  }

  /**
   * What a pass of `col_extractResults` keeps true after `k` rounds: an
   * entry of the working list is its original id or `-1`; a pending id
   * was in none of the first `k` rounds; a matched id's result comes from
   * the first round that held it; an entry that started as `-1` keeps the
   * blank result.
   */
  ghost predicate Matched<T>(reqList: seq<int>, list: seq<int>, ret: seq<T>, rounds: seq<map<int, T>>, k: nat, blank: T)
  {
    |list| == |reqList| && |ret| == |reqList| && k <= |rounds|
    && (forall i :: 0 <= i < |list| ==> list[i] == -1 || list[i] == reqList[i])
    && (forall i :: 0 <= i < |list| && reqList[i] == -1 ==> ret[i] == blank)
    && (forall i :: 0 <= i < |list| && list[i] != -1 ==> Earliest(reqList[i], rounds) >= k)
    && (forall i :: 0 <= i < |list| && list[i] == -1 && reqList[i] != -1 ==>
          Earliest(reqList[i], rounds) < k && ret[i] == rounds[Earliest(reqList[i], rounds)][reqList[i]])
  }

  /** A matching pass over round `k` extends what holds after `k` rounds to `k + 1`. */
  lemma MatchRoundKeeps<T>(reqList: seq<int>, list: seq<int>, ret: seq<T>, rounds: seq<map<int, T>>, k: nat, blank: T)
    requires Matched(reqList, list, ret, rounds, k, blank) && k < |rounds|
    ensures var step := MatchRound(list, ret, rounds[k]);
      Matched(reqList, step.0, step.1, rounds, k + 1, blank)
      && (step.2 ==> (forall i :: 0 <= i < |list| ==> step.0[i] == -1) && |rounds[k]| > 0)
      && (!step.2 ==> (exists i :: 0 <= i < |list| && step.0[i] != -1) || |rounds[k]| == 0)
  {
    var results := rounds[k];
    var step := MatchRound(list, ret, results);
    forall i | 0 <= i < |list| && list[i] != -1
      ensures list[i] in results ==> Earliest(reqList[i], rounds) == k
      ensures list[i] !in results ==> Earliest(reqList[i], rounds) > k
    {
    }
    if !step.2 && |results| > 0 {
      var i :| 0 <= i < |list| && list[i] != -1 && list[i] !in results;
      assert step.0[i] != -1;
    }
  }

  /**
   * `col_extractResults`, fed the successive results of its
   * `getRangeOfResults` calls. When it returns, every entry of the id
   * list is `-1` and result `i` is the one for the original id `i` from
   * the first round that held it; it keeps polling while some id has not
   * been seen or every round so far came back empty.
   */
  method ColExtractResults<T>(reqList: seq<int>, rounds: seq<map<int, T>>, blank: T)
    returns (r: Result<(seq<T>, seq<int>)>)
    ensures r.Ok? ==> |r.value.0| == |reqList| && r.value.1 == seq(|reqList|, i => -1)
    ensures r.Ok? ==> forall i :: 0 <= i < |reqList| ==>
      (if reqList[i] == -1 then r.value.0[i] == blank
       else (Earliest(reqList[i], rounds) < |rounds|
             && r.value.0[i] == rounds[Earliest(reqList[i], rounds)][reqList[i]]))
    ensures r.Ok? ==> exists k :: 0 <= k < |rounds| && |rounds[k]| > 0
    ensures r.Err? ==>
      ((forall k :: 0 <= k < |rounds| ==> |rounds[k]| == 0)
       || exists i :: 0 <= i < |reqList| && reqList[i] != -1 && Earliest(reqList[i], rounds) == |rounds|)
  {
    var list := reqList;
    var ret := seq(|reqList|, i => blank);
    var k := 0;
    var done := false;
    while !done && k < |rounds|
      invariant 0 <= k <= |rounds|
      invariant Matched(reqList, list, ret, rounds, k, blank)
      invariant done ==> (forall i :: 0 <= i < |list| ==> list[i] == -1) && exists j :: 0 <= j < k && |rounds[j]| > 0
      invariant !done ==> (exists i :: 0 <= i < |list| && list[i] != -1) || forall j :: 0 <= j < k ==> |rounds[j]| == 0
    {
      MatchRoundKeeps(reqList, list, ret, rounds, k, blank);
      var step := MatchRound(list, ret, rounds[k]);
      list, ret, done := step.0, step.1, step.2;
      k := k + 1;
    }
    if done {
      assert list == seq(|reqList|, i => -1);
      r := Ok((ret, list));
    } else {
      r := Err("results still missing: still polling");
    }
  }
}
