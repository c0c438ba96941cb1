/**
 * The request-polling half of the service loop: for every requesting
 * source (a rank, or an active-learning requester with a negative rank)
 * the service remembers the highest request id it has seen and the ids it
 * has seen the need for but not yet received, selects from the request
 * table everything at or above the lowest pending id, and queues each
 * pending request exactly once.
 */
module Polling {
  import opened Fallible
  import opened Text
  import opened GlueTypes
  import opened Sql

  /** One polled row after `processReqRow`: request id, requested mode, request. */
  datatype Entry = Entry(req: int, mode: Mode, args: BGKInputs)

  /** A queued task: originating rank, request id, requested mode and request. */
  datatype Task = Task(rank: int, req: int, mode: Mode, args: BGKInputs)

  /** `reqArray[i]`: the source's rank, the highest id received, and the ids still missing. */
  datatype Source = Source(rank: int, latest: int, missing: seq<int>)

  // --------------------------------------------------------------- sources

  /** Requesters `-numAL .. numRanks-1`, each with nothing received and nothing missing. */
  function InitialSources(numRanks: nat, numAL: nat): (ss: seq<Source>)
    ensures |ss| == numRanks + numAL
    ensures forall i :: 0 <= i < |ss| ==> ss[i] == Source(i - numAL, -1, [])
  {
    seq(numRanks + numAL, i => Source(i - numAL, -1, []))
  }

  // --------------------------------------------------------- select string

  /** Smallest element of a non-empty list (`min`). */
  function SeqMin(s: seq<int>): (m: int)
    requires s != []
    ensures m in s && forall k :: 0 <= k < |s| ==> m <= s[k]
  {
    if |s| == 1 then s[0]
    else
      var rest := SeqMin(s[1..]);
      assert forall k :: 1 <= k < |s| ==> s[k] == s[1..][k - 1];
      if s[0] <= rest then s[0] else rest
  }

  /** The lowest id the next select asks for. */
  function SelLowerBound(s: Source): (b: int)
    ensures s.missing == [] ==> b == s.latest + 1
    ensures s.missing != [] ==> b in s.missing && forall k :: 0 <= k < |s.missing| ==> b <= s.missing[k]
  {
    if s.missing == [] then s.latest + 1 else SeqMin(s.missing)
  }

  const SelHead: string := "SELECT * FROM BGKREQS WHERE RANK=" + "?" + " AND REQ>="
  const SelTail: string := "  AND TAG=" + "?" + ";"

  /** `getSelString` with its `(rank, tag)` arguments; only BGK requests can be selected. */
  function SelQuery(packet: SolverCode, s: Source, tag: string): (r: Result<Query>)
    ensures r.Ok? <==> packet == Bgk
    ensures r.Ok? ==> r.value.args == [SqlInt(s.rank), SqlText(tag)]
  {
    if packet != Bgk then Err("Using Unsupported Solver Code")
    else Ok(Query(SelSql(SelLowerBound(s)), [SqlInt(s.rank), SqlText(tag)]))
  }

  /** The select text for a given lower bound. */
  function SelSql(lower: int): string
  {
    SelHead + IntToString(lower) + SelTail
  }

  lemma SelectMarks() ensures Placeholders("SELECT * FROM BGKREQS WHERE RANK=") == 0
  {
    CountAbsent("SELECT * FROM BGKREQS WHERE RANK=", '?');
  }
  lemma ReqMarks() ensures Placeholders(" AND REQ>=") == 0 { CountAbsent(" AND REQ>=", '?'); }
  lemma TagMarks() ensures Placeholders("  AND TAG=") == 0 { CountAbsent("  AND TAG=", '?'); }
  lemma EndMarks() ensures Placeholders(";") == 0 { CountAbsent(";", '?'); }
  lemma OneMark() ensures Placeholders("?") == 1 { }

  lemma SelHeadMarks() ensures Placeholders(SelHead) == 1
  {
    SelectMarks();
    ReqMarks();
    OneMark();
  }

  lemma SelTailMarks() ensures Placeholders(SelTail) == 1
  {
    TagMarks();
    EndMarks();
    OneMark();
  }

  lemma MarksAround(head: string, mid: string, tail: string)
    requires Placeholders(head) == 1 && '?' !in mid && Placeholders(tail) == 1
    ensures Placeholders(head + mid + tail) == 2
  {
    assert multiset(head + mid + tail) == multiset(head) + multiset(mid) + multiset(tail);
  }

  lemma SelTextMarks(mid: string)
    requires '?' !in mid
    ensures Placeholders(SelHead + mid + SelTail) == 2
  {
    SelHeadMarks();
    SelTailMarks();
    MarksAround(SelHead, mid, SelTail);
  }

  lemma SelSqlMarks(lower: int)
    ensures Placeholders(SelSql(lower)) == 2
  {
    IntToStringHasNo(lower, '?');
    SelTextMarks(IntToString(lower));
  }

  /** The select binds exactly its two placeholders, rank and tag, whatever the lower bound. */
  lemma SelQueryBound(s: Source, tag: string)
    ensures SelQuery(Bgk, s, tag).Ok? && Bound(SelQuery(Bgk, s, tag).value)
  {
    SelSqlMarks(SelLowerBound(s));
  }

  // ------------------------------------------------------------ bookkeeping

  predicate NoDup(s: seq<int>)
  {
    forall i, j :: 0 <= i < j < |s| ==> s[i] != s[j]
  }

  function Elems(s: seq<int>): set<int>
  {
    set x | x in s
  }

  /** The ids `0 .. n`. */
  function Upto(n: int): set<int>
  {
    Elems(NewRange(-1, n))
  }

  /** `range(lo + 1, hi + 1)`. */
  function NewRange(lo: int, hi: int): (r: seq<int>)
    ensures |r| == if hi >= lo then hi - lo else 0
    ensures forall k :: 0 <= k < |r| ==> r[k] == lo + 1 + k
  {
    if hi <= lo then [] else seq(hi - lo, k => lo + 1 + k)
  }

  /** `list.remove`: drop the first occurrence. */
  function RemoveFirst(s: seq<int>, x: int): (r: seq<int>)
    requires x in s
    ensures multiset(r) == multiset(s) - multiset{x}
  {
    if s[0] == x then
      assert s == [s[0]] + s[1..];
      s[1..]
    else
      assert s == [s[0]] + s[1..];
      [s[0]] + RemoveFirst(s[1..], x)
  }

  function TaskIds(tasks: seq<Task>): (ids: seq<int>)
    ensures |ids| == |tasks| && forall k :: 0 <= k < |tasks| ==> ids[k] == tasks[k].req
  {
    seq(|tasks|, k requires 0 <= k < |tasks| => tasks[k].req)
  }

  /** The tasks of several polls, queued one poll after another. */
  function Concat(parts: seq<seq<Task>>): (q: seq<Task>)
    ensures |parts| > 0 ==> q == Concat(parts[..|parts| - 1]) + parts[|parts| - 1]
  {
    if parts == [] then [] else Concat(parts[..|parts| - 1]) + parts[|parts| - 1]
  }

  /** Highest request id among the polled rows (`max(resultQueue, key=id)`). */
  function MaxReq(entries: seq<Entry>): (m: int)
    requires entries != []
    ensures exists k :: 0 <= k < |entries| && entries[k].req == m
    ensures forall k :: 0 <= k < |entries| ==> entries[k].req <= m
  {
    if |entries| == 1 then entries[0].req
    else
      var rest := MaxReq(entries[1..]);
      assert forall k :: 1 <= k < |entries| ==> entries[k] == entries[1..][k - 1];
      if entries[0].req >= rest then entries[0].req else rest
  }

  /** The task a polled row becomes. */
  function TaskOf(rank: int, e: Entry): Task
  {
    Task(rank, e.req, e.mode, e.args)
  }

  /** Every polled row as a task, in row order. */
  function Candidates(rank: int, entries: seq<Entry>): (c: seq<Task>)
    ensures |c| == |entries| && forall j :: 0 <= j < |entries| ==> c[j] == TaskOf(rank, entries[j])
  {
    seq(|entries|, j requires 0 <= j < |entries| => TaskOf(rank, entries[j]))
  }

  /**
   * The row loop of a poll: queue, in row order, each row whose id is still
   * pending and strike that id off the pending list.
   */
  method Dequeue(rank: int, pending: seq<int>, entries: seq<Entry>) returns (missing: seq<int>, tasks: seq<Task>)
    ensures multiset(missing) + multiset(TaskIds(tasks)) == multiset(pending)
    ensures forall k :: 0 <= k < |tasks| ==> tasks[k] in Candidates(rank, entries)
    ensures forall j :: 0 <= j < |entries| && entries[j].req in pending ==> entries[j].req in TaskIds(tasks)
  {
    var c := Candidates(rank, entries);
    missing := pending;
    tasks := [];
    var i := 0;
    while i < |entries|
      invariant 0 <= i <= |entries|
      invariant multiset(missing) + multiset(TaskIds(tasks)) == multiset(pending)
      invariant forall k :: 0 <= k < |tasks| ==> tasks[k] in c
      invariant forall j :: 0 <= j < i && entries[j].req in pending ==> entries[j].req in TaskIds(tasks)
    {
      var e := entries[i];
      if e.req in missing {
        TaskIdsAppend(tasks, TaskOf(rank, e));
        Strike(missing, TaskIds(tasks), pending, e.req);
        tasks := tasks + [TaskOf(rank, e)];
        missing := RemoveFirst(missing, e.req);
      } else if e.req in pending {
        NotMissingTaken(missing, TaskIds(tasks), pending, e.req);
      }
      i := i + 1;
    }
  }

  lemma TaskIdsAppend(tasks: seq<Task>, t: Task)
    ensures TaskIds(tasks + [t]) == TaskIds(tasks) + [t.req]
  {
  }

  /** Moving one id from the missing list to the queued ids keeps their union. */
  lemma Strike(missing: seq<int>, ids: seq<int>, pending: seq<int>, x: int)
    requires x in missing
    requires multiset(missing) + multiset(ids) == multiset(pending)
    ensures multiset(RemoveFirst(missing, x)) + multiset(ids + [x]) == multiset(pending)
  {
  }

  /** A pending id that is no longer missing has been queued. */
  lemma NotMissingTaken(missing: seq<int>, ids: seq<int>, pending: seq<int>, x: int)
    requires x in pending && x !in missing
    requires multiset(missing) + multiset(ids) == multiset(pending)
    ensures x in ids
  {
    assert multiset(pending)[x] >= 1;
    assert multiset(missing)[x] == 0;
  }

  /**
   * What one poll of source `s` did with the rows `entries`: the source
   * moved to `next` and the poll dequeued `tasks`. The source never moves
   * back; its newest id rises to the largest polled id; the old missing
   * ids and the newly uncovered ones are split between the new missing
   * list and the dequeued tasks; every task is a polled row; and every
   * polled row that was pending is dequeued.
   */
  predicate Polled(s: Source, entries: seq<Entry>, next: Source, tasks: seq<Task>)
  {
    && next.rank == s.rank && next.latest >= s.latest
    && (entries == [] ==> next == s && tasks == [])
    && (entries != [] ==> next.latest == (if MaxReq(entries) > s.latest then MaxReq(entries) else s.latest))
    && multiset(next.missing) + multiset(TaskIds(tasks)) == multiset(s.missing + NewRange(s.latest, next.latest))
    && (forall k :: 0 <= k < |tasks| ==> tasks[k] in Candidates(s.rank, entries))
    && (forall j :: 0 <= j < |entries| && entries[j].req in s.missing + NewRange(s.latest, next.latest) ==>
          entries[j].req in TaskIds(tasks))
  }

  /**
   * One source's share of a poll: raise `latest` to the highest id seen,
   * append the newly uncovered ids to the missing list, then dequeue.
   */
  method PollSource(s: Source, entries: seq<Entry>) returns (next: Source, tasks: seq<Task>)
    ensures Polled(s, entries, next, tasks)
  {
    if entries == [] {
      assert NewRange(s.latest, s.latest) == [];
      return s, [];
    }
    var latest := s.latest;
    var newLatest := MaxReq(entries);
    if newLatest > latest {
      latest := newLatest;
    }
    var missing;
    missing, tasks := Dequeue(s.rank, s.missing + NewRange(s.latest, latest), entries);
    next := Source(s.rank, latest, missing);
  }

  // ------------------------------------------------------------- invariant

  /**
   * What the service knows about a source: every id from 0 to `latest` has
   * been either queued (`enqueued`) or recorded as missing, never both,
   * and no id is recorded as missing twice.
   */
  predicate Inv(s: Source, enqueued: set<int>)
  {
    && s.latest >= -1
    && NoDup(s.missing)
    && Elems(s.missing) !! enqueued
    && Elems(s.missing) + enqueued == Upto(s.latest)
  }

  /** A fresh source satisfies the invariant with nothing queued. */
  lemma InitialInv(numRanks: nat, numAL: nat, i: nat)
    requires i < numRanks + numAL
    ensures Inv(InitialSources(numRanks, numAL)[i], {})
  {
    assert Upto(-1) == {};
  }

  /** Count form of `NoDup`. */
  lemma NoDupCounts(s: seq<int>)
    ensures NoDup(s) <==> forall x :: multiset(s)[x] <= 1
  {
    if s != [] {
      NoDupCounts(s[1..]);
      assert s == [s[0]] + s[1..];
      if NoDup(s) {
        assert NoDup(s[1..]) by {
          forall i, j | 0 <= i < j < |s[1..]| ensures s[1..][i] != s[1..][j] {
            assert s[1..][i] == s[i + 1] && s[1..][j] == s[j + 1];
          }
        }
        assert s[0] !in s[1..];
      } else {
        var i, j :| 0 <= i < j < |s| && s[i] == s[j];
        if i == 0 {
          assert s[1..][j - 1] == s[0];
          assert multiset(s)[s[0]] >= 2;
        } else {
          assert s[1..][i - 1] == s[1..][j - 1];
          assert !NoDup(s[1..]);
          var x :| multiset(s[1..])[x] > 1;
          assert multiset(s)[x] > 1;
        }
      }
    }
  }

  lemma NewRangeMembers(lo: int, hi: int)
    ensures forall x :: x in NewRange(lo, hi) <==> lo < x <= hi
  {
    var r := NewRange(lo, hi);
    forall x | lo < x <= hi ensures x in r {
      assert r[x - lo - 1] == x;
    }
  }

  /** Membership in `Upto`. */
  lemma UptoMembers(n: int)
    ensures forall x :: x in Upto(n) <==> 0 <= x <= n
  {
    NewRangeMembers(-1, n);
  }

  /** The ids newly uncovered by a poll are distinct, all above the old `latest`, and extend `Upto`. */
  lemma NewRangeFacts(lo: int, hi: int)
    requires lo >= -1
    ensures NoDup(NewRange(lo, hi))
    ensures forall x :: x in NewRange(lo, hi) <==> lo < x <= hi
    ensures hi >= lo ==> Upto(hi) == Upto(lo) + Elems(NewRange(lo, hi))
  {
    NewRangeMembers(lo, hi);
    UptoMembers(lo);
    UptoMembers(hi);
  }

  /** Splitting a duplicate-free multiset into two parts gives two disjoint, duplicate-free parts. */
  lemma SplitNoDup(a: seq<int>, b: seq<int>, p: seq<int>)
    requires multiset(a) + multiset(b) == multiset(p)
    requires NoDup(p)
    ensures NoDup(a) && NoDup(b) && Elems(a) !! Elems(b)
    ensures Elems(a) + Elems(b) == Elems(p)
  {
    NoDupCounts(p);
    forall x ensures multiset(a)[x] <= 1 && multiset(b)[x] <= 1 && (multiset(a)[x] == 0 || multiset(b)[x] == 0) {
      assert multiset(p)[x] == multiset(a)[x] + multiset(b)[x];
    }
    NoDupCounts(a);
    NoDupCounts(b);
    forall x | x in Elems(a) ensures x !in Elems(b) {
      assert multiset(a)[x] >= 1;
    }
    forall x | x in Elems(p) ensures x in Elems(a) + Elems(b) {
      assert multiset(p)[x] == multiset(a)[x] + multiset(b)[x];
    }
    forall x | x in Elems(a) + Elems(b) ensures x in Elems(p) {
      assert multiset(p)[x] == multiset(a)[x] + multiset(b)[x];
    }
  }

  /**
   * A poll keeps the invariant, with the polled tasks added to the queued
   * ids: the tasks carry distinct ids, none of them queued before.
   */
  lemma PollKeepsInv(s: Source, next: Source, tasks: seq<Task>, enqueued: set<int>)
    requires Inv(s, enqueued)
    requires next.latest >= s.latest
    requires multiset(next.missing) + multiset(TaskIds(tasks)) == multiset(s.missing + NewRange(s.latest, next.latest))
    ensures NoDup(TaskIds(tasks)) && Elems(TaskIds(tasks)) !! enqueued
    ensures Inv(next, enqueued + Elems(TaskIds(tasks)))
  {
    var uncovered := NewRange(s.latest, next.latest);
    var p := s.missing + uncovered;
    NewRangeFacts(s.latest, next.latest);
    assert forall x :: x in s.missing ==> x in Upto(s.latest);
    assert NoDup(p) by {
      forall i, j | 0 <= i < j < |p| ensures p[i] != p[j] {
        if j >= |s.missing| && i < |s.missing| {
          assert p[i] in s.missing && p[j] in uncovered;
        } else if i >= |s.missing| {
          assert p[i] == uncovered[i - |s.missing|] && p[j] == uncovered[j - |s.missing|];
        }
      }
    }
    SplitNoDup(next.missing, TaskIds(tasks), p);
    assert Elems(p) == Elems(s.missing) + Elems(uncovered);
    assert Elems(p) !! enqueued;
  }

  /**
   * Whatever a source had already enqueued, a poll of it dequeues fresh
   * ids only, each once, and leaves the source in the invariant with its
   * dequeued ids added.
   */
  lemma PolledKeepsInv(s: Source, entries: seq<Entry>, next: Source, tasks: seq<Task>)
    requires Polled(s, entries, next, tasks)
    ensures forall enqueued :: Inv(s, enqueued) ==>
      NoDup(TaskIds(tasks)) && Elems(TaskIds(tasks)) !! enqueued && Inv(next, enqueued + Elems(TaskIds(tasks)))
  {
    forall enqueued | Inv(s, enqueued)
      ensures NoDup(TaskIds(tasks)) && Elems(TaskIds(tasks)) !! enqueued && Inv(next, enqueued + Elems(TaskIds(tasks)))
    {
      PollKeepsInv(s, next, tasks, enqueued);
    }
  }

  /** Every source `i` moved to `next[i]` keeps the invariant once its dequeued ids count as enqueued. */
  ghost predicate AllKeepInv(sources: seq<Source>, next: seq<Source>, perSource: seq<seq<Task>>)
  {
    |next| == |sources| && |perSource| == |sources|
    && forall i, enqueued :: 0 <= i < |sources| && Inv(sources[i], enqueued) ==>
         Inv(next[i], enqueued + Elems(TaskIds(perSource[i])))
  }

  /**
   * Everything below the next select's lower bound has already been
   * queued, so the select never skips a pending request.
   */
  lemma SelectCoversPending(s: Source, enqueued: set<int>, id: int)
    requires Inv(s, enqueued)
    requires 0 <= id < SelLowerBound(s)
    ensures id in enqueued
  {
    UptoMembers(s.latest);
    if s.missing != [] {
      var b := SelLowerBound(s);
      assert b in Elems(s.missing);
      assert b in Upto(s.latest);
    }
    assert id in Upto(s.latest);
    assert id !in Elems(s.missing);
  }
}
