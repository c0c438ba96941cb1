/**
 * The MPI collective batch request of the client library: every rank
 * splits its inputs into batches of `BufferSize`, non-root ranks ship them
 * to rank 0 with tags counting down from the batch total to 1, rank 0
 * queues them per rank in arrival order, serves each queued batch and
 * sends the results back under the same countdown of tags, and each
 * non-root rank reassembles its result buffer in input order.
 *
 * Messages between one pair of ranks are a sequence in send order; a
 * receive for a tag takes the first message carrying that tag (MPI's
 * non-overtaking rule) and blocks when there is none. The glue service
 * that answers a queued batch is a function `g` applied to each request.
 */
module Collective {
  import opened Fallible

  /** `globalGlueBufferSize`. */
  const BufferSize: nat := 1024

  /** The number of batches needed for `n` inputs: the quotient, plus one for a partial batch. */
  function BatchCount(n: nat): nat
  {
    n / BufferSize + (if n % BufferSize != 0 then 1 else 0)
  }

  /** The batch count is the least number of full buffers that holds `n` inputs. */
  lemma BatchCountCovers(n: nat)
    ensures n <= BatchCount(n) * BufferSize
    ensures BatchCount(n) == 0 || (BatchCount(n) - 1) * BufferSize < n
  {
  }

  /** Where batch `k` starts: the send offset after `k` steps of `BufferSize`. */
  function Offset(k: nat): nat
  {
    k * BufferSize
  }

  /** One past the last index of batch `k`: a full batch, or the remainder when the next offset passes `n`. */
  function ChunkEnd(n: nat, k: nat): (e: nat)
    requires k < BatchCount(n)
    ensures Offset(k) < e <= n
    ensures k + 1 < BatchCount(n) ==> e == Offset(k + 1)
    ensures k + 1 == BatchCount(n) ==> e == n
  {
    var r := BatchCount(n);
    BatchCountCovers(n);
    assert k * BufferSize <= (r - 1) * BufferSize;
    assert k + 1 < r ==> (k + 1) * BufferSize <= (r - 1) * BufferSize;
    if Offset(k) + BufferSize > n then n else Offset(k) + BufferSize
  }

  /** Batch `k` of `input`. */
  function Chunk<T>(input: seq<T>, k: nat): (c: seq<T>)
    requires k < BatchCount(|input|)
  {
    var e := ChunkEnd(|input|, k);
    input[Offset(k) .. e]
  }

  /** The batches of `input` from batch `k` on. */
  function ChunksFrom<T>(input: seq<T>, k: nat): (cs: seq<seq<T>>)
    requires k <= BatchCount(|input|)
    ensures |cs| == BatchCount(|input|) - k
    decreases BatchCount(|input|) - k
  {
    if k == BatchCount(|input|) then [] else [Chunk(input, k)] + ChunksFrom(input, k + 1)
  }

  datatype Message<T> = Message(tag: nat, payload: seq<T>)

  /**
   * The send loop of a non-root rank run `count` times, from batch `k`
   * on: the message for batch `k` carries the tag `count - k`.
   */
  function SendLoop<T>(input: seq<T>, count: nat, k: nat): (msgs: seq<Message<T>>)
    requires k <= count <= BatchCount(|input|)
    ensures |msgs| == count - k
    decreases count - k
  {
    if k == count then [] else [Message(count - k, Chunk(input, k))] + SendLoop(input, count, k + 1)
  }

  /** Everything a rank ships to rank 0 when it counts its own batches. */
  function Batches<T>(input: seq<T>): seq<Message<T>>
  {
    SendLoop(input, BatchCount(|input|), 0)
  }

  /** The non-root send loop, written as the library writes it: an offset stepping by `BufferSize` and a tag counting down. */
  method SendBatches<T>(input: seq<T>) returns (msgs: seq<Message<T>>)
    ensures msgs == Batches(input)
  {
    var total := BatchCount(|input|);
    var cur := 0;
    var i := total;
    msgs := [];
    while i > 0
      invariant 0 <= i <= total
      invariant cur == Offset(total - i)
      invariant msgs + SendLoop(input, total, total - i) == Batches(input)
    {
      var k := total - i;
      var end := ChunkEnd(|input|, k);
      var size := if cur + BufferSize > |input| then |input| - cur else BufferSize;
      assert cur + size == end;
      msgs := msgs + [Message(i, input[cur .. cur + size])];
      cur := cur + BufferSize;
      i := i - 1;
    }
  }

  /** The tags a message sequence carries. */
  function Tags<T>(msgs: seq<Message<T>>): set<nat>
  {
    set k | 0 <= k < |msgs| :: msgs[k].tag
  }

  /** A matching receive: the payload of the first message with `tag`, or `None` when the receive would block. */
  function Receive<T>(msgs: seq<Message<T>>, tag: nat): Option<seq<T>>
  {
    if msgs == [] then None
    else if msgs[0].tag == tag then Some(msgs[0].payload)
    else Receive(msgs[1..], tag)
  }

  /** A receive blocks exactly when no message carries its tag. */
  lemma {:induction false} ReceiveBlocks<T>(msgs: seq<Message<T>>, tag: nat)
    ensures Receive(msgs, tag).None? <==> tag !in Tags(msgs)
  {
    if msgs == [] {
    } else if msgs[0].tag == tag {
      assert msgs[0].tag in Tags(msgs);
    } else {
      ReceiveBlocks(msgs[1..], tag);
      assert Tags(msgs) == {msgs[0].tag} + Tags(msgs[1..]) by {
        forall t | t in Tags(msgs) ensures t in {msgs[0].tag} + Tags(msgs[1..]) {
          var k :| 0 <= k < |msgs| && msgs[k].tag == t;
          if k > 0 { assert msgs[1..][k - 1] == msgs[k]; }
        }
        forall t | t in Tags(msgs[1..]) ensures t in Tags(msgs) {
          var k :| 0 <= k < |msgs[1..]| && msgs[1..][k].tag == t;
          assert msgs[k + 1] == msgs[1..][k];
        }
      }
    }
  }

  /** The send loop's message for batch `k` is the first one tagged `count - k`. */
  lemma {:induction false} ReceiveSent<T>(input: seq<T>, count: nat, j: nat, k: nat)
    requires j <= k < count <= BatchCount(|input|)
    ensures Receive(SendLoop(input, count, j), count - k) == Some(Chunk(input, k))
    decreases k - j
  {
    if j < k {
      ReceiveSent(input, count, j + 1, k);
    }
  }

  /**
   * Rank 0 taking a rank's batches: while batches are expected it
   * receives the tag equal to the count still expected and queues the
   * payload; it blocks when one of those tags never arrives.
   */
  function RootReceive<T>(msgs: seq<Message<T>>, batches: nat): (r: Result<seq<seq<T>>>)
    ensures r.Ok? ==> |r.value| == batches
    ensures r.Ok? <==> forall t :: 1 <= t <= batches ==> t in Tags(msgs)
  {
    if batches == 0 then Ok([])
    else
      var head := Receive(msgs, batches);
      ReceiveBlocks(msgs, batches);
      if head.None? then Err("receive blocks: no batch with the expected tag")
      else
        var rest := RootReceive(msgs, batches - 1);
        if rest.Err? then rest
        else Ok([head.value] + rest.value)
  }

  /** The result of serving one batch: one answer per request, in request order. */
  function MapAll<S, R>(g: S -> R, xs: seq<S>): (ys: seq<R>)
    ensures |ys| == |xs|
    ensures forall i :: 0 <= i < |xs| ==> ys[i] == g(xs[i])
  {
    seq(|xs|, i requires 0 <= i < |xs| => g(xs[i]))
  }

  /**
   * Rank 0 answering a rank's queue: while result batches remain it
   * serves the batch at the front and sends it with the tag equal to the
   * count still to send.
   */
  function RootServe<S, R>(queue: seq<seq<S>>, g: S -> R): (msgs: seq<Message<R>>)
    ensures |msgs| == |queue|
  {
    if queue == [] then []
    else [Message(|queue|, MapAll(g, queue[0]))] + RootServe(queue[1..], g)
  }

  /**
   * A non-root rank receiving its results: batch `k` is expected under
   * the tag `total - k` and must fill its slot of the buffer exactly.
   */
  function ReceiveFrom<R>(msgs: seq<Message<R>>, n: nat, k: nat): (r: Result<seq<R>>)
    requires k <= BatchCount(n)
    decreases BatchCount(n) - k
  {
    if k == BatchCount(n) then Ok([])
    else match Receive(msgs, BatchCount(n) - k)
      case None => Err("receive blocks: no result with the expected tag")
      case Some(p) =>
        if |p| != ChunkEnd(n, k) - Offset(k) then Err("result batch does not fill its slot")
        else match ReceiveFrom(msgs, n, k + 1)
          case Err(e) => Err(e)
          case Ok(rest) => Ok(p + rest)
  }

  function ReceiveResults<R>(msgs: seq<Message<R>>, n: nat): Result<seq<R>>
  {
    ReceiveFrom(msgs, n, 0)
  }

  /** One step of the receive loop: a result of the right size lands in front of the rest. */
  lemma ReceiveFromStep<R>(msgs: seq<Message<R>>, n: nat, k: nat, p: seq<R>, rest: seq<R>)
    requires k < BatchCount(n)
    requires Receive(msgs, BatchCount(n) - k) == Some(p)
    requires |p| == ChunkEnd(n, k) - Offset(k)
    requires ReceiveFrom(msgs, n, k + 1) == Ok(rest)
    ensures ReceiveFrom(msgs, n, k) == Ok(p + rest)
  {
  }

  /** Receiving the tag of batch `k` from a rank's messages yields batch `k`. */
  lemma ReceiveBatch<T>(input: seq<T>, k: nat)
    requires k < BatchCount(|input|)
    ensures Receive(Batches(input), BatchCount(|input|) - k) == Some(Chunk(input, k))
  {
    ReceiveSent(input, BatchCount(|input|), 0, k);
  }

  /** Reassembly inverts the batching: receiving the batches of `ys` from batch `k` on yields the rest of `ys`. */
  lemma {:induction false} ReceiveFromBatches<R>(ys: seq<R>, k: nat)
    requires k < BatchCount(|ys|)
    ensures var e := ChunkEnd(|ys|, k); ReceiveFrom(Batches(ys), |ys|, k) == Ok(ys[Offset(k)..])
    decreases BatchCount(|ys|) - k
  {
    var total := BatchCount(|ys|);
    var msgs := Batches(ys);
    var end := ChunkEnd(|ys|, k);
    var p := Chunk(ys, k);
    ReceiveBatch(ys, k);
    if k + 1 < total {
      ReceiveFromBatches(ys, k + 1);
      var rest := ys[end..];
      assert ReceiveFrom(msgs, |ys|, k + 1) == Ok(rest);
      ReceiveFromStep(msgs, |ys|, k, p, rest);
      assert p + rest == ys[Offset(k)..];
    } else {
      ReceiveFromStep(msgs, |ys|, k, p, []);
      assert p + [] == ys[Offset(k)..];
    }
  }

  lemma ReceiveBatches<R>(ys: seq<R>)
    ensures ReceiveResults(Batches(ys), |ys|) == Ok(ys)
  {
    if BatchCount(|ys|) > 0 {
      ReceiveFromBatches(ys, 0);
    }
  }

  /** Rank 0 queues a rank's batches in the order they were cut from its inputs. */
  lemma {:induction false} RootReceiveBatches<T>(input: seq<T>, b: nat)
    requires b <= BatchCount(|input|)
    ensures RootReceive(Batches(input), b) == Ok(ChunksFrom(input, BatchCount(|input|) - b))
  {
    if b > 0 {
      var total := BatchCount(|input|);
      var k := total - b;
      ReceiveBatch(input, k);
      RootReceiveBatches(input, b - 1);
      assert ChunksFrom(input, k) == [Chunk(input, k)] + ChunksFrom(input, k + 1);
    }
  }

  /** Serving the queued batches produces the batches of the answers, tags included. */
  lemma {:induction false} RootServeChunks<S, R>(xs: seq<S>, g: S -> R, k: nat)
    requires k <= BatchCount(|xs|)
    ensures RootServe(ChunksFrom(xs, k), g) == SendLoop(MapAll(g, xs), BatchCount(|xs|), k)
    decreases BatchCount(|xs|) - k
  {
    if k < BatchCount(|xs|) {
      var ys := MapAll(g, xs);
      var end := ChunkEnd(|xs|, k);
      assert MapAll(g, Chunk(xs, k)) == Chunk(ys, k);
      assert ChunksFrom(xs, k)[1..] == ChunksFrom(xs, k + 1);
      RootServeChunks(xs, g, k + 1);
    }
  }

  lemma {:induction false} RootServeSpec<S, R>(queue: seq<seq<S>>, g: S -> R)
    ensures RootServe(queue, g)
      == seq(|queue|, k requires 0 <= k < |queue| => Message(|queue| - k, MapAll(g, queue[k])))
  {
    if queue != [] {
      RootServeSpec(queue[1..], g);
    }
  }

  /**
   * The whole exchange for one non-root rank: its result buffer holds
   * the answer to each of its inputs, in input order.
   */
  lemma CollectiveRoundTrip<S, R>(input: seq<S>, g: S -> R)
    ensures var queue := RootReceive(Batches(input), BatchCount(|input|));
      queue.Ok? && ReceiveResults(RootServe(queue.value, g), |input|) == Ok(MapAll(g, input))
  {
    RootReceiveBatches(input, BatchCount(|input|));
    RootServeChunks(input, g, 0);
    ReceiveBatches(MapAll(g, input));
  }

  /** Each rank's contribution to the reduction: its own batch count at its own index, zero elsewhere. */
  function LocalBatches(commSize: nat, rank: nat, n: nat): (v: seq<int>)
    requires rank < commSize
    ensures |v| == commSize
  {
    seq(commSize, j requires 0 <= j < commSize => if j == rank then BatchCount(n) as int else 0)
  }

  function Max(a: int, b: int): int { if a < b then b else a }

  /** `MPI_Reduce` with `MPI_MAX`: the elementwise maximum of every rank's vector. */
  function ReduceMax(vs: seq<seq<int>>, size: nat): (r: seq<int>)
    requires forall i :: 0 <= i < |vs| ==> |vs[i]| == size
    ensures |r| == size
    ensures forall j :: 0 <= j < size ==> forall i :: 0 <= i < |vs| ==> vs[i][j] <= r[j]
    ensures forall j :: 0 <= j < size && vs != [] ==> exists i :: 0 <= i < |vs| && r[j] == vs[i][j]
  {
    if vs == [] then seq(size, j => 0)
    else if |vs| == 1 then vs[0]
    else
      var rest := ReduceMax(vs[1..], size);
      assert forall i :: 1 <= i < |vs| ==> vs[i] == vs[1..][i - 1];
      seq(size, j requires 0 <= j < size => Max(vs[0][j], rest[j]))
  }

  /** The reduced vector holds every rank's batch count at that rank's index. */
  lemma ReducedCounts(counts: seq<nat>, j: nat)
    requires j < |counts|
    ensures var locals := seq(|counts|, r requires 0 <= r < |counts| => LocalBatches(|counts|, r, counts[r]));
      ReduceMax(locals, |counts|)[j] == BatchCount(counts[j])
  {
    var locals := seq(|counts|, r requires 0 <= r < |counts| => LocalBatches(|counts|, r, counts[r]));
    var red := ReduceMax(locals, |counts|);
    assert locals[j][j] == BatchCount(counts[j]);
    var i :| 0 <= i < |locals| && red[j] == locals[i][j];
  }

  /** What `reqBatches` holds after the reduction: the result on rank 0, the untouched zero vector elsewhere. */
  function ReqBatchesOnRank(myRank: nat, reduced: seq<int>): (v: seq<int>)
    ensures |v| == |reduced|
    ensures myRank != 0 ==> forall j :: 0 <= j < |v| ==> v[j] == 0
  {
    if myRank == 0 then reduced else seq(|reduced|, j => 0)
  }

  /**
   * The older `icf_req`: a non-root rank counts its send loop from
   * `reqBatches[myRank]` rather than from its own batch count.
   */
  function IcfNonRootSends<T>(input: seq<T>, myRank: nat, reduced: seq<int>): (msgs: seq<Message<T>>)
    requires 0 < myRank < |reduced|
  {
    var count := ReqBatchesOnRank(myRank, reduced)[myRank];
    SendLoop(input, count as nat, 0)
  }

  /** The library's `req_collective`: the send loop counts from the rank's own `localReqBatches` entry. */
  function NonRootSends<T>(input: seq<T>, myRank: nat, commSize: nat): (msgs: seq<Message<T>>)
    requires myRank < commSize
  {
    SendLoop(input, LocalBatches(commSize, myRank, |input|)[myRank] as nat, 0)
  }

  /**
   * In the older `icf_req` a non-root rank with inputs sends nothing,
   * while rank 0 expects at least one batch from it and blocks.
   */
  lemma IcfNonRootStarvesRoot<T>(input: seq<T>, myRank: nat, commSize: nat)
    requires 0 < myRank < commSize && |input| > 0
    ensures var counts := seq(commSize, r => if r == myRank then |input| else 0);
      var locals := seq(commSize, r requires 0 <= r < commSize => LocalBatches(commSize, r, counts[r]));
      var reduced := ReduceMax(locals, commSize);
      IcfNonRootSends(input, myRank, reduced) == []
      && RootReceive(IcfNonRootSends(input, myRank, reduced), reduced[myRank] as nat).Err?
  {
    var counts := seq(commSize, r => if r == myRank then |input| else 0);
    ReducedCounts(counts, myRank);
    var locals := seq(commSize, r requires 0 <= r < commSize => LocalBatches(commSize, r, counts[r]));
    var reduced := ReduceMax(locals, commSize);
    assert reduced[myRank] >= 1;
    var none: seq<Message<T>> := [];
    ReceiveBlocks(none, reduced[myRank] as nat);
  }

  /** In the library, what a non-root rank sends is what rank 0 expects, batch for batch. */
  lemma NonRootSendsExpected<T>(input: seq<T>, myRank: nat, commSize: nat)
    requires 0 < myRank < commSize
    ensures var counts := seq(commSize, r => if r == myRank then |input| else 0);
      var locals := seq(commSize, r requires 0 <= r < commSize => LocalBatches(commSize, r, counts[r]));
      var reduced := ReduceMax(locals, commSize);
      NonRootSends(input, myRank, commSize) == Batches(input)
      && RootReceive(NonRootSends(input, myRank, commSize), reduced[myRank] as nat).Ok?
  {
    var counts := seq(commSize, r => if r == myRank then |input| else 0);
    ReducedCounts(counts, myRank);
    RootReceiveBatches(input, BatchCount(|input|));
  }

  /** The older `icf_req` on rank 0: an `if` takes at most one batch from a rank. */
  function IcfRootReceive<T>(msgs: seq<Message<T>>, batches: nat): (r: Result<seq<seq<T>>>)
    ensures r.Ok? ==> |r.value| == (if batches == 0 then 0 else 1)
  {
    if batches == 0 then Ok([])
    else match Receive(msgs, batches)
      case None => Err("receive blocks: no batch with the expected tag")
      case Some(p) => Ok([p])
  }

  /**
   * The older `icf_req` answering a rank: an `if` serves one batch, the
   * one at index `resultBatches[rank]` of the rank's batch list.
   */
  function IcfRootServe<S, R>(batchList: seq<seq<S>>, batches: nat, g: S -> R): (r: Result<seq<Message<R>>>)
    ensures r.Ok? ==> |r.value| <= 1
    ensures r.Err? <==> 0 < batches && |batchList| <= batches
  {
    if batches == 0 then Ok([])
    else if batches < |batchList| then Ok([Message(batches, MapAll(g, batchList[batches]))])
    else Err("batch index past the end of the list")
  }

  /** Whenever rank 0 of the older `icf_req` has a batch of a rank to answer, it indexes past the end of that rank's list. */
  lemma IcfRootIndexPastEnd<S, R>(msgs: seq<Message<S>>, batches: nat, g: S -> R)
    requires batches > 0 && IcfRootReceive(msgs, batches).Ok?
    ensures IcfRootServe(IcfRootReceive(msgs, batches).value, batches, g).Err?
  {
  }

  /** The library instead serves every queued batch, front first, one result message per batch. */
  lemma RootServesEveryBatch<S, R>(msgs: seq<Message<S>>, batches: nat, g: S -> R)
    requires RootReceive(msgs, batches).Ok?
    ensures var queue := RootReceive(msgs, batches).value;
      var out := RootServe(queue, g);
      |out| == batches && forall k :: 0 <= k < batches ==> out[k] == Message(batches - k, MapAll(g, queue[k]))
  {
    RootServeSpec(RootReceive(msgs, batches).value, g);
  }

  /**
   * The older `icf_extractResults`: its matching loop is commented out, so
   * whatever the service has answered, it hands back one default result
   * per requested id.
   */
  function IcfExtractResults<T>(reqRange: seq<int>, blank: T): (r: seq<T>)
    ensures |r| == |reqRange|
    ensures forall i :: 0 <= i < |r| ==> r[i] == blank
  {
    seq(|reqRange|, _ => blank)
  }
}
