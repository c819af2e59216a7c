/** The client's dispatcher: it probes every server once, keeps the healthy
    ones in their original order, assigns the batches to them round-robin,
    sends each batch once and keeps the blocks of the batches that came back.
    The network is replaced by oracles: one probe outcome per server and one
    send outcome per batch. */
module Dispatch {
  import opened Common
  import Batching

  type Url = string

  /** Outcome of `GET {url}/health`: a status code, or an exception (the
      5-second timeout included). */
  datatype ProbeOutcome = ProbeStatus(code: int) | ProbeRaised

  /** What `response.json()` made of a response body: not JSON at all, or a
      JSON value from which the keys "start_row" and "results" may be missing
      (`None`), "results" also when it is not a float array. */
  datatype ResponseBody = NotJson | Json(startRow: Option<int>, results: Option<Block>)

  /** Outcome of `POST {url}/process_batch` with the one-hour timeout. */
  datatype SendOutcome =
    | Response(status: int, body: ResponseBody)
    | Timeout
    | ConnectionError
    | OtherException

  /** The JSON body of a batch request. */
  datatype Payload = Payload(
    startRow: nat,
    endRow: nat,
    lonsGrid: seq<GridRow>,
    latsGrid: seq<GridRow>,
    knownData: KnownData,
    power: real,
    polygonMask: Option<seq<seq<bool>>>)

  /** A request the dispatcher sent: to which server, with which body. */
  datatype Request = Request(url: Url, payload: Payload)

  /** `get_next_server` indexing past the end of the server list raises IndexError. */
  datatype DispatchError = ServerIndexError

  /** `check_server_health`: healthy only for a 200 answer. */
  function CheckServerHealth(probe: ProbeOutcome): (healthy: bool)
    ensures healthy <==> probe == ProbeStatus(200)
  {
    match probe
    case ProbeStatus(code) => code == 200
    case ProbeRaised => false
  }

  /** The serializable form of a batch: every field carried over, the mask
      only when the batch has one. */
  function ToPayload(b: Batch): (p: Payload)
    ensures p.startRow == b.startRow && p.endRow == b.endRow
    ensures p.lonsGrid == b.lonsGrid && p.latsGrid == b.latsGrid
    ensures p.knownData == b.knownData && p.power == b.power
    ensures p.polygonMask.None? <==> b.polygonMask.None?
    ensures b.polygonMask.Some? ==> p.polygonMask == Some(b.polygonMask.value)
  {
    Payload(b.startRow, b.endRow, b.lonsGrid, b.latsGrid, b.knownData, b.power,
            match b.polygonMask
            case None => None
            case Some(mask) => Some(mask))
  }

  /** What `send_batch_to_server` returns: the server's start row and its
      block for a 200 answer whose JSON holds both, `None` otherwise. */
  function SendResult(outcome: SendOutcome): (r: Option<(int, Block)>)
    ensures r.Some? ==> outcome.Response? && outcome.status == 200
    ensures r.Some? <==> outcome.Response? && outcome.status == 200 && outcome.body.Json? &&
                         outcome.body.startRow.Some? && outcome.body.results.Some?
    ensures r.Some? ==> r.value == (outcome.body.startRow.value, outcome.body.results.value)
  {
    match outcome
    case Response(status, body) =>
      if status != 200 then None
      else (match body
            case NotJson => None
            case Json(startRow, results) =>
              if startRow.Some? && results.Some? then Some((startRow.value, results.value)) else None)
    case Timeout => None
    case ConnectionError => None
    case OtherException => None
  }

  /** `completed_batches` is incremented once `response.json()` has parsed a
      200 answer, before the result is read out of it. */
  predicate CountsAsCompleted(outcome: SendOutcome)
  {
    outcome.Response? && outcome.status == 200 && outcome.body.Json?
  }

  /** The servers with a healthy probe, in their original order. */
  function HealthyServers(urls: seq<Url>, probes: seq<ProbeOutcome>): seq<Url>
    requires |urls| == |probes|
  {
    if urls == [] then []
    else HealthyServers(urls[..|urls| - 1], probes[..|probes| - 1]) +
         (if CheckServerHealth(probes[|probes| - 1]) then [urls[|urls| - 1]] else [])
  }

  /** The positions of the healthy probes, ascending. */
  function HealthyIndices(probes: seq<ProbeOutcome>): seq<nat>
  {
    if probes == [] then []
    else HealthyIndices(probes[..|probes| - 1]) +
         (if CheckServerHealth(probes[|probes| - 1]) then [|probes| - 1] else [])
  }

  /** The servers that `k` successive calls of `get_next_server` return,
      starting from cursor `cursor`. */
  function Assignment(servers: seq<Url>, cursor: nat, k: nat): (picks: seq<Url>)
    requires |servers| > 0
    ensures |picks| == k
    ensures forall i :: 0 <= i < k ==> picks[i] in servers
  {
    seq(k, i requires 0 <= i => servers[(cursor + i) % |servers|])
  }

  /** The cursor after `k` calls of `get_next_server` on `n` servers. */
  function Advance(cursor: nat, k: nat, n: nat): nat
    requires n > 0
  {
    if k == 0 then cursor else (cursor + k) % n
  }

  /** The requests sent for the batches, batch i to server i. */
  function Dispatched(batches: seq<Batch>, servers: seq<Url>): seq<Request>
    requires |servers| == |batches|
  {
    seq(|batches|, i requires 0 <= i < |batches| => Request(servers[i], ToPayload(batches[i])))
  }

  /** The results mapping: send outcome i answers batch i, and each
      successful send stores its block under the submitted start row. */
  function CollectResults(batches: seq<Batch>, outcomes: seq<SendOutcome>): map<nat, Block>
    requires |batches| == |outcomes|
  {
    if batches == [] then map[]
    else
      var m := CollectResults(batches[..|batches| - 1], outcomes[..|outcomes| - 1]);
      var r := SendResult(outcomes[|outcomes| - 1]);
      if r.Some? then m[batches[|batches| - 1].startRow := r.value.1] else m
  }

  /** The final value of `completed_batches`. */
  function CompletedCount(outcomes: seq<SendOutcome>): nat
  {
    if outcomes == [] then 0
    else CompletedCount(outcomes[..|outcomes| - 1]) + (if CountsAsCompleted(outcomes[|outcomes| - 1]) then 1 else 0)
  }

  /** The number of sends that produced a result. */
  function SuccessCount(outcomes: seq<SendOutcome>): nat
  {
    if outcomes == [] then 0
    else SuccessCount(outcomes[..|outcomes| - 1]) + (if SendResult(outcomes[|outcomes| - 1]).Some? then 1 else 0)
  }

  /** No two batches share a start row. */
  ghost predicate DistinctStarts(batches: seq<Batch>)
  {
    forall i, j :: 0 <= i < j < |batches| ==> batches[i].startRow != batches[j].startRow
  }

  /** One more step of the cursor, taken modulo n. */
  lemma ModStep(a: nat, n: nat)
    requires n > 0
    ensures (a % n + 1) % n == (a + 1) % n
  {
    var q, r := a / n, a % n;
    assert a == q * n + r;
    if r + 1 == n {
      assert (q + 1) * n == q * n + n;
      DivIsUnique(a + 1, n, q + 1);
      DivIsUnique(r + 1, n, 1);
    } else {
      DivIsUnique(a + 1, n, q);
      DivIsUnique(r + 1, n, 0);
    }
  }

  /** The cursor after j calls, from a valid start, is (cursor + j) mod n, and
      one more call moves it to the value after j + 1 calls. */
  lemma CursorStep(cursor: nat, j: nat, n: nat)
    requires n > 0 && cursor < n
    ensures Advance(cursor, j, n) == (cursor + j) % n
    ensures (Advance(cursor, j, n) + 1) % n == Advance(cursor, j + 1, n)
  {
    if j == 0 {
      DivIsUnique(cursor, n, 0);
    } else {
      ModStep(cursor + j, n);
    }
  }

  /** One more batch: the mapping gains its block if its send succeeded. */
  lemma CollectStep(batches: seq<Batch>, outcomes: seq<SendOutcome>, j: nat)
    requires |batches| == |outcomes| && j < |batches|
    ensures CollectResults(batches[..j + 1], outcomes[..j + 1]) ==
            if SendResult(outcomes[j]).Some?
            then CollectResults(batches[..j], outcomes[..j])[batches[j].startRow := SendResult(outcomes[j]).value.1]
            else CollectResults(batches[..j], outcomes[..j])
  {
    assert batches[..j + 1][..j] == batches[..j];
    assert outcomes[..j + 1][..j] == outcomes[..j];
  }

  /** One more batch: `completed_batches` grows when its body parsed. */
  lemma CompletedStep(outcomes: seq<SendOutcome>, j: nat)
    requires j < |outcomes|
    ensures CompletedCount(outcomes[..j + 1]) ==
            CompletedCount(outcomes[..j]) + (if CountsAsCompleted(outcomes[j]) then 1 else 0)
  {
    assert outcomes[..j + 1][..j] == outcomes[..j];
  }

  // ---------------------------------------------------------------------
  // Properties of the dispatcher's reference functions

  /** The healthy positions are in range and ascending. */
  lemma {:induction false} HealthyIndicesAscending(probes: seq<ProbeOutcome>)
    ensures var idx := HealthyIndices(probes);
            (forall j :: 0 <= j < |idx| ==> idx[j] < |probes|) &&
            (forall j, k :: 0 <= j < k < |idx| ==> idx[j] < idx[k])
  {
    if probes != [] {
      var n := |probes|;
      var p0 := probes[..n - 1];
      HealthyIndicesAscending(p0);
      assert var idx0 := HealthyIndices(p0);
             (forall j :: 0 <= j < |idx0| ==> idx0[j] < |p0|) &&
             (forall j, k :: 0 <= j < k < |idx0| ==> idx0[j] < idx0[k]);
      var idx0 := HealthyIndices(p0);
      var idx := idx0 + (if CheckServerHealth(probes[n - 1]) then [n - 1] else []);
      assert HealthyIndices(probes) == idx;
      assert forall j :: 0 <= j < |idx0| ==> idx[j] == idx0[j];
    }
  }

  /** A position is healthy exactly when its probe answered 200. */
  lemma {:induction false} HealthyIndicesExactly(probes: seq<ProbeOutcome>)
    ensures forall i :: 0 <= i < |probes| ==> (i in HealthyIndices(probes) <==> CheckServerHealth(probes[i]))
  {
    if probes != [] {
      var n := |probes|;
      var p0 := probes[..n - 1];
      HealthyIndicesExactly(p0);
      HealthyIndicesAscending(p0);
      assert var idx0 := HealthyIndices(p0); forall j :: 0 <= j < |idx0| ==> idx0[j] < |p0|;
      var idx0 := HealthyIndices(p0);
      var last := if CheckServerHealth(probes[n - 1]) then [n - 1] else [];
      assert HealthyIndices(probes) == idx0 + last;
      forall i | 0 <= i < n
        ensures i in HealthyIndices(probes) <==> CheckServerHealth(probes[i])
      {
        assert i in idx0 + last <==> i in idx0 || i in last;
        if i < n - 1 {
          assert p0[i] == probes[i];
          assert i !in last;
        } else {
          assert i !in idx0;
        }
      }
    }
  }

  /** The j-th healthy server is the server at the j-th healthy position. */
  lemma {:induction false} HealthyServersAt(urls: seq<Url>, probes: seq<ProbeOutcome>)
    requires |urls| == |probes|
    ensures var healthy, idx := HealthyServers(urls, probes), HealthyIndices(probes);
            |healthy| == |idx| &&
            (forall j :: 0 <= j < |idx| ==> idx[j] < |urls| && healthy[j] == urls[idx[j]])
  {
    if urls != [] {
      var n := |urls|;
      var u0, p0 := urls[..n - 1], probes[..n - 1];
      HealthyServersAt(u0, p0);
      HealthyIndicesAscending(p0);
      var idx0 := HealthyIndices(p0);
      assert forall j :: 0 <= j < |idx0| ==> u0[idx0[j]] == urls[idx0[j]];
    }
  }

  /** The healthy list is exactly the subsequence of the servers at the
      positions whose probe answered 200, in their original order. */
  lemma HealthyServersSubsequence(urls: seq<Url>, probes: seq<ProbeOutcome>)
    requires |urls| == |probes|
    ensures var healthy, idx := HealthyServers(urls, probes), HealthyIndices(probes);
            |healthy| == |idx| &&
            (forall j :: 0 <= j < |idx| ==> idx[j] < |urls| && healthy[j] == urls[idx[j]]) &&
            (forall j, k :: 0 <= j < k < |idx| ==> idx[j] < idx[k]) &&
            (forall i :: 0 <= i < |probes| ==> (i in idx <==> CheckServerHealth(probes[i])))
  {
    HealthyServersAt(urls, probes);
    HealthyIndicesAscending(probes);
    HealthyIndicesExactly(probes);
  }

  /** No server is healthy exactly when no probe answered 200. */
  lemma NoHealthyServer(urls: seq<Url>, probes: seq<ProbeOutcome>)
    requires |urls| == |probes|
    ensures HealthyServers(urls, probes) == [] <==> forall i :: 0 <= i < |probes| ==> !CheckServerHealth(probes[i])
  {
    HealthyServersSubsequence(urls, probes);
    var idx := HealthyIndices(probes);
    if idx != [] {
      assert idx[0] in idx;
    }
  }

  /** Three healthy servers and seven batches from a fresh cursor:
      E0, E1, E2, E0, E1, E2, E0. */
  lemma RoundRobinExample()
    ensures Assignment(["E0", "E1", "E2"], 0, 7) == ["E0", "E1", "E2", "E0", "E1", "E2", "E0"]
  {
  }

  /** The cursor stays a valid index once it is one. */
  lemma AdvanceInRange(cursor: nat, k: nat, n: nat)
    requires n > 0 && cursor < n
    ensures Advance(cursor, k, n) < n
  {
  }

  /** Some batch with start row `key` had a successful send. */
  ghost predicate SucceededAt(batches: seq<Batch>, outcomes: seq<SendOutcome>, key: nat)
    requires |batches| == |outcomes|
  {
    exists i :: 0 <= i < |batches| && batches[i].startRow == key && SendResult(outcomes[i]).Some?
  }

  /** A start row is a key of the results mapping exactly when some batch
      with that start row was sent successfully. */
  lemma {:induction false} CollectResultsKey(batches: seq<Batch>, outcomes: seq<SendOutcome>, key: nat)
    requires |batches| == |outcomes|
    ensures key in CollectResults(batches, outcomes) <==> SucceededAt(batches, outcomes, key)
  {
    if batches != [] {
      var n := |batches|;
      var b0, o0 := batches[..n - 1], outcomes[..n - 1];
      CollectResultsKey(b0, o0, key);
      if SucceededAt(b0, o0, key) {
        var i :| 0 <= i < n - 1 && b0[i].startRow == key && SendResult(o0[i]).Some?;
        assert batches[i] == b0[i] && outcomes[i] == o0[i];
      }
      if SucceededAt(batches, outcomes, key) {
        var i :| 0 <= i < n && batches[i].startRow == key && SendResult(outcomes[i]).Some?;
        if i < n - 1 {
          assert b0[i] == batches[i] && o0[i] == outcomes[i];
        }
      }
    }
  }

  /** With distinct start rows, a successful send's block is stored under its
      batch's start row. */
  lemma {:induction false} CollectResultsValue(batches: seq<Batch>, outcomes: seq<SendOutcome>, i: nat)
    requires |batches| == |outcomes|
    requires DistinctStarts(batches)
    requires i < |batches| && SendResult(outcomes[i]).Some?
    ensures batches[i].startRow in CollectResults(batches, outcomes)
    ensures CollectResults(batches, outcomes)[batches[i].startRow] == SendResult(outcomes[i]).value.1
  {
    var n := |batches|;
    if i < n - 1 {
      var b0, o0 := batches[..n - 1], outcomes[..n - 1];
      assert b0[i] == batches[i] && o0[i] == outcomes[i];
      assert DistinctStarts(b0) by {
        assert forall j :: 0 <= j < n - 1 ==> b0[j] == batches[j];
      }
      CollectResultsValue(b0, o0, i);
      assert batches[i].startRow != batches[n - 1].startRow;
    }
  }

  /** With distinct start rows, the keys of the results mapping are exactly
      the start rows of the batches whose send succeeded, and each maps to
      that send's block; failed batches are absent. */
  lemma CollectResultsContents(batches: seq<Batch>, outcomes: seq<SendOutcome>)
    requires |batches| == |outcomes|
    requires DistinctStarts(batches)
    ensures var m := CollectResults(batches, outcomes);
            (forall key: nat :: key in m <==>
               exists i :: 0 <= i < |batches| && batches[i].startRow == key && SendResult(outcomes[i]).Some?) &&
            (forall i :: 0 <= i < |batches| && SendResult(outcomes[i]).Some? ==>
               batches[i].startRow in m && m[batches[i].startRow] == SendResult(outcomes[i]).value.1)
  {
    forall key: nat
      ensures key in CollectResults(batches, outcomes) <==> SucceededAt(batches, outcomes, key)
    {
      CollectResultsKey(batches, outcomes, key);
    }
    forall i | 0 <= i < |batches| && SendResult(outcomes[i]).Some?
      ensures batches[i].startRow in CollectResults(batches, outcomes)
      ensures CollectResults(batches, outcomes)[batches[i].startRow] == SendResult(outcomes[i]).value.1
    {
      CollectResultsValue(batches, outcomes, i);
    }
  }

  /** `pi` and `inv` are inverse permutations of the positions [0, n). */
  predicate InversePermutations(pi: seq<nat>, inv: seq<nat>)
  {
    |pi| == |inv| &&
    (forall i :: 0 <= i < |pi| ==> pi[i] < |inv| && inv[pi[i]] == i) &&
    (forall i :: 0 <= i < |inv| ==> inv[i] < |pi| && pi[inv[i]] == i)
  }

  /** Batch i of the reordering is batch pi[i] of the original, with its outcome. */
  ghost predicate Reordered(batches: seq<Batch>, outcomes: seq<SendOutcome>,
                            batches': seq<Batch>, outcomes': seq<SendOutcome>, pi: seq<nat>)
  {
    |batches| == |outcomes| == |batches'| == |outcomes'| == |pi| &&
    forall i :: 0 <= i < |pi| ==> pi[i] < |pi| && batches'[i] == batches[pi[i]] && outcomes'[i] == outcomes[pi[i]]
  }

  /** Reordering keeps the start rows distinct. */
  lemma ReorderedDistinct(batches: seq<Batch>, outcomes: seq<SendOutcome>,
                          batches': seq<Batch>, outcomes': seq<SendOutcome>, pi: seq<nat>, inv: seq<nat>)
    requires InversePermutations(pi, inv)
    requires Reordered(batches, outcomes, batches', outcomes', pi)
    requires DistinctStarts(batches)
    ensures DistinctStarts(batches')
  {
    forall i, j | 0 <= i < j < |pi|
      ensures batches'[i].startRow != batches'[j].startRow
    {
      assert pi[i] != pi[j] by {
        assert inv[pi[i]] == i && inv[pi[j]] == j;
      }
      if pi[i] < pi[j] {
        assert batches[pi[i]].startRow != batches[pi[j]].startRow;
      } else {
        assert batches[pi[j]].startRow != batches[pi[i]].startRow;
      }
    }
  }

  /** Reordering keeps which start rows had a successful send. */
  lemma ReorderedSucceeded(batches: seq<Batch>, outcomes: seq<SendOutcome>,
                           batches': seq<Batch>, outcomes': seq<SendOutcome>, pi: seq<nat>, inv: seq<nat>, key: nat)
    requires InversePermutations(pi, inv)
    requires Reordered(batches, outcomes, batches', outcomes', pi)
    ensures SucceededAt(batches, outcomes, key) <==> SucceededAt(batches', outcomes', key)
  {
    if SucceededAt(batches, outcomes, key) {
      var i :| 0 <= i < |batches| && batches[i].startRow == key && SendResult(outcomes[i]).Some?;
      assert batches'[inv[i]] == batches[i] && outcomes'[inv[i]] == outcomes[i];
    }
    if SucceededAt(batches', outcomes', key) {
      var i :| 0 <= i < |batches'| && batches'[i].startRow == key && SendResult(outcomes'[i]).Some?;
      assert batches[pi[i]] == batches'[i] && outcomes[pi[i]] == outcomes'[i];
    }
  }

  /** Completion order does not matter: sending the same batches with the same
      outcomes in any order, with distinct start rows, yields the same results
      mapping. */
  lemma CollectResultsPermuted(batches: seq<Batch>, outcomes: seq<SendOutcome>,
                               batches': seq<Batch>, outcomes': seq<SendOutcome>,
                               pi: seq<nat>, inv: seq<nat>)
    requires InversePermutations(pi, inv)
    requires Reordered(batches, outcomes, batches', outcomes', pi)
    requires DistinctStarts(batches)
    ensures DistinctStarts(batches')
    ensures CollectResults(batches', outcomes') == CollectResults(batches, outcomes)
  {
    ReorderedDistinct(batches, outcomes, batches', outcomes', pi, inv);
    var m, m' := CollectResults(batches, outcomes), CollectResults(batches', outcomes');
    forall key: nat
      ensures key in m' <==> key in m
    {
      CollectResultsKey(batches, outcomes, key);
      CollectResultsKey(batches', outcomes', key);
      ReorderedSucceeded(batches, outcomes, batches', outcomes', pi, inv, key);
    }
    forall key | key in m
      ensures m'[key] == m[key]
    {
      CollectResultsKey(batches, outcomes, key);
      var i :| 0 <= i < |batches| && batches[i].startRow == key && SendResult(outcomes[i]).Some?;
      CollectResultsValue(batches, outcomes, i);
      assert batches'[inv[i]] == batches[i] && outcomes'[inv[i]] == outcomes[i];
      CollectResultsValue(batches', outcomes', inv[i]);
    }
    assert m'.Keys == m.Keys;
  }

  /** A results mapping never holds more entries than there were successful
      sends, `completed_batches` counts at least those, and no count exceeds
      the number of batches; with distinct start rows the mapping holds one
      entry per successful send. */
  lemma {:induction false} ResultCounts(batches: seq<Batch>, outcomes: seq<SendOutcome>)
    requires |batches| == |outcomes|
    ensures |CollectResults(batches, outcomes)| <= SuccessCount(outcomes)
    ensures SuccessCount(outcomes) <= CompletedCount(outcomes) <= |outcomes|
    ensures DistinctStarts(batches) ==> |CollectResults(batches, outcomes)| == SuccessCount(outcomes)
  {
    if batches != [] {
      var n := |batches|;
      var b0, o0 := batches[..n - 1], outcomes[..n - 1];
      ResultCounts(b0, o0);
      var m0 := CollectResults(b0, o0);
      if DistinctStarts(batches) {
        assert DistinctStarts(b0) by {
          assert forall i :: 0 <= i < n - 1 ==> b0[i] == batches[i];
        }
        if SendResult(outcomes[n - 1]).Some? {
          CollectResultsContents(b0, o0);
          assert batches[n - 1].startRow !in m0 by {
            assert forall i :: 0 <= i < n - 1 ==> b0[i] == batches[i];
          }
        }
      }
    }
  }

  /** The batches built from the partition have distinct start rows, so the
      results mapping keeps every successful block. */
  lemma PartitionStartsDistinct(batches: seq<Batch>, height: nat, batchSize: nat)
    requires batchSize >= 1
    requires |batches| == |Batching.Partition(height, batchSize)|
    requires forall k :: 0 <= k < |batches| ==> batches[k].startRow == Batching.Partition(height, batchSize)[k].0
    ensures DistinctStarts(batches)
  {
    Batching.PartitionAscending(height, batchSize);
  }

  /** Submitting one more batch appends one request to the log. */
  lemma DispatchedStep(batches: seq<Batch>, servers: seq<Url>, cursor: nat, j: nat)
    requires |servers| > 0 && j < |batches|
    ensures Dispatched(batches[..j + 1], Assignment(servers, cursor, j + 1)) ==
            Dispatched(batches[..j], Assignment(servers, cursor, j)) +
            [Request(servers[(cursor + j) % |servers|], ToPayload(batches[j]))]
  {
  }

  /** The health phase of `distribute_batches`: probe every server in order
      and keep those that answered 200. */
  method FilterHealthy(urls: seq<Url>, probes: seq<ProbeOutcome>) returns (available: seq<Url>)
    requires |urls| == |probes|
    ensures available == HealthyServers(urls, probes)
  {
    available := [];
    for i := 0 to |urls|
      invariant available == HealthyServers(urls[..i], probes[..i])
    {
      assert urls[..i + 1][..i] == urls[..i];
      assert probes[..i + 1][..i] == probes[..i];
      if CheckServerHealth(probes[i]) {
        available := available + [urls[i]];
      }
    }
    assert urls[..|urls|] == urls;
    assert probes[..|probes|] == probes;
  }

  class BatchManager {
    var serverUrls: seq<Url>
    var currentServer: nat
    var completedBatches: nat
    var totalBatches: nat
    /** The batch requests sent so far, in submission order. */
    ghost var requests: seq<Request>

    constructor (serverUrls: seq<Url>)
      ensures this.serverUrls == serverUrls
      ensures currentServer == 0 && completedBatches == 0 && totalBatches == 0
      ensures requests == []
    {
      this.serverUrls := serverUrls;
      currentServer := 0;
      completedBatches := 0;
      totalBatches := 0;
      requests := [];
    }

    /** Round-robin: the server under the cursor, then the cursor moves on
        modulo the number of servers. */
    method GetNextServer() returns (server: Option<Url>)
      modifies this`currentServer
      ensures old(currentServer) < |serverUrls| ==>
                server == Some(serverUrls[old(currentServer)]) &&
                currentServer == (old(currentServer) + 1) % |serverUrls| &&
                currentServer < |serverUrls|
      ensures old(currentServer) >= |serverUrls| ==>
                server == None && currentServer == old(currentServer)
    {
      if currentServer >= |serverUrls| {
        return None;
      }
      server := Some(serverUrls[currentServer]);
      currentServer := (currentServer + 1) % |serverUrls|;
    }

    /** Sends one batch to one server and classifies the outcome. */
    method SendBatchToServer(batch: Batch, serverUrl: Url, outcome: SendOutcome) returns (r: Option<(int, Block)>)
      modifies this`completedBatches, this`requests
      ensures requests == old(requests) + [Request(serverUrl, ToPayload(batch))]
      ensures r == SendResult(outcome)
      ensures completedBatches == old(completedBatches) + (if CountsAsCompleted(outcome) then 1 else 0)
    {
      requests := requests + [Request(serverUrl, ToPayload(batch))];
      match outcome {
        case Response(status, body) =>
          if status == 200 && body.Json? {
            completedBatches := completedBatches + 1;
            if body.startRow.Some? && body.results.Some? {
              r := Some((body.startRow.value, body.results.value));
            } else {
              r := None;
            }
          } else {
            r := None;
          }
        case Timeout => r := None;
        case ConnectionError => r := None;
        case OtherException => r := None;
      }
    }

    /** Submission of every batch to the next server in round-robin order,
        then collection of the successful blocks by submitted start row. */
    method SubmitAndCollect(batches: seq<Batch>, outcomes: seq<SendOutcome>)
      returns (r: Result<map<nat, Block>, DispatchError>)
      requires |serverUrls| > 0
      requires |outcomes| == |batches|
      modifies this`currentServer, this`completedBatches, this`requests
      ensures if |batches| > 0 && old(currentServer) >= |serverUrls| then
                r == Failure(ServerIndexError) && currentServer == old(currentServer) &&
                completedBatches == old(completedBatches) && requests == old(requests)
              else
                r == Success(CollectResults(batches, outcomes)) &&
                currentServer == Advance(old(currentServer), |batches|, |serverUrls|) &&
                completedBatches == old(completedBatches) + CompletedCount(outcomes) &&
                requests == old(requests) + Dispatched(batches, Assignment(serverUrls, old(currentServer), |batches|))
    {
      var results: map<nat, Block> := map[];
      ghost var cursor0 := currentServer;
      ghost var requests0 := requests;
      ghost var completed0 := completedBatches;
      for j := 0 to |batches|
        invariant j > 0 ==> cursor0 < |serverUrls|
        invariant j == 0 ==> completedBatches == completed0 && requests == requests0
        invariant currentServer == Advance(cursor0, j, |serverUrls|)
        invariant results == CollectResults(batches[..j], outcomes[..j])
        invariant completedBatches == completed0 + CompletedCount(outcomes[..j])
        invariant requests == requests0 + Dispatched(batches[..j], Assignment(serverUrls, cursor0, j))
      {
        var server := GetNextServer();
        if server.None? {
          return Failure(ServerIndexError);
        }
        CursorStep(cursor0, j, |serverUrls|);
        DispatchedStep(batches, serverUrls, cursor0, j);
        CollectStep(batches, outcomes, j);
        CompletedStep(outcomes, j);
        var res := SendBatchToServer(batches[j], server.value, outcomes[j]);
        if res.Some? {
          results := results[batches[j].startRow := res.value.1];
        }
      }
      assert batches[..|batches|] == batches;
      assert outcomes[..|outcomes|] == outcomes;
      return Success(results);
    }

    /** Health phase, abort on no healthy server, round-robin submission and
        collection of the successful blocks by submitted start row. */
    method DistributeBatches(batches: seq<Batch>, probes: seq<ProbeOutcome>, outcomes: seq<SendOutcome>)
      returns (r: Result<map<nat, Block>, DispatchError>)
      requires |probes| == |serverUrls|
      requires |outcomes| == |batches|
      modifies this
      ensures totalBatches == |batches|
      ensures var healthy := HealthyServers(old(serverUrls), probes);
              if healthy == [] then
                r == Success(map[]) && serverUrls == old(serverUrls) &&
                currentServer == old(currentServer) && completedBatches == 0 && requests == old(requests)
              else if |batches| > 0 && old(currentServer) >= |healthy| then
                r == Failure(ServerIndexError) && serverUrls == healthy &&
                currentServer == old(currentServer) && completedBatches == 0 && requests == old(requests)
              else
                r == Success(CollectResults(batches, outcomes)) && serverUrls == healthy &&
                currentServer == Advance(old(currentServer), |batches|, |healthy|) &&
                completedBatches == CompletedCount(outcomes) &&
                requests == old(requests) + Dispatched(batches, Assignment(healthy, old(currentServer), |batches|))
    {
      totalBatches := |batches|;
      completedBatches := 0;

      var available := FilterHealthy(serverUrls, probes);
      if available == [] {
        return Success(map[]);
      }
      serverUrls := available;

      r := SubmitAndCollect(batches, outcomes);
    }
  }
}
