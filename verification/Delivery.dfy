/**
 Outbound batch delivery: one request, the retry loop around it, and the split-in-half work queue
 around that.

 The remote side is a function from request number to reply, so a statement that holds for every
 `network` holds for every pattern of refusals, lost replies and secretly applied requests.
 */
module Delivery {
  import opened Optional
  import opened RemoteVault
  import Backoff

  datatype Response = Response(
    created: nat, updated: nat, restored: nat, lockedSkipped: nat, softDeleted: nat, linked: nat)

  const NoResponse := Response(0, 0, 0, 0, 0, 0)

  function Merge(a: Response, b: Response): Response {
    Response(a.created + b.created, a.updated + b.updated, a.restored + b.restored,
             a.lockedSkipped + b.lockedSkipped, a.softDeleted + b.softDeleted, a.linked + b.linked)
  }

  /** What the remote side does with one request. A refused or broken exchange may still have been
      applied, as with a gateway timeout after commit or an unreadable success body. */
  datatype Reply =
    | Accepted(response: Response)
    | Refused(status: nat, applied: bool)
    | Broken(applied: bool)

  /** What the caller is told. */
  datatype Outcome =
    | Ok(response: Response)
    | RemoteError(status: nat)
    | OtherError

  datatype Attempt = Attempt(records: seq<Input>, mode: BatchMode, reply: Reply)

  function OutcomeOf(reply: Reply): Outcome {
    match reply
    case Accepted(response) => Ok(response)
    case Refused(status, _) => RemoteError(status)
    case Broken(_) => OtherError
  }

  /** The caller is told what the reply was, field for field. */
  predicate Reported(r: Outcome, reply: Reply) {
    && (reply.Accepted? ==> r.Ok? && r.response == reply.response)
    && (reply.Refused? ==> r.RemoteError? && r.status == reply.status)
    && (reply.Broken? ==> r.OtherError?)
  }

  predicate WasApplied(reply: Reply) {
    match reply
    case Accepted(_) => true
    case Refused(_, applied) => applied
    case Broken(applied) => applied
  }

  /** A batch that a smaller request may still get through. */
  predicate Splittable(status: nat) {
    status == 413 || Backoff.Transient(status)
  }

  // ---------------------------------------------------------------- logs and their meaning

  function StepGroup(g: Group, x: Attempt): Group {
    if WasApplied(x.reply) then Apply(g, x.records, x.mode) else g
  }

  function Replay(g: Group, log: seq<Attempt>): Group
    decreases |log|
  {
    if log == [] then g else Replay(StepGroup(g, log[0]), log[1..])
  }

  /** What is still owed to the target, and the mode its next request carries. */
  datatype Progress = Progress(rest: seq<Input>, mode: BatchMode)

  function After(p: Progress, x: Attempt): Progress
    requires x.records <= p.rest
  {
    if x.reply.Accepted? then Progress(p.rest[|x.records|..], Upsert) else p
  }

  /** `log` is a possible history of delivering `start.rest`: every request carries a head of what is
      still owed, in the current mode, and an acceptance advances past it and ends any replacing. */
  predicate Tracks(start: Progress, log: seq<Attempt>, end: Progress)
    decreases |log|
  {
    if log == [] then end == start
    else
      && log[0].records <= start.rest
      && log[0].mode == start.mode
      && Tracks(After(start, log[0]), log[1..], end)
  }

  function AcceptedRecords(log: seq<Attempt>): seq<Input>
    decreases |log|
  {
    if log == [] then []
    else (if log[0].reply.Accepted? then log[0].records else []) + AcceptedRecords(log[1..])
  }

  function AcceptedResponses(log: seq<Attempt>): Response
    decreases |log|
  {
    if log == [] then NoResponse
    else if log[0].reply.Accepted? then Merge(log[0].reply.response, AcceptedResponses(log[1..]))
    else AcceptedResponses(log[1..])
  }

  lemma {:induction false} ReplayAppend(g: Group, k: seq<Attempt>, l: seq<Attempt>)
    ensures Replay(g, k + l) == Replay(Replay(g, k), l)
    decreases |k|
  {
    if k == [] {
      assert k + l == l;
    } else {
      assert (k + l)[0] == k[0] && (k + l)[1..] == k[1..] + l;
      ReplayAppend(StepGroup(g, k[0]), k[1..], l);
    }
  }

  lemma {:induction false} TracksAppend(a: Progress, k: seq<Attempt>, b: Progress, l: seq<Attempt>, c: Progress)
    requires Tracks(a, k, b) && Tracks(b, l, c)
    ensures Tracks(a, k + l, c)
    decreases |k|
  {
    if k == [] {
      assert k + l == l;
    } else {
      assert (k + l)[0] == k[0] && (k + l)[1..] == k[1..] + l;
      TracksAppend(After(a, k[0]), k[1..], b, l, c);
    }
  }

  lemma {:induction false} ResponsesAppend(k: seq<Attempt>, l: seq<Attempt>)
    ensures AcceptedResponses(k + l) == Merge(AcceptedResponses(k), AcceptedResponses(l))
    decreases |k|
  {
    if k == [] {
      assert k + l == l;
    } else {
      assert (k + l)[0] == k[0] && (k + l)[1..] == k[1..] + l;
      ResponsesAppend(k[1..], l);
    }
  }

  /** Delivery refines one atomic batch: at every point of every history, with any mixture of
      refusals, splits, retries and secretly applied requests, finishing what is still owed in one
      request would leave the group exactly as one atomic batch of the whole list. */
  lemma {:induction false} DeliveryRefinesAtomicBatch(g: Group, start: Progress, log: seq<Attempt>, end: Progress)
    requires Tracks(start, log, end)
    ensures Apply(Replay(g, log), end.rest, end.mode) == Apply(g, start.rest, start.mode)
    decreases |log|
  {
    if log != [] {
      var x := log[0];
      var p, q := x.records, start.rest[|x.records|..];
      assert start.rest == p + q;
      DeliveryRefinesAtomicBatch(StepGroup(g, x), After(start, x), log[1..], end);
      if x.reply.Accepted? {
        HeadThenTail(g, p, q, start.mode);
      } else if WasApplied(x.reply) {
        SecretAttemptAbsorbed(g, p, q, start.mode);
      }
    }
  }

  /** The accepted pieces, in order, are exactly the delivered prefix: each record accepted once. */
  lemma {:induction false} AcceptedIsPrefix(start: Progress, log: seq<Attempt>, end: Progress)
    requires Tracks(start, log, end)
    ensures AcceptedRecords(log) + end.rest == start.rest
    decreases |log|
  {
    if log != [] {
      AcceptedIsPrefix(After(start, log[0]), log[1..], end);
    }
  }

  lemma {:induction false} NoLargerThanOwed(start: Progress, log: seq<Attempt>, end: Progress)
    requires Tracks(start, log, end)
    ensures forall i :: 0 <= i < |log| ==> |log[i].records| <= |start.rest|
    decreases |log|
  {
    if log != [] {
      NoLargerThanOwed(After(start, log[0]), log[1..], end);
      assert forall i :: 1 <= i < |log| ==> log[i] == log[1..][i - 1];
    }
  }

  /** No replacing request is ever sent once a piece has been accepted. */
  lemma {:induction false} NoReplaceAfterAcceptance(start: Progress, log: seq<Attempt>, end: Progress, i: nat, j: nat)
    requires Tracks(start, log, end)
    requires i < j < |log| && log[i].reply.Accepted?
    ensures log[j].mode == Upsert && end.mode == Upsert
    decreases |log|
  {
    if i > 0 {
      NoReplaceAfterAcceptance(After(start, log[0]), log[1..], end, i - 1, j - 1);
    } else {
      UpsertStaysUpsert(After(start, log[0]), log[1..], end, j - 1);
    }
  }

  lemma {:induction false} UpsertStaysUpsert(start: Progress, log: seq<Attempt>, end: Progress, j: nat)
    requires Tracks(start, log, end) && start.mode == Upsert && j <= |log|
    ensures end.mode == Upsert && (j < |log| ==> log[j].mode == Upsert)
    decreases |log|
  {
    if log != [] {
      UpsertStaysUpsert(After(start, log[0]), log[1..], end, if j == 0 then 0 else j - 1);
    }
  }

  /** A history that has delivered a non-empty list has left replacing mode behind. */
  lemma {:induction false} DeliveredEndsInUpsert(start: Progress, log: seq<Attempt>, end: Progress)
    requires Tracks(start, log, end) && |end.rest| < |start.rest|
    ensures end.mode == Upsert
    decreases |log|
  {
    if log[0].reply.Accepted? {
      UpsertStaysUpsert(After(start, log[0]), log[1..], end, 0);
    } else {
      DeliveredEndsInUpsert(After(start, log[0]), log[1..], end);
    }
  }

  /** Once everything is delivered the group equals one atomic batch of the whole list. */
  lemma {:induction false} CompleteDeliveryIsAtomic(g: Group, records: seq<Input>, mode: BatchMode, log: seq<Attempt>, end: Progress)
    requires Tracks(Progress(records, mode), log, end) && end.rest == []
    requires records != [] || end.mode == Upsert
    ensures Replay(g, log) == Apply(g, records, mode)
  {
    DeliveryRefinesAtomicBatch(g, Progress(records, mode), log, end);
    if records != [] {
      DeliveredEndsInUpsert(Progress(records, mode), log, end);
    }
  }

  /** One counter of the merged response, added up over the accepted requests. */
  function Total(log: seq<Attempt>, counter: Response -> nat): nat
    decreases |log|
  {
    if log == [] then 0
    else (if log[0].reply.Accepted? then counter(log[0].reply.response) else 0) + Total(log[1..], counter)
  }

  /** The merged response reports, counter by counter, the sum over the accepted requests. */
  lemma {:induction false} ResponsesAreSums(log: seq<Attempt>)
    ensures var r := AcceptedResponses(log);
            && r.created == Total(log, (x: Response) => x.created)
            && r.updated == Total(log, (x: Response) => x.updated)
            && r.restored == Total(log, (x: Response) => x.restored)
            && r.lockedSkipped == Total(log, (x: Response) => x.lockedSkipped)
            && r.softDeleted == Total(log, (x: Response) => x.softDeleted)
            && r.linked == Total(log, (x: Response) => x.linked)
    decreases |log|
  {
    if log != [] {
      ResponsesAreSums(log[1..]);
    }
  }

  // ---------------------------------------------------------------- bursts of one request

  /** The requests of one retry loop: the same piece each time, every reply but the last transient,
      and the loop given up on a transient reply only when the retry budget is spent. */
  predicate Burst(log: seq<Attempt>, records: seq<Input>, mode: BatchMode, maxRetries: nat, result: Outcome) {
    && 1 <= |log| <= maxRetries + 1
    && (forall i :: 0 <= i < |log| ==> log[i].records == records && log[i].mode == mode)
    && (forall i :: 0 <= i < |log| - 1 ==>
          log[i].reply.Refused? && Backoff.Transient(log[i].reply.status))
    && result == OutcomeOf(log[|log| - 1].reply)
    && (result.RemoteError? && Backoff.Transient(result.status) ==> |log| == maxRetries + 1)
  }

  lemma {:induction false} BurstTracks(p: Progress, log: seq<Attempt>, records: seq<Input>, maxRetries: nat, result: Outcome)
    requires Burst(log, records, p.mode, maxRetries, result)
    requires records <= p.rest
    ensures Tracks(p, log, After(p, log[|log| - 1]))
    ensures AcceptedResponses(log) == if result.Ok? then result.response else NoResponse
    decreases |log|
  {
    if |log| > 1 {
      var next := if maxRetries == 0 then 0 else maxRetries - 1;
      assert forall i :: 0 <= i < |log| - 1 ==> log[1..][i] == log[i + 1];
      BurstTracks(p, log[1..], records, next, result);
    } else {
      assert log[1..] == [];
    }
  }

  // ---------------------------------------------------------------- the work queue

  datatype Piece = Piece(records: seq<Input>, mode: BatchMode)

  function Queued(queue: seq<Piece>): seq<Input>
    decreases |queue|
  {
    if queue == [] then [] else queue[0].records + Queued(queue[1..])
  }

  /** Requests a piece of `n` records can cost, retries aside: the nodes of its halving tree. */
  function Nodes(n: nat): nat {
    if n == 0 then 1 else 2 * n - 1
  }

  function Splits(n: nat): nat {
    if n == 0 then 0 else n - 1
  }

  function QueueNodes(queue: seq<Piece>): nat
    decreases |queue|
  {
    if queue == [] then 0 else Nodes(|queue[0].records|) + QueueNodes(queue[1..])
  }

  function QueueSplits(queue: seq<Piece>): nat
    decreases |queue|
  {
    if queue == [] then 0 else Splits(|queue[0].records|) + QueueSplits(queue[1..])
  }

  datatype Pause = Pause(attempt: nat, ms: nat)

  function TotalMs(pauses: seq<Pause>): nat
    decreases |pauses|
  {
    if pauses == [] then 0 else TotalMs(pauses[..|pauses| - 1]) + pauses[|pauses| - 1].ms
  }

  lemma {:induction false} TotalMsBound(pauses: seq<Pause>)
    requires forall p :: p in pauses ==> p.ms <= Backoff.MAX_DELAY_MS
    ensures TotalMs(pauses) <= |pauses| * Backoff.MAX_DELAY_MS
    decreases |pauses|
  {
    if pauses != [] {
      TotalMsBound(pauses[..|pauses| - 1]);
      assert pauses[|pauses| - 1] in pauses;
    }
  }

  predicate CanSplit(r: Outcome, piece: Piece) {
    r.RemoteError? && |piece.records| > 1 && Splittable(r.status)
  }

  /** The head piece cut in half in place; only the first half keeps the head's mode. */
  function SplitHead(queue: seq<Piece>): seq<Piece>
    requires queue != []
  {
    var mid := |queue[0].records| / 2;
    [Piece(queue[0].records[..mid], queue[0].mode), Piece(queue[0].records[mid..], Upsert)] + queue[1..]
  }

  /** Whether `next` may be what is sent after `x`: anything after an acceptance, nothing after a broken
      exchange, and after a refusal the same piece again or its first half, as the status allows. */
  predicate Leads(x: Attempt, next: Piece) {
    match x.reply
    case Accepted(_) => true
    case Broken(_) => false
    case Refused(status, _) =>
      && next.mode == x.mode
      && (|| (status in {429, 502, 503, 504} && next.records == x.records)
          || (status in {413, 429, 502, 503, 504} && |x.records| > 1 && next.records == x.records[..|x.records| / 2]))
  }

  /** Every request of the history may follow the one before it. */
  predicate Chained(sent: seq<Attempt>) {
    forall i :: 0 <= i < |sent| - 1 ==> Leads(sent[i], Piece(sent[i + 1].records, sent[i + 1].mode))
  }

  /** No request of the history is empty. */
  predicate Filled(sent: seq<Attempt>) {
    forall i :: 0 <= i < |sent| ==> sent[i].records != []
  }

  predicate Awaited(sent: seq<Attempt>, queue: seq<Piece>) {
    Chained(sent) && (sent != [] && queue != [] ==> Leads(sent[|sent| - 1], queue[0]))
  }

  lemma {:induction false} TurnChains(sent: seq<Attempt>, queue: seq<Piece>, burst: seq<Attempt>, maxRetries: nat, r: Outcome)
    requires queue != [] && Awaited(sent, queue)
    requires Burst(burst, queue[0].records, queue[0].mode, maxRetries, r)
    ensures Chained(sent + burst)
    ensures queue[0].records != [] && Filled(sent) ==> Filled(sent + burst)
    ensures r.Ok? ==> Awaited(sent + burst, queue[1..])
    ensures CanSplit(r, queue[0]) ==> Awaited(sent + burst, SplitHead(queue))
  {
    var all := sent + burst;
    assert all[|all| - 1] == burst[|burst| - 1];
    forall i | 0 <= i < |all| - 1
      ensures Leads(all[i], Piece(all[i + 1].records, all[i + 1].mode))
    {
      if i < |sent| - 1 {
        assert Leads(sent[i], Piece(sent[i + 1].records, sent[i + 1].mode));
      } else if i >= |sent| {
        assert all[i] == burst[i - |sent|] && all[i + 1] == burst[i + 1 - |sent|];
      }
    }
  }

  predicate ModesFrom(queue: seq<Piece>, mode: BatchMode) {
    && (queue != [] ==> queue[0].mode == mode)
    && (forall i :: 1 <= i < |queue| ==> queue[i].mode == Upsert)
  }

  lemma {:induction false} SplitHeadKeepsQueue(queue: seq<Piece>)
    requires queue != [] && |queue[0].records| > 1
    ensures Queued(SplitHead(queue)) == Queued(queue)
    ensures QueueNodes(SplitHead(queue)) + 1 == QueueNodes(queue)
    ensures QueueSplits(SplitHead(queue)) + 1 == QueueSplits(queue)
  {
    var mid, tail := |queue[0].records| / 2, queue[1..];
    var a, b := Piece(queue[0].records[..mid], queue[0].mode), Piece(queue[0].records[mid..], Upsert);
    assert ([a, b] + tail)[1..] == [b] + tail && ([b] + tail)[1..] == tail;
    assert a.records + (b.records + Queued(tail)) == queue[0].records + Queued(tail);
  }

  lemma {:induction false} Reassociate<T>(a: seq<T>, b: seq<T>, c: seq<T>)
    ensures a + b + c == a + (b + c)
  {
  }

  /** `calls` loops of at most `each`, added up. */
  ghost function Times(calls: nat, each: nat): nat {
    if calls == 0 then 0 else each + Times(calls - 1, each)
  }

  lemma {:induction false} TimesGrows(calls: nat, n: nat, each: nat)
    requires calls <= n
    ensures Times(calls, each) <= n * each
    decreases calls
  {
    if calls > 0 {
      TimesGrows(calls - 1, n - 1, each);
      assert n * each == (n - 1) * each + each;
    } else {
      assert 0 <= n * each;
    }
  }

  /** What the queue loop knows about deliveries: the history so far explains the queue, the remote
      group and the running total. */
  ghost predicate Explains(start: Progress, g0: Group, sent: seq<Attempt>,
                           queue: seq<Piece>, mode: BatchMode, group: Group, aggregate: Response)
  {
    && ModesFrom(queue, mode)
    && (start.rest != [] ==> forall i :: 0 <= i < |queue| ==> queue[i].records != [])
    && Tracks(start, sent, Progress(Queued(queue), mode))
    && group == Replay(g0, sent)
    && aggregate == AcceptedResponses(sent)
  }

  /** What the queue loop knows about cost. */
  ghost predicate WithinBudget(n: nat, maxRetries: nat, queue: seq<Piece>,
                               calls: nat, splits: nat, requests: nat, naps: nat)
  {
    && calls + QueueNodes(queue) <= Nodes(n)
    && splits + QueueSplits(queue) <= Splits(n)
    && requests <= Times(calls, maxRetries + 1)
    && naps <= Times(calls, maxRetries) + splits
  }

  lemma {:induction false} HistoryExtends(
    start: Progress, g0: Group, sent: seq<Attempt>, p: Progress,
    burst: seq<Attempt>, records: seq<Input>, maxRetries: nat, r: Outcome)
    requires Tracks(start, sent, p)
    requires Burst(burst, records, p.mode, maxRetries, r) && records <= p.rest
    ensures Tracks(start, sent + burst, if r.Ok? then Progress(p.rest[|records|..], Upsert) else p)
    ensures Replay(g0, sent + burst) == Replay(Replay(g0, sent), burst)
    ensures AcceptedResponses(sent + burst) ==
            if r.Ok? then Merge(AcceptedResponses(sent), r.response) else AcceptedResponses(sent)
  {
    assert Tracks(start, sent + burst, if r.Ok? then Progress(p.rest[|records|..], Upsert) else p) by {
      BurstTracks(p, burst, records, maxRetries, r);
      TracksAppend(start, sent, p, burst, After(p, burst[|burst| - 1]));
    }
    assert Replay(g0, sent + burst) == Replay(Replay(g0, sent), burst) by {
      ReplayAppend(g0, sent, burst);
    }
    assert AcceptedResponses(sent + burst) ==
           if r.Ok? then Merge(AcceptedResponses(sent), r.response) else AcceptedResponses(sent) by {
      BurstTracks(p, burst, records, maxRetries, r);
      ResponsesAppend(sent, burst);
    }
  }

  lemma {:induction false} AcceptedTurnExplains(
    start: Progress, g0: Group, sent: seq<Attempt>, queue: seq<Piece>, mode: BatchMode,
    group: Group, aggregate: Response, burst: seq<Attempt>, maxRetries: nat, r: Outcome)
    requires queue != [] && Explains(start, g0, sent, queue, mode, group, aggregate)
    requires Burst(burst, queue[0].records, queue[0].mode, maxRetries, r) && r.Ok?
    ensures Explains(start, g0, sent + burst, queue[1..], Upsert,
                     Replay(group, burst), Merge(aggregate, r.response))
  {
    var p := Progress(Queued(queue), mode);
    HistoryExtends(start, g0, sent, p, burst, queue[0].records, maxRetries, r);
    assert p.rest[|queue[0].records|..] == Queued(queue[1..]);
  }

  lemma {:induction false} FailedTurnExplains(
    start: Progress, g0: Group, sent: seq<Attempt>, queue: seq<Piece>, mode: BatchMode,
    group: Group, aggregate: Response, burst: seq<Attempt>, maxRetries: nat, r: Outcome)
    requires queue != [] && Explains(start, g0, sent, queue, mode, group, aggregate)
    requires Burst(burst, queue[0].records, queue[0].mode, maxRetries, r) && !r.Ok?
    ensures Explains(start, g0, sent + burst, queue, mode, Replay(group, burst), aggregate)
  {
    HistoryExtends(start, g0, sent, Progress(Queued(queue), mode), burst, queue[0].records, maxRetries, r);
  }

  lemma {:induction false} SplitExplains(
    start: Progress, g0: Group, sent: seq<Attempt>, queue: seq<Piece>, mode: BatchMode,
    group: Group, aggregate: Response)
    requires queue != [] && Explains(start, g0, sent, queue, mode, group, aggregate)
    requires |queue[0].records| > 1
    ensures Explains(start, g0, sent, SplitHead(queue), mode, group, aggregate)
  {
    SplitHeadKeepsQueue(queue);
  }

  lemma {:induction false} TurnWithinBudget(n: nat, maxRetries: nat, queue: seq<Piece>,
                         calls: nat, splits: nat, requests: nat, naps: nat, requests': nat, naps': nat)
    requires queue != [] && WithinBudget(n, maxRetries, queue, calls, splits, requests, naps)
    requires requests' <= maxRetries + 1
    ensures naps' <= maxRetries ==>
              WithinBudget(n, maxRetries, queue[1..], calls + 1, splits, requests + requests', naps + naps')
    ensures naps' <= maxRetries + 1 && |queue[0].records| > 1 ==>
              WithinBudget(n, maxRetries, SplitHead(queue), calls + 1, splits + 1, requests + requests', naps + naps')
    ensures QueueNodes(queue[1..]) < QueueNodes(queue)
    ensures |queue[0].records| > 1 ==> QueueNodes(SplitHead(queue)) < QueueNodes(queue)
  {
    if |queue[0].records| > 1 {
      SplitHeadKeepsQueue(queue);
    }
  }

  lemma {:induction false} BudgetBounds(n: nat, maxRetries: nat, queue: seq<Piece>, calls: nat, splits: nat, requests: nat, naps: nat)
    requires WithinBudget(n, maxRetries, queue, calls, splits, requests, naps)
    ensures requests <= Nodes(n) * (maxRetries + 1)
    ensures naps <= Nodes(n) * maxRetries + Splits(n)
  {
    TimesGrows(calls, Nodes(n), maxRetries + 1);
    TimesGrows(calls, Nodes(n), maxRetries);
  }

  /** Proof bookkeeping of one delivery: where it began and what it has done. */
  datatype Books = Books(
    start: Progress, group0: Group, log0: seq<Attempt>, pauses0: seq<Pause>,
    sent: seq<Attempt>, naps: seq<Pause>, mode: BatchMode, calls: nat, splits: nat)
  {
    predicate SameOpening(h: Books) {
      start == h.start && group0 == h.group0 && log0 == h.log0 && pauses0 == h.pauses0
    }

    function Enter(burst: seq<Attempt>, more: seq<Pause>, r: Outcome, piece: Piece): Books {
      this.(sent := sent + burst, naps := naps + more, calls := calls + 1,
            mode := if r.Ok? then Upsert else mode,
            splits := if CanSplit(r, piece) then splits + 1 else splits)
    }
  }

  /** The history so far begins with the whole list and is chained up to the head of the queue, with no empty
      request for a non-empty list. */
  predicate Orderly(h: Books, queue: seq<Piece>) {
    && Awaited(h.sent, queue) && (h.start.rest != [] ==> Filled(h.sent))
    && (if h.sent == [] then queue != [] && queue[0].records == h.start.rest else h.sent[0].records == h.start.rest)
  }

  lemma {:induction false} TurnOrderly(h: Books, queue: seq<Piece>, burst: seq<Attempt>, more: seq<Pause>, maxRetries: nat, r: Outcome)
    requires queue != [] && Orderly(h, queue) && (h.start.rest != [] ==> queue[0].records != [])
    requires Burst(burst, queue[0].records, queue[0].mode, maxRetries, r)
    ensures r.Ok? ==> Orderly(h.Enter(burst, more, r, queue[0]), queue[1..])
    ensures CanSplit(r, queue[0]) ==> Orderly(h.Enter(burst, more, r, queue[0]), SplitHead(queue))
    ensures Orderly(h.Enter(burst, more, r, queue[0]), [])
  {
    TurnChains(h.sent, queue, burst, maxRetries, r);
  }

  function NextQueue(r: Outcome, queue: seq<Piece>): seq<Piece>
    requires queue != []
  {
    if r.Ok? then queue[1..] else if CanSplit(r, queue[0]) then SplitHead(queue) else queue
  }

  /** One turn of the work queue in plain terms: an accepted piece leaves it; a piece of several records
      refused with one of five statuses is replaced by its halves, the second one upserting; any other
      error leaves the queue as it was. */
  lemma {:induction false} NextQueueMeans(r: Outcome, piece: Piece, tail: seq<Piece>)
    ensures CanSplit(r, piece) <==>
            r.RemoteError? && r.status in {413, 429, 502, 503, 504} && |piece.records| > 1
    ensures NextQueue(r, [piece] + tail) ==
            match r
            case Ok(_) => tail
            case RemoteError(status) =>
              if status in {413, 429, 502, 503, 504} && |piece.records| > 1 then
                var half := |piece.records| / 2;
                [Piece(piece.records[..half], piece.mode), Piece(piece.records[half..], Upsert)] + tail
              else [piece] + tail
            case OtherError => [piece] + tail
  {
    assert ([piece] + tail)[1..] == tail;
  }

  /** The delivery may stop here with this result: the last reply is what is reported, and a refusal that
      fewer records could have cured is final only for a piece of at most one. */
  predicate Stopped(r: Outcome, last: Attempt) {
    && Reported(r, last.reply)
    && (r.RemoteError? && r.status in {413, 429, 502, 503, 504} ==> |last.records| <= 1)
  }

  /** A client bound to one remote group, together with the remote side itself. */
  class Endpoint {
    const network: nat -> Reply
    const draws: nat -> nat
    const maxRetries: nat
    const baseMs: nat

    var group: Group
    var log: seq<Attempt>
    var pauses: seq<Pause>

    /** Every pause so far lasted what the backoff policy says for its attempt number and draw, and every
        request got the network's reply of its number. */
    predicate Valid()
      reads this
    {
      && (forall i :: 0 <= i < |pauses| ==> pauses[i].ms == Backoff.Delay(baseMs, pauses[i].attempt, draws(i)))
      && (forall i :: 0 <= i < |log| ==> log[i].reply == network(i))
    }

    constructor (network: nat -> Reply, draws: nat -> nat, maxRetries: nat, baseMs: nat, group: Group)
      ensures this.network == network && this.draws == draws
      ensures this.maxRetries == maxRetries && this.baseMs == baseMs
      ensures Valid() && this.group == group && log == [] && pauses == []
    {
      this.network, this.draws, this.maxRetries, this.baseMs := network, draws, maxRetries, baseMs;
      this.group, log, pauses := group, [], [];
    }

    /** One signed request; its reply is whatever the network does with request number `|log|`. */
    method PostOnce(records: seq<Input>, mode: BatchMode) returns (r: Outcome)
      requires Valid()
      modifies this`group, this`log
      ensures Valid()
      ensures log == old(log) + [Attempt(records, mode, network(|old(log)|))]
      ensures group == StepGroup(old(group), Attempt(records, mode, network(|old(log)|)))
      ensures r == OutcomeOf(network(|old(log)|))
      ensures match network(|old(log)|)
              case Accepted(response) => r == Ok(response) && group == Apply(old(group), records, mode)
              case Refused(status, applied) =>
                r == RemoteError(status) && group == if applied then Apply(old(group), records, mode) else old(group)
              case Broken(applied) =>
                r == OtherError && group == if applied then Apply(old(group), records, mode) else old(group)
    {
      var reply := network(|log|);
      if WasApplied(reply) {
        group := Apply(group, records, mode);
      }
      log := log + [Attempt(records, mode, reply)];
      r := OutcomeOf(reply);
    }

    method Sleep(attempt: nat)
      requires Valid()
      modifies this`pauses
      ensures Valid()
      ensures pauses == old(pauses) + [Pause(attempt, Backoff.Delay(baseMs, attempt, draws(|old(pauses)|)))]
    {
      pauses := pauses + [Pause(attempt, Backoff.Delay(baseMs, attempt, draws(|pauses|)))];
    }

    /** The retry loop: `burst` is what it sent, `naps` the pauses between, numbered from one. */
    method PostWithRetry(records: seq<Input>, mode: BatchMode)
      returns (r: Outcome, ghost burst: seq<Attempt>, ghost naps: seq<Pause>)
      requires Valid()
      modifies this`group, this`log, this`pauses
      ensures Valid()
      ensures log == old(log) + burst && pauses == old(pauses) + naps
      ensures Burst(burst, records, mode, maxRetries, r)
      ensures group == Replay(old(group), burst)
      ensures forall i :: 0 <= i < |burst| - 1 ==>
                burst[i].reply.Refused? && burst[i].reply.status in {429, 502, 503, 504}
      ensures r.RemoteError? && r.status in {429, 502, 503, 504} ==> |burst| == maxRetries + 1
      ensures Reported(r, burst[|burst| - 1].reply)
      ensures |naps| == |burst| - 1
      ensures forall i :: 0 <= i < |naps| ==> naps[i].attempt == i + 1
    {
      var attempt := 0;
      burst, naps := [], [];
      while true
        invariant Valid()
        invariant log == old(log) + burst && pauses == old(pauses) + naps
        invariant |burst| == attempt == |naps| <= maxRetries
        invariant forall i :: 0 <= i < |burst| ==>
                    burst[i].records == records && burst[i].mode == mode &&
                    burst[i].reply.Refused? && Backoff.Transient(burst[i].reply.status)
        invariant forall i :: 0 <= i < |naps| ==> naps[i].attempt == i + 1
        invariant group == Replay(old(group), burst)
        decreases maxRetries - attempt
      {
        ghost var x := Attempt(records, mode, network(|log|));
        ReplayAppend(old(group), burst, [x]);
        assert Replay(group, [x]) == StepGroup(group, x);
        r := PostOnce(records, mode);
        burst := burst + [x];
        assert log == old(log) + burst;
        if r.RemoteError? && Backoff.Transient(r.status) && attempt < maxRetries {
          attempt := attempt + 1;
          Sleep(attempt);
          naps := naps + [pauses[|pauses| - 1]];
          assert pauses == old(pauses) + naps;
        } else {
          return;
        }
      }
    }

    /** The queue loop's invariant: the books `h` account for everything done since they were opened,
        and what they leave of the budget covers the pieces in `due`. */
    ghost predicate Booked(h: Books, queue: seq<Piece>, due: seq<Piece>, aggregate: Response)
      reads this
    {
      && Valid()
      && log == h.log0 + h.sent
      && pauses == h.pauses0 + h.naps
      && Explains(h.start, h.group0, h.sent, queue, h.mode, group, aggregate)
      && WithinBudget(|h.start.rest|, maxRetries, due, h.calls, h.splits, |h.sent|, |h.naps|)
    }

    /** One turn of the work queue: send the head piece, then drop it, split it in half in place, or
        leave the queue as it is on an error that no smaller request can cure. */
    method Turn(queue: seq<Piece>)
      returns (r: Outcome, next: seq<Piece>, ghost burst: seq<Attempt>, ghost naps: seq<Pause>)
      requires Valid() && queue != []
      modifies this`group, this`log, this`pauses
      ensures Valid()
      ensures log == old(log) + burst && pauses == old(pauses) + naps
      ensures Burst(burst, queue[0].records, queue[0].mode, maxRetries, r)
      ensures group == Replay(old(group), burst)
      ensures next == NextQueue(r, queue)
      ensures |naps| == |burst| - 1 + if CanSplit(r, queue[0]) && r.status != 413 then 1 else 0
      ensures CanSplit(r, queue[0]) && r.status != 413 ==> naps[|naps| - 1].attempt == 1
    {
      var piece := queue[0];
      r, burst, naps := PostWithRetry(piece.records, piece.mode);
      if r.Ok? {
        next := queue[1..];
      } else if CanSplit(r, piece) {
        if r.status != 413 {
          Sleep(1);
          naps := naps + [pauses[|pauses| - 1]];
        }
        next := SplitHead(queue);
      } else {
        next := queue;
      }
    }

    /** One turn, entered in the books: the queue gets cheaper, or stays as it is because the delivery stops. */
    method Advance(queue: seq<Piece>, aggregate: Response, ghost h: Books)
      returns (r: Outcome, next: seq<Piece>, total: Response, ghost h': Books)
      requires queue != [] && Booked(h, queue, queue, aggregate) && Orderly(h, queue)
      modifies this`group, this`log, this`pauses
      ensures h'.SameOpening(h) && h'.sent != []
      ensures r.Ok? || next != queue ==>
                Booked(h', next, next, total) && Orderly(h', next) && QueueNodes(next) < QueueNodes(queue)
      ensures next == [] ==> r.Ok? && h'.mode == Upsert
      ensures !r.Ok? && next == queue ==>
                && Booked(h', queue, queue[1..], AcceptedResponses(h'.sent)) && Orderly(h', [])
                && h'.sent[|h'.sent| - 1].records == queue[0].records && Stopped(r, h'.sent[|h'.sent| - 1])
    {
      ghost var was, burst, more := group, [], [];
      r, next, burst, more := Turn(queue);
      h', total := h.Enter(burst, more, r, queue[0]), aggregate;
      TurnOrderly(h, queue, burst, more, maxRetries, r);
      if r.Ok? {
        AcceptedTurn(h, was, queue, aggregate, burst, more, r);
        total := Merge(aggregate, r.response);
      } else if CanSplit(r, queue[0]) {
        SplitTurn(h, was, queue, aggregate, burst, more, r);
      } else {
        StuckTurn(h, was, queue, aggregate, burst, more, r);
      }
    }

    /** Works the queue off, or stops at the first error that splitting cannot cure. */
    method Drain(records: seq<Input>, mode: BatchMode)
      returns (r: Outcome, ghost h: Books, ghost left: seq<Piece>)
      requires Valid()
      modifies this`group, this`log, this`pauses
      ensures h.start == Progress(records, mode) && h.group0 == old(group)
      ensures h.log0 == old(log) && h.pauses0 == old(pauses) && h.sent != []
      ensures r.Ok? ==> left == [] && h.mode == Upsert && Booked(h, [], [], r.response)
      ensures !r.Ok? ==> left != []
      ensures !r.Ok? ==> Booked(h, left, left[1..], AcceptedResponses(h.sent))
      ensures !r.Ok? ==> h.sent[|h.sent| - 1].records == left[0].records
      ensures !r.Ok? ==> Stopped(r, h.sent[|h.sent| - 1])
      ensures Orderly(h, [])
    {
      var queue := [Piece(records, mode)];
      var aggregate := NoResponse;
      h := Books(Progress(records, mode), group, log, pauses, [], [], mode, 0, 0);
      ghost var opening := h;
      BooksOpen(records, mode);
      while queue != []
        invariant h.SameOpening(opening)
        invariant Booked(h, queue, queue, aggregate) && Orderly(h, queue)
        invariant queue == [] ==> h.sent != [] && h.mode == Upsert
        decreases QueueNodes(queue)
      {
        var next;
        r, next, aggregate, h := Advance(queue, aggregate, h);
        if !r.Ok? && next == queue {
          left := queue;
          return;
        }
        queue := next;
      }
      r, left := Ok(aggregate), [];
    }

    /** Delivers `records`, splitting a piece in half when the target cannot take it whole. `sent` is
        the history, `naps` the pauses, and `owed` what has not been accepted. */
    method PostBatch(records: seq<Input>, mode: BatchMode)
      returns (r: Outcome, ghost sent: seq<Attempt>, ghost naps: seq<Pause>, ghost owed: Progress)
      requires Valid()
      modifies this`group, this`log, this`pauses
      ensures Valid()
      ensures log == old(log) + sent && pauses == old(pauses) + naps && sent != []
      ensures Tracks(Progress(records, mode), sent, owed)
      ensures group == Replay(old(group), sent)
      ensures r.Ok? ==> owed == Progress([], Upsert)
      ensures !r.Ok? && records != [] ==> owed.rest != []
      ensures r.Ok? ==> group == Apply(old(group), records, mode)
      ensures r.Ok? ==> r.response == AcceptedResponses(sent)
      ensures !r.Ok? ==> sent[|sent| - 1].records <= owed.rest
      ensures !r.Ok? ==> Reported(r, sent[|sent| - 1].reply)
      ensures r.RemoteError? && r.status in {413, 429, 502, 503, 504} ==> |sent[|sent| - 1].records| <= 1
      ensures (forall k ::
                 network(k).Accepted? || (network(k).Refused? && network(k).status in {413, 429, 502, 503, 504})) ==>
                r.Ok? || (r.RemoteError? && |sent[|sent| - 1].records| <= 1)
      ensures Chained(sent)
      ensures forall i :: 0 <= i < |sent| ==> |sent[i].records| <= |records|
      ensures sent[0].records == records && (records != [] ==> Filled(sent))
      ensures forall i :: 0 <= i < |sent| ==> sent[i].reply == network(|old(log)| + i)
      ensures |sent| <= Nodes(|records|) * (maxRetries + 1)
      ensures |naps| <= Nodes(|records|) * maxRetries + Splits(|records|)
      ensures forall i :: 0 <= i < |naps| ==> naps[i].ms <= 45_000
      ensures TotalMs(naps) <= (Nodes(|records|) * maxRetries + Splits(|records|)) * Backoff.MAX_DELAY_MS
    {
      ghost var h, left;
      r, h, left := Drain(records, mode);
      sent, naps, owed := h.sent, h.naps, Progress(Queued(left), h.mode);
      if r.Ok? {
        CompleteDeliveryIsAtomic(old(group), records, mode, sent, owed);
      }
      assert forall i :: 0 <= i < |sent| ==> log[|old(log)| + i] == sent[i];
      NoLargerThanOwed(Progress(records, mode), sent, owed);
      BudgetBounds(|records|, maxRetries, if left == [] then [] else left[1..], h.calls, h.splits, |sent|, |naps|);
      PausesBounded(old(pauses), naps, Nodes(|records|) * maxRetries + Splits(|records|));
    }

    /** One turn has just run on a queue the books `h` still describe as it was before. */
    ghost predicate JustTurned(h: Books, was: Group, queue: seq<Piece>, aggregate: Response,
                               burst: seq<Attempt>, more: seq<Pause>, r: Outcome)
      reads this
    {
      && Valid() && queue != []
      && log == h.log0 + h.sent + burst
      && pauses == h.pauses0 + h.naps + more
      && Explains(h.start, h.group0, h.sent, queue, h.mode, was, aggregate)
      && WithinBudget(|h.start.rest|, maxRetries, queue, h.calls, h.splits, |h.sent|, |h.naps|)
      && Burst(burst, queue[0].records, queue[0].mode, maxRetries, r)
      && group == Replay(was, burst)
      && |more| == |burst| - 1 + if CanSplit(r, queue[0]) && r.status != 413 then 1 else 0
    }

    lemma {:induction false} BooksOpen(records: seq<Input>, mode: BatchMode)
      requires Valid()
      ensures var h := Books(Progress(records, mode), group, log, pauses, [], [], mode, 0, 0);
              var queue := [Piece(records, mode)];
              Booked(h, queue, queue, NoResponse) && Orderly(h, queue)
    {
      assert [Piece(records, mode)][1..] == [];
    }

    lemma {:induction false} AcceptedTurn(h: Books, was: Group, queue: seq<Piece>, aggregate: Response,
                                          burst: seq<Attempt>, more: seq<Pause>, r: Outcome)
      requires JustTurned(h, was, queue, aggregate, burst, more, r) && r.Ok?
      ensures Booked(h.Enter(burst, more, r, queue[0]), queue[1..], queue[1..], Merge(aggregate, r.response))
      ensures QueueNodes(queue[1..]) < QueueNodes(queue)
    {
      var h' := h.Enter(burst, more, r, queue[0]);
      Reassociate(h.log0, h.sent, burst);
      Reassociate(h.pauses0, h.naps, more);
      TurnWithinBudget(|h.start.rest|, maxRetries, queue, h.calls, h.splits, |h.sent|, |h.naps|, |burst|, |more|);
      AcceptedTurnExplains(h.start, h.group0, h.sent, queue, h.mode, was, aggregate, burst, maxRetries, r);
    }

    lemma {:induction false} SplitTurn(h: Books, was: Group, queue: seq<Piece>, aggregate: Response,
                                       burst: seq<Attempt>, more: seq<Pause>, r: Outcome)
      requires JustTurned(h, was, queue, aggregate, burst, more, r) && CanSplit(r, queue[0])
      ensures Booked(h.Enter(burst, more, r, queue[0]), SplitHead(queue), SplitHead(queue), aggregate)
      ensures QueueNodes(SplitHead(queue)) < QueueNodes(queue)
    {
      var h' := h.Enter(burst, more, r, queue[0]);
      Reassociate(h.log0, h.sent, burst);
      Reassociate(h.pauses0, h.naps, more);
      TurnWithinBudget(|h.start.rest|, maxRetries, queue, h.calls, h.splits, |h.sent|, |h.naps|, |burst|, |more|);
      FailedTurnExplains(h.start, h.group0, h.sent, queue, h.mode, was, aggregate, burst, maxRetries, r);
      SplitExplains(h.start, h.group0, h'.sent, queue, h.mode, group, aggregate);
    }

    lemma {:induction false} StuckTurn(h: Books, was: Group, queue: seq<Piece>, aggregate: Response,
                                       burst: seq<Attempt>, more: seq<Pause>, r: Outcome)
      requires JustTurned(h, was, queue, aggregate, burst, more, r) && !r.Ok? && !CanSplit(r, queue[0])
      ensures Booked(h.Enter(burst, more, r, queue[0]), queue, queue[1..], aggregate)
    {
      var h' := h.Enter(burst, more, r, queue[0]);
      Reassociate(h.log0, h.sent, burst);
      Reassociate(h.pauses0, h.naps, more);
      TurnWithinBudget(|h.start.rest|, maxRetries, queue, h.calls, h.splits, |h.sent|, |h.naps|, |burst|, |more|);
      FailedTurnExplains(h.start, h.group0, h.sent, queue, h.mode, was, aggregate, burst, maxRetries, r);
    }

    lemma {:induction false} PausesBounded(before: seq<Pause>, naps: seq<Pause>, n: nat)
      requires Valid() && pauses == before + naps && |naps| <= n
      ensures forall i :: 0 <= i < |naps| ==> naps[i].ms <= 45_000
      ensures TotalMs(naps) <= n * Backoff.MAX_DELAY_MS
    {
      forall p | p in naps
        ensures p.ms <= Backoff.MAX_DELAY_MS
      {
        var i :| 0 <= i < |naps| && naps[i] == p;
        assert pauses[|before| + i] == p;
      }
      TotalMsBound(naps);
    }
  }
}
