/**
 What both background pipelines share: cutting a list into chunks, choosing each chunk's mode, and
 pushing the chunks to every configured target.
 */
module Jobs {
  import opened Optional
  import opened RemoteVault
  import opened Delivery

  const MAX_BATCH_SIZE: nat := 5_000

  /** The outcome of one job execution. */
  datatype Status = SUCCESS | PARTIAL | FAILED

  function Flatten<T>(chunks: seq<seq<T>>): seq<T>
    decreases |chunks|
  {
    if chunks == [] then [] else chunks[0] + Flatten(chunks[1..])
  }

  lemma {:induction false} FlattenSnoc<T>(chunks: seq<seq<T>>, c: seq<T>)
    ensures Flatten(chunks + [c]) == Flatten(chunks) + c
    decreases |chunks|
  {
    if chunks == [] {
      assert chunks + [c] == [c] && [c][1..] == [];
    } else {
      assert (chunks + [c])[0] == chunks[0] && (chunks + [c])[1..] == chunks[1..] + [c];
      FlattenSnoc(chunks[1..], c);
    }
  }

  /** Chunks of at most `max`, none empty and all but the last full; joined, they are the input. With
      `max == 0` the loop takes nothing and stops at once, so a non-empty input would be lost. */
  method ChunkRecords<T(==)>(items: seq<T>, max: nat) returns (chunks: seq<seq<T>>)
    ensures Flatten(chunks) == if max == 0 then [] else items
    ensures forall i :: 0 <= i < |chunks| ==> 0 < |chunks[i]| <= max
    ensures forall i :: 0 <= i < |chunks| - 1 ==> |chunks[i]| == max
  {
    chunks := [];
    var rest := items;
    while true
      invariant Flatten(chunks) + rest == items
      invariant forall i :: 0 <= i < |chunks| ==> 0 < |chunks[i]| <= max
      invariant forall i :: 0 <= i < |chunks| - 1 ==> |chunks[i]| == max
      invariant chunks != [] && rest != [] ==> |chunks[|chunks| - 1]| == max
      decreases |rest|
    {
      var n := if max <= |rest| then max else |rest|;
      var chunk := rest[..n];
      if chunk == [] {
        break;
      }
      FlattenSnoc(chunks, chunk);
      chunks, rest := chunks + [chunk], rest[n..];
    }
  }

  /** Only the first chunk for a target keeps the run's mode. */
  function ModeForChunkIndex(base: BatchMode, index: nat): BatchMode {
    if index == 0 then base else Upsert
  }

  lemma {:induction false} TracksExtend(a: Progress, log: seq<Attempt>, b: Progress, tail: seq<Input>)
    requires Tracks(a, log, b)
    ensures Tracks(Progress(a.rest + tail, a.mode), log, Progress(b.rest + tail, b.mode))
    decreases |log|
  {
    if log != [] {
      var x := log[0];
      TracksExtend(After(a, x), log[1..], b, tail);
      assert x.records <= a.rest + tail;
      if x.reply.Accepted? {
        assert (a.rest + tail)[|x.records|..] == a.rest[|x.records|..] + tail;
      }
    }
  }

  /** What one target went through: a history `sent` of delivering `list` that explains its group, and
      a verdict that is positive exactly when nothing is owed. */
  ghost predicate Delivered(
    g0: Group, g: Group, sent: seq<Attempt>, list: seq<Input>, base: BatchMode, ok: bool)
  {
    && g == Replay(g0, sent)
    && (exists owed: Progress ::
          Tracks(Progress(list, base), sent, owed) && (ok <==> owed.rest == []))
    && (ok ==> g == if list == [] then g0 else Apply(g0, list, base))
  }

  /** Every request carries something, and no more than the receiving vault takes at once. */
  predicate Sized(sent: seq<Attempt>) {
    forall i :: 0 <= i < |sent| ==> 1 <= |sent[i].records| <= 5_000
  }

  /** The first request carries as much of the list as the receiving vault takes at once. */
  predicate Opens(sent: seq<Attempt>, list: seq<Input>) {
    list != [] ==> sent != [] && sent[0].records == if |list| < 5_000 then list else list[..5_000]
  }

  /** Chunks of 5,000 records, the last of them possibly smaller, but none empty. */
  predicate Sendable(chunks: seq<seq<Input>>) {
    && (forall i :: 0 <= i < |chunks| ==> 1 <= |chunks[i]| <= 5_000)
    && (forall i :: 0 <= i < |chunks| - 1 ==> |chunks[i]| == 5_000)
  }

  lemma {:induction false} FirstChunk(chunks: seq<seq<Input>>)
    requires Sendable(chunks) && chunks != []
    ensures chunks[0] == if |Flatten(chunks)| < 5_000 then Flatten(chunks) else Flatten(chunks)[..5_000]
  {
    if |chunks| == 1 {
      assert chunks[1..] == [] && Flatten(chunks) == chunks[0];
    }
  }

  /** One chunk, in front of what is still to come for the same target. */
  method PushChunk(target: Endpoint, chunk: seq<Input>, mode: BatchMode, ghost tail: seq<Input>)
    returns (ok: bool, ghost more: seq<Attempt>, ghost owed: Progress)
    requires target.Valid()
    requires 1 <= |chunk| <= 5_000
    modifies target
    ensures target.Valid()
    ensures target.log == old(target.log) + more
    ensures target.group == Replay(old(target.group), more)
    ensures Tracks(Progress(chunk + tail, mode), more, owed)
    ensures if ok then owed == Progress(tail, Upsert) else owed.rest != []
    ensures Sized(more) && more != [] && more[0].records == chunk
  {
    var r;
    ghost var naps, left;
    r, more, naps, left := target.PostBatch(chunk, mode);
    TracksExtend(Progress(chunk, mode), more, left, tail);
    ok, owed := r.Ok?, Progress(left.rest + tail, left.mode);
    assert [] + tail == tail;
  }

  /** Pushes the chunks to one target in order, stopping at the first that fails. */
  method PushChunks(target: Endpoint, chunks: seq<seq<Input>>, base: BatchMode)
    returns (ok: bool, count: nat, ghost sent: seq<Attempt>)
    requires target.Valid()
    requires Sendable(chunks)
    modifies target
    ensures target.Valid()
    ensures target.log == old(target.log) + sent
    ensures Delivered(old(target.group), target.group, sent, Flatten(chunks), base, ok)
    ensures Sized(sent) && (chunks != [] ==> sent != [] && sent[0].records == chunks[0])
    ensures if ok then count == |chunks| else count < |chunks|
    ensures chunks == [] ==> ok && sent == []
  {
    sent := [];
    ghost var start, g0 := Progress(Flatten(chunks), base), target.group;
    count := 0;
    for i := 0 to |chunks|
      invariant count == i
      invariant i == 0 ==> sent == []
      invariant target.Valid()
      invariant target.log == old(target.log) + sent
      invariant target.group == Replay(g0, sent)
      invariant Tracks(start, sent, Progress(Flatten(chunks[i..]), ModeForChunkIndex(base, i)))
      invariant Sized(sent) && (i > 0 ==> sent != [] && sent[0].records == chunks[0])
    {
      var mode := ModeForChunkIndex(base, i);
      ghost var more, owed;
      assert chunks[i..][0] == chunks[i] && chunks[i..][1..] == chunks[i + 1..];
      ok, more, owed := PushChunk(target, chunks[i], mode, Flatten(chunks[i + 1..]));
      TracksAppend(start, sent, Progress(Flatten(chunks[i..]), mode), more, owed);
      ReplayAppend(g0, sent, more);
      sent := sent + more;
      if !ok {
        return;
      }
      count := count + 1;
    }
    ok := true;
    ghost var done := Progress(Flatten(chunks[|chunks|..]), ModeForChunkIndex(base, |chunks|));
    assert done.rest == [];
    if chunks != [] {
      CompleteDeliveryIsAtomic(g0, Flatten(chunks), base, sent, done);
    }
  }

  // ---------------------------------------------------------------- every target

  function Existing(targets: seq<Option<Endpoint>>): set<Endpoint> {
    set t | t in targets && t.Some? :: t.value
  }

  /** Configured targets name different groups. */
  predicate Separate(targets: seq<Option<Endpoint>>) {
    forall i, j :: 0 <= i < j < |targets| && targets[i].Some? && targets[j].Some? ==>
      targets[i].value != targets[j].value
  }

  predicate All(oks: seq<bool>) {
    forall i :: 0 <= i < |oks| ==> oks[i]
  }

  predicate Any(oks: seq<bool>) {
    exists i :: 0 <= i < |oks| && oks[i]
  }

  lemma {:induction false} VerdictSnoc(oks: seq<bool>, ok: bool)
    ensures All(oks + [ok]) <==> All(oks) && ok
    ensures Any(oks + [ok]) <==> Any(oks) || ok
  {
    assert (oks + [ok])[|oks|] == ok;
    assert forall i :: 0 <= i < |oks| ==> (oks + [ok])[i] == oks[i];
  }

  function ThatOne(t: Option<Endpoint>): set<Endpoint> {
    if t.Some? then {t.value} else {}
  }

  function LogOf(t: Option<Endpoint>): seq<Attempt>
    reads ThatOne(t)
  {
    if t.Some? then t.value.log else []
  }

  function GroupOf(t: Option<Endpoint>): Group
    reads ThatOne(t)
  {
    if t.Some? then t.value.group else map[]
  }

  /** What a configured target went through since it had this log and this group: the history `sent` of
      delivering `list`, or nothing and a negative verdict when the vault is missing. */
  ghost predicate Pushed(t: Option<Endpoint>, log0: seq<Attempt>, g0: Group,
                         sent: seq<Attempt>, list: seq<Input>, base: BatchMode, ok: bool)
    reads ThatOne(t)
  {
    && (t.None? ==> !ok && sent == [])
    && (t.Some? ==> t.value.log == log0 + sent && Delivered(g0, t.value.group, sent, list, base, ok) && Sized(sent) && Opens(sent, list))
  }

  ghost predicate NotYetPushed(t: Option<Endpoint>, log0: seq<Attempt>, g0: Group)
    reads ThatOne(t)
  {
    t.Some? ==> t.value.Valid() && t.value.log == log0 && t.value.group == g0
  }

  /** One configured target; a missing vault fails without being sent anything. */
  method PushTarget(target: Option<Endpoint>, chunks: seq<seq<Input>>, base: BatchMode)
    returns (ok: bool, ghost sent: seq<Attempt>)
    requires target.Some? ==> target.value.Valid()
    requires Sendable(chunks)
    modifies ThatOne(target)
    ensures Pushed(target, old(LogOf(target)), old(GroupOf(target)), sent, Flatten(chunks), base, ok)
  {
    ok, sent := false, [];
    if target.Some? {
      var count;
      ok, count, sent := PushChunks(target.value, chunks, base);
      if chunks != [] {
        FirstChunk(chunks);
      }
    }
  }

  /** A target's log and group at some moment. */
  datatype Snapshot = Snapshot(log: seq<Attempt>, group: Group)

  /** The first targets have been served since the snapshots `was` were taken, and the others not touched. */
  ghost predicate PushedUpTo(targets: seq<Option<Endpoint>>, was: seq<Snapshot>, list: seq<Input>, base: BatchMode,
                             sents: seq<seq<Attempt>>, oks: seq<bool>)
    reads Existing(targets)
  {
    && |sents| == |oks| <= |targets| == |was|
    && (forall i :: 0 <= i < |oks| ==>
          Pushed(targets[i], was[i].log, was[i].group, sents[i], list, base, oks[i]))
    && (forall i :: |oks| <= i < |targets| ==> NotYetPushed(targets[i], was[i].log, was[i].group))
  }

  /** Serving one more target disturbs no other, because the targets are separate. */
  method PushNext(targets: seq<Option<Endpoint>>, k: nat, chunks: seq<seq<Input>>, base: BatchMode,
                  ghost was: seq<Snapshot>, ghost sents: seq<seq<Attempt>>, ghost oks: seq<bool>)
    returns (ok: bool, ghost sent: seq<Attempt>)
    requires Separate(targets) && k == |oks| < |targets|
    requires Sendable(chunks)
    requires PushedUpTo(targets, was, Flatten(chunks), base, sents, oks)
    modifies ThatOne(targets[k])
    ensures PushedUpTo(targets, was, Flatten(chunks), base, sents + [sent], oks + [ok])
  {
    assert NotYetPushed(targets[k], was[k].log, was[k].group);
    ok, sent := PushTarget(targets[k], chunks, base);
    assert forall i :: 0 <= i < |targets| && i != k ==> ThatOne(targets[i]) !! ThatOne(targets[k]);
  }

  /** Pushes the same chunks to every target; a missing vault or a failed chunk fails that target only,
      and the others are still served. */
  method PushTargets(targets: seq<Option<Endpoint>>, chunks: seq<seq<Input>>, base: BatchMode)
    returns (anySuccess: bool, allSucceeded: bool, ghost oks: seq<bool>, ghost sents: seq<seq<Attempt>>)
    requires Separate(targets)
    requires forall t :: t in Existing(targets) ==> t.Valid()
    requires Sendable(chunks)
    modifies Existing(targets)
    ensures |oks| == |sents| == |targets|
    ensures allSucceeded <==> All(oks)
    ensures anySuccess <==> targets == [] || Any(oks)
    ensures forall i :: 0 <= i < |targets| ==>
              Pushed(targets[i], old(LogOf(targets[i])), old(GroupOf(targets[i])), sents[i], Flatten(chunks), base, oks[i])
  {
    oks, sents := [], [];
    anySuccess, allSucceeded := targets == [], true;
    ghost var was := seq(|targets|, i requires 0 <= i < |targets| => old(Snapshot(LogOf(targets[i]), GroupOf(targets[i]))));
    for k := 0 to |targets|
      invariant |oks| == |sents| == k
      invariant allSucceeded <==> All(oks)
      invariant anySuccess <==> targets == [] || Any(oks)
      invariant PushedUpTo(targets, was, Flatten(chunks), base, sents, oks)
    {
      assert targets[k].Some? ==> targets[k].value in Existing(targets);
      var ok;
      ghost var sent;
      ok, sent := PushNext(targets, k, chunks, base, was, sents, oks);
      if ok {
        anySuccess := true;
      } else {
        allSucceeded := false;
      }
      VerdictSnoc(oks, ok);
      oks, sents := oks + [ok], sents + [sent];
    }
  }

  /** Chunks a list and pushes it to every target. */
  method PushList(targets: seq<Option<Endpoint>>, list: seq<Input>, base: BatchMode)
    returns (anySuccess: bool, allSucceeded: bool, ghost oks: seq<bool>, ghost sents: seq<seq<Attempt>>)
    requires Separate(targets)
    requires forall t :: t in Existing(targets) ==> t.Valid()
    modifies Existing(targets)
    ensures |oks| == |sents| == |targets|
    ensures allSucceeded <==> All(oks)
    ensures anySuccess <==> targets == [] || Any(oks)
    ensures forall i :: 0 <= i < |targets| ==>
              Pushed(targets[i], old(LogOf(targets[i])), old(GroupOf(targets[i])), sents[i], list, base, oks[i])
  {
    var chunks := ChunkRecords(list, MAX_BATCH_SIZE);
    anySuccess, allSucceeded, oks, sents := PushTargets(targets, chunks, base);
  }

  // ---------------------------------------------------------------- the job slots

  /** The jobs in flight, behind a lock. A poisoned lock refuses new claims and frees nothing. */
  datatype Slots = Slots(running: set<nat>, poisoned: bool) {
    predicate Free(id: nat) {
      !poisoned && id !in running
    }

    function Claim(id: nat): Slots {
      if Free(id) then this.(running := running + {id}) else this
    }

    function Release(id: nat): Slots {
      if poisoned then this else this.(running := running - {id})
    }
  }

  class JobSlots {
    var running: set<nat>
    var poisoned: bool

    function View(): Slots
      reads this
    {
      Slots(running, poisoned)
    }

    constructor ()
      ensures View() == Slots({}, false)
    {
      running, poisoned := {}, false;
    }

    method TryStart(id: nat) returns (claimed: bool)
      modifies this`running
      ensures claimed <==> old(View()).Free(id)
      ensures View() == old(View()).Claim(id)
    {
      if poisoned {
        return false;
      }
      claimed := id !in running;
      running := running + {id};
    }

    method DropGuard(id: nat)
      modifies this`running
      ensures View() == old(View()).Release(id)
    {
      if !poisoned {
        running := running - {id};
      }
    }
  }
}
