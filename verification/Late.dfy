/**
 Requests that take effect late. A gateway may report a timeout for a request whose backend commits
 afterwards, even after later requests of the same delivery. An accepted request has taken effect when its
 reply arrives, so it lands before anything sent after it; one that was refused or broken may land at any
 later moment, or never.
 */
module LateDelivery {
  import opened Optional
  import opened RemoteVault
  import opened Delivery

  /** `order` lists the requests of `log` that took effect, in the order in which they did. */
  predicate Lands(log: seq<Attempt>, order: seq<nat>) {
    && (forall p :: 0 <= p < |order| ==> order[p] < |log| && WasApplied(log[order[p]].reply))
    && (forall p, q :: 0 <= p < q < |order| ==> order[p] != order[q])
    && (forall i :: 0 <= i < |log| && log[i].reply.Accepted? ==> i in order)
    && (forall p, q :: 0 <= p < q < |order| && order[q] < order[p] ==> !log[order[q]].reply.Accepted?)
  }

  function Landed(log: seq<Attempt>, order: seq<nat>): seq<Attempt>
    requires forall p :: 0 <= p < |order| ==> order[p] < |log|
  {
    seq(|order|, p requires 0 <= p < |order| => log[order[p]])
  }

  predicate AllApplied(landed: seq<Attempt>) {
    forall p :: 0 <= p < |landed| ==> WasApplied(landed[p].reply)
  }

  // ---------------------------------------------------------------- one address at a time

  /** What one request does to the row of one address. */
  function RowStep(o: Option<Stored>, x: Attempt, a: Address): Option<Stored> {
    var s := Mentions(x.records, a);
    if s != [] then Fold(o, s)
    else if x.mode == FullReplace && o.Some? && !o.value.isDeleted then Some(SoftDelete(o.value))
    else o
  }

  function RowAfter(o: Option<Stored>, landed: seq<Attempt>, a: Address): Option<Stored>
    decreases |landed|
  {
    if landed == [] then o else RowAfter(RowStep(o, landed[0], a), landed[1..], a)
  }

  lemma {:induction false} ApplyAt(g: Group, x: Attempt, a: Address)
    ensures Get(Apply(g, x.records, x.mode), a) == RowStep(Get(g, a), x, a)
  {
    UpsertAt(g, x.records, a);
    MentionedIffAddressed(x.records, a);
    SweepAt(UpsertAll(g, x.records), Addresses(x.records), a);
  }

  lemma {:induction false} ReplayAt(g: Group, landed: seq<Attempt>, a: Address)
    requires AllApplied(landed)
    ensures Get(Replay(g, landed), a) == RowAfter(Get(g, a), landed, a)
    decreases |landed|
  {
    if landed != [] {
      ApplyAt(g, landed[0], a);
      ReplayAt(StepGroup(g, landed[0]), landed[1..], a);
    }
  }

  // ---------------------------------------------------------------- what no sweep touches

  /** The fields of a row that a sweep leaves alone. */
  datatype Core = Core(cause: Option<string>, createdAt: Stamp, lastSeenAt: Stamp)

  function CoreOf(o: Option<Stored>): Option<Core> {
    if o.Some? then Some(Core(o.value.cause, o.value.createdAt, o.value.lastSeenAt)) else None
  }

  /** All the records for one address, in landing order. */
  function AllMentions(landed: seq<Attempt>, a: Address): seq<Input>
    decreases |landed|
  {
    if landed == [] then [] else Mentions(landed[0].records, a) + AllMentions(landed[1..], a)
  }

  lemma {:induction false} FoldCore(o: Option<Stored>, o': Option<Stored>, s: seq<Input>)
    requires CoreOf(o) == CoreOf(o')
    ensures CoreOf(Fold(o, s)) == CoreOf(Fold(o', s))
  {
    if s != [] {
      FoldIsSummary(o, s);
      FoldIsSummary(o', s);
    }
  }

  lemma {:induction false} FoldAppend(o: Option<Stored>, s: seq<Input>, t: seq<Input>)
    ensures Fold(o, s + t) == Fold(Fold(o, s), t)
    decreases |s|
  {
    if s == [] {
      assert s + t == t;
    } else {
      assert (s + t)[0] == s[0] && (s + t)[1..] == s[1..] + t;
      FoldAppend(Some(Put(o, s[0])), s[1..], t);
    }
  }

  lemma {:induction false} CoreAfter(o: Option<Stored>, o': Option<Stored>, landed: seq<Attempt>, a: Address)
    requires CoreOf(o) == CoreOf(o')
    ensures CoreOf(RowAfter(o, landed, a)) == CoreOf(Fold(o', AllMentions(landed, a)))
    decreases |landed|
  {
    if landed != [] {
      var s := Mentions(landed[0].records, a);
      FoldCore(o, o', s);
      FoldAppend(o', s, AllMentions(landed[1..], a));
      CoreAfter(RowStep(o, landed[0], a), Fold(o', s), landed[1..], a);
    }
  }

  // ---------------------------------------------------------------- what a sweep can change

  /** The row's deletion flag and stamps are those of record `r`. */
  predicate Settled(o: Option<Stored>, r: Input) {
    && o.Some? && o.value.isDeleted == Tombstone(r)
    && o.value.deletedAt == DeletionStamp(r) && o.value.updatedAt == StampOf(r.updatedAt)
  }

  predicate SameFlags(r: Input, q: Input) {
    Tombstone(r) == Tombstone(q) && DeletionStamp(r) == DeletionStamp(q) && r.updatedAt == q.updatedAt
  }

  /** Request `x` cannot take down a row of address `a` that `r` has settled. */
  predicate Spares(x: Attempt, a: Address, r: Input) {
    Mentions(x.records, a) != [] || x.mode == Upsert || Tombstone(r)
  }

  lemma {:induction false} StepSettles(o: Option<Stored>, x: Attempt, a: Address, r: Input)
    requires Spares(x, a, r) && (Settled(o, r) || Mentions(x.records, a) != [])
    requires forall m :: m in Mentions(x.records, a) ==> SameFlags(m, r)
    ensures Settled(RowStep(o, x, a), r)
  {
    var s := Mentions(x.records, a);
    if s != [] {
      FoldIsSummary(o, s);
      assert s[|s| - 1] in s;
    }
  }

  lemma {:induction false} StaysSettled(o: Option<Stored>, landed: seq<Attempt>, a: Address, r: Input)
    requires Settled(o, r) && forall p :: 0 <= p < |landed| ==> Spares(landed[p], a, r)
    requires forall m :: m in AllMentions(landed, a) ==> SameFlags(m, r)
    ensures Settled(RowAfter(o, landed, a), r)
    decreases |landed|
  {
    if landed != [] {
      assert AllMentions(landed, a) == Mentions(landed[0].records, a) + AllMentions(landed[1..], a);
      StepSettles(o, landed[0], a, r);
      StaysSettled(RowStep(o, landed[0], a), landed[1..], a, r);
    }
  }

  /** A row is settled for good by a request that mentions it, unless a later one takes it down. */
  lemma {:induction false} SettledFrom(o: Option<Stored>, landed: seq<Attempt>, a: Address, r: Input, q: nat)
    requires q < |landed| && Mentions(landed[q].records, a) != []
    requires forall p :: q < p < |landed| ==> Spares(landed[p], a, r)
    requires forall m :: m in AllMentions(landed, a) ==> SameFlags(m, r)
    ensures Settled(RowAfter(o, landed, a), r)
    decreases |landed|
  {
    assert AllMentions(landed, a) == Mentions(landed[0].records, a) + AllMentions(landed[1..], a);
    if q == 0 {
      StepSettles(o, landed[0], a, r);
      assert forall p :: 0 <= p < |landed| - 1 ==> landed[1..][p] == landed[p + 1];
      StaysSettled(RowStep(o, landed[0], a), landed[1..], a, r);
    } else {
      assert forall p :: q - 1 < p < |landed| - 1 ==> landed[1..][p] == landed[p + 1];
      SettledFrom(RowStep(o, landed[0], a), landed[1..], a, r, q - 1);
    }
  }

  /** An address that nothing mentions keeps its row, except for being taken down once. */
  lemma {:induction false} Unmentioned(o: Option<Stored>, landed: seq<Attempt>, a: Address)
    requires AllMentions(landed, a) == []
    ensures RowAfter(o, landed, a) ==
            if o.Some? && !o.value.isDeleted && (exists p :: 0 <= p < |landed| && landed[p].mode == FullReplace)
            then Some(SoftDelete(o.value)) else o
    decreases |landed|
  {
    if landed != [] {
      assert Mentions(landed[0].records, a) == [] && AllMentions(landed[1..], a) == [];
      Unmentioned(RowStep(o, landed[0], a), landed[1..], a);
      assert landed == [landed[0]] + landed[1..];
      if p :| 0 <= p < |landed| && landed[p].mode == FullReplace {
        assert p > 0 ==> landed[1..][p - 1].mode == FullReplace;
      }
    }
  }

  // ---------------------------------------------------------------- which records land

  lemma {:induction false} MentionsMembers(rs: seq<Input>, a: Address, r: Input)
    ensures r in Mentions(rs, a) <==> r in rs && r.address == a
    decreases |rs|
  {
    if rs != [] {
      assert rs == [rs[0]] + rs[1..];
      MentionsMembers(rs[1..], a, r);
    }
  }

  lemma {:induction false} AllMentionsMembers(landed: seq<Attempt>, a: Address, r: Input)
    ensures r in AllMentions(landed, a) <==>
            r.address == a && exists p :: 0 <= p < |landed| && r in landed[p].records
    decreases |landed|
  {
    if landed != [] {
      var tail := landed[1..];
      MentionsMembers(landed[0].records, a, r);
      AllMentionsMembers(tail, a, r);
      if p :| 0 <= p < |landed| && r in landed[p].records {
        assert p > 0 ==> tail[p - 1] == landed[p];
      }
      if p :| 0 <= p < |tail| && r in tail[p].records {
        assert landed[p + 1] == tail[p];
      }
    }
  }

  /** The first record for an address, and the request that brings it. */
  lemma {:induction false} FirstMention(landed: seq<Attempt>, a: Address) returns (p: nat)
    requires AllMentions(landed, a) != []
    ensures p < |landed| && Mentions(landed[p].records, a) != []
    ensures AllMentions(landed, a)[0] == Mentions(landed[p].records, a)[0]
    ensures forall q :: 0 <= q < p ==> Mentions(landed[q].records, a) == []
    decreases |landed|
  {
    if Mentions(landed[0].records, a) != [] {
      p := 0;
    } else {
      p := FirstMention(landed[1..], a);
      assert forall q :: 0 < q < p + 1 ==> landed[1..][q - 1] == landed[q];
      p := p + 1;
    }
  }

  lemma {:induction false} PieceWithin(start: Progress, log: seq<Attempt>, end: Progress, i: nat, r: Input)
    requires Tracks(start, log, end) && i < |log| && r in log[i].records
    ensures r in start.rest
    decreases |log|
  {
    if i > 0 {
      PieceWithin(After(start, log[0]), log[1..], end, i - 1, r);
    }
  }

  lemma {:induction false} AcceptedMember(log: seq<Attempt>, r: Input) returns (i: nat)
    requires r in AcceptedRecords(log)
    ensures i < |log| && log[i].reply.Accepted? && r in log[i].records
    decreases |log|
  {
    if log[0].reply.Accepted? && r in log[0].records {
      i := 0;
    } else {
      i := AcceptedMember(log[1..], r);
      i := i + 1;
    }
  }

  /** A piece sent before any piece for the address was accepted starts, for that address, where the whole
      list does. */
  lemma {:induction false} PieceStart(start: Progress, log: seq<Attempt>, end: Progress, i: nat, a: Address)
    requires Tracks(start, log, end) && i < |log| && Mentions(log[i].records, a) != []
    requires forall j :: 0 <= j < i && log[j].reply.Accepted? ==> Mentions(log[j].records, a) == []
    ensures Mentions(start.rest, a) != [] && Mentions(log[i].records, a)[0] == Mentions(start.rest, a)[0]
    decreases |log|
  {
    var head := log[0].records;
    assert start.rest == head + start.rest[|head|..];
    MentionsAppend(head, start.rest[|head|..], a);
    if i > 0 {
      assert forall j :: 0 <= j < i - 1 ==> log[1..][j] == log[j + 1];
      PieceStart(After(start, log[0]), log[1..], end, i - 1, a);
    }
  }

  /** However late requests land, the first record to land for an address is the first one of the list. */
  lemma {:induction false} FirstLanded(start: Progress, log: seq<Attempt>, end: Progress, order: seq<nat>, a: Address)
    requires Tracks(start, log, end) && Lands(log, order) && AllMentions(Landed(log, order), a) != []
    ensures Mentions(start.rest, a) != []
    ensures AllMentions(Landed(log, order), a)[0] == Mentions(start.rest, a)[0]
  {
    var landed := Landed(log, order);
    var p := FirstMention(landed, a);
    forall j | 0 <= j < order[p] && log[j].reply.Accepted?
      ensures Mentions(log[j].records, a) == []
    {
      var q :| 0 <= q < |order| && order[q] == j;
      assert landed[q] == log[j];
    }
    PieceStart(start, log, end, order[p], a);
  }

  // ---------------------------------------------------------------- lists that late landing cannot hurt

  /** Neither record, landing after the other, changes what the other left. */
  predicate Alike(r: Input, q: Input) {
    && SameFlags(r, q)
    && (r.cause.Some? && q.cause.Some? ==> r.cause == q.cause)
    && (r.lastSeenAt.Some? && q.lastSeenAt.Some? ==> r.lastSeenAt == q.lastSeenAt)
  }

  /** Records for one address do not contradict each other; lists of distinct addresses are a special case. */
  predicate Agree(records: seq<Input>) {
    forall r, q :: r in records && q in records && r.address == q.address ==> Alike(r, q)
  }

  /** What a list carries as its last cause is a cause it carries, or the default if it carries none. */
  lemma {:induction false} LastCauseIs(s: seq<Input>, d: Option<string>, r: Input)
    requires forall q :: q in s && q.cause.Some? ==> q.cause == r.cause
    ensures LastCause(s, d) == if exists q :: q in s && q.cause.Some? then r.cause else d
    decreases |s|
  {
    if s != [] {
      assert s == [s[0]] + s[1..];
      LastCauseIs(s[1..], if s[0].cause.Some? then s[0].cause else d, r);
      assert s[0].cause.Some? ==> s[0] in s;
    }
  }

  lemma {:induction false} LastSeenIs(s: seq<Input>, d: Stamp, r: Input)
    requires forall q :: q in s && q.lastSeenAt.Some? ==> q.lastSeenAt == r.lastSeenAt
    ensures LastSeen(s, d) == if exists q :: q in s && q.lastSeenAt.Some? then StampOf(r.lastSeenAt) else d
    decreases |s|
  {
    if s != [] {
      assert s == [s[0]] + s[1..];
      LastSeenIs(s[1..], if s[0].lastSeenAt.Some? then At(s[0].lastSeenAt.value) else d, r);
      assert s[0].lastSeenAt.Some? ==> s[0] in s;
    }
  }

  ghost predicate SameRecords(s: seq<Input>, t: seq<Input>) {
    forall r :: r in s <==> r in t
  }

  predicate AllAlike(s: seq<Input>) {
    forall r, q :: r in s && q in s ==> Alike(r, q)
  }

  lemma {:induction false} SameCause(s: seq<Input>, t: seq<Input>, d: Option<string>)
    requires SameRecords(s, t) && AllAlike(s)
    ensures LastCause(s, d) == LastCause(t, d)
  {
    var r := Input([], None, None, None, None, None, None);
    if q :| q in s && q.cause.Some? {
      r := q;
    }
    LastCauseIs(s, d, r);
    LastCauseIs(t, d, r);
  }

  lemma {:induction false} SameSeen(s: seq<Input>, t: seq<Input>, d: Stamp)
    requires SameRecords(s, t) && AllAlike(s)
    ensures LastSeen(s, d) == LastSeen(t, d)
  {
    var r := Input([], None, None, None, None, None, None);
    if q :| q in s && q.lastSeenAt.Some? {
      r := q;
    }
    LastSeenIs(s, d, r);
    LastSeenIs(t, d, r);
  }

  /** Two lists of the same records that agree and start alike leave the same row. */
  lemma {:induction false} SameSummary(o: Option<Stored>, s: seq<Input>, t: seq<Input>)
    requires s != [] && t != [] && s[0] == t[0] && SameRecords(s, t) && AllAlike(s)
    ensures Summary(o, s) == Summary(o, t)
  {
    SameCause(s, t, if o.Some? then o.value.cause else None);
    SameSeen(s, t, if o.Some? then o.value.lastSeenAt else Arrival);
    assert s[|s| - 1] in s && t[|t| - 1] in t;
    assert Alike(s[|s| - 1], t[|t| - 1]);
  }

  /** Every replacing request that took effect without being accepted carried every address the list leaves
      live. */
  predicate Covering(records: seq<Input>, log: seq<Attempt>) {
    forall i, r :: 0 <= i < |log| && Sweeping(log[i]) && r in records && !Tombstone(r) ==>
      r.address in Addresses(log[i].records)
  }

  predicate Sweeping(x: Attempt) {
    x.mode == FullReplace && WasApplied(x.reply) && !x.reply.Accepted?
  }

  /** A complete delivery. */
  predicate Completes(records: seq<Input>, mode: BatchMode, log: seq<Attempt>) {
    Tracks(Progress(records, mode), log, Progress([], Upsert))
  }

  lemma {:induction false} LandedMembers(records: seq<Input>, mode: BatchMode, log: seq<Attempt>, order: seq<nat>, a: Address, r: Input)
    requires Completes(records, mode, log) && Lands(log, order)
    ensures r in AllMentions(Landed(log, order), a) <==> r in Mentions(records, a)
  {
    var landed := Landed(log, order);
    AllMentionsMembers(landed, a, r);
    MentionsMembers(records, a, r);
    if p :| 0 <= p < |landed| && r in landed[p].records {
      PieceWithin(Progress(records, mode), log, Progress([], Upsert), order[p], r);
    }
    if r in records {
      AcceptedIsPrefix(Progress(records, mode), log, Progress([], Upsert));
      var i := AcceptedMember(log, r);
      var p :| 0 <= p < |order| && order[p] == i;
      assert r in landed[p].records;
    }
  }

  /** After an accepted piece has landed, nothing takes down what it mentions. */
  lemma {:induction false} LaterOnesSpare(
    records: seq<Input>, mode: BatchMode, log: seq<Attempt>, order: seq<nat>, r: Input, q: nat, p: nat)
    requires Completes(records, mode, log) && Lands(log, order) && Covering(records, log)
    requires q < p < |order| && log[order[q]].reply.Accepted? && r in records
    ensures Spares(Landed(log, order)[p], r.address, r)
  {
    var x := log[order[p]];
    if x.mode == FullReplace {
      if x.reply.Accepted? {
        NoReplaceAfterAcceptance(Progress(records, mode), log, Progress([], Upsert), order[q], order[p]);
        assert false;
      } else {
        MentionedIffAddressed(x.records, r.address);
      }
    }
  }

  lemma {:induction false} EndsSettled(
    o: Option<Stored>, records: seq<Input>, mode: BatchMode, log: seq<Attempt>, order: seq<nat>, r: Input)
    requires Completes(records, mode, log) && Lands(log, order) && Covering(records, log) && Agree(records)
    requires r in records
    ensures Settled(RowAfter(o, Landed(log, order), r.address), r)
  {
    var landed := Landed(log, order);
    AcceptedIsPrefix(Progress(records, mode), log, Progress([], Upsert));
    var i := AcceptedMember(log, r);
    var q :| 0 <= q < |order| && order[q] == i;
    MentionsMembers(log[i].records, r.address, r);
    forall p | q < p < |landed|
      ensures Spares(landed[p], r.address, r)
    {
      LaterOnesSpare(records, mode, log, order, r, q, p);
    }
    forall m | m in AllMentions(landed, r.address)
      ensures SameFlags(m, r)
    {
      LandedMembers(records, mode, log, order, r.address, m);
      MentionsMembers(records, r.address, m);
      assert Alike(m, r);
    }
    SettledFrom(o, landed, r.address, r, q);
  }

  /** The row of an address the list mentions. */
  lemma {:induction false} MentionedRow(
    g: Group, records: seq<Input>, mode: BatchMode, log: seq<Attempt>, order: seq<nat>, a: Address)
    requires Completes(records, mode, log) && Lands(log, order) && Covering(records, log) && Agree(records)
    requires Mentions(records, a) != []
    ensures RowAfter(Get(g, a), Landed(log, order), a) == Some(Summary(Get(g, a), Mentions(records, a)))
  {
    var o, landed, s := Get(g, a), Landed(log, order), Mentions(records, a);
    var t := AllMentions(landed, a);
    forall m
      ensures m in t <==> m in s
      ensures m in s ==> m in records && m.address == a
    {
      LandedMembers(records, mode, log, order, a, m);
      MentionsMembers(records, a, m);
    }
    assert s[0] in s;
    assert t != [];
    FirstLanded(Progress(records, mode), log, Progress([], Upsert), order, a);
    SameSummary(o, s, t);
    FoldIsSummary(o, t);
    CoreAfter(o, o, landed, a);
    var r := s[|s| - 1];
    assert r in s;
    EndsSettled(o, records, mode, log, order, r);
  }

  lemma {:induction false} SomeReplacement(records: seq<Input>, log: seq<Attempt>) returns (i: nat)
    requires records != [] && Completes(records, FullReplace, log)
    ensures i < |log| && log[i].mode == FullReplace && log[i].reply.Accepted?
    decreases |log|
  {
    if log[0].reply.Accepted? {
      i := 0;
    } else {
      i := SomeReplacement(records, log[1..]);
      i := i + 1;
    }
  }

  /** The row of an address the list does not mention. */
  lemma {:induction false} OtherRow(
    g: Group, records: seq<Input>, mode: BatchMode, log: seq<Attempt>, order: seq<nat>, a: Address)
    requires (records != [] || mode == Upsert) && Completes(records, mode, log) && Lands(log, order)
    requires Mentions(records, a) == []
    ensures RowAfter(Get(g, a), Landed(log, order), a) == Get(Apply(g, records, mode), a)
  {
    var landed := Landed(log, order);
    if AllMentions(landed, a) != [] {
      FirstLanded(Progress(records, mode), log, Progress([], Upsert), order, a);
      assert false;
    }
    Unmentioned(Get(g, a), landed, a);
    ApplyAt(g, Attempt(records, mode, Broken(true)), a);
    if mode == FullReplace {
      var i := SomeReplacement(records, log);
      var p :| 0 <= p < |order| && order[p] == i;
      assert landed[p].mode == FullReplace;
    } else {
      forall p | 0 <= p < |landed|
        ensures landed[p].mode == Upsert
      {
        UpsertStaysUpsert(Progress(records, mode), log, Progress([], Upsert), order[p]);
      }
    }
  }

  /** A complete delivery of records that agree ends as one atomic batch, however late its requests land,
      if no stray replacing request misses a live address. */
  lemma {:induction false} LateLandingIsAtomic(
    g: Group, records: seq<Input>, mode: BatchMode, log: seq<Attempt>, order: seq<nat>)
    requires (records != [] || mode == Upsert) && Completes(records, mode, log) && Lands(log, order)
    requires Agree(records) && Covering(records, log)
    ensures Replay(g, Landed(log, order)) == Apply(g, records, mode)
  {
    var landed := Landed(log, order);
    forall a
      ensures Get(Replay(g, landed), a) == Get(Apply(g, records, mode), a)
    {
      ReplayAt(g, landed, a);
      if Mentions(records, a) == [] {
        OtherRow(g, records, mode, log, order, a);
      } else {
        MentionedRow(g, records, mode, log, order, a);
        ApplyAt(g, Attempt(records, mode, Broken(true)), a);
        FoldIsSummary(Get(g, a), Mentions(records, a));
      }
    }
    GroupsEqual(Replay(g, landed), Apply(g, records, mode));
  }

  // ---------------------------------------------------------------- landing orders

  /** The requests that `keep` picks, in the order they were sent. */
  function Picked(log: seq<Attempt>, keep: Attempt -> bool): seq<nat>
    decreases |log|
  {
    if log == [] then []
    else
      var n := |log| - 1;
      Picked(log[..n], keep) + if keep(log[n]) then [n] else []
  }

  predicate Increasing(order: seq<nat>) {
    forall p, q :: 0 <= p < q < |order| ==> order[p] < order[q]
  }

  predicate AllKept(log: seq<Attempt>, keep: Attempt -> bool, order: seq<nat>) {
    forall p :: 0 <= p < |order| ==> order[p] < |log| && keep(log[order[p]])
  }

  lemma {:induction false} PickedMeans(log: seq<Attempt>, keep: Attempt -> bool)
    ensures Increasing(Picked(log, keep)) && AllKept(log, keep, Picked(log, keep))
    ensures forall i :: 0 <= i < |log| && keep(log[i]) ==> i in Picked(log, keep)
    decreases |log|
  {
    if log != [] {
      var n := |log| - 1;
      var init := log[..n];
      PickedMeans(init, keep);
      var before, order := Picked(init, keep), Picked(log, keep);
      assert forall p :: 0 <= p < |before| ==> order[p] == before[p] < n && log[before[p]] == init[before[p]];
      forall i | 0 <= i < |log| && keep(log[i])
        ensures i in order
      {
        if i < n {
          assert init[i] == log[i];
          assert i in before;
        }
      }
    }
  }

  const ACCEPTED: Attempt -> bool := (x: Attempt) => x.reply.Accepted?
  const APPLIED: Attempt -> bool := (x: Attempt) => WasApplied(x.reply)

  lemma {:induction false} LandedSnoc(log: seq<Attempt>, x: Attempt, order: seq<nat>)
    requires forall p :: 0 <= p < |order| ==> order[p] < |log|
    ensures Landed(log + [x], order) == Landed(log, order)
    ensures Landed(log + [x], order + [|log|]) == Landed(log, order) + [x]
  {
  }

  /** Requests that land at once are the special case that the rest of the model uses. */
  lemma {:induction false} LandingAtOnce(g: Group, log: seq<Attempt>)
    ensures Lands(log, Picked(log, APPLIED)) && Replay(g, Landed(log, Picked(log, APPLIED))) == Replay(g, log)
    decreases |log|
  {
    PickedMeans(log, APPLIED);
    if log != [] {
      var n := |log| - 1;
      var init, x := log[..n], log[n];
      assert log == init + [x];
      LandingAtOnce(g, init);
      var order := Picked(init, APPLIED);
      LandedSnoc(init, x, order);
      ReplayAppend(g, init, [x]);
      ReplayAppend(g, Landed(init, order), [x]);
      assert [x][1..] == [];
      assert Replay(Replay(g, init), [x]) == StepGroup(Replay(g, init), x);
      assert Picked(log, APPLIED) == if APPLIED(x) then order + [n] else order;
    }
  }

  /** The accepted requests as they were accepted, and then one stray. */
  lemma {:induction false} StrayLast(log: seq<Attempt>, i: nat) returns (order: seq<nat>)
    requires i < |log| && WasApplied(log[i].reply) && !log[i].reply.Accepted?
    ensures Lands(log, order) && |order| > 0 && order[|order| - 1] == i
  {
    PickedMeans(log, ACCEPTED);
    var picked := Picked(log, ACCEPTED);
    order := picked + [i];
    forall p | 0 <= p < |order|
      ensures order[p] < |log| && WasApplied(log[order[p]].reply)
    {
      if p < |picked| {
        assert order[p] == picked[p];
      }
    }
  }

  // ---------------------------------------------------------------- exactly when late landing is harmless

  /** A stray replacing request that lands last takes down a live address that it does not carry. */
  lemma {:induction false} StrayTakesDown(
    g: Group, records: seq<Input>, mode: BatchMode, log: seq<Attempt>, i: nat, r: Input) returns (order: seq<nat>)
    requires Agree(records) && i < |log| && Sweeping(log[i])
    requires r in records && !Tombstone(r) && r.address !in Addresses(log[i].records)
    ensures Lands(log, order)
    ensures r.address in Live(Apply(g, records, mode)) && r.address !in Live(Replay(g, Landed(log, order)))
  {
    order := StrayLast(log, i);
    var landed, a := Landed(log, order), r.address;
    var n := |landed| - 1;
    assert landed == landed[..n] + [log[i]];
    ReplayAppend(g, landed[..n], [log[i]]);
    assert [log[i]][1..] == [];
    MentionedIffAddressed(log[i].records, a);
    ApplyAt(Replay(g, landed[..n]), log[i], a);
    assert Replay(g, landed) == Apply(Replay(g, landed[..n]), log[i].records, FullReplace);
    var s := Mentions(records, a);
    MentionsMembers(records, a, r);
    ApplyAt(g, Attempt(records, mode, Broken(true)), a);
    FoldIsSummary(Get(g, a), s);
    MentionsMembers(records, a, s[|s| - 1]);
    assert Alike(s[|s| - 1], r);
  }

  /** For a complete delivery of records that agree, in either mode: every landing order leaves the atomic
      batch exactly when every replacing request that took effect without being accepted carried every
      address the list leaves live. */
  lemma {:induction false} LateLandingIff(g: Group, records: seq<Input>, mode: BatchMode, log: seq<Attempt>)
    requires (records != [] || mode == Upsert) && Completes(records, mode, log) && Agree(records)
    ensures (forall order: seq<nat> :: Lands(log, order) ==> Replay(g, Landed(log, order)) == Apply(g, records, mode))
            <==> Covering(records, log)
  {
    if Covering(records, log) {
      forall order: seq<nat> | Lands(log, order)
        ensures Replay(g, Landed(log, order)) == Apply(g, records, mode)
      {
        LateLandingIsAtomic(g, records, mode, log, order);
      }
    } else {
      var i, r :| 0 <= i < |log| && Sweeping(log[i]) && r in records && !Tombstone(r) &&
                  r.address !in Addresses(log[i].records);
      var order := StrayTakesDown(g, records, mode, log, i, r);
      assert Replay(g, Landed(log, order)) != Apply(g, records, mode);
    }
  }

  /** The record, landing on the row, changes nothing. */
  predicate Matches(s: Stored, r: Input) {
    && Settled(Some(s), r)
    && (r.cause.Some? ==> s.cause == r.cause)
    && (r.lastSeenAt.Some? ==> s.lastSeenAt == At(r.lastSeenAt.value))
  }

  lemma {:induction false} LastOfPrefix(s: seq<Input>, r: Input, c: Option<string>, d: Stamp)
    ensures r.cause.Some? ==> LastCause(s + [r], c) == r.cause
    ensures r.lastSeenAt.Some? ==> LastSeen(s + [r], d) == At(r.lastSeenAt.value)
    decreases |s|
  {
    if s == [] {
      assert s + [r] == [r] && [r][1..] == [];
    } else {
      assert (s + [r])[0] == s[0] && (s + [r])[1..] == s[1..] + [r];
      LastOfPrefix(s[1..], r, if s[0].cause.Some? then s[0].cause else c,
                   if s[0].lastSeenAt.Some? then At(s[0].lastSeenAt.value) else d);
    }
  }

  /** A prefix that lands again changes the row of its last record, unless that record matches the row. */
  lemma {:induction false} PrefixAgain(g: Group, rs: seq<Input>, k: nat)
    requires k < |rs| && rs[k].address in g && !Matches(g[rs[k].address], rs[k])
    ensures UpsertAll(g, rs[..k + 1]) != g
  {
    var r, a := rs[k], rs[k].address;
    var s := Mentions(rs[..k], a);
    assert rs[..k + 1] == rs[..k] + [r];
    MentionsAppend(rs[..k], [r], a);
    assert [r][1..] == [];
    assert Mentions([r], a) == [r];
    UpsertAt(g, rs[..k + 1], a);
    FoldIsSummary(Get(g, a), s + [r]);
    LastOfPrefix(s, r, g[a].cause, g[a].lastSeenAt);
    assert (s + [r])[|s|] == r;
    assert Get(UpsertAll(g, rs[..k + 1]), a) != Some(g[a]);
  }

  /** A batch in two parts: the whole is refused as too large, the first part times out, is sent again and
      accepted, and the second part is accepted. */
  function SplitLog(p: seq<Input>, q: seq<Input>, mode: BatchMode): seq<Attempt> {
    [Attempt(p + q, mode, Refused(413, false)), Attempt(p, mode, Refused(504, true)),
     Attempt(p, mode, Accepted(NoResponse)), Attempt(q, Upsert, Accepted(NoResponse))]
  }

  /** The request that timed out lands after everything else. */
  const TIMEOUT_LAST: seq<nat> := [2, 3, 1]

  lemma {:induction false} SplitLogCompletes(p: seq<Input>, q: seq<Input>, mode: BatchMode)
    ensures Completes(p + q, mode, SplitLog(p, q, mode))
  {
    var log := SplitLog(p, q, mode);
    var end := Progress([], Upsert);
    assert log[1..] == [log[1], log[2], log[3]] && [log[1], log[2], log[3]][1..] == [log[2], log[3]];
    assert [log[2], log[3]][1..] == [log[3]] && [log[3]][1..] == [];
    assert (p + q)[|p|..] == q && q[|q|..] == [];
    assert Tracks(end, [], end);
    assert Tracks(Progress(q, Upsert), [log[3]], end);
    assert p <= p + q;
    assert Tracks(Progress(p + q, mode), [log[2], log[3]], end);
    assert Tracks(Progress(p + q, mode), [log[1], log[2], log[3]], end);
  }

  lemma {:induction false} SplitLogLands(p: seq<Input>, q: seq<Input>, mode: BatchMode)
    ensures var log := SplitLog(p, q, mode);
            Lands(log, TIMEOUT_LAST) && Landed(log, TIMEOUT_LAST) == [log[2], log[3], log[1]]
  {
    var log := SplitLog(p, q, mode);
    assert TIMEOUT_LAST[0] == 2 && TIMEOUT_LAST[1] == 3 && TIMEOUT_LAST[2] == 1;
    assert Landed(log, TIMEOUT_LAST) == [log[2], log[3], log[1]];
  }

  /** Two records that contradict each other can come to this: what the timed-out part says about their
      address lands last. */
  lemma {:induction false} ContradictionHarms(records: seq<Input>) returns (p: seq<Input>, q: seq<Input>)
    requires !Agree(records)
    ensures records == p + q && p != [] && q != []
    ensures Completes(records, Upsert, SplitLog(p, q, Upsert)) && Lands(SplitLog(p, q, Upsert), TIMEOUT_LAST)
    ensures Replay(map[], Landed(SplitLog(p, q, Upsert), TIMEOUT_LAST)) != UpsertAll(map[], records)
  {
    var k := Mismatch(records);
    p, q := records[..k + 1], records[k + 1..];
    assert records == p + q;
    PrefixAgain(UpsertAll(map[], records), records, k);
    if q == [] {
      assert p == records;
      UpsertTwice(map[], records);
      assert false;
    }
    SplitLogCompletes(p, q, Upsert);
    SplitLogLands(p, q, Upsert);
    var log := SplitLog(p, q, Upsert);
    LandThree(map[], log[2], log[3], log[1]);
    UpsertAppend(map[], p, q);
  }

  lemma {:induction false} LandThree(g: Group, x: Attempt, y: Attempt, z: Attempt)
    ensures Replay(g, [x, y, z]) == StepGroup(StepGroup(StepGroup(g, x), y), z)
  {
    assert [x, y, z][1..] == [y, z] && [y, z][1..] == [z] && [z][1..] == [];
    assert Replay(StepGroup(StepGroup(g, x), y), [z]) == StepGroup(StepGroup(StepGroup(g, x), y), z);
  }

  /** One of two records that contradict each other does not match the row they leave. */
  lemma {:induction false} Mismatch(records: seq<Input>) returns (k: nat)
    requires !Agree(records)
    ensures k < |records| && var g := UpsertAll(map[], records);
              records[k].address in g && !Matches(g[records[k].address], records[k])
  {
    var g := UpsertAll(map[], records);
    var r, q :| r in records && q in records && r.address == q.address && !Alike(r, q);
    UpsertMeans(map[], records, r.address);
    assert r.address in Addresses(records);
    var row := g[r.address];
    var i :| 0 <= i < |records| && records[i] == r;
    var j :| 0 <= j < |records| && records[j] == q;
    k := if Matches(row, r) then j else i;
  }

  lemma {:induction false} LateUpsertIsAtomic(g: Group, records: seq<Input>, log: seq<Attempt>, order: seq<nat>)
    requires Agree(records) && Completes(records, Upsert, log) && Lands(log, order)
    ensures Replay(g, Landed(log, order)) == UpsertAll(g, records)
  {
    forall i | 0 <= i < |log|
      ensures log[i].mode == Upsert
    {
      UpsertStaysUpsert(Progress(records, Upsert), log, Progress([], Upsert), i);
    }
    LateLandingIsAtomic(g, records, Upsert, log, order);
  }

  /** Late landing never hurts an upsert delivery of the list, from any group and through any history,
      exactly when its records do not contradict each other. */
  lemma {:induction false} LateUpsertIff(records: seq<Input>)
    ensures (forall g: Group, log: seq<Attempt>, order: seq<nat> :: Completes(records, Upsert, log) && Lands(log, order) ==>
               Replay(g, Landed(log, order)) == UpsertAll(g, records))
            <==> Agree(records)
  {
    if Agree(records) {
      forall g: Group, log: seq<Attempt>, order: seq<nat> | Completes(records, Upsert, log) && Lands(log, order)
        ensures Replay(g, Landed(log, order)) == UpsertAll(g, records)
      {
        LateUpsertIsAtomic(g, records, log, order);
      }
    } else {
      var p, q := ContradictionHarms(records);
      assert Replay(map[], Landed(SplitLog(p, q, Upsert), TIMEOUT_LAST)) != UpsertAll(map[], records);
    }
  }

  // ---------------------------------------------------------------- what a late replacement takes down

  function Carried(landed: seq<Attempt>): seq<Input>
    decreases |landed|
  {
    if landed == [] then [] else landed[0].records + Carried(landed[1..])
  }

  lemma {:induction false} UpsertsJoin(g: Group, landed: seq<Attempt>)
    requires AllApplied(landed) && forall p :: 0 <= p < |landed| ==> landed[p].mode == Upsert
    ensures Replay(g, landed) == UpsertAll(g, Carried(landed))
    decreases |landed|
  {
    if landed != [] {
      UpsertAppend(g, landed[0].records, Carried(landed[1..]));
      UpsertsJoin(StepGroup(g, landed[0]), landed[1..]);
    }
  }

  /** The last replacing request to land, at position `p`. */
  predicate LastReplacement(landed: seq<Attempt>, p: nat) {
    && p < |landed| && landed[p].mode == FullReplace
    && forall q :: p < q < |landed| ==> landed[q].mode == Upsert
  }

  /** The last replacing request to land and everything after it act as one replacing batch on whatever was
      there before. */
  lemma {:induction false} LateReplaceDecides(g: Group, landed: seq<Attempt>, p: nat)
    requires AllApplied(landed) && LastReplacement(landed, p)
    ensures Replay(g, landed) ==
            Apply(Replay(g, landed[..p]), landed[p].records + Carried(landed[p + 1..]), FullReplace)
  {
    var tail := landed[p..];
    assert landed == landed[..p] + tail && tail[1..] == landed[p + 1..];
    ReplayAppend(g, landed[..p], tail);
    var m := Replay(g, landed[..p]);
    forall q | 0 <= q < |tail| - 1
      ensures tail[1..][q] == landed[p + 1 + q]
    {
    }
    UpsertsJoin(StepGroup(m, tail[0]), tail[1..]);
    ReplaceThenUpsert(m, landed[p].records, Carried(landed[p + 1..]));
  }

  /** Replacing requests carry heads of the whole list. */
  lemma {:induction false} ReplacementIsHead(records: seq<Input>, log: seq<Attempt>, i: nat)
    requires Completes(records, FullReplace, log) && i < |log| && log[i].mode == FullReplace
    ensures log[i].records <= records
    decreases |log|
  {
    if i > 0 {
      if log[0].reply.Accepted? {
        NoReplaceAfterAcceptance(Progress(records, FullReplace), log, Progress([], Upsert), 0, i);
        assert false;
      }
      ReplacementIsHead(records, log[1..], i - 1);
    }
  }

  lemma {:induction false} CarriedWithin(landed: seq<Attempt>, r: Input) returns (p: nat)
    requires r in Carried(landed)
    ensures p < |landed| && r in landed[p].records
    decreases |landed|
  {
    if r in landed[0].records {
      p := 0;
    } else {
      p := CarriedWithin(landed[1..], r);
      p := p + 1;
    }
  }

  lemma {:induction false} LiveAfterReplace(g: Group, rs: seq<Input>, a: Address)
    requires forall r :: r in rs ==> !Tombstone(r)
    ensures a in Live(Apply(g, rs, FullReplace)) <==> a in Addresses(rs)
  {
    ReplaceLiveSet(g, rs, a);
    MentionedIffAddressed(rs, a);
    var s := Mentions(rs, a);
    if s != [] {
      MentionsMembers(rs, a, s[|s| - 1]);
    }
  }

  /** Everything that lands comes from the list. */
  lemma {:induction false} LandedWithin(
    records: seq<Input>, mode: BatchMode, log: seq<Attempt>, order: seq<nat>, p: nat, r: Input)
    requires Completes(records, mode, log) && Lands(log, order) && p < |order|
    requires r in Landed(log, order)[p].records + Carried(Landed(log, order)[p + 1..])
    ensures r in records
  {
    var landed := Landed(log, order);
    var q := p;
    if r !in landed[p].records {
      q := CarriedWithin(landed[p + 1..], r);
      q := p + 1 + q;
    }
    PieceWithin(Progress(records, mode), log, Progress([], Upsert), order[q], r);
  }

  /** A replacing delivery of a list without tombstones leaves live what the last replacing request to land
      carries and what lands after it. */
  lemma {:induction false} LateReplaceLiveSet(
    g: Group, records: seq<Input>, log: seq<Attempt>, order: seq<nat>, p: nat, a: Address)
    requires Completes(records, FullReplace, log) && Lands(log, order)
    requires (forall r :: r in records ==> !Tombstone(r)) && LastReplacement(Landed(log, order), p)
    ensures var landed := Landed(log, order);
            a in Live(Replay(g, landed)) <==> a in Addresses(landed[p].records) + Addresses(Carried(landed[p + 1..]))
  {
    var landed := Landed(log, order);
    var piece, later := landed[p].records, Carried(landed[p + 1..]);
    LateReplaceDecides(g, landed, p);
    forall r | r in piece + later
      ensures !Tombstone(r)
    {
      LandedWithin(records, FullReplace, log, order, p, r);
    }
    LiveAfterReplace(Replay(g, landed[..p]), piece + later, a);
    assert Addresses(piece + later) == Addresses(piece) + Addresses(later);
  }

  /** The addresses that one atomic batch would leave live and such a delivery does not are exactly those that
      are owed beyond the piece of the last replacing request to land, and that neither this piece nor
      anything landing after it carries. */
  lemma {:induction false} LateReplaceTakesDown(
    g: Group, records: seq<Input>, log: seq<Attempt>, order: seq<nat>, p: nat, a: Address)
    requires Completes(records, FullReplace, log) && Lands(log, order)
    requires (forall r :: r in records ==> !Tombstone(r)) && LastReplacement(Landed(log, order), p)
    ensures var landed := Landed(log, order);
            var piece, later := landed[p].records, Carried(landed[p + 1..]);
            && piece <= records
            && (a in Live(Apply(g, records, FullReplace)) && a !in Live(Replay(g, landed)) <==>
                  a in Addresses(records[|piece|..]) && a !in Addresses(piece) && a !in Addresses(later))
  {
    var piece := Landed(log, order)[p].records;
    ReplacementIsHead(records, log, order[p]);
    LateReplaceLiveSet(g, records, log, order, p, a);
    LiveAfterReplace(g, records, a);
    assert records == piece + records[|piece|..];
    assert Addresses(records) == Addresses(piece) + Addresses(records[|piece|..]);
  }

  function Bare(a: Address): Input {
    Input(a, None, None, None, None, None, None)
  }

  /** It happens to a list of two addresses cut in half: the timed-out half takes the other one down. */
  lemma {:induction false} LateReplaceHappens(g: Group)
    ensures var log := SplitLog([Bare("192.0.2.1")], [Bare("192.0.2.2")], FullReplace);
            && Completes([Bare("192.0.2.1")] + [Bare("192.0.2.2")], FullReplace, log) && Lands(log, TIMEOUT_LAST)
            && Live(Replay(g, Landed(log, TIMEOUT_LAST))) == {"192.0.2.1"}
  {
    TimeoutTakesDown(g, "192.0.2.1", "192.0.2.2");
  }

  lemma {:induction false} TimeoutTakesDown(g: Group, a: Address, b: Address)
    ensures var log := SplitLog([Bare(a)], [Bare(b)], FullReplace);
            && Completes([Bare(a)] + [Bare(b)], FullReplace, log) && Lands(log, TIMEOUT_LAST)
            && Live(Replay(g, Landed(log, TIMEOUT_LAST))) == {a}
  {
    var p, q := [Bare(a)], [Bare(b)];
    var log := SplitLog(p, q, FullReplace);
    SplitLogCompletes(p, q, FullReplace);
    SplitLogLands(p, q, FullReplace);
    var landed := Landed(log, TIMEOUT_LAST);
    assert landed[3..] == [];
    assert Addresses(p) == {a};
    forall c
      ensures c in Live(Replay(g, landed)) <==> c == a
    {
      LateReplaceLiveSet(g, p + q, log, TIMEOUT_LAST, 2, c);
    }
  }
}

module LateService {
  import opened Optional
  import opened RemoteVault
  import opened Delivery
  import opened LateDelivery
  import Ingestion
  import SyncProtocol

  /** An ingestion run in upsert mode ends as one atomic batch however late its requests land. */
  lemma {:induction false} LateIngestionIsAtomic(g: Group, list: seq<string>, log: seq<Attempt>, order: seq<nat>)
    requires Completes(Ingestion.ToInputs(list), Upsert, log) && Lands(log, order)
    ensures Replay(g, Landed(log, order)) == Apply(g, Ingestion.ToInputs(list), Upsert)
  {
    var records := Ingestion.ToInputs(list);
    assert Agree(records);
    LateUpsertIsAtomic(g, records, log, order);
  }

  /** So does what one replication run delivers to a target. */
  lemma {:induction false} LateReplicationIsAtomic(
    g: Group, c: SyncProtocol.Config, source: map<Address, SyncProtocol.Row>, since: Option<Instant>, delta: seq<Input>,
    log: seq<Attempt>, order: seq<nat>)
    requires SyncProtocol.IsDelta(source, since, delta)
    requires Completes(SyncProtocol.Batch(c, delta), Upsert, log) && Lands(log, order)
    ensures Replay(g, Landed(log, order)) == Apply(g, SyncProtocol.Batch(c, delta), Upsert)
  {
    var records := SyncProtocol.Batch(c, delta);
    assert Agree(records) by {
      forall r | r in records
        ensures r in delta
      {
        SyncProtocol.BatchMeans(c, delta, r);
      }
    }
    LateUpsertIsAtomic(g, records, log, order);
  }

  /** A request of an earlier run that lands on a target which mirrors row `now` of address `a`: the target
      still mirrors it exactly when the row, as that run read it, says nothing else about the address. */
  lemma {:induction false} StrayKeepsMirrorIff(
    g: Group, piece: seq<Input>, a: Address, before: SyncProtocol.Row, now: SyncProtocol.Row)
    requires SyncProtocol.Mirrored(g, SyncProtocol.ToInput(a, now))
    requires SyncProtocol.Distinct(piece) && SyncProtocol.ToInput(a, before) in piece
    ensures SyncProtocol.Mirrored(UpsertAll(g, piece), SyncProtocol.ToInput(a, now)) <==>
            Alike(SyncProtocol.ToInput(a, before), SyncProtocol.ToInput(a, now))
  {
    var i :| 0 <= i < |piece| && piece[i] == SyncProtocol.ToInput(a, before);
    SyncProtocol.MentionsDistinct(piece, i);
    UpsertAt(g, piece, a);
    assert [piece[i]][1..] == [];
    assert Get(UpsertAll(g, piece), a) == Some(Put(Some(g[a]), piece[i]));
    SyncProtocol.MirroredMeans(g, a, now);
    SyncProtocol.MirroredMeans(UpsertAll(g, piece), a, now);
  }
}
