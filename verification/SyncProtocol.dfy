/**
 Inter-vault delta replication as a state machine: a changing source, a clock, triggers racing for the
 job slot, runs that fetch a delta and push it request by request to every target, and the stored
 high-water mark.

 A run reads its start time before it fetches, asks for changes since the mark rounded down to whole
 seconds, and moves the mark to its start time only when every target took everything.
 */
module SyncProtocol {
  import opened Optional
  import opened RemoteVault
  import opened Delivery
  import Bogon
  import Cidr
  import opened Jobs

  type JobId = nat
  type GuardId = nat

  /** Clock ticks per second. */
  const SECOND: nat := 1_000_000_000

  /** One row of the source group; deletions are rows too. `changedAt` is when the row last changed: no
      request ever carries it, it only serves to state what a run owes. */
  datatype Row = Row(
    cause: Option<string>, isDeleted: bool, deletedAt: Option<Instant>,
    createdAt: Instant, updatedAt: Instant, lastSeenAt: Instant, changedAt: Instant)

  function ToInput(a: Address, row: Row): Input {
    Input(a, row.cause, Some(row.isDeleted), Some(row.createdAt), Some(row.updatedAt), Some(row.lastSeenAt), row.deletedAt)
  }

  function FloorToSecond(t: Instant): Instant {
    t / SECOND * SECOND
  }

  /** What a run asks the source for: everything, or the changes since the mark in whole seconds. */
  function Since(mark: Option<Instant>): Option<Instant> {
    if mark.None? then None else Some(FloorToSecond(mark.value))
  }

  /** The source's delta filter: seen since the cutoff, or deleted since the cutoff. */
  predicate InWindow(row: Row, since: Option<Instant>) {
    since.None?
    || row.lastSeenAt >= since.value
    || (row.isDeleted && row.deletedAt.Some? && row.deletedAt.value >= since.value)
  }

  predicate Distinct(rs: seq<Input>) {
    forall i, j :: 0 <= i < j < |rs| ==> rs[i].address != rs[j].address
  }

  /** Some listing of exactly the rows in the window, each once. */
  ghost predicate IsDelta(source: map<Address, Row>, since: Option<Instant>, delta: seq<Input>) {
    && Distinct(delta)
    && (forall r :: r in delta ==>
          r.address in source && r == ToInput(r.address, source[r.address]) && InWindow(source[r.address], since))
    && (forall a :: a in source && InWindow(source[a], since) ==> ToInput(a, source[a]) in delta)
  }

  datatype Config = Config(job: JobId, skipBogons: bool, parse: string -> Option<Cidr.Network>)

  predicate Keeps(c: Config, a: Address) {
    c.skipBogons || Bogon.Survives(c.parse, a)
  }

  function Batch(c: Config, delta: seq<Input>): seq<Input> {
    if c.skipBogons then delta else Bogon.SurvivingInputs(c.parse, delta)
  }

  datatype Run =
    | Claimed
    | Started(at: Instant)
    | Pushing(at: Instant, batch: seq<Input>, target: nat, rest: seq<Input>, allOk: bool)
    | Done

  /** `stuck` is the jobs whose guard was dropped after the lock was poisoned. */
  datatype State = State(
    now: Instant,
    source: map<Address, Row>,
    mark: Option<Instant>,
    targets: seq<Group>,
    slots: Slots,
    stuck: set<JobId>,
    live: map<GuardId, JobId>,
    runs: map<GuardId, Run>)

  datatype Event =
    | Tick(to: Instant)
    | Change(address: Address, row: Row)
    | Poison
    | Trigger(guard: GuardId, job: JobId)
    | Begin(guard: GuardId)
    | Fetch(guard: GuardId, delta: seq<Input>)
    | FetchFailed(guard: GuardId)
    | Send(guard: GuardId, piece: seq<Input>, reply: Reply)
    | NextTarget(guard: GuardId)
    | GiveUp(guard: GuardId)
    | Finish(guard: GuardId, stored: bool)
    | Drop(guard: GuardId)

  predicate PushingAt(s: State, g: GuardId) {
    g in s.runs && s.runs[g].Pushing? && s.runs[g].target < |s.targets|
  }

  /** When an event can happen. Every source change stamps the sighting or the deletion with the current
      time; a guard identifier is never reused while it lives. */
  ghost predicate Enabled(c: Config, s: State, e: Event) {
    match e
    case Tick(to) => s.now <= to
    case Change(_, row) => row.lastSeenAt == s.now || (row.isDeleted && row.deletedAt == Some(s.now))
    case Poison => true
    case Trigger(g, _) => g !in s.live
    case Begin(g) => g in s.runs && s.runs[g].Claimed?
    case Fetch(g, delta) =>
      && g in s.runs && s.runs[g].Started?
      && IsDelta(s.source, Since(s.mark), delta)
    case FetchFailed(g) => g in s.runs && s.runs[g].Started?
    case Send(g, piece, _) => PushingAt(s, g) && piece <= s.runs[g].rest
    case NextTarget(g) => PushingAt(s, g) && s.runs[g].rest == []
    case GiveUp(g) => PushingAt(s, g)
    case Finish(g, _) => g in s.runs && s.runs[g].Pushing? && s.runs[g].target >= |s.targets|
    case Drop(g) => g in s.live
  }

  function Do(c: Config, s: State, e: Event): State
    requires Enabled(c, s, e)
  {
    match e
    case Tick(to) => s.(now := to)
    case Change(a, row) => s.(source := s.source[a := row.(changedAt := s.now)])
    case Poison => s.(slots := s.slots.(poisoned := true))
    case Trigger(g, job) =>
      if !s.slots.Free(job) then s
      else s.(slots := s.slots.Claim(job), live := s.live[g := job],
              runs := if job == c.job then s.runs[g := Claimed] else s.runs)
    case Begin(g) => s.(runs := s.runs[g := Started(s.now)])
    case Fetch(g, delta) =>
      var batch := Batch(c, delta);
      s.(runs := s.runs[g := Pushing(s.runs[g].at, batch, 0, batch, true)])
    case FetchFailed(g) => s.(runs := s.runs[g := Done])
    case Send(g, piece, reply) =>
      var run := s.runs[g];
      s.(targets := s.targets[run.target := StepGroup(s.targets[run.target], Attempt(piece, Upsert, reply))],
         runs := s.runs[g := if reply.Accepted? then run.(rest := run.rest[|piece|..]) else run])
    case NextTarget(g) =>
      var run := s.runs[g];
      s.(runs := s.runs[g := run.(target := run.target + 1, rest := run.batch)])
    case GiveUp(g) =>
      var run := s.runs[g];
      s.(runs := s.runs[g := run.(target := run.target + 1, rest := run.batch, allOk := false)])
    case Finish(g, stored) =>
      var run := s.runs[g];
      s.(mark := if run.allOk && stored then Some(run.at) else s.mark, runs := s.runs[g := Done])
    case Drop(g) =>
      s.(slots := s.slots.Release(s.live[g]), live := s.live - {g}, runs := s.runs - {g},
         stuck := if s.slots.poisoned then s.stuck + {s.live[g]} else s.stuck)
  }

  ghost predicate Reaches(c: Config, s: State, es: seq<Event>, s': State)
    decreases |es|
  {
    if es == [] then s' == s
    else Enabled(c, s, es[0]) && Reaches(c, Do(c, s, es[0]), es[1..], s')
  }

  ghost predicate Init(s: State) {
    && s.mark == None && s.slots == Slots({}, false) && s.stuck == {} && s.live == map[] && s.runs == map[]
    && Stamped(s)
  }

  // ---------------------------------------------------------------- what mirrored means

  /** The target already says everything the record carries: sending it again would change nothing. */
  predicate Mirrored(g: Group, r: Input) {
    r.address in g && Put(Some(g[r.address]), r) == g[r.address]
  }

  /** In terms of fields: the target row has the source row's deletion flag and stamps, its sighting and
      update times, and its cause whenever it has one. */
  lemma {:induction false} MirroredMeans(g: Group, a: Address, row: Row)
    ensures Mirrored(g, ToInput(a, row)) <==>
            && a in g
            && g[a].isDeleted == row.isDeleted
            && (!row.isDeleted ==> g[a].deletedAt == None)
            && (row.isDeleted && row.deletedAt.Some? ==> g[a].deletedAt == Some(At(row.deletedAt.value)))
            && (row.isDeleted && row.deletedAt.None? ==> g[a].deletedAt == Some(Arrival))
            && g[a].updatedAt == At(row.updatedAt)
            && g[a].lastSeenAt == At(row.lastSeenAt)
            && (row.cause.Some? ==> g[a].cause == row.cause)
  {
  }

  lemma {:induction false} MentionsDistinct(rs: seq<Input>, i: nat)
    requires Distinct(rs) && i < |rs|
    ensures Mentions(rs, rs[i].address) == [rs[i]]
    decreases |rs|
  {
    var a := rs[i].address;
    if i == 0 {
      forall r | r in rs[1..]
        ensures r.address != a
      {
        var j :| 0 <= j < |rs[1..]| && rs[1..][j] == r;
        assert rs[j + 1] == r;
      }
      MentionedIffAddressed(rs[1..], a);
    } else {
      assert rs[1..][i - 1] == rs[i];
      MentionsDistinct(rs[1..], i - 1);
    }
  }

  /** A delivered piece is mirrored, and nothing else is disturbed. */
  lemma {:induction false} PieceMirrors(g: Group, piece: seq<Input>, r: Input)
    requires Distinct(piece)
    ensures r in piece ==> Mirrored(UpsertAll(g, piece), r)
    ensures r.address !in Addresses(piece) && Mirrored(g, r) ==> Mirrored(UpsertAll(g, piece), r)
  {
    UpsertAt(g, piece, r.address);
    MentionedIffAddressed(piece, r.address);
    if r in piece {
      var i :| 0 <= i < |piece| && piece[i] == r;
      MentionsDistinct(piece, i);
      assert Fold(Get(g, r.address), [r]) == Fold(Some(Put(Get(g, r.address), r)), [r][1..]);
    }
  }

  /** A row that the target did not have arrives as a full copy, its creation time included; one it had
      keeps its creation time. */
  lemma {:induction false} CopiedRow(g: Group, piece: seq<Input>, a: Address, row: Row)
    requires Distinct(piece) && ToInput(a, row) in piece
    ensures var g' := UpsertAll(g, piece);
            && a in g'
            && g'[a].createdAt == (if a in g then g[a].createdAt else At(row.createdAt))
            && (a !in g ==> g'[a].cause == row.cause)
            && g'[a].isDeleted == row.isDeleted
            && g'[a].updatedAt == At(row.updatedAt)
            && g'[a].lastSeenAt == At(row.lastSeenAt)
  {
    var r := ToInput(a, row);
    UpsertAt(g, piece, a);
    var i :| 0 <= i < |piece| && piece[i] == r;
    MentionsDistinct(piece, i);
    assert Fold(Get(g, a), [r]) == Fold(Some(Put(Get(g, a), r)), [r][1..]);
  }

  /** What a fetch brings, in plain numbers: with no mark, every row; with a mark, exactly the rows seen or
      deleted since the last whole second (a billion ticks) up to the mark. */
  lemma {:induction false} DeltaMeans(source: map<Address, Row>, mark: Option<Instant>, delta: seq<Input>, a: Address)
    requires IsDelta(source, Since(mark), delta)
    ensures a in Addresses(delta) <==>
            && a in source
            && (mark.Some? ==>
                  var cutoff := mark.value - mark.value % 1_000_000_000;
                  || source[a].lastSeenAt >= cutoff
                  || (source[a].isDeleted && source[a].deletedAt.Some? && source[a].deletedAt.value >= cutoff))
  {
    if mark.Some? {
      assert FloorToSecond(mark.value) == mark.value - mark.value % 1_000_000_000;
    }
    if a in source {
      assert ToInput(a, source[a]).address == a;
      assert InWindow(source[a], Since(mark)) ==> ToInput(a, source[a]) in delta;
    }
  }

  // ---------------------------------------------------------------- what can happen

  /** The source may change any row at any time to anything stamped with that time. */
  lemma {:induction false} AnyChangeHappens(c: Config, s: State, t: Instant, a: Address, row: Row)
    requires s.now <= t
    requires row.lastSeenAt == t || (row.isDeleted && row.deletedAt == Some(t))
    ensures Reaches(c, s, [Tick(t), Change(a, row)],
                    s.(now := t, source := s.source[a := row.(changedAt := t)]))
  {
    var es := [Tick(t), Change(a, row)];
    assert es[1..] == [Change(a, row)] && es[1..][1..] == [];
  }

  /** A guard dropped after the lock was poisoned leaves its job's slot taken with nothing running. */
  lemma {:induction false} SlotLostHappens(c: Config, s0: State)
    requires Init(s0)
    ensures Reaches(c, s0, [Trigger(0, c.job), Poison, Drop(0)], s0.(slots := Slots({c.job}, true), stuck := {c.job}))
  {
    var es := [Trigger(0, c.job), Poison, Drop(0)];
    assert es[1..] == [Poison, Drop(0)] && es[1..][1..] == [Drop(0)] && es[1..][1..][1..] == [];
    var s1 := Do(c, s0, es[0]);
    assert s1.slots == Slots({c.job}, false) && s1.live == map[0 := c.job] && s1.runs == map[0 := Claimed];
    var s2 := Do(c, s1, Poison);
    var s3 := Do(c, s2, Drop(0));
    assert s3.live == map[] && s3.runs == map[] && s3.stuck == {c.job};
    assert s3 == s0.(slots := Slots({c.job}, true), stuck := {c.job});
    assert Reaches(c, s3, [], s3);
    assert Reaches(c, s2, es[1..][1..], s3);
    assert Reaches(c, s1, es[1..], s3);
  }

  // ---------------------------------------------------------------- the invariant

  /** Every row is stamped with the time of its last change. */
  ghost predicate Stamped(s: State) {
    forall a :: a in s.source ==>
      && s.source[a].changedAt <= s.now
      && (s.source[a].lastSeenAt == s.source[a].changedAt
          || (s.source[a].isDeleted && s.source[a].deletedAt == Some(s.source[a].changedAt)))
  }

  /** The running set is exactly the jobs of the live guards and the stuck ones, which only a poisoned lock
      leaves behind; no two guards share a job; the runs of this task are the live guards of its own job. */
  ghost predicate Guarded(c: Config, s: State) {
    && (forall g :: g in s.live ==> s.live[g] in s.slots.running && s.live[g] !in s.stuck)
    && (forall j :: j in s.slots.running ==> j in s.stuck || exists g :: g in s.live && s.live[g] == j)
    && (forall j :: j in s.stuck ==> j in s.slots.running && s.slots.poisoned)
    && (forall g, h :: g in s.live && h in s.live && s.live[g] == s.live[h] ==> g == h)
    && (forall g :: g in s.runs <==> g in s.live && s.live[g] == c.job)
  }

  /** The mirror property: every kept row last changed before the mark is mirrored in every target. */
  ghost predicate Covered(c: Config, s: State) {
    s.mark.Some? ==>
      forall a, t :: a in s.source && Keeps(c, a) && s.source[a].changedAt < s.mark.value && 0 <= t < |s.targets| ==>
        Mirrored(s.targets[t], ToInput(a, s.source[a]))
  }

  ghost predicate AllMirrored(g: Group, rs: seq<Input>) {
    forall i :: 0 <= i < |rs| ==> Mirrored(g, rs[i])
  }

  /** What a pushing run has fetched: exactly the kept rows in its window, except where the source has
      changed since the run began. */
  ghost predicate FetchedWell(c: Config, s: State, run: Run)
    requires run.Pushing?
  {
    && Distinct(run.batch)
    && (forall r :: r in run.batch ==>
          r.address in s.source &&
          (s.source[r.address].changedAt < run.at ==> r == ToInput(r.address, s.source[r.address])))
    && (forall a :: a in s.source && Keeps(c, a) && s.source[a].changedAt < run.at ==>
          ToInput(a, s.source[a]) in run.batch || (s.mark.Some? && s.source[a].changedAt < s.mark.value))
  }

  ghost predicate DeliveredWell(s: State, run: Run)
    requires run.Pushing?
  {
    && |run.rest| <= |run.batch|
    && run.rest == run.batch[|run.batch| - |run.rest|..]
    && (run.target < |s.targets| ==>
          AllMirrored(s.targets[run.target], run.batch[..|run.batch| - |run.rest|]))
    && (run.allOk ==>
          forall t :: 0 <= t < run.target && t < |s.targets| ==> AllMirrored(s.targets[t], run.batch))
  }

  ghost predicate RunWell(c: Config, s: State, run: Run) {
    match run
    case Claimed => true
    case Started(at) => at <= s.now && (s.mark.Some? ==> s.mark.value <= at)
    case Pushing(at, _, _, _, _) =>
      && at <= s.now && (s.mark.Some? ==> s.mark.value <= at)
      && FetchedWell(c, s, run) && DeliveredWell(s, run)
    case Done => true
  }

  ghost predicate Inv(c: Config, s: State) {
    && Stamped(s)
    && Guarded(c, s)
    && (s.mark.Some? ==> s.mark.value <= s.now)
    && Covered(c, s)
    && forall g :: g in s.runs ==> RunWell(c, s, s.runs[g])
  }

  // ---------------------------------------------------------------- every step keeps it

  lemma {:induction false} BatchMeans(c: Config, delta: seq<Input>, r: Input)
    ensures r in Batch(c, delta) <==> r in delta && Keeps(c, r.address)
    decreases |delta|
  {
    if !c.skipBogons && delta != [] {
      BatchMeans(c, delta[1..], r);
      assert delta == [delta[0]] + delta[1..];
    }
  }

  lemma {:induction false} BatchDistinct(c: Config, delta: seq<Input>)
    requires Distinct(delta)
    ensures Distinct(Batch(c, delta))
    decreases |delta|
  {
    if !c.skipBogons && delta != [] {
      assert Distinct(delta[1..]);
      BatchDistinct(c, delta[1..]);
      var rest := Bogon.SurvivingInputs(c.parse, delta[1..]);
      forall r | r in rest
        ensures r.address != delta[0].address
      {
        BatchMeans(c, delta[1..], r);
        var j :| 0 <= j < |delta[1..]| && delta[1..][j] == r;
        assert delta[j + 1] == r;
      }
    }
  }

  lemma {:induction false} TickKeeps(c: Config, s: State, to: Instant)
    requires Inv(c, s) && Enabled(c, s, Tick(to))
    ensures Inv(c, Do(c, s, Tick(to)))
  {
    var s' := Do(c, s, Tick(to));
    forall g | g in s'.runs
      ensures RunWell(c, s', s'.runs[g])
    {
      assert RunWell(c, s, s.runs[g]);
      if s.runs[g].Pushing? {
        assert FetchedWell(c, s', s.runs[g]) && DeliveredWell(s', s.runs[g]);
      }
    }
  }

  /** A source change made while a run is in flight carries a stamp no earlier than the run's start, so
      the run claims nothing about it. */
  lemma {:induction false} ChangeKeeps(c: Config, s: State, a: Address, row: Row)
    requires Inv(c, s) && Enabled(c, s, Change(a, row))
    ensures Inv(c, Do(c, s, Change(a, row)))
  {
    var s' := Do(c, s, Change(a, row));
    forall g | g in s'.runs
      ensures RunWell(c, s', s'.runs[g])
    {
      assert RunWell(c, s, s.runs[g]);
      if s.runs[g].Pushing? {
        assert FetchedWell(c, s', s.runs[g]);
        assert DeliveredWell(s', s.runs[g]);
      }
    }
  }

  lemma {:induction false} PoisonKeeps(c: Config, s: State)
    requires Inv(c, s)
    ensures Inv(c, Do(c, s, Poison))
  {
    var s' := Do(c, s, Poison);
    forall g | g in s'.runs
      ensures RunWell(c, s', s'.runs[g])
    {
      assert RunWell(c, s, s.runs[g]);
      if s.runs[g].Pushing? {
        assert FetchedWell(c, s', s.runs[g]) && DeliveredWell(s', s.runs[g]);
      }
    }
  }

  lemma {:induction false} TriggerKeeps(c: Config, s: State, g: GuardId, job: JobId)
    requires Inv(c, s) && Enabled(c, s, Trigger(g, job))
    ensures Inv(c, Do(c, s, Trigger(g, job)))
  {
    var s' := Do(c, s, Trigger(g, job));
    if s.slots.Free(job) {
      assert g in s'.live && s'.live[g] == job;
      forall j | j in s'.slots.running
        ensures j in s'.stuck || exists h :: h in s'.live && s'.live[h] == j
      {
        if j != job {
          var h :| h in s.live && s.live[h] == j;
          assert h in s'.live && s'.live[h] == j;
        }
      }
      RunsKeep(c, s, s', g);
    }
  }

  /** Steps that leave the clock, the source, the mark and the targets alone leave other runs well. */
  lemma {:induction false} RunsKeep(c: Config, s: State, s': State, g: GuardId)
    requires forall h :: h in s.runs ==> RunWell(c, s, s.runs[h])
    requires s'.now == s.now && s'.source == s.source && s'.mark == s.mark && s'.targets == s.targets
    requires forall h :: h in s'.runs && h != g ==> h in s.runs && s'.runs[h] == s.runs[h]
    ensures forall h :: h in s'.runs && h != g ==> RunWell(c, s', s'.runs[h])
  {
    forall h | h in s'.runs && h != g
      ensures RunWell(c, s', s'.runs[h])
    {
      assert RunWell(c, s, s.runs[h]);
      if s.runs[h].Pushing? {
        assert FetchedWell(c, s', s.runs[h]) && DeliveredWell(s', s.runs[h]);
      }
    }
  }

  /** A step that only moves one run of this task on keeps the invariant if it leaves that run well. */
  lemma {:induction false} RunMoves(c: Config, s: State, g: GuardId, run: Run)
    requires Inv(c, s) && g in s.runs
    requires RunWell(c, s.(runs := s.runs[g := run]), run)
    ensures Inv(c, s.(runs := s.runs[g := run]))
  {
    RunsKeep(c, s, s.(runs := s.runs[g := run]), g);
  }

  lemma {:induction false} OnlyRun(c: Config, s: State, g: GuardId, h: GuardId)
    requires Guarded(c, s) && g in s.runs && h in s.runs
    ensures g == h
  {
  }

  lemma {:induction false} BeginKeeps(c: Config, s: State, g: GuardId)
    requires Inv(c, s) && Enabled(c, s, Begin(g))
    ensures Inv(c, Do(c, s, Begin(g)))
  {
    RunMoves(c, s, g, Started(s.now));
  }

  /** The fetched batch covers everything the mark does not: a kept row missing from it was last changed
      before the rounded-down mark. */
  lemma {:induction false} FetchCovers(c: Config, s: State, g: GuardId, delta: seq<Input>)
    requires Stamped(s) && Enabled(c, s, Fetch(g, delta))
    ensures var s' := Do(c, s, Fetch(g, delta)); FetchedWell(c, s', s'.runs[g])
  {
    var batch := Batch(c, delta);
    var since := Since(s.mark);
    BatchDistinct(c, delta);
    forall r | r in batch
      ensures r.address in s.source && r == ToInput(r.address, s.source[r.address])
    {
      BatchMeans(c, delta, r);
    }
    forall a | a in s.source && Keeps(c, a)
      ensures ToInput(a, s.source[a]) in batch || (s.mark.Some? && s.source[a].changedAt < s.mark.value)
    {
      BatchMeans(c, delta, ToInput(a, s.source[a]));
      if !InWindow(s.source[a], since) {
        assert since.value <= s.mark.value;
      }
    }
  }

  lemma {:induction false} FetchKeeps(c: Config, s: State, g: GuardId, delta: seq<Input>)
    requires Inv(c, s) && Enabled(c, s, Fetch(g, delta))
    ensures Inv(c, Do(c, s, Fetch(g, delta)))
  {
    var s' := Do(c, s, Fetch(g, delta));
    var run := s'.runs[g];
    assert RunWell(c, s, s.runs[g]);
    FetchCovers(c, s, g, delta);
    assert run.batch[..0] == [] && run.batch[0..] == run.batch;
    assert DeliveredWell(s', run);
    RunMoves(c, s, g, run);
  }

  /** One request to the current target, applied or not: what was mirrored stays mirrored, because a row
      the mark or the delivered part vouches for is either untouched or rewritten with itself. */
  lemma {:induction false} SendKeepsCovered(c: Config, s: State, g: GuardId, piece: seq<Input>, reply: Reply)
    requires Inv(c, s) && Enabled(c, s, Send(g, piece, reply))
    ensures Covered(c, Do(c, s, Send(g, piece, reply)))
  {
    var s', run := Do(c, s, Send(g, piece, reply)), s.runs[g];
    assert RunWell(c, s, run);
    PieceInBatch(run, piece);
    if s.mark.Some? && WasApplied(reply) {
      forall a, t | a in s'.source && Keeps(c, a) && s'.source[a].changedAt < s'.mark.value && 0 <= t < |s'.targets|
        ensures Mirrored(s'.targets[t], ToInput(a, s'.source[a]))
      {
        var r := ToInput(a, s.source[a]);
        assert Mirrored(s.targets[t], r);
        if t == run.target {
          PieceMirrors(s.targets[t], piece, r);
          if a in Addresses(piece) {
            var q :| q in piece && q.address == a;
            assert q in run.batch;
          }
        }
      }
    }
  }

  lemma {:induction false} PieceInBatch(run: Run, piece: seq<Input>)
    requires run.Pushing? && Distinct(run.batch)
    requires |run.rest| <= |run.batch| && run.rest == run.batch[|run.batch| - |run.rest|..] && piece <= run.rest
    ensures Distinct(piece)
    ensures forall q :: q in piece ==> q in run.batch
    ensures forall i, q :: 0 <= i < |run.batch| - |run.rest| && q in piece ==> run.batch[i].address != q.address
  {
    var n := |run.batch| - |run.rest|;
    forall j | 0 <= j < |piece|
      ensures piece[j] == run.batch[n + j]
    {
      assert piece[j] == run.rest[j];
    }
  }

  /** The delivered part of the batch stays mirrored through one request, and grows by the piece when the
      request is accepted. */
  lemma {:induction false} PieceDelivered(g: Group, run: Run, piece: seq<Input>, reply: Reply)
    requires run.Pushing? && Distinct(run.batch)
    requires |run.rest| <= |run.batch| && run.rest == run.batch[|run.batch| - |run.rest|..] && piece <= run.rest
    requires AllMirrored(g, run.batch[..|run.batch| - |run.rest|])
    ensures var n := |run.batch| - |run.rest| + if reply.Accepted? then |piece| else 0;
            AllMirrored(StepGroup(g, Attempt(piece, Upsert, reply)), run.batch[..n])
  {
    PieceInBatch(run, piece);
    var n := |run.batch| - |run.rest|;
    var g' := StepGroup(g, Attempt(piece, Upsert, reply));
    forall i | 0 <= i < n + if reply.Accepted? then |piece| else 0
      ensures Mirrored(g', run.batch[i])
    {
      PieceMirrors(g, piece, run.batch[i]);
      if i < n {
        assert run.batch[..n][i] == run.batch[i];
      } else {
        assert piece[i - n] == run.rest[i - n] == run.batch[i];
      }
    }
  }

  /** A request touches only the current target's group and what the run still owes it. */
  lemma {:induction false} DeliveredSince(s: State, s': State, run: Run, run': Run)
    requires run.Pushing? && run'.Pushing? && DeliveredWell(s, run) && run.target < |s.targets|
    requires run' == run.(rest := run'.rest) && |s'.targets| == |s.targets|
    requires s'.targets == s.targets[run.target := s'.targets[run.target]]
    requires |run'.rest| <= |run.batch| && run'.rest == run.batch[|run.batch| - |run'.rest|..]
    requires AllMirrored(s'.targets[run.target], run.batch[..|run.batch| - |run'.rest|])
    ensures DeliveredWell(s', run')
  {
  }

  lemma {:induction false} SendKeepsDelivered(c: Config, s: State, g: GuardId, piece: seq<Input>, reply: Reply)
    requires Enabled(c, s, Send(g, piece, reply))
    requires Distinct(s.runs[g].batch) && DeliveredWell(s, s.runs[g])
    ensures var s' := Do(c, s, Send(g, piece, reply)); DeliveredWell(s', s'.runs[g])
  {
    var s', run := Do(c, s, Send(g, piece, reply)), s.runs[g];
    PieceDelivered(s.targets[run.target], run, piece, reply);
    assert run.rest[|piece|..] == run.batch[|run.batch| - |run.rest| + |piece|..];
    DeliveredSince(s, s', run, s'.runs[g]);
  }

  lemma {:induction false} SendKeeps(c: Config, s: State, g: GuardId, piece: seq<Input>, reply: Reply)
    requires Inv(c, s) && Enabled(c, s, Send(g, piece, reply))
    ensures Inv(c, Do(c, s, Send(g, piece, reply)))
  {
    var s' := Do(c, s, Send(g, piece, reply));
    SendKeepsCovered(c, s, g, piece, reply);
    assert RunWell(c, s, s.runs[g]);
    SendKeepsDelivered(c, s, g, piece, reply);
    assert FetchedWell(c, s', s'.runs[g]);
    forall h | h in s'.runs
      ensures h == g
    {
      OnlyRun(c, s, g, h);
    }
  }

  lemma {:induction false} NextTargetKeepsDelivered(c: Config, s: State, g: GuardId)
    requires Enabled(c, s, NextTarget(g)) && DeliveredWell(s, s.runs[g])
    ensures var s' := Do(c, s, NextTarget(g)); DeliveredWell(s', s'.runs[g])
  {
    var run := s.runs[g];
    assert run.batch[..|run.batch|] == run.batch && run.batch[..0] == [] && run.batch[0..] == run.batch;
  }

  lemma {:induction false} NextTargetKeeps(c: Config, s: State, g: GuardId)
    requires Inv(c, s) && Enabled(c, s, NextTarget(g))
    ensures Inv(c, Do(c, s, NextTarget(g)))
  {
    var s', run := Do(c, s, NextTarget(g)), s.runs[g];
    assert RunWell(c, s, run);
    assert FetchedWell(c, s', s'.runs[g]);
    NextTargetKeepsDelivered(c, s, g);
    RunMoves(c, s, g, s'.runs[g]);
  }

  lemma {:induction false} GiveUpKeeps(c: Config, s: State, g: GuardId)
    requires Inv(c, s) && Enabled(c, s, GiveUp(g))
    ensures Inv(c, Do(c, s, GiveUp(g)))
  {
    var s', run := Do(c, s, GiveUp(g)), s.runs[g];
    assert RunWell(c, s, run);
    assert run.batch[..0] == [] && run.batch[0..] == run.batch;
    assert FetchedWell(c, s', s'.runs[g]);
    assert DeliveredWell(s', s'.runs[g]);
    RunMoves(c, s, g, s'.runs[g]);
  }

  /** Moving the mark is sound: a row last changed before the run began is in the batch every target
      took, or was vouched for by the old mark. */
  lemma {:induction false} FinishKeeps(c: Config, s: State, g: GuardId, stored: bool)
    requires Inv(c, s) && Enabled(c, s, Finish(g, stored))
    ensures Inv(c, Do(c, s, Finish(g, stored)))
  {
    var s', run := Do(c, s, Finish(g, stored)), s.runs[g];
    assert RunWell(c, s, run);
    if run.allOk && stored {
      forall a, t | a in s'.source && Keeps(c, a) && s'.source[a].changedAt < s'.mark.value && 0 <= t < |s'.targets|
        ensures Mirrored(s'.targets[t], ToInput(a, s'.source[a]))
      {
        assert AllMirrored(s.targets[t], run.batch);
        if ToInput(a, s.source[a]) in run.batch {
          var i :| 0 <= i < |run.batch| && run.batch[i] == ToInput(a, s.source[a]);
        }
      }
    }
    forall h | h in s'.runs
      ensures h == g
    {
      OnlyRun(c, s, g, h);
    }
  }

  lemma {:induction false} DropKeeps(c: Config, s: State, g: GuardId)
    requires Inv(c, s) && Enabled(c, s, Drop(g))
    ensures Inv(c, Do(c, s, Drop(g)))
  {
    var s' := Do(c, s, Drop(g));
    forall j | j in s'.slots.running && j !in s'.stuck
      ensures exists h :: h in s'.live && s'.live[h] == j
    {
      var h :| h in s.live && s.live[h] == j;
      assert h in s'.live && s'.live[h] == j;
    }
    RunsKeep(c, s, s', g);
  }

  lemma {:induction false} StepKeeps(c: Config, s: State, e: Event)
    requires Inv(c, s) && Enabled(c, s, e)
    ensures Inv(c, Do(c, s, e))
  {
    match e {
      case Tick(to) => TickKeeps(c, s, to);
      case Change(a, row) => ChangeKeeps(c, s, a, row);
      case Poison => PoisonKeeps(c, s);
      case Trigger(g, job) => TriggerKeeps(c, s, g, job);
      case Begin(g) => BeginKeeps(c, s, g);
      case Fetch(g, delta) => FetchKeeps(c, s, g, delta);
      case FetchFailed(g) => RunMoves(c, s, g, Done);
      case Send(g, piece, reply) => SendKeeps(c, s, g, piece, reply);
      case NextTarget(g) => NextTargetKeeps(c, s, g);
      case GiveUp(g) => GiveUpKeeps(c, s, g);
      case Finish(g, stored) => FinishKeeps(c, s, g, stored);
      case Drop(g) => DropKeeps(c, s, g);
    }
  }

  // ---------------------------------------------------------------- whole runs

  lemma {:induction false} InvAlongRun(c: Config, s: State, es: seq<Event>, s': State)
    requires Inv(c, s) && Reaches(c, s, es, s')
    ensures Inv(c, s')
    decreases |es|
  {
    if es != [] {
      StepKeeps(c, s, es[0]);
      InvAlongRun(c, Do(c, s, es[0]), es[1..], s');
    }
  }

  /** In every reachable state, each kept source row (deletions included) last changed before the stored
      mark is mirrored in every target, whatever runs failed, stopped half way or raced with changes. */
  lemma {:induction false} MirrorTheorem(c: Config, s0: State, es: seq<Event>, s: State, a: Address, t: nat)
    requires Init(s0) && Reaches(c, s0, es, s)
    requires a in s.source && Keeps(c, a) && t < |s.targets|
    requires s.mark.Some? && s.source[a].changedAt < s.mark.value
    ensures Mirrored(s.targets[t], ToInput(a, s.source[a]))
  {
    InvAlongRun(c, s0, es, s);
  }

  function LiveJobs(s: State): set<JobId> {
    set g | g in s.live :: s.live[g]
  }

  predicate DropsIn(es: seq<Event>) {
    exists j :: 0 <= j < |es| && es[j].Drop?
  }

  predicate DropsAfterPoison(es: seq<Event>) {
    exists i :: 0 <= i < |es| && es[i].Poison? && DropsIn(es[i..])
  }

  lemma {:induction false} StuckMeans(c: Config, s: State, es: seq<Event>, s': State)
    requires Inv(c, s) && Reaches(c, s, es, s')
    ensures s'.stuck != {} <==> s.stuck != {} || (s.slots.poisoned && DropsIn(es)) || DropsAfterPoison(es)
    decreases |es|
  {
    if es != [] {
      var m, tail := Do(c, s, es[0]), es[1..];
      StepKeeps(c, s, es[0]);
      StuckMeans(c, m, tail, s');
      assert DropsIn(es) <==> es[0].Drop? || DropsIn(tail) by {
        assert forall j :: 0 <= j < |tail| ==> tail[j] == es[j + 1];
      }
      HeadOrTail(es);
    }
  }

  lemma {:induction false} HeadOrTail(es: seq<Event>)
    requires es != []
    ensures DropsAfterPoison(es) <==> (es[0].Poison? && DropsIn(es)) || DropsAfterPoison(es[1..])
  {
    assert es[0..] == es;
    assert forall i :: 0 <= i < |es| - 1 ==> es[1..][i] == es[i + 1] && es[1..][i..] == es[i + 1..];
    if i :| 0 <= i < |es[1..]| && es[1..][i].Poison? && DropsIn(es[1..][i..]) {
      assert es[i + 1].Poison? && DropsIn(es[i + 1..]);
    }
    if i :| 0 <= i < |es| && es[i].Poison? && DropsIn(es[i..]) && i > 0 {
      assert es[1..][i - 1].Poison? && DropsIn(es[1..][i - 1..]);
    }
  }

  /** Two runs of one job never overlap. The running set always holds the jobs of the live guards, and it is
      exactly those unless a guard was dropped after the lock was poisoned. */
  lemma {:induction false} NoOverlap(c: Config, s0: State, es: seq<Event>, s: State)
    requires Init(s0) && Reaches(c, s0, es, s)
    ensures LiveJobs(s) <= s.slots.running
    ensures s.slots.running == LiveJobs(s) <==> !DropsAfterPoison(es)
    ensures forall g, h :: g in s.live && h in s.live && g != h ==> s.live[g] != s.live[h]
    ensures forall g, h :: g in s.runs && h in s.runs ==> g == h
  {
    InvAlongRun(c, s0, es, s);
    StuckMeans(c, s0, es, s);
    assert s.slots.running == LiveJobs(s) + s.stuck && LiveJobs(s) !! s.stuck;
  }

  lemma {:induction false} MarkMonotone(c: Config, s: State, es: seq<Event>, s': State)
    requires Inv(c, s) && Reaches(c, s, es, s')
    ensures s.mark.Some? ==> s'.mark.Some? && s.mark.value <= s'.mark.value
    decreases |es|
  {
    if es != [] {
      StepKeeps(c, s, es[0]);
      if es[0].Finish? {
        assert RunWell(c, s, s.runs[es[0].guard]);
      }
      MarkMonotone(c, Do(c, s, es[0]), es[1..], s');
    }
  }

  /** The stored mark never moves backwards between two points of one history. */
  lemma {:induction false} MarkNeverMovesBack(c: Config, s0: State, es: seq<Event>, s: State, es': seq<Event>, s': State)
    requires Init(s0) && Reaches(c, s0, es, s) && Reaches(c, s, es', s')
    ensures s.mark.Some? ==> s'.mark.Some? && s.mark.value <= s'.mark.value
  {
    InvAlongRun(c, s0, es, s);
    MarkMonotone(c, s, es', s');
  }
}
