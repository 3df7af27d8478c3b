/**
 One record group on a remote vault, and what `POST /api/records/batch` does to it.

 A group maps canonical addresses to stored records. A batch upserts its records in order; a
 `FullReplace` batch then soft-deletes every live record it did not mention. Wherever the receiving
 vault would stamp its own clock, the model stores the symbolic stamp `Arrival`.
 */
module RemoteVault {
  import opened Optional

  type Address = string
  type Instant = nat

  datatype BatchMode = Upsert | FullReplace

  datatype Input = Input(
    address: Address,
    cause: Option<string>,
    isDeleted: Option<bool>,
    createdAt: Option<Instant>,
    updatedAt: Option<Instant>,
    lastSeenAt: Option<Instant>,
    deletedAt: Option<Instant>)

  datatype Stamp = At(instant: Instant) | Arrival

  datatype Stored = Stored(
    cause: Option<string>,
    isDeleted: bool,
    deletedAt: Option<Stamp>,
    createdAt: Stamp,
    updatedAt: Stamp,
    lastSeenAt: Stamp)

  type Group = map<Address, Stored>

  function StampOf(o: Option<Instant>): Stamp {
    match o
    case Some(t) => At(t)
    case None => Arrival
  }

  predicate Tombstone(r: Input) {
    r.isDeleted == Some(true)
  }

  function DeletionStamp(r: Input): Option<Stamp> {
    if Tombstone(r) then Some(StampOf(r.deletedAt)) else None
  }

  /** The row an address holds after one record for it, given the row it held before. */
  function Put(prior: Option<Stored>, r: Input): Stored {
    match prior
    case Some(s) =>
      Stored(if r.cause.Some? then r.cause else s.cause,
             Tombstone(r), DeletionStamp(r), s.createdAt, StampOf(r.updatedAt),
             if r.lastSeenAt.Some? then At(r.lastSeenAt.value) else s.lastSeenAt)
    case None =>
      Stored(r.cause, Tombstone(r), DeletionStamp(r),
             StampOf(r.createdAt), StampOf(r.updatedAt), StampOf(r.lastSeenAt))
  }

  function Get(g: Group, a: Address): Option<Stored> {
    if a in g then Some(g[a]) else None
  }

  function Write(g: Group, r: Input): Group {
    g[r.address := Put(Get(g, r.address), r)]
  }

  function UpsertAll(g: Group, rs: seq<Input>): Group
    decreases |rs|
  {
    if rs == [] then g else UpsertAll(Write(g, rs[0]), rs[1..])
  }

  function Addresses(rs: seq<Input>): set<Address> {
    set r | r in rs :: r.address
  }

  function SoftDelete(s: Stored): Stored {
    s.(isDeleted := true, deletedAt := Some(Arrival), updatedAt := Arrival)
  }

  /** Soft-deletes every live row outside `kept`; tombstones are left exactly as they are. */
  function Sweep(g: Group, kept: set<Address>): Group {
    map a | a in g :: if a in kept || g[a].isDeleted then g[a] else SoftDelete(g[a])
  }

  /** What one accepted batch does to the group. */
  function Apply(g: Group, rs: seq<Input>, mode: BatchMode): Group {
    match mode
    case Upsert => UpsertAll(g, rs)
    case FullReplace => Sweep(UpsertAll(g, rs), Addresses(rs))
  }

  function Live(g: Group): set<Address> {
    set a | a in g && !g[a].isDeleted
  }

  // ---------------------------------------------------------------- one address at a time

  function Mentions(rs: seq<Input>, a: Address): seq<Input> {
    if rs == [] then []
    else if rs[0].address == a then [rs[0]] + Mentions(rs[1..], a)
    else Mentions(rs[1..], a)
  }

  function Fold(o: Option<Stored>, s: seq<Input>): Option<Stored>
    decreases |s|
  {
    if s == [] then o else Fold(Some(Put(o, s[0])), s[1..])
  }

  lemma {:induction false} UpsertAppend(g: Group, p: seq<Input>, q: seq<Input>)
    ensures UpsertAll(g, p + q) == UpsertAll(UpsertAll(g, p), q)
    decreases |p|
  {
    if p == [] {
      assert p + q == q;
    } else {
      assert (p + q)[0] == p[0] && (p + q)[1..] == p[1..] + q;
      UpsertAppend(Write(g, p[0]), p[1..], q);
    }
  }

  /** A batch acts on each address independently, through that address's own records only. */
  lemma {:induction false} UpsertAt(g: Group, rs: seq<Input>, a: Address)
    ensures Get(UpsertAll(g, rs), a) == Fold(Get(g, a), Mentions(rs, a))
    decreases |rs|
  {
    if rs != [] {
      UpsertAt(Write(g, rs[0]), rs[1..], a);
      if rs[0].address == a {
        assert Mentions(rs, a)[1..] == Mentions(rs[1..], a);
      }
    }
  }

  lemma {:induction false} MentionsAppend(p: seq<Input>, q: seq<Input>, a: Address)
    ensures Mentions(p + q, a) == Mentions(p, a) + Mentions(q, a)
    decreases |p|
  {
    if p == [] {
      assert p + q == q;
    } else {
      assert (p + q)[0] == p[0] && (p + q)[1..] == p[1..] + q;
      MentionsAppend(p[1..], q, a);
    }
  }

  lemma {:induction false} MentionedIffAddressed(rs: seq<Input>, a: Address)
    ensures a in Addresses(rs) <==> Mentions(rs, a) != []
    decreases |rs|
  {
    if rs != [] {
      MentionedIffAddressed(rs[1..], a);
      assert rs == [rs[0]] + rs[1..];
      assert Addresses(rs) == {rs[0].address} + Addresses(rs[1..]);
    }
  }

  // ---------------------------------------------------------------- what a list leaves behind

  function LastCause(s: seq<Input>, d: Option<string>): Option<string>
    decreases |s|
  {
    if s == [] then d else LastCause(s[1..], if s[0].cause.Some? then s[0].cause else d)
  }

  function LastSeen(s: seq<Input>, d: Stamp): Stamp
    decreases |s|
  {
    if s == [] then d
    else LastSeen(s[1..], if s[0].lastSeenAt.Some? then At(s[0].lastSeenAt.value) else d)
  }

  /** The row left by a non-empty list of records for one address, field by field: flags and update
      stamps of the last record, the last carried cause and sighting, the creation stamp of the row
      that was there, or else of the first record. */
  function Summary(o: Option<Stored>, s: seq<Input>): Stored
    requires s != []
  {
    var last := s[|s| - 1];
    var down := last.isDeleted == Some(true);
    Stored(LastCause(s, if o.Some? then o.value.cause else None),
           down,
           if !down then None else if last.deletedAt.Some? then Some(At(last.deletedAt.value)) else Some(Arrival),
           if o.Some? then o.value.createdAt
           else if s[0].createdAt.Some? then At(s[0].createdAt.value) else Arrival,
           if last.updatedAt.Some? then At(last.updatedAt.value) else Arrival,
           LastSeen(s, if o.Some? then o.value.lastSeenAt else Arrival))
  }

  lemma {:induction false} FoldIsSummary(o: Option<Stored>, s: seq<Input>)
    requires s != []
    ensures Fold(o, s) == Some(Summary(o, s))
    decreases |s|
  {
    assert Fold(o, s) == Fold(Some(Put(o, s[0])), s[1..]);
    if |s| == 1 {
      assert s[1..] == [];
      var c := if o.Some? then o.value.cause else None;
      var d := if o.Some? then o.value.lastSeenAt else Arrival;
      assert LastCause(s, c) == if s[0].cause.Some? then s[0].cause else c;
      assert LastSeen(s, d) == if s[0].lastSeenAt.Some? then At(s[0].lastSeenAt.value) else d;
    } else {
      var o' := Some(Put(o, s[0]));
      FoldIsSummary(o', s[1..]);
      assert s[1..][|s| - 2] == s[|s| - 1];
    }
  }

  /** An upsert batch leaves, at every address it names, exactly the field-by-field summary of that
      address's records, and leaves every other address alone. */
  lemma {:induction false} UpsertMeans(g: Group, rs: seq<Input>, a: Address)
    ensures a in Addresses(rs) <==> Mentions(rs, a) != []
    ensures Get(UpsertAll(g, rs), a) ==
            if a in Addresses(rs) then Some(Summary(Get(g, a), Mentions(rs, a))) else Get(g, a)
  {
    UpsertAt(g, rs, a);
    MentionedIffAddressed(rs, a);
    if a in Addresses(rs) {
      FoldIsSummary(Get(g, a), Mentions(rs, a));
    }
  }

  lemma {:induction false} LastCauseAbsorbs(s: seq<Input>, d: Option<string>)
    ensures LastCause(s, LastCause(s, d)) == LastCause(s, d)
    decreases |s|
  {
    if s != [] && s[0].cause.None? {
      LastCauseAbsorbs(s[1..], d);
    }
  }

  lemma {:induction false} LastSeenAbsorbs(s: seq<Input>, d: Stamp)
    ensures LastSeen(s, LastSeen(s, d)) == LastSeen(s, d)
    decreases |s|
  {
    if s != [] && s[0].lastSeenAt.None? {
      LastSeenAbsorbs(s[1..], d);
    }
  }

  // ---------------------------------------------------------------- the algebra of batches

  lemma {:induction false} FoldAbsorbs(o: Option<Stored>, s: seq<Input>)
    ensures Fold(Fold(o, s), s) == Fold(o, s)
  {
    if s != [] {
      FoldIsSummary(o, s);
      FoldIsSummary(Fold(o, s), s);
      LastCauseAbsorbs(s, if o.Some? then o.value.cause else None);
      LastSeenAbsorbs(s, if o.Some? then o.value.lastSeenAt else Arrival);
    }
  }

  lemma {:induction false} GroupsEqual(g: Group, h: Group)
    requires forall a :: Get(g, a) == Get(h, a)
    ensures g == h
  {
    forall a
      ensures a in g <==> a in h
      ensures a in g ==> g[a] == h[a]
    {
      assert Get(g, a) == Get(h, a);
    }
  }

  /** Sending an upsert batch twice is sending it once, duplicates and omitted fields included. */
  lemma {:induction false} UpsertTwice(g: Group, p: seq<Input>)
    ensures UpsertAll(UpsertAll(g, p), p) == UpsertAll(g, p)
  {
    var once := UpsertAll(g, p);
    forall a
      ensures Get(UpsertAll(once, p), a) == Get(once, a)
    {
      UpsertAt(g, p, a);
      UpsertAt(once, p, a);
      FoldAbsorbs(Get(g, a), Mentions(p, a));
    }
    GroupsEqual(UpsertAll(once, p), once);
  }

  lemma {:induction false} SweepAt(g: Group, kept: set<Address>, a: Address)
    ensures Get(Sweep(g, kept), a) ==
            if a !in g then None
            else if a in kept || g[a].isDeleted then Some(g[a]) else Some(SoftDelete(g[a]))
  {
  }

  /** A replacing batch split in two: the tail, sent as an upsert, repairs everything the head's
      sweep took down, so the pair equals the whole sent as one replacing batch. */
  lemma {:induction false} ReplaceThenUpsert(g: Group, p: seq<Input>, q: seq<Input>)
    ensures UpsertAll(Apply(g, p, FullReplace), q) == Apply(g, p + q, FullReplace)
  {
    var split := UpsertAll(Apply(g, p, FullReplace), q);
    var whole := Apply(g, p + q, FullReplace);
    assert Addresses(p + q) == Addresses(p) + Addresses(q);
    forall a
      ensures Get(split, a) == Get(whole, a)
    {
      UpsertAppend(g, p, q);
      var u := UpsertAll(g, p);
      UpsertMeans(Apply(g, p, FullReplace), q, a);
      UpsertMeans(u, q, a);
      SweepAt(u, Addresses(p), a);
      SweepAt(UpsertAll(g, p + q), Addresses(p + q), a);
      UpsertMeans(g, p, a);
    }
    GroupsEqual(split, whole);
  }

  lemma {:induction false} ReplaceTwice(g: Group, p: seq<Input>)
    ensures Apply(Apply(g, p, FullReplace), p, FullReplace) == Apply(g, p, FullReplace)
  {
    var once := Apply(g, p, FullReplace);
    var twice := Apply(once, p, FullReplace);
    forall a
      ensures Get(twice, a) == Get(once, a)
    {
      UpsertAt(g, p, a);
      UpsertAt(once, p, a);
      MentionedIffAddressed(p, a);
      FoldAbsorbs(Get(g, a), Mentions(p, a));
      SweepAt(UpsertAll(g, p), Addresses(p), a);
      SweepAt(UpsertAll(once, p), Addresses(p), a);
    }
    GroupsEqual(twice, once);
  }

  /** An attempt that was applied in secret is absorbed by any later batch that starts with the same
      records in the same mode. */
  lemma {:induction false} SecretAttemptAbsorbed(g: Group, p: seq<Input>, q: seq<Input>, mode: BatchMode)
    ensures Apply(Apply(g, p, mode), p + q, mode) == Apply(g, p + q, mode)
  {
    match mode {
      case Upsert =>
        UpsertAppend(UpsertAll(g, p), p, q);
        UpsertTwice(g, p);
        UpsertAppend(g, p, q);
      case FullReplace =>
        ReplaceThenUpsert(Apply(g, p, FullReplace), p, q);
        ReplaceTwice(g, p);
        ReplaceThenUpsert(g, p, q);
    }
  }

  /** An accepted head followed by the tail as an upsert is the whole batch. */
  lemma {:induction false} HeadThenTail(g: Group, p: seq<Input>, q: seq<Input>, mode: BatchMode)
    ensures Apply(Apply(g, p, mode), q, Upsert) == Apply(g, p + q, mode)
  {
    match mode {
      case Upsert => UpsertAppend(g, p, q);
      case FullReplace => ReplaceThenUpsert(g, p, q);
    }
  }

  /** After a replacing batch the live addresses are exactly those whose last record in the batch is
      not a tombstone. */
  lemma {:induction false} ReplaceLiveSet(g: Group, rs: seq<Input>, a: Address)
    ensures a in Live(Apply(g, rs, FullReplace)) <==>
            Mentions(rs, a) != [] && Mentions(rs, a)[|Mentions(rs, a)| - 1].isDeleted != Some(true)
  {
    UpsertMeans(g, rs, a);
    var u := UpsertAll(g, rs);
    SweepAt(u, Addresses(rs), a);
    assert a in Live(Apply(g, rs, FullReplace)) <==>
           Get(Apply(g, rs, FullReplace), a).Some? && !Get(Apply(g, rs, FullReplace), a).value.isDeleted;
    assert a in u ==> Get(u, a) == Some(u[a]);
  }

  /** A replacing batch leaves, at every address it names, the summary of that address's records; every
      other live row is marked deleted on arrival and keeps the rest, and nothing else changes. */
  lemma {:induction false} ReplaceMeans(g: Group, rs: seq<Input>, a: Address)
    ensures Mentions(rs, a) != [] ==>
              Get(Apply(g, rs, FullReplace), a) == Some(Summary(Get(g, a), Mentions(rs, a)))
    ensures Mentions(rs, a) == [] && a in g && !g[a].isDeleted ==>
              Get(Apply(g, rs, FullReplace), a) ==
              Some(Stored(g[a].cause, true, Some(Arrival), g[a].createdAt, Arrival, g[a].lastSeenAt))
    ensures Mentions(rs, a) == [] && !(a in g && !g[a].isDeleted) ==> Get(Apply(g, rs, FullReplace), a) == Get(g, a)
  {
    UpsertMeans(g, rs, a);
    SweepAt(UpsertAll(g, rs), Addresses(rs), a);
  }
}
