/**
 One run of an inter-vault sync task: claiming the job slot, reading the start time, paging through the
 source's delta, filtering it, pushing it to every target, and moving the mark; and the proof that such a
 run, shuffled in any way with whatever else goes on, is a path of the replication state machine.
 */
module SyncJob {
  import opened Arithmetic
  import opened Optional
  import opened RemoteVault
  import opened Delivery
  import opened Jobs
  import opened SyncProtocol
  import Backoff
  import Bogon

  const PAGE_SIZE: nat := 5_000

  datatype PageReply = PageServed | PageRefused(status: nat) | PageBroken

  predicate TransientPage(r: PageReply) {
    r.PageRefused? && Backoff.Transient(r.status)
  }

  // ---------------------------------------------------------------- paging

  /** The source vault during one fetch: a fixed listing of the matching records, served by limit and
      offset, and a network that may refuse any request. */
  class SourceClient {
    const listing: seq<Input>
    const network: nat -> PageReply
    const draws: nat -> nat
    const maxRetries: nat
    const baseMs: nat
    var requests: nat
    var pauses: seq<Pause>

    constructor (listing: seq<Input>, network: nat -> PageReply, draws: nat -> nat, maxRetries: nat, baseMs: nat)
      ensures this.listing == listing && this.network == network && this.draws == draws
      ensures this.maxRetries == maxRetries && this.baseMs == baseMs
      ensures requests == 0 && pauses == []
    {
      this.listing, this.network, this.draws := listing, network, draws;
      this.maxRetries, this.baseMs := maxRetries, baseMs;
      requests, pauses := 0, [];
    }

    function Page(offset: nat): seq<Input> {
      listing[Least(offset, |listing|)..Least(offset + PAGE_SIZE, |listing|)]
    }

    /** The pauses of a retry loop that starts after `from` earlier pauses and retries `n` times. */
    function Naps(from: nat, n: nat): seq<Pause> {
      seq(n, i requires 0 <= i < n => Pause(i + 1, Backoff.Delay(baseMs, i + 1, draws(from + i))))
    }

    /** One page, retried on transient refusals with a backoff pause before each retry: every request but
        the last met such a refusal, and the last one only with the retries spent. */
    method GetPage(offset: nat) returns (page: Option<seq<Input>>)
      modifies this
      ensures old(requests) < requests <= old(requests) + maxRetries + 1
      ensures forall i :: old(requests) <= i < requests - 1 ==>
                network(i).PageRefused? && network(i).status in {429, 502, 503, 504}
      ensures page.Some? <==> network(requests - 1).PageServed?
      ensures page.Some? ==> page.value == Page(offset)
      ensures network(requests - 1).PageRefused? && network(requests - 1).status in {429, 502, 503, 504} ==>
                requests == old(requests) + maxRetries + 1
      ensures pauses == old(pauses) + Naps(|old(pauses)|, requests - old(requests) - 1)
    {
      var attempt := 0;
      while true
        invariant attempt <= maxRetries && requests == old(requests) + attempt
        invariant forall i :: old(requests) <= i < requests ==> TransientPage(network(i))
        invariant pauses == old(pauses) + Naps(|old(pauses)|, attempt)
        decreases maxRetries - attempt
      {
        var reply := network(requests);
        requests := requests + 1;
        if reply.PageServed? {
          return Some(Page(offset));
        } else if TransientPage(reply) && attempt < maxRetries {
          attempt := attempt + 1;
          pauses := pauses + [Pause(attempt, Backoff.Delay(baseMs, attempt, draws(|pauses|)))];
        } else {
          return None;
        }
      }
    }

    /** How many of the requests numbered from `from` up to `until` were served. */
    function ServedPages(from: nat, until: nat): nat
      decreases until
    {
      if until <= from then 0 else ServedPages(from, until - 1) + if network(until - 1).PageServed? then 1 else 0
    }

    lemma {:induction false} NoneServed(from: nat, mid: nat, until: nat)
      requires from <= mid <= until && forall i :: mid <= i < until ==> !network(i).PageServed?
      ensures ServedPages(from, until) == ServedPages(from, mid)
      decreases until
    {
      if mid < until {
        NoneServed(from, mid, until - 1);
      }
    }

    /** All pages in order, up to the first short one: the whole listing, each record once, 5,000 a page. */
    method GetDelta() returns (all: Option<seq<Input>>)
      modifies this
      ensures old(requests) < requests <= old(requests) + (|listing| / 5_000 + 1) * (maxRetries + 1)
      ensures all.Some? ==> all.value == listing
      ensures all.Some? ==> ServedPages(old(requests), requests) == |listing| / 5_000 + 1
      ensures all.Some? <==> network(requests - 1).PageServed?
      ensures forall i :: old(requests) <= i < requests - 1 && !network(i).PageServed? ==>
                network(i).PageRefused? && network(i).status in {429, 502, 503, 504}
    {
      var records: seq<Input>, offset := [], 0;
      ghost var pages := 0;
      while true
        invariant offset == pages * PAGE_SIZE && offset <= |listing|
        invariant records == listing[..offset]
        invariant old(requests) <= requests
        invariant requests - old(requests) <= Times(pages, maxRetries + 1)
        invariant ServedPages(old(requests), requests) == pages
        invariant forall i :: old(requests) <= i < requests ==> network(i).PageServed? || TransientPage(network(i))
        decreases |listing| - offset
      {
        ghost var before := requests;
        var page := GetPage(offset);
        NoneServed(old(requests), before, requests - 1);
        pages := pages + 1;
        TimesGrows(pages, |listing| / PAGE_SIZE + 1, maxRetries + 1);
        if page.None? {
          return None;
        }
        records := records + page.value;
        if |page.value| < PAGE_SIZE {
          assert records == listing;
          return Some(records);
        }
        offset := offset + PAGE_SIZE;
      }
    }
  }

  // ---------------------------------------------------------------- one execution

  function TheClient(source: Option<SourceClient>): set<SourceClient> {
    if source.Some? then {source.value} else {}
  }

  /** One execution. `fetched` is the delta, or nothing when the source vault is gone or the fetch failed;
      `oks` and `sents` are each target's verdict and history. */
  method Execute(c: Config, firstSync: bool, source: Option<SourceClient>, targets: seq<Option<Endpoint>>)
    returns (status: Status, items: nat, allSucceeded: bool,
             ghost fetched: Option<seq<Input>>, ghost oks: seq<bool>, ghost sents: seq<seq<Attempt>>)
    requires Separate(targets)
    requires forall t :: t in Existing(targets) ==> t.Valid()
    modifies TheClient(source), Existing(targets)
    ensures source.None? ==> fetched.None?
    ensures source.Some? ==> source.value.requests > old(source.value.requests)
    ensures source.Some? ==> (fetched.Some? <==> source.value.network(source.value.requests - 1).PageServed?)
    ensures fetched.Some? ==> source.Some? && fetched.value == source.value.listing
    ensures fetched.None? ==> status == FAILED && items == 0 && !allSucceeded && unchanged(Existing(targets))
    ensures fetched.Some? ==>
              && |oks| == |sents| == |targets|
              && items == |Batch(c, fetched.value)|
              && (allSucceeded <==> All(oks))
              && (status == SUCCESS <==> All(oks) && !(firstSync && fetched.value == []))
              && (status == FAILED <==> targets != [] && !Any(oks))
    ensures fetched.Some? ==> forall i :: 0 <= i < |targets| ==>
              Pushed(targets[i], old(LogOf(targets[i])), old(GroupOf(targets[i])),
                     sents[i], Batch(c, fetched.value), Upsert, oks[i])
  {
    var delta := None;
    if source.Some? {
      delta := source.value.GetDelta();
    }
    fetched := delta;
    if delta.None? {
      return FAILED, 0, false, fetched, [], [];
    }
    status, items, allSucceeded, oks, sents := PushDelta(c, firstSync, delta.value, targets);
  }

  /** The second half of an execution: filter the delta, push it, judge the outcome. */
  method PushDelta(c: Config, firstSync: bool, delta: seq<Input>, targets: seq<Option<Endpoint>>)
    returns (status: Status, items: nat, allSucceeded: bool, ghost oks: seq<bool>, ghost sents: seq<seq<Attempt>>)
    requires Separate(targets)
    requires forall t :: t in Existing(targets) ==> t.Valid()
    modifies Existing(targets)
    ensures |oks| == |sents| == |targets|
    ensures items == |Batch(c, delta)|
    ensures allSucceeded <==> All(oks)
    ensures status == SUCCESS <==> All(oks) && !(firstSync && delta == [])
    ensures status == FAILED <==> targets != [] && !Any(oks)
    ensures forall i :: 0 <= i < |targets| ==>
              Pushed(targets[i], old(LogOf(targets[i])), old(GroupOf(targets[i])),
                     sents[i], Batch(c, delta), Upsert, oks[i])
  {
    var mapped := delta;
    var emptyFirst := firstSync && mapped == [];
    if !c.skipBogons {
      var filtered, removed := Bogon.FilterInputs(c.parse, mapped);
      mapped := filtered;
    }
    items := |mapped|;
    var anySuccess;
    anySuccess, allSucceeded, oks, sents := PushList(targets, mapped, Upsert);
    assert targets != [] && !Any(oks) ==> !oks[0];
    status := if !allSucceeded then (if anySuccess then PARTIAL else FAILED)
              else if emptyFirst then PARTIAL else SUCCESS;
  }

  // ---------------------------------------------------------------- an execution by itself is a path

  lemma {:induction false} ReachesAppend(c: Config, s: State, es: seq<Event>, m: State, fs: seq<Event>, s': State)
    requires Reaches(c, s, es, m) && Reaches(c, m, fs, s')
    ensures Reaches(c, s, es + fs, s')
    decreases |es|
  {
    if es == [] {
      assert es + fs == fs;
    } else {
      assert (es + fs)[0] == es[0] && (es + fs)[1..] == es[1..] + fs;
      ReachesAppend(c, Do(c, s, es[0]), es[1..], m, fs, s');
    }
  }

  lemma {:induction false} OneStep(c: Config, s: State, e: Event)
    requires Enabled(c, s, e)
    ensures Reaches(c, s, [e], Do(c, s, e))
  {
    assert Reaches(c, Do(c, s, e), [e][1..], Do(c, s, e));
  }

  function Sends(g: GuardId, sent: seq<Attempt>): seq<Event> {
    seq(|sent|, i requires 0 <= i < |sent| => Send(g, sent[i].records, sent[i].reply))
  }

  /** The state after the current target has gone through `sent`, with `rest` still owed. */
  function Sent(s: State, g: GuardId, sent: seq<Attempt>, rest: seq<Input>): State
    requires PushingAt(s, g)
  {
    var t := s.runs[g].target;
    s.(targets := s.targets[t := Replay(s.targets[t], sent)], runs := s.runs[g := s.runs[g].(rest := rest)])
  }

  /** One attempt is one send step, and what follows it follows in either state. */
  lemma {:induction false} AttemptIsASend(c: Config, s: State, g: GuardId, sent: seq<Attempt>, rest: seq<Input>)
    requires PushingAt(s, g) && sent != [] && sent[0].mode == Upsert && sent[0].records <= s.runs[g].rest
    ensures var e := Send(g, sent[0].records, sent[0].reply);
            && Enabled(c, s, e) && PushingAt(Do(c, s, e), g)
            && Do(c, s, e).runs[g].rest == After(Progress(s.runs[g].rest, Upsert), sent[0]).rest
            && Sent(Do(c, s, e), g, sent[1..], rest) == Sent(s, g, sent, rest)
  {
    var x := sent[0];
    var m := Do(c, s, Send(g, x.records, x.reply));
    assert x == Attempt(x.records, Upsert, x.reply);
    assert Sent(m, g, sent[1..], rest).targets == Sent(s, g, sent, rest).targets;
    assert Sent(m, g, sent[1..], rest).runs == Sent(s, g, sent, rest).runs;
  }

  /** Any history that delivery can produce for a target is a sequence of the machine's send steps. */
  lemma {:induction false} HistoryIsSends(c: Config, s: State, g: GuardId, sent: seq<Attempt>, owed: Progress)
    requires PushingAt(s, g) && Tracks(Progress(s.runs[g].rest, Upsert), sent, owed)
    ensures Reaches(c, s, Sends(g, sent), Sent(s, g, sent, owed.rest))
    decreases |sent|
  {
    var t := s.runs[g].target;
    if sent == [] {
      assert s.targets[t := s.targets[t]] == s.targets;
      assert s.runs[g := s.runs[g]] == s.runs;
    } else {
      AttemptIsASend(c, s, g, sent, owed.rest);
      assert Sends(g, sent)[1..] == Sends(g, sent[1..]);
      var e := Send(g, sent[0].records, sent[0].reply);
      assert Sends(g, sent)[0] == e;
      assert After(Progress(s.runs[g].rest, Upsert), sent[0]).mode == Upsert;
      HistoryIsSends(c, Do(c, s, e), g, sent[1..], owed);
    }
  }

  /** The history delivers `batch` in upsert mode, completely when the verdict is positive. */
  ghost predicate Delivers(batch: seq<Input>, sent: seq<Attempt>, ok: bool) {
    exists owed: Progress :: Tracks(Progress(batch, Upsert), sent, owed) && (ok ==> owed.rest == [])
  }

  /** Each target's history delivers `batch`. */
  ghost predicate Histories(batch: seq<Input>, sents: seq<seq<Attempt>>, oks: seq<bool>) {
    && |sents| == |oks|
    && forall i :: 0 <= i < |sents| ==> Delivers(batch, sents[i], oks[i])
  }

  /** How a run leaves a target. */
  function Leave(g: GuardId, ok: bool): Event {
    if ok then NextTarget(g) else GiveUp(g)
  }

  /** The run's own events from target `t` on. */
  function ServeEvents(g: GuardId, sents: seq<seq<Attempt>>, oks: seq<bool>, t: nat): seq<Event>
    requires |sents| == |oks|
    decreases |oks| - t
  {
    if t >= |oks| then [] else Sends(g, sents[t]) + [Leave(g, oks[t])] + ServeEvents(g, sents, oks, t + 1)
  }

  /** The state after the current target has been left with verdict `ok` and history `sent`. */
  function Served(s: State, g: GuardId, sent: seq<Attempt>, ok: bool): State
    requires PushingAt(s, g)
  {
    var run := s.runs[g];
    s.(targets := s.targets[run.target := Replay(s.targets[run.target], sent)],
       runs := s.runs[g := run.(target := run.target + 1, rest := run.batch, allOk := run.allOk && ok)])
  }

  lemma {:induction false} LeavingIsAStep(c: Config, s: State, g: GuardId, sent: seq<Attempt>, rest: seq<Input>, ok: bool)
    requires PushingAt(s, g) && (ok ==> rest == [])
    ensures Enabled(c, Sent(s, g, sent, rest), Leave(g, ok))
    ensures Do(c, Sent(s, g, sent, rest), Leave(g, ok)) == Served(s, g, sent, ok)
  {
    assert Do(c, Sent(s, g, sent, rest), Leave(g, ok)).runs == Served(s, g, sent, ok).runs;
  }

  lemma {:induction false} TargetIsAPath(c: Config, s: State, g: GuardId, sent: seq<Attempt>, ok: bool)
    requires PushingAt(s, g) && Delivers(s.runs[g].rest, sent, ok)
    ensures Reaches(c, s, Sends(g, sent) + [Leave(g, ok)], Served(s, g, sent, ok))
  {
    var owed: Progress :| Tracks(Progress(s.runs[g].rest, Upsert), sent, owed) && (ok ==> owed.rest == []);
    HistoryIsSends(c, s, g, sent, owed);
    var m := Sent(s, g, sent, owed.rest);
    LeavingIsAStep(c, s, g, sent, owed.rest, ok);
    OneStep(c, m, Leave(g, ok));
    ReachesAppend(c, s, Sends(g, sent), m, [Leave(g, ok)], Served(s, g, sent, ok));
  }

  /** The groups after the targets from `t` on have gone through their histories. */
  function Groups(before: seq<Group>, sents: seq<seq<Attempt>>, t: nat): seq<Group>
    requires |before| == |sents|
  {
    seq(|before|, i requires 0 <= i < |before| => if i < t then before[i] else Replay(before[i], sents[i]))
  }

  /** The state after all the targets from the current one on have been left. */
  function AllServed(s: State, g: GuardId, sents: seq<seq<Attempt>>, oks: seq<bool>): State
    requires g in s.runs && s.runs[g].Pushing? && s.runs[g].target <= |s.targets| == |sents| == |oks|
  {
    var run := s.runs[g];
    s.(targets := Groups(s.targets, sents, run.target),
       runs := s.runs[g := run.(target := |s.targets|, rest := run.batch, allOk := run.allOk && All(oks[run.target..]))])
  }

  lemma {:induction false} PushIsAPath(c: Config, s: State, g: GuardId, sents: seq<seq<Attempt>>, oks: seq<bool>)
    requires g in s.runs && s.runs[g].Pushing? && s.runs[g].target <= |s.targets|
    requires s.runs[g].rest == s.runs[g].batch
    requires Histories(s.runs[g].batch, sents, oks) && |oks| == |s.targets|
    ensures Reaches(c, s, ServeEvents(g, sents, oks, s.runs[g].target), AllServed(s, g, sents, oks))
    decreases |s.targets| - s.runs[g].target
  {
    var run := s.runs[g];
    var t := run.target;
    if t == |s.targets| {
      assert Groups(s.targets, sents, t) == s.targets;
      assert AllServed(s, g, sents, oks).runs == s.runs;
    } else {
      TargetIsAPath(c, s, g, sents[t], oks[t]);
      var n := Served(s, g, sents[t], oks[t]);
      PushIsAPath(c, n, g, sents, oks);
      AllFrom(oks, t);
      SameEnd(s, g, sents, oks);
      ReachesAppend(c, s, Sends(g, sents[t]) + [Leave(g, oks[t])], n,
                    ServeEvents(g, sents, oks, t + 1), AllServed(s, g, sents, oks));
    }
  }

  lemma {:induction false} SameEnd(s: State, g: GuardId, sents: seq<seq<Attempt>>, oks: seq<bool>)
    requires PushingAt(s, g) && |s.targets| == |sents| == |oks|
    ensures AllServed(Served(s, g, sents[s.runs[g].target], oks[s.runs[g].target]), g, sents, oks) ==
            AllServed(s, g, sents, oks)
  {
    var t := s.runs[g].target;
    var n := Served(s, g, sents[t], oks[t]);
    AllFrom(oks, t);
    assert Groups(n.targets, sents, t + 1) == Groups(s.targets, sents, t);
    assert AllServed(n, g, sents, oks).runs == AllServed(s, g, sents, oks).runs;
  }

  lemma {:induction false} AllFrom(oks: seq<bool>, t: nat)
    requires t < |oks|
    ensures All(oks[t..]) <==> oks[t] && All(oks[t + 1..])
  {
    var all, tail := oks[t..], oks[t + 1..];
    assert all == [oks[t]] + tail;
    if All(all) {
      assert all[0];
      forall i | 0 <= i < |tail|
        ensures tail[i]
      {
        assert all[1 + i];
      }
    }
  }

  // ---------------------------------------------------------------- what else goes on

  /** Events that are not steps of run `g`: the clock, the source, the lock, and other guards. */
  predicate Foreign(e: Event, g: GuardId) {
    match e
    case Tick(_) => true
    case Change(_, _) => true
    case Poison => true
    case Trigger(h, _) => h != g
    case Drop(h) => h != g
    case _ => false
  }

  function OwnPart(es: seq<Event>, g: GuardId): seq<Event> {
    if es == [] then [] else (if Foreign(es[0], g) then [] else [es[0]]) + OwnPart(es[1..], g)
  }

  function ForeignPart(es: seq<Event>, g: GuardId): seq<Event> {
    if es == [] then [] else (if Foreign(es[0], g) then [es[0]] else []) + ForeignPart(es[1..], g)
  }

  /** The steps of run `g` that look at nothing but the run, the targets and the mark. */
  predicate Pushes(e: Event, g: GuardId) {
    (e.Send? || e.NextTarget? || e.GiveUp? || e.Finish?) && e.guard == g
  }

  /** The world of `w` with the targets, the mark and the run `g` of `r`. */
  function Graft(w: State, r: State, g: GuardId): State
    requires g in r.runs
  {
    w.(targets := r.targets, mark := r.mark, runs := w.runs[g := r.runs[g]])
  }

  predicate SameRun(s: State, t: State, g: GuardId) {
    && g in s.runs && g in t.runs && s.runs[g] == t.runs[g]
    && s.targets == t.targets && s.mark == t.mark
  }

  predicate SameWorld(s: State, t: State, g: GuardId) {
    && s.now == t.now && s.source == t.source && s.slots == t.slots && s.stuck == t.stuck && s.live == t.live
    && g in s.runs && g in t.runs && t.runs == s.runs[g := t.runs[g]]
  }

  /** One step of the run does the same in another world. */
  lemma {:induction false} PushElsewhere(c: Config, s: State, t: State, g: GuardId, e: Event)
    requires SameRun(s, t, g) && Pushes(e, g) && Enabled(c, s, e)
    ensures Enabled(c, t, e) && SameRun(Do(c, s, e), Do(c, t, e), g)
    ensures Do(c, t, e) == Graft(t, Do(c, s, e), g)
  {
  }

  lemma {:induction false} OwnElsewhere(c: Config, s: State, t: State, g: GuardId, own: seq<Event>, s': State)
    requires SameRun(s, t, g) && Reaches(c, s, own, s') && forall e :: e in own ==> Pushes(e, g)
    ensures g in s'.runs && Reaches(c, t, own, Graft(t, s', g))
    decreases |own|
  {
    if own == [] {
      assert t.runs[g := t.runs[g]] == t.runs;
    } else {
      PushElsewhere(c, s, t, g, own[0]);
      OwnElsewhere(c, Do(c, s, own[0]), Do(c, t, own[0]), g, own[1..], s');
      GraftTwice(t, Do(c, s, own[0]), s', g);
    }
  }

  lemma {:induction false} GraftTwice(w: State, r: State, q: State, g: GuardId)
    requires g in r.runs && g in q.runs
    ensures Graft(Graft(w, r, g), q, g) == Graft(w, q, g)
  {
    assert Graft(Graft(w, r, g), q, g).runs == Graft(w, q, g).runs;
  }

  /** A foreign step leaves the run, the targets and the mark alone, and happens the same elsewhere. */
  lemma {:induction false} ForeignStep(c: Config, s: State, t: State, g: GuardId, e: Event)
    requires SameWorld(s, t, g) && Foreign(e, g) && Enabled(c, s, e)
    ensures Enabled(c, t, e) && SameWorld(Do(c, s, e), Do(c, t, e), g)
    ensures SameRun(s, Do(c, s, e), g) && SameRun(t, Do(c, t, e), g)
  {
    assert t.runs.Keys == s.runs.Keys;
    assert Do(c, t, e).runs == Do(c, s, e).runs[g := t.runs[g]];
  }

  lemma {:induction false} ForeignElsewhere(c: Config, s: State, t: State, g: GuardId, fs: seq<Event>, s': State)
    requires SameWorld(s, t, g) && Reaches(c, s, fs, s') && forall e :: e in fs ==> Foreign(e, g)
    ensures SameRun(s, s', g) && Reaches(c, t, fs, Graft(s', t, g))
    decreases |fs|
  {
    if fs == [] {
      assert s.runs[g := t.runs[g]] == t.runs;
    } else {
      ForeignStep(c, s, t, g, fs[0]);
      var m, n := Do(c, s, fs[0]), Do(c, t, fs[0]);
      ForeignElsewhere(c, m, n, g, fs[1..], s');
      assert Graft(s', n, g) == Graft(s', t, g);
    }
  }

  lemma {:induction false} PartsMean(es: seq<Event>, g: GuardId)
    ensures forall e :: e in ForeignPart(es, g) ==> Foreign(e, g)
    decreases |es|
  {
    if es != [] {
      PartsMean(es[1..], g);
    }
  }

  /** Steps of the run and foreign events, each a path by itself, are a path in every shuffle. */
  lemma {:induction false} ShuffleIsAPath(c: Config, s: State, g: GuardId, es: seq<Event>, r: State, w: State)
    requires g in s.runs
    requires Reaches(c, s, OwnPart(es, g), r) && forall e :: e in OwnPart(es, g) ==> Pushes(e, g)
    requires Reaches(c, s, ForeignPart(es, g), w)
    ensures g in r.runs && Reaches(c, s, es, Graft(w, r, g))
    decreases |es|
  {
    if es == [] {
      assert s.runs[g := s.runs[g]] == s.runs;
    } else if Foreign(es[0], g) {
      ForeignFirst(c, s, g, es, r, w);
    } else {
      OwnFirst(c, s, g, es, r, w);
    }
  }

  lemma {:induction false} ForeignFirst(c: Config, s: State, g: GuardId, es: seq<Event>, r: State, w: State)
    requires g in s.runs && es != [] && Foreign(es[0], g)
    requires Reaches(c, s, OwnPart(es, g), r) && forall e :: e in OwnPart(es, g) ==> Pushes(e, g)
    requires Reaches(c, s, ForeignPart(es, g), w)
    ensures g in r.runs && Reaches(c, s, es, Graft(w, r, g))
    decreases |es|, 0
  {
    assert OwnPart(es, g) == OwnPart(es[1..], g) && ForeignPart(es, g)[1..] == ForeignPart(es[1..], g);
    var m := Do(c, s, es[0]);
    assert SameWorld(s, s, g) by {
      assert s.runs[g := s.runs[g]] == s.runs;
    }
    ForeignStep(c, s, s, g, es[0]);
    OwnElsewhere(c, s, m, g, OwnPart(es, g), r);
    ShuffleIsAPath(c, m, g, es[1..], Graft(m, r, g), w);
    assert Graft(w, Graft(m, r, g), g) == Graft(w, r, g);
  }

  lemma {:induction false} OwnFirst(c: Config, s: State, g: GuardId, es: seq<Event>, r: State, w: State)
    requires g in s.runs && es != [] && !Foreign(es[0], g)
    requires Reaches(c, s, OwnPart(es, g), r) && forall e :: e in OwnPart(es, g) ==> Pushes(e, g)
    requires Reaches(c, s, ForeignPart(es, g), w)
    ensures g in r.runs && Reaches(c, s, es, Graft(w, r, g))
    decreases |es|, 0
  {
    assert OwnPart(es, g)[0] == es[0] && OwnPart(es, g)[1..] == OwnPart(es[1..], g);
    assert ForeignPart(es, g) == ForeignPart(es[1..], g);
    PartsMean(es, g);
    assert Pushes(es[0], g);
    var m := Do(c, s, es[0]);
    assert SameWorld(s, m, g) by {
      assert m.runs == s.runs[g := m.runs[g]];
    }
    ForeignElsewhere(c, s, m, g, ForeignPart(es, g), w);
    ShuffleIsAPath(c, m, g, es[1..], r, Graft(w, m, g));
    GraftTwice(w, m, r, g);
  }

  // ---------------------------------------------------------------- a whole run

  /** Everything a run does once its delta is there. */
  function PushEvents(g: GuardId, sents: seq<seq<Attempt>>, oks: seq<bool>, stored: bool): seq<Event>
    requires |sents| == |oks|
  {
    ServeEvents(g, sents, oks, 0) + [Finish(g, stored)]
  }

  lemma {:induction false} ServingPushes(g: GuardId, sents: seq<seq<Attempt>>, oks: seq<bool>, t: nat)
    requires |sents| == |oks|
    ensures forall e :: e in ServeEvents(g, sents, oks, t) ==> Pushes(e, g)
    decreases |oks| - t
  {
    if t < |oks| {
      ServingPushes(g, sents, oks, t + 1);
    }
  }

  /** The world of `w` after run `g` is done, with these targets and this mark. */
  function Ended(w: State, g: GuardId, groups: seq<Group>, mark: Option<Instant>): State {
    w.(targets := groups, mark := mark, runs := w.runs[g := Done])
  }

  /** An execution is a path of the machine in every shuffle with foreign events, from its fetch to its
      end: each target has gone through its history, and the mark has moved to the run's start time exactly
      when every target succeeded and the result was stored. */
  lemma {:induction false} ExecutionIsAPath(
    c: Config, s: State, g: GuardId, delta: seq<Input>, sents: seq<seq<Attempt>>, oks: seq<bool>, stored: bool,
    es: seq<Event>, w: State)
    requires Enabled(c, s, Fetch(g, delta))
    requires Histories(Batch(c, delta), sents, oks) && |oks| == |s.targets|
    requires OwnPart(es, g) == PushEvents(g, sents, oks, stored)
    requires Reaches(c, Do(c, s, Fetch(g, delta)), ForeignPart(es, g), w)
    ensures Reaches(c, Do(c, s, Fetch(g, delta)), es,
                    Ended(w, g, Groups(s.targets, sents, 0), if All(oks) && stored then Some(s.runs[g].at) else s.mark))
  {
    var m := Do(c, s, Fetch(g, delta));
    PushIsAPath(c, m, g, sents, oks);
    assert oks[0..] == oks;
    var n := AllServed(m, g, sents, oks);
    OneStep(c, n, Finish(g, stored));
    var r := Do(c, n, Finish(g, stored));
    ReachesAppend(c, m, ServeEvents(g, sents, oks, 0), n, [Finish(g, stored)], r);
    ServingPushes(g, sents, oks, 0);
    ShuffleIsAPath(c, m, g, es, r, w);
  }

  /** From the state `m` in which it fetches, run `g` with its own steps `own` ends with these groups and
      this mark, however foreign events are shuffled in after its first step. */
  ghost predicate Realises(
    c: Config, g: GuardId, m: State, own: seq<Event>, groups: seq<Group>, mark: Option<Instant>)
  {
    && own != [] && Enabled(c, m, own[0])
    && forall es: seq<Event>, w: State ::
         OwnPart(es, g) == own[1..] && Reaches(c, Do(c, m, own[0]), ForeignPart(es, g), w) ==>
           Reaches(c, Do(c, m, own[0]), es, Ended(w, g, groups, mark))
  }

  lemma {:induction false} FailedFetchRealises(c: Config, g: GuardId, m: State)
    requires Enabled(c, m, FetchFailed(g))
    ensures Realises(c, g, m, [FetchFailed(g)], m.targets, m.mark)
  {
    var n := Do(c, m, FetchFailed(g));
    forall es: seq<Event>, w: State | OwnPart(es, g) == [FetchFailed(g)][1..] && Reaches(c, n, ForeignPart(es, g), w)
      ensures Reaches(c, n, es, Ended(w, g, m.targets, m.mark))
    {
      ShuffleIsAPath(c, n, g, es, n, w);
    }
  }

  lemma {:induction false} ExecutionRealises(
    c: Config, g: GuardId, m: State, delta: seq<Input>, sents: seq<seq<Attempt>>, oks: seq<bool>, stored: bool)
    requires Enabled(c, m, Fetch(g, delta))
    requires Histories(Batch(c, delta), sents, oks) && |oks| == |m.targets|
    ensures Realises(c, g, m, [Fetch(g, delta)] + PushEvents(g, sents, oks, stored), Groups(m.targets, sents, 0),
                     if All(oks) && stored then Some(m.runs[g].at) else m.mark)
  {
    var own := [Fetch(g, delta)] + PushEvents(g, sents, oks, stored);
    assert own[1..] == PushEvents(g, sents, oks, stored);
    forall es: seq<Event>, w: State | OwnPart(es, g) == own[1..] && Reaches(c, Do(c, m, own[0]), ForeignPart(es, g), w)
      ensures Reaches(c, Do(c, m, own[0]), es, Ended(w, g, Groups(m.targets, sents, 0),
                                                     if All(oks) && stored then Some(m.runs[g].at) else m.mark))
    {
      ExecutionIsAPath(c, m, g, delta, sents, oks, stored, es, w);
    }
  }

  /** Where a run stands in the machine: it was claimed in `s`, began there, and `between` happened before
      it fetches in `m`. */
  datatype Place = Place(guard: GuardId, s: State, between: seq<Event>, m: State)

  /** The place fits the sync task: same mark, same groups, and a source that lists its changes since the mark. */
  ghost predicate Fits(c: Config, p: Place, now: Instant, mark: Option<Instant>,
                       source: Option<SourceClient>, targets: seq<Option<Endpoint>>)
    reads Existing(targets)
  {
    && Enabled(c, p.s, Begin(p.guard)) && p.s.now == now && p.s.mark == mark
    && Reaches(c, Do(c, p.s, Begin(p.guard)), p.between, p.m)
    && (forall e :: e in p.between ==> Foreign(e, p.guard))
    && |targets| == |p.s.targets|
    && (forall i :: 0 <= i < |targets| && targets[i].Some? ==> targets[i].value.group == p.s.targets[i])
    && (source.Some? ==> IsDelta(p.m.source, Since(mark), source.value.listing))
  }

  /** The groups now: those of the targets that exist, and for a missing vault what was there before. */
  ghost function GroupsNow(before: seq<Group>, targets: seq<Option<Endpoint>>): seq<Group>
    requires |before| == |targets|
    reads Existing(targets)
  {
    seq(|before|, i requires 0 <= i < |before| reads Existing(targets) =>
      if targets[i].Some? then targets[i].value.group else before[i])
  }

  lemma {:induction false} StillThere(c: Config, p: Place, now: Instant, mark: Option<Instant>,
                                      source: Option<SourceClient>, targets: seq<Option<Endpoint>>)
    requires Fits(c, p, now, mark, source, targets)
    ensures p.guard in p.m.runs && p.m.runs[p.guard] == Started(now)
    ensures p.m.targets == p.s.targets && p.m.mark == mark
    ensures source.Some? ==> Enabled(c, p.m, Fetch(p.guard, source.value.listing))
    ensures Enabled(c, p.m, FetchFailed(p.guard))
  {
    var b := Do(c, p.s, Begin(p.guard));
    assert SameWorld(b, b, p.guard) by {
      assert b.runs[p.guard := b.runs[p.guard]] == b.runs;
    }
    ForeignElsewhere(c, b, b, p.guard, p.between, p.m);
  }

  /** A run that gets no delta leaves everything as it was. */
  lemma {:induction false} NothingRealised(c: Config, p: Place, now: Instant, mark: Option<Instant>,
                                           source: Option<SourceClient>, targets: seq<Option<Endpoint>>)
    requires Fits(c, p, now, mark, source, targets)
    ensures Realises(c, p.guard, p.m, [FetchFailed(p.guard)], GroupsNow(p.s.targets, targets), mark)
  {
    StillThere(c, p, now, mark, source, targets);
    FailedFetchRealises(c, p.guard, p.m);
    assert GroupsNow(p.s.targets, targets) == p.s.targets;
  }

  /** A run that got its delta ends with the groups as they are now. */
  lemma {:induction false} DeltaRealised(
    c: Config, p: Place, delta: seq<Input>, targets: seq<Option<Endpoint>>,
    sents: seq<seq<Attempt>>, oks: seq<bool>, stored: bool)
    requires Enabled(c, p.m, Fetch(p.guard, delta)) && p.m.targets == p.s.targets
    requires |p.s.targets| == |targets| == |sents| == |oks|
    requires forall i :: 0 <= i < |targets| && targets[i].None? ==> !oks[i] && sents[i] == []
    requires forall i :: 0 <= i < |targets| && targets[i].Some? ==>
               Delivered(p.s.targets[i], targets[i].value.group, sents[i], Batch(c, delta), Upsert, oks[i])
    ensures Realises(c, p.guard, p.m, [Fetch(p.guard, delta)] + PushEvents(p.guard, sents, oks, stored),
                     GroupsNow(p.s.targets, targets),
                     if All(oks) && stored then Some(p.m.runs[p.guard].at) else p.m.mark)
  {
    HistoriesOf(c, delta, p.s.targets, targets, sents, oks);
    ExecutionRealises(c, p.guard, p.m, delta, sents, oks, stored);
  }

  /** An execution at a place of the machine, and its own steps there when its result is `stored` or not. */
  method ExecuteAt(c: Config, ghost now: Instant, mark: Option<Instant>, source: Option<SourceClient>,
                   targets: seq<Option<Endpoint>>, ghost p: Place, ghost stored: bool)
    returns (status: Status, items: nat, allSucceeded: bool, ghost own: seq<Event>, ghost oks: seq<bool>)
    requires Separate(targets)
    requires forall t :: t in Existing(targets) ==> t.Valid()
    requires Fits(c, p, now, mark, source, targets)
    modifies TheClient(source), Existing(targets)
    ensures Realises(c, p.guard, p.m, own, GroupsNow(p.s.targets, targets),
                     if allSucceeded && stored then Some(now) else mark)
    ensures own == [FetchFailed(p.guard)] ==>
              !allSucceeded && status == FAILED && items == 0 && unchanged(Existing(targets))
    ensures own != [FetchFailed(p.guard)] ==>
              && source.Some? && own[0] == Fetch(p.guard, source.value.listing)
              && |oks| == |targets| && (allSucceeded <==> All(oks))
              && items == |Batch(c, source.value.listing)|
              && (status == SUCCESS <==> All(oks) && !(mark.None? && source.value.listing == []))
              && (status == FAILED <==> targets != [] && !Any(oks))
    ensures source.Some? ==> source.value.requests > old(source.value.requests)
    ensures own != [FetchFailed(p.guard)] <==>
              source.Some? && source.value.network(source.value.requests - 1).PageServed?
  {
    StillThere(c, p, now, mark, source, targets);
    NothingRealised(c, p, now, mark, source, targets);
    ghost var groups, fetched, sents := GroupsNow(p.s.targets, targets), None, [];
    status, items, allSucceeded, fetched, oks, sents := ExecuteOn(c, mark.None?, source, targets, p.s.targets);
    if fetched.Some? {
      own := [Fetch(p.guard, fetched.value)] + PushEvents(p.guard, sents, oks, stored);
      DeltaRealised(c, p, fetched.value, targets, sents, oks, stored);
    } else {
      own := [FetchFailed(p.guard)];
      assert GroupsNow(p.s.targets, targets) == groups;
    }
  }

  /** An execution on targets with these groups. */
  method ExecuteOn(c: Config, firstSync: bool, source: Option<SourceClient>, targets: seq<Option<Endpoint>>,
                   ghost before: seq<Group>)
    returns (status: Status, items: nat, allSucceeded: bool,
             ghost fetched: Option<seq<Input>>, ghost oks: seq<bool>, ghost sents: seq<seq<Attempt>>)
    requires Separate(targets)
    requires forall t :: t in Existing(targets) ==> t.Valid()
    requires |before| == |targets|
    requires forall i :: 0 <= i < |targets| && targets[i].Some? ==> targets[i].value.group == before[i]
    modifies TheClient(source), Existing(targets)
    ensures source.None? ==> fetched.None?
    ensures source.Some? ==> source.value.requests > old(source.value.requests)
    ensures source.Some? ==> (fetched.Some? <==> source.value.network(source.value.requests - 1).PageServed?)
    ensures fetched.Some? ==> source.Some? && fetched.value == source.value.listing
    ensures fetched.None? ==> status == FAILED && items == 0 && !allSucceeded && unchanged(Existing(targets))
    ensures fetched.Some? ==>
              && |oks| == |sents| == |targets|
              && items == |Batch(c, fetched.value)|
              && (allSucceeded <==> All(oks))
              && (status == SUCCESS <==> All(oks) && !(firstSync && fetched.value == []))
              && (status == FAILED <==> targets != [] && !Any(oks))
              && (forall i :: 0 <= i < |targets| && targets[i].None? ==> !oks[i] && sents[i] == [])
              && (forall i :: 0 <= i < |targets| && targets[i].Some? ==>
                    Delivered(before[i], targets[i].value.group, sents[i], Batch(c, fetched.value), Upsert, oks[i]))
  {
    assert forall i :: 0 <= i < |targets| && targets[i].Some? ==> GroupOf(targets[i]) == before[i];
    status, items, allSucceeded, fetched, oks, sents := Execute(c, firstSync, source, targets);
  }

  /** What a run reports. */
  datatype Report = Finished(status: Status, items: nat) | NotFound | DatabaseError

  /** How loading one row goes. */
  datatype Load = Loaded | Missing | LoadFailed

  /** Which of a run's database calls go well: loading the sync task, the source vault and the targets,
      writing the log, and saving the mark. */
  datatype Database = Database(task: Load, sourceLoads: bool, targetsLoad: bool, logged: bool, saved: bool) {
    /** Everything a run needs before it executes is there. */
    predicate Ready() {
      task.Loaded? && sourceLoads && targetsLoad
    }
  }

  class SyncTask {
    const config: Config
    var lastSyncAt: Option<Instant>

    constructor (config: Config)
      ensures this.config == config && lastSyncAt == None
    {
      this.config, lastSyncAt := config, None;
    }

    /** One run: read the start time, load the sync task, the source vault and the targets, execute, write the
        log, move the mark. Whatever else goes on meanwhile, the run is a path of the machine that ends with
        the targets and the mark as they are now. */
    method Run(now: Instant, source: Option<SourceClient>, targets: seq<Option<Endpoint>>, db: Database, ghost p: Place)
      returns (r: Report, ghost own: seq<Event>, ghost oks: seq<bool>)
      requires Separate(targets)
      requires forall t :: t in Existing(targets) ==> t.Valid()
      requires Fits(config, p, now, lastSyncAt, source, targets)
      modifies this, TheClient(source), Existing(targets)
      ensures Realises(config, p.guard, p.m, own, GroupsNow(p.s.targets, targets), lastSyncAt)
      ensures own == [FetchFailed(p.guard)] ==> lastSyncAt == old(lastSyncAt) && unchanged(Existing(targets))
      ensures own != [FetchFailed(p.guard)] ==>
                && source.Some? && own[0] == Fetch(p.guard, source.value.listing)
                && |oks| == |targets|
                && db.Ready() && lastSyncAt == if All(oks) && db.logged && db.saved then Some(now) else old(lastSyncAt)
      ensures !db.Ready() ==> own == [FetchFailed(p.guard)] && unchanged(TheClient(source))
      ensures r.NotFound? <==> db.task.Missing?
      ensures r.DatabaseError? <==>
                || db.task.LoadFailed?
                || (db.task.Loaded? && !(db.sourceLoads && db.targetsLoad))
                || (db.Ready() && !db.logged)
                || (db.Ready() && !db.saved && own != [FetchFailed(p.guard)] && All(oks))
      ensures db.Ready() && source.Some? ==> source.value.requests > old(source.value.requests)
      ensures db.Ready() ==>
                (own != [FetchFailed(p.guard)] <==>
                 source.Some? && source.value.network(source.value.requests - 1).PageServed?)
      ensures r.Finished? && own == [FetchFailed(p.guard)] ==> r.status == FAILED && r.items == 0
      ensures r.Finished? && own != [FetchFailed(p.guard)] ==>
                && r.items == |Batch(config, source.value.listing)|
                && (r.status == SUCCESS <==> All(oks) && !(old(lastSyncAt).None? && source.value.listing == []))
                && (r.status == FAILED <==> targets != [] && !Any(oks))
    {
      var startedAt := now;
      if !db.Ready() {
        NothingRealised(config, p, now, lastSyncAt, source, targets);
        return if db.task.Missing? then NotFound else DatabaseError, [FetchFailed(p.guard)], [];
      }
      var status, items, allSucceeded;
      status, items, allSucceeded, own, oks := ExecuteAt(config, startedAt, lastSyncAt, source, targets, p, db.logged && db.saved);
      if !db.logged {
        return DatabaseError, own, oks;
      }
      if allSucceeded {
        if !db.saved {
          return DatabaseError, own, oks;
        }
        lastSyncAt := Some(startedAt);
      }
      r := Finished(status, items);
    }
  }

  /** What pushing to every target promises is what the machine asks of each target's history. */
  lemma {:induction false} HistoriesOf(
    c: Config, delta: seq<Input>, before: seq<Group>, targets: seq<Option<Endpoint>>,
    sents: seq<seq<Attempt>>, oks: seq<bool>)
    requires |before| == |targets| == |sents| == |oks|
    requires forall i :: 0 <= i < |targets| && targets[i].None? ==> !oks[i] && sents[i] == []
    requires forall i :: 0 <= i < |targets| && targets[i].Some? ==>
               Delivered(before[i], targets[i].value.group, sents[i], Batch(c, delta), Upsert, oks[i])
    ensures Histories(Batch(c, delta), sents, oks)
    ensures Groups(before, sents, 0) == GroupsNow(before, targets)
  {
    var batch := Batch(c, delta);
    forall i | 0 <= i < |sents|
      ensures Delivers(batch, sents[i], oks[i])
    {
      if targets[i].None? {
        assert Tracks(Progress(batch, Upsert), sents[i], Progress(batch, Upsert));
      }
    }
  }

  /** End to end: after any run of this sync task, in any reachable state of the rest of the world and however
      shuffled, each kept source row last changed before the stored mark is mirrored in every target. */
  lemma {:induction false} RunMirrors(
    c: Config, s0: State, es0: seq<Event>, p: Place, own: seq<Event>, groups: seq<Group>, mark: Option<Instant>,
    es: seq<Event>, w: State, a: Address, t: nat)
    requires Init(s0) && Reaches(c, s0, es0, p.s)
    requires Enabled(c, p.s, Begin(p.guard)) && Reaches(c, Do(c, p.s, Begin(p.guard)), p.between, p.m)
    requires Realises(c, p.guard, p.m, own, groups, mark)
    requires OwnPart(es, p.guard) == own[1..] && Reaches(c, Do(c, p.m, own[0]), ForeignPart(es, p.guard), w)
    requires a in w.source && Keeps(c, a) && t < |groups|
    requires mark.Some? && w.source[a].changedAt < mark.value
    ensures Mirrored(groups[t], ToInput(a, w.source[a]))
  {
    var b, n, end := Do(c, p.s, Begin(p.guard)), Do(c, p.m, own[0]), Ended(w, p.guard, groups, mark);
    OneStep(c, p.s, Begin(p.guard));
    OneStep(c, p.m, own[0]);
    ReachesAppend(c, s0, es0, p.s, [Begin(p.guard)], b);
    ReachesAppend(c, s0, es0 + [Begin(p.guard)], b, p.between, p.m);
    ReachesAppend(c, s0, es0 + [Begin(p.guard)] + p.between, p.m, [own[0]], n);
    ReachesAppend(c, s0, es0 + [Begin(p.guard)] + p.between + [own[0]], n, es, end);
    MirrorTheorem(c, s0, es0 + [Begin(p.guard)] + p.between + [own[0]] + es, end, a, t);
  }

  // ---------------------------------------------------------------- the guard around a run

  /** A tick or a manual trigger: claim the job's slot or step aside, run, and free the slot. The machine's
      trigger step, taken in `s`, claims exactly when the slots do. */
  method Fire(slots: JobSlots, task: SyncTask, now: Instant, source: Option<SourceClient>,
              targets: seq<Option<Endpoint>>, db: Database,
              ghost s: State, ghost before: seq<Event>, ghost p: Place)
    returns (r: Option<Report>, ghost own: seq<Event>, ghost oks: seq<bool>)
    requires Separate(targets)
    requires forall t :: t in Existing(targets) ==> t.Valid()
    requires s.slots == slots.View() && p.guard !in s.live
    requires s.slots.Free(task.config.job) ==>
               && Reaches(task.config, Do(task.config, s, Trigger(p.guard, task.config.job)), before, p.s)
               && Fits(task.config, p, now, task.lastSyncAt, source, targets)
    modifies slots, task, TheClient(source), Existing(targets)
    ensures r.Some? <==> old(slots.View()).Free(task.config.job)
    ensures r.None? ==>
              && Do(task.config, s, Trigger(p.guard, task.config.job)) == s
              && slots.View() == old(slots.View()) && task.lastSyncAt == old(task.lastSyncAt)
              && unchanged(Existing(targets))
    ensures r.Some? ==>
              && slots.View() == old(slots.View())
              && Do(task.config, s, Trigger(p.guard, task.config.job)).slots == slots.View().Claim(task.config.job)
              && Realises(task.config, p.guard, p.m, own, GroupsNow(p.s.targets, targets), task.lastSyncAt)
              && (r.value.NotFound? <==> db.task.Missing?)
              && (own != [FetchFailed(p.guard)] ==> |oks| == |targets|)
              && (r.value.DatabaseError? <==>
                    || db.task.LoadFailed?
                    || (db.task.Loaded? && !(db.sourceLoads && db.targetsLoad && db.logged))
                    || (db.Ready() && !db.saved && own != [FetchFailed(p.guard)] && All(oks)))
    ensures r.Some? && r.value.Finished? && own == [FetchFailed(p.guard)] ==> r.value == Finished(FAILED, 0)
    ensures r.Some? && r.value.Finished? && own != [FetchFailed(p.guard)] ==>
              && source.Some? && |oks| == |targets|
              && r.value.items == |Batch(task.config, source.value.listing)|
              && (r.value.status == SUCCESS <==> All(oks) && !(old(task.lastSyncAt).None? && source.value.listing == []))
              && (r.value.status == FAILED <==> targets != [] && !Any(oks))
  {
    var job := task.config.job;
    var claimed := slots.TryStart(job);
    if !claimed {
      return None, [], [];
    }
    var report;
    report, own, oks := task.Run(now, source, targets, db, p);
    slots.DropGuard(job);
    r := Some(report);
  }
}
