/**
 The same ledger under concurrent calls. Each call reads its clock once, before taking any lock, and
 then goes through the lock-level steps of the sequential code; steps of different calls interleave
 freely, so a call may decide with a reading older than one another call has already swept with.
 */
module ReplayConcurrent {
  import opened Optional
  import opened Replay

  type CallId = nat

  datatype Stage =
    | Timed(now: Time)
    | Due(now: Time, due: bool)
    | Judged(now: Time, sweep: bool)
    | Ready(now: Time)
    | Answered(now: Time, accepted: bool)

  datatype Call = Call(id: Signature, stage: Stage)

  /** `first` is, for each signature, the first call that was accepted for it. */
  datatype State = State(
    seen: map<Signature, Time>, lastSweep: Time, calls: map<CallId, Call>, first: map<Signature, CallId>)

  datatype Event =
    | Arrive(call: CallId, id: Signature, now: Time)
    | LockSweepTime(call: CallId)
    | LockCount(call: CallId)
    | LockRetain(call: CallId)
    | LockDecide(call: CallId)

  predicate Enabled(s: State, e: Event) {
    match e
    case Arrive(c, _, _) => c !in s.calls
    case LockSweepTime(c) => c in s.calls && s.calls[c].stage.Timed?
    case LockCount(c) => c in s.calls && s.calls[c].stage.Due?
    case LockRetain(c) => c in s.calls && s.calls[c].stage.Judged? && s.calls[c].stage.sweep
    case LockDecide(c) =>
      c in s.calls && (s.calls[c].stage.Ready? || (s.calls[c].stage.Judged? && !s.calls[c].stage.sweep))
  }

  function Stay(s: State, c: CallId, stage: Stage): map<CallId, Call>
    requires c in s.calls
  {
    s.calls[c := s.calls[c].(stage := stage)]
  }

  function Do(window: nat, s: State, e: Event): State
    requires Enabled(s, e)
  {
    match e
    case Arrive(c, id, now) => s.(calls := s.calls[c := Call(id, Timed(now))])
    case LockSweepTime(c) =>
      var now := s.calls[c].stage.now;
      var due := Elapsed(now, s.lastSweep) >= window / 4;
      s.(lastSweep := if due then now else s.lastSweep, calls := Stay(s, c, Due(now, due)))
    case LockCount(c) =>
      var now := s.calls[c].stage.now;
      s.(calls := Stay(s, c, Judged(now, s.calls[c].stage.due || |s.seen| >= MAX_TRACKED)))
    case LockRetain(c) =>
      var now := s.calls[c].stage.now;
      s.(seen := Unexpired(s.seen, now), calls := Stay(s, c, Ready(now)))
    case LockDecide(c) =>
      var now, id := s.calls[c].stage.now, s.calls[c].id;
      if id in s.seen && s.seen[id] > now then s.(calls := Stay(s, c, Answered(now, false)))
      else s.(seen := s.seen[id := now + window], calls := Stay(s, c, Answered(now, true)),
              first := if id in s.first then s.first else s.first[id := c])
  }

  predicate Reaches(window: nat, s: State, es: seq<Event>, s': State)
    decreases |es|
  {
    if es == [] then s' == s
    else Enabled(s, es[0]) && Reaches(window, Do(window, s, es[0]), es[1..], s')
  }

  /** A new ledger, whenever it was built. */
  predicate Init(s: State) {
    s.seen == map[] && s.calls == map[] && s.first == map[]
  }

  predicate Accepted(s: State, c: CallId, id: Signature) {
    c in s.calls && s.calls[c].id == id && s.calls[c].stage.Answered? && s.calls[c].stage.accepted
  }

  /** Every clock reading taken so far is earlier than `t`. */
  predicate AllBefore(s: State, t: Time) {
    forall c :: c in s.calls ==> s.calls[c].stage.now < t
  }

  ghost predicate Single(window: nat, s: State, id: Signature)
    requires id in s.first && s.first[id] in s.calls
  {
    var expiry := s.calls[s.first[id]].stage.now + window;
    AllBefore(s, expiry) ==>
      && id in s.seen && s.seen[id] == expiry
      && forall c :: Accepted(s, c, id) ==> c == s.first[id]
  }

  ghost predicate Inv(window: nat, s: State) {
    && (forall id :: id in s.seen ==> id in s.first)
    && (forall c :: c in s.calls && Accepted(s, c, s.calls[c].id) ==> s.calls[c].id in s.first)
    && (forall id :: id in s.first ==> Accepted(s, s.first[id], id))
    && (forall id :: id in s.first ==> Single(window, s, id))
  }

  lemma {:induction false} SingleKept(window: nat, s: State, e: Event, id: Signature)
    requires Inv(window, s) && Enabled(s, e) && id in s.first
    ensures var s' := Do(window, s, e);
            && id in s'.first && s'.first[id] == s.first[id]
            && Accepted(s', s.first[id], id) && Single(window, s', id)
  {
    var s', w := Do(window, s, e), s.first[id];
    assert Accepted(s, w, id) && Single(window, s, id);
    var expiry := s.calls[w].stage.now + window;
    if AllBefore(s', expiry) {
      forall c | c in s.calls
        ensures s.calls[c].stage.now < expiry
      {
        assert c in s'.calls && s'.calls[c].stage.now == s.calls[c].stage.now;
      }
      assert AllBefore(s, expiry);
      forall c | Accepted(s', c, id)
        ensures c == w
      {
        if !Accepted(s, c, id) {
          assert false;
        }
      }
    }
  }

  lemma {:induction false} StepKeeps(window: nat, s: State, e: Event)
    requires Inv(window, s) && Enabled(s, e)
    ensures Inv(window, Do(window, s, e))
  {
    var s' := Do(window, s, e);
    forall id | id in s'.first
      ensures Accepted(s', s'.first[id], id) && Single(window, s', id)
    {
      if id in s.first {
        SingleKept(window, s, e, id);
      } else {
        var c := e.call;
        assert s'.first[id] == c && Accepted(s', c, id);
        assert forall d :: Accepted(s', d, id) && d != c ==> Accepted(s, d, id);
      }
    }
    forall c | c in s'.calls && Accepted(s', c, s'.calls[c].id)
      ensures s'.calls[c].id in s'.first
    {
      if c in s.calls && Accepted(s, c, s.calls[c].id) {
        SingleKept(window, s, e, s.calls[c].id);
      }
    }
  }

  lemma {:induction false} InvAlongRun(window: nat, s: State, es: seq<Event>, s': State)
    requires Inv(window, s) && Reaches(window, s, es, s')
    ensures Inv(window, s')
    decreases |es|
  {
    if es != [] {
      StepKeeps(window, s, es[0]);
      InvAlongRun(window, Do(window, s, es[0]), es[1..], s');
    }
  }

  /** Under every interleaving, routine and capacity sweeps included: as long as every clock reading taken
      is within one window of the first accepted one, that call is the only one accepted. */
  lemma {:induction false} AtMostOnceInWindow(window: nat, s0: State, es: seq<Event>, s: State, id: Signature, c: CallId, d: CallId)
    requires Init(s0) && Reaches(window, s0, es, s)
    requires Accepted(s, c, id) && Accepted(s, d, id)
    requires id in s.first && s.first[id] in s.calls ==> AllBefore(s, s.calls[s.first[id]].stage.now + window)
    ensures c == d
  {
    InvAlongRun(window, s0, es, s);
  }

  // ---------------------------------------------------------------- exactly when a call is accepted

  /** A run with every state on the way. */
  predicate Trace(window: nat, ss: seq<State>, es: seq<Event>) {
    && |ss| == |es| + 1
    && forall k :: 0 <= k < |es| ==> Enabled(ss[k], es[k]) && ss[k + 1] == Do(window, ss[k], es[k])
  }

  /** The clock reading with which event `k` acts. */
  function Reading(ss: seq<State>, es: seq<Event>, k: nat): Time
    requires k < |es| < |ss|
  {
    if es[k].call in ss[k].calls then ss[k].calls[es[k].call].stage.now else 0
  }

  predicate Decides(ss: seq<State>, es: seq<Event>, k: nat, id: Signature)
    requires k < |es| < |ss|
  {
    es[k].LockDecide? && es[k].call in ss[k].calls && ss[k].calls[es[k].call].id == id
  }

  predicate Accepts(ss: seq<State>, es: seq<Event>, k: nat, id: Signature)
    requires k < |es| < |ss|
  {
    Decides(ss, es, k, id) && Accepted(ss[k + 1], es[k].call, id)
  }

  /** Event `k` sweeps with a reading of at least `t`. */
  predicate SweepsFrom(ss: seq<State>, es: seq<Event>, k: nat, t: Time)
    requires k < |es| < |ss|
  {
    es[k].LockRetain? && Reading(ss, es, k) >= t
  }

  predicate NoneAccepted(ss: seq<State>, es: seq<Event>, from: nat, to: nat, id: Signature)
    requires to <= |es| < |ss|
  {
    forall k :: from <= k < to ==> !Accepts(ss, es, k, id)
  }

  /** A sweep one full window after the acceptance at `i` takes the lock between `i` and `j`. */
  predicate Overtaken(window: nat, ss: seq<State>, es: seq<Event>, i: nat, j: nat)
    requires i < j <= |es| < |ss|
  {
    var expiry := Reading(ss, es, i) + window;
    exists k :: i < k < j && SweepsFrom(ss, es, k, expiry)
  }

  lemma {:induction false} NothingSeen(window: nat, ss: seq<State>, es: seq<Event>, n: nat, id: Signature)
    requires Trace(window, ss, es) && Init(ss[0]) && n <= |es| && NoneAccepted(ss, es, 0, n, id)
    ensures id !in ss[n].seen
    decreases n
  {
    if n > 0 {
      NothingSeen(window, ss, es, n - 1, id);
      assert !Accepts(ss, es, n - 1, id);
    }
  }

  /** From an acceptance to the next, the ledger holds its expiry exactly until a sweep overtakes it. */
  lemma {:induction false} SeenUntilOvertaken(window: nat, ss: seq<State>, es: seq<Event>, i: nat, n: nat, id: Signature)
    requires Trace(window, ss, es) && i < n <= |es|
    requires Accepts(ss, es, i, id) && NoneAccepted(ss, es, i + 1, n, id)
    ensures id in ss[n].seen <==> !Overtaken(window, ss, es, i, n)
    ensures id in ss[n].seen ==> ss[n].seen[id] == Reading(ss, es, i) + window
    decreases n
  {
    if n > i + 1 {
      var k := n - 1;
      SeenUntilOvertaken(window, ss, es, i, k, id);
      assert !Accepts(ss, es, k, id);
      assert Overtaken(window, ss, es, i, n) <==>
             Overtaken(window, ss, es, i, k) || SweepsFrom(ss, es, k, Reading(ss, es, i) + window);
    }
  }

  /** At a decision, the ledger refuses exactly when it holds an expiry later than the call's reading. */
  lemma {:induction false} DecisionMeans(window: nat, ss: seq<State>, es: seq<Event>, j: nat, id: Signature)
    requires Trace(window, ss, es) && j < |es| && Decides(ss, es, j, id)
    ensures Accepts(ss, es, j, id) <==> !(id in ss[j].seen && ss[j].seen[id] > Reading(ss, es, j))
  {
    assert Enabled(ss[j], es[j]) && ss[j + 1] == Do(window, ss[j], es[j]);
  }

  /** The acceptance at `i` does not stand in the way of a call that decides at `j`. */
  predicate Passed(window: nat, ss: seq<State>, es: seq<Event>, i: nat, j: nat)
    requires i < j < |es| < |ss|
  {
    Reading(ss, es, i) + window <= Reading(ss, es, j) || Overtaken(window, ss, es, i, j)
  }

  lemma {:induction false} AcceptedAgainIff(window: nat, ss: seq<State>, es: seq<Event>, i: nat, j: nat, id: Signature)
    requires Trace(window, ss, es) && i < j < |es| && Decides(ss, es, j, id)
    requires Accepts(ss, es, i, id) && NoneAccepted(ss, es, i + 1, j, id)
    ensures Accepts(ss, es, j, id) <==> Passed(window, ss, es, i, j)
  {
    SeenUntilOvertaken(window, ss, es, i, j, id);
    DecisionMeans(window, ss, es, j, id);
  }

  /** Under every interleaving, a deciding call is accepted exactly when the latest acceptance of its
      signature, if there is one, is a full window old by the call's own reading or has been overtaken by
      a sweep. */
  lemma {:induction false} AcceptedIff(window: nat, ss: seq<State>, es: seq<Event>, j: nat, id: Signature)
    requires Trace(window, ss, es) && Init(ss[0]) && j < |es| && Decides(ss, es, j, id)
    ensures Accepts(ss, es, j, id) <==>
            forall i :: 0 <= i < j && Accepts(ss, es, i, id) && NoneAccepted(ss, es, i + 1, j, id) ==>
              Passed(window, ss, es, i, j)
  {
    if NoneAccepted(ss, es, 0, j, id) {
      NothingSeen(window, ss, es, j, id);
      DecisionMeans(window, ss, es, j, id);
    } else {
      var i := LatestAcceptance(ss, es, j, id);
      forall k | 0 <= k < j && Accepts(ss, es, k, id) && NoneAccepted(ss, es, k + 1, j, id)
        ensures k == i
      {
      }
      AcceptedAgainIff(window, ss, es, i, j, id);
    }
  }

  lemma {:induction false} LatestAcceptance(ss: seq<State>, es: seq<Event>, j: nat, id: Signature) returns (i: nat)
    requires j <= |es| < |ss| && !NoneAccepted(ss, es, 0, j, id)
    ensures i < j && Accepts(ss, es, i, id) && NoneAccepted(ss, es, i + 1, j, id)
    decreases j
  {
    i := j - 1;
    if !Accepts(ss, es, i, id) {
      i := LatestAcceptance(ss, es, j - 1, id);
    }
  }

  /** Two acceptances of one signature, the later one reading less than a window after the earlier. */
  predicate TooClose(window: nat, ss: seq<State>, es: seq<Event>, i: nat, j: nat, id: Signature)
    requires i < j < |es| < |ss|
  {
    && Accepts(ss, es, i, id) && Accepts(ss, es, j, id)
    && Reading(ss, es, j) < Reading(ss, es, i) + window
  }

  /** A decision that the latest acceptance should have refused, after a sweep a full window late. */
  predicate LateSweepBetween(window: nat, ss: seq<State>, es: seq<Event>, i: nat, j: nat, id: Signature)
    requires i < j < |es| < |ss|
  {
    && Accepts(ss, es, i, id) && NoneAccepted(ss, es, i + 1, j, id) && Decides(ss, es, j, id)
    && Reading(ss, es, j) < Reading(ss, es, i) + window
    && Overtaken(window, ss, es, i, j)
  }

  lemma {:induction false} CloseNeighbours(window: nat, ss: seq<State>, es: seq<Event>, i: nat, j: nat, id: Signature)
    returns (m: nat, n: nat)
    requires Trace(window, ss, es) && i < j < |es| && TooClose(window, ss, es, i, j, id)
    ensures m < n < |es| && TooClose(window, ss, es, m, n, id) && NoneAccepted(ss, es, m + 1, n, id)
    decreases j
  {
    m := LatestAcceptance(ss, es, j, id);
    n := j;
    if Reading(ss, es, m) + window <= Reading(ss, es, j) {
      m, n := CloseNeighbours(window, ss, es, i, m, id);
    }
  }

  /** In every run, two calls are accepted within one window of each other exactly when a sweep reading a
      full window after some acceptance gets in before a call that this acceptance should have refused. */
  lemma {:induction false} TooCloseIffLateSweep(window: nat, ss: seq<State>, es: seq<Event>, id: Signature)
    requires Trace(window, ss, es) && Init(ss[0])
    ensures (exists i, j :: 0 <= i < j < |es| && TooClose(window, ss, es, i, j, id)) <==>
            (exists i, j :: 0 <= i < j < |es| && LateSweepBetween(window, ss, es, i, j, id))
  {
    if i, j :| 0 <= i < j < |es| && TooClose(window, ss, es, i, j, id) {
      var m, n := CloseNeighbours(window, ss, es, i, j, id);
      AcceptedAgainIff(window, ss, es, m, n, id);
      assert LateSweepBetween(window, ss, es, m, n, id);
    }
    if i, j :| 0 <= i < j < |es| && LateSweepBetween(window, ss, es, i, j, id) {
      AcceptedAgainIff(window, ss, es, i, j, id);
      assert TooClose(window, ss, es, i, j, id);
    }
  }

  lemma {:induction false} OvertakenWider(window: nat, ss: seq<State>, es: seq<Event>, m: nat, n: nat, i: nat, j: nat)
    requires i <= m < n <= j <= |es| < |ss| && Overtaken(window, ss, es, m, n)
    requires Reading(ss, es, i) <= Reading(ss, es, m)
    ensures Overtaken(window, ss, es, i, j)
  {
    var k :| m < k < n && SweepsFrom(ss, es, k, Reading(ss, es, m) + window);
    assert SweepsFrom(ss, es, k, Reading(ss, es, i) + window);
  }

  /** Whichever two acceptances come too close, a sweep a full window after the first came between them. */
  lemma {:induction false} CloseMeansOvertaken(window: nat, ss: seq<State>, es: seq<Event>, i: nat, j: nat, id: Signature)
    requires Trace(window, ss, es) && i < j < |es| && TooClose(window, ss, es, i, j, id)
    ensures Overtaken(window, ss, es, i, j)
    decreases j
  {
    var m := LatestAcceptance(ss, es, j, id);
    if m > i && Reading(ss, es, m) < Reading(ss, es, i) + window {
      CloseMeansOvertaken(window, ss, es, i, m, id);
      OvertakenWider(window, ss, es, i, m, i, j);
    } else {
      AcceptedAgainIff(window, ss, es, m, j, id);
      OvertakenWider(window, ss, es, m, j, i, j);
    }
  }

  /** Every run that reaches a state is a trace to it. */
  lemma {:induction false} ReachesIsTrace(window: nat, s: State, es: seq<Event>, s': State) returns (ss: seq<State>)
    requires Reaches(window, s, es, s')
    ensures Trace(window, ss, es) && ss[0] == s && ss[|es|] == s'
    decreases |es|
  {
    if es == [] {
      ss := [s];
    } else {
      var tail := ReachesIsTrace(window, Do(window, s, es[0]), es[1..], s');
      ss := [s] + tail;
      forall k | 0 <= k < |es|
        ensures Enabled(ss[k], es[k]) && ss[k + 1] == Do(window, ss[k], es[k])
      {
        if k > 0 {
          assert es[k] == es[1..][k - 1] && ss[k] == tail[k - 1] && ss[k + 1] == tail[k];
        }
      }
    }
  }

  // ---------------------------------------------------------------- one call by itself

  /** A call that has arrived has at most one step it can take. */
  lemma {:induction false} OneStepAtATime(s: State, e: Event, f: Event)
    requires Enabled(s, e) && Enabled(s, f) && e.call == f.call && !e.Arrive? && !f.Arrive?
    ensures e == f
  {
  }

  /** The state `s'` after one call with this reading has gone through alone, as in the sequential code. */
  ghost predicate WentThrough(window: nat, s: State, c: CallId, id: Signature, now: Time, s': State) {
    var due := now >= s.lastSweep + window / 4 || window < 4;
    var accepted := !(id in s.seen && s.seen[id] > now);
    && s'.calls == s.calls[c := Call(id, Answered(now, accepted))]
    && s'.lastSweep == (if due then now else s.lastSweep)
    && (forall x :: x != id ==>
          (x in s'.seen <==> x in s.seen && (due || |s.seen| >= 100_000 ==> s.seen[x] > now)))
    && (forall x :: x != id && x in s'.seen ==> s'.seen[x] == s.seen[x])
    && id in s'.seen && s'.seen[id] == (if accepted then now + window else s.seen[id])
  }

  /** Its first three steps: it has read the time of the last sweep and counted the entries. */
  lemma {:induction false} UpToCount(window: nat, s: State, c: CallId, id: Signature, now: Time)
    returns (es: seq<Event>, d: State)
    requires c !in s.calls
    ensures es == [Arrive(c, id, now), LockSweepTime(c), LockCount(c)] && Reaches(window, s, es, d)
    ensures var due := now >= s.lastSweep + window / 4 || window < 4;
            && d.seen == s.seen && d.lastSweep == (if due then now else s.lastSweep)
            && d.calls == s.calls[c := Call(id, Judged(now, due || |s.seen| >= 100_000))]
  {
    var a := Do(window, s, Arrive(c, id, now));
    OneMore(window, s, [], s, Arrive(c, id, now));
    var b := Do(window, a, LockSweepTime(c));
    OneMore(window, s, [Arrive(c, id, now)], a, LockSweepTime(c));
    d := Do(window, b, LockCount(c));
    OneMore(window, s, [Arrive(c, id, now), LockSweepTime(c)], b, LockCount(c));
    es := [Arrive(c, id, now), LockSweepTime(c)] + [LockCount(c)];
  }

  /** Its last one or two: it sweeps if that is due, and decides. */
  lemma {:induction false} SweepAndDecide(window: nat, d: State, c: CallId) returns (es: seq<Event>, s': State)
    requires c in d.calls && d.calls[c].stage.Judged?
    ensures Reaches(window, d, es, s') && forall i :: 0 <= i < |es| ==> es[i].call == c
    ensures var id, now := d.calls[c].id, d.calls[c].stage.now;
            var accepted := !(id in d.seen && d.seen[id] > now);
            && s'.calls == d.calls[c := Call(id, Answered(now, accepted))] && s'.lastSweep == d.lastSweep
            && (forall x :: x != id ==>
                  (x in s'.seen <==> x in d.seen && (d.calls[c].stage.sweep ==> d.seen[x] > now)))
            && (forall x :: x != id && x in s'.seen ==> s'.seen[x] == d.seen[x])
            && id in s'.seen && s'.seen[id] == (if accepted then now + window else d.seen[id])
  {
    var m := d;
    es := [];
    if d.calls[c].stage.sweep {
      m := Do(window, d, LockRetain(c));
      OneMore(window, d, [], d, LockRetain(c));
      es := [] + [LockRetain(c)];
    }
    s' := Do(window, m, LockDecide(c));
    OneMore(window, d, es, m, LockDecide(c));
    es := es + [LockDecide(c)];
  }

  /** A call that nobody interrupts acts as the sequential code does. */
  lemma {:induction false} Undisturbed(window: nat, s: State, c: CallId, id: Signature, now: Time)
    returns (es: seq<Event>, s': State)
    requires c !in s.calls
    ensures Reaches(window, s, es, s') && es != [] && es[0] == Arrive(c, id, now)
    ensures forall i :: 0 <= i < |es| ==> es[i].call == c
    ensures WentThrough(window, s, c, id, now, s')
  {
    var first, d := UpToCount(window, s, c, id, now);
    var second;
    second, s' := SweepAndDecide(window, d, c);
    es := first + second;
    ReachesAppend(window, s, first, d, second, s');
  }

  // ---------------------------------------------------------------- the window bound is tight

  function Sig(n: nat): Signature {
    Signature(n, [])
  }

  lemma {:induction false} ReachesAppend(window: nat, s: State, es: seq<Event>, m: State, fs: seq<Event>, s': State)
    requires Reaches(window, s, es, m) && Reaches(window, m, fs, s')
    ensures Reaches(window, s, es + fs, s')
    decreases |es|
  {
    if es == [] {
      assert es + fs == fs;
    } else {
      assert (es + fs)[0] == es[0] && (es + fs)[1..] == es[1..] + fs;
      ReachesAppend(window, Do(window, s, es[0]), es[1..], m, fs, s');
    }
  }

  lemma {:induction false} OneMore(window: nat, s: State, es: seq<Event>, m: State, e: Event)
    requires Reaches(window, s, es, m) && Enabled(m, e)
    ensures Reaches(window, s, es + [e], Do(window, m, e))
  {
    assert Reaches(window, Do(window, m, e), [e][1..], Do(window, m, e));
    ReachesAppend(window, s, es, m, [e], Do(window, m, e));
  }

  /** A ledger built at time 0, before any clock reading. */
  const S0 := State(map[], 0, map[], map[])
  const DONE0 := Call(Sig(7), Answered(0, true))
  const WAIT1 := Call(Sig(7), Ready(3))
  const DONE1 := Call(Sig(7), Answered(3, true))
  const SWEPT2 := Call(Sig(8), Ready(4))
  const S1 := State(map[Sig(7) := 4], 0, map[0 := DONE0], map[Sig(7) := 0])
  const S2 := State(map[Sig(7) := 4], 3, map[0 := DONE0, 1 := WAIT1], map[Sig(7) := 0])
  const S3 := State(map[], 4, map[0 := DONE0, 1 := WAIT1, 2 := SWEPT2], map[Sig(7) := 0])
  const S4 := State(map[Sig(7) := 7], 4, map[0 := DONE0, 1 := DONE1, 2 := SWEPT2], map[Sig(7) := 0])

  /** Call 0 reads time 0 and is accepted. */
  lemma {:induction false} FirstAccepted() returns (es: seq<Event>)
    ensures Reaches(4, S0, es, S1)
  {
    OneMore(4, S0, [], S0, Arrive(0, Sig(7), 0));
    es := [] + [Arrive(0, Sig(7), 0)];
    var a := S0.(calls := map[0 := Call(Sig(7), Timed(0))]);
    assert Do(4, S0, Arrive(0, Sig(7), 0)) == a;
    OneMore(4, S0, es, a, LockSweepTime(0));
    es := es + [LockSweepTime(0)];
    var b := S0.(calls := map[0 := Call(Sig(7), Due(0, false))]);
    assert Do(4, a, LockSweepTime(0)) == b;
    OneMore(4, S0, es, b, LockCount(0));
    es := es + [LockCount(0)];
    var c := S0.(calls := map[0 := Call(Sig(7), Judged(0, false))]);
    assert |b.seen| == 0;
    assert Do(4, b, LockCount(0)) == c;
    OneMore(4, S0, es, c, LockDecide(0));
    es := es + [LockDecide(0)];
    assert Do(4, c, LockDecide(0)) == S1;
  }

  /** Call 1 reads time 3, sweeps nothing out, and stalls before it decides. */
  lemma {:induction false} SecondStalls(es0: seq<Event>) returns (es: seq<Event>)
    requires Reaches(4, S0, es0, S1)
    ensures Reaches(4, S0, es, S2)
  {
    OneMore(4, S0, es0, S1, Arrive(1, Sig(7), 3));
    var a := S1.(calls := map[0 := DONE0, 1 := Call(Sig(7), Timed(3))]);
    assert Do(4, S1, Arrive(1, Sig(7), 3)) == a;
    es := es0 + [Arrive(1, Sig(7), 3)];
    OneMore(4, S0, es, a, LockSweepTime(1));
    var b := S1.(lastSweep := 3, calls := map[0 := DONE0, 1 := Call(Sig(7), Due(3, true))]);
    assert Do(4, a, LockSweepTime(1)) == b;
    es := es + [LockSweepTime(1)];
    OneMore(4, S0, es, b, LockCount(1));
    var c := b.(calls := map[0 := DONE0, 1 := Call(Sig(7), Judged(3, true))]);
    assert Do(4, b, LockCount(1)) == c;
    es := es + [LockCount(1)];
    OneMore(4, S0, es, c, LockRetain(1));
    assert Unexpired(c.seen, 3) == c.seen;
    assert Do(4, c, LockRetain(1)) == S2;
    es := es + [LockRetain(1)];
  }

  /** Call 2 reads time 4 and sweeps the first acceptance out. */
  lemma {:induction false} ThirdSweeps(es0: seq<Event>) returns (es: seq<Event>)
    requires Reaches(4, S0, es0, S2)
    ensures Reaches(4, S0, es, S3)
  {
    OneMore(4, S0, es0, S2, Arrive(2, Sig(8), 4));
    var a := S2.(calls := S2.calls[2 := Call(Sig(8), Timed(4))]);
    es := es0 + [Arrive(2, Sig(8), 4)];
    OneMore(4, S0, es, a, LockSweepTime(2));
    var b := S2.(lastSweep := 4, calls := S2.calls[2 := Call(Sig(8), Due(4, true))]);
    assert Do(4, a, LockSweepTime(2)) == b;
    es := es + [LockSweepTime(2)];
    OneMore(4, S0, es, b, LockCount(2));
    var c := b.(calls := S2.calls[2 := Call(Sig(8), Judged(4, true))]);
    assert Do(4, b, LockCount(2)) == c;
    es := es + [LockCount(2)];
    OneMore(4, S0, es, c, LockRetain(2));
    assert Unexpired(c.seen, 4) == map[];
    assert Do(4, c, LockRetain(2)) == S3;
    es := es + [LockRetain(2)];
  }

  /** One reading exactly a window later is enough to break it: with a window of 4, two calls whose
      readings are 3 apart are both accepted. The bound in `AtMostOnceInWindow` cannot be relaxed. */
  lemma {:induction false} LateSweepForgets() returns (es: seq<Event>)
    ensures Init(S0) && S0.lastSweep == 0 && Reaches(4, S0, es, S4)
    ensures Accepted(S4, 0, Sig(7)) && S4.calls[0].stage.now == 0
    ensures Accepted(S4, 1, Sig(7)) && S4.calls[1].stage.now == 3
    ensures AllBefore(S4, 5) && !AllBefore(S4, 4)
  {
    es := FirstAccepted();
    es := SecondStalls(es);
    es := ThirdSweeps(es);
    OneMore(4, S0, es, S3, LockDecide(1));
    assert Do(4, S3, LockDecide(1)) == S4;
    es := es + [LockDecide(1)];
    assert 2 in S4.calls && S4.calls[2].stage.now == 4;
  }
}
