/**
 External feed ingestion: per-feed filtering, first-occurrence aggregation, the push in the group's mode,
 and the outcome of a run.
 */
module Ingestion {
  import opened Optional
  import opened RemoteVault
  import opened Delivery
  import Bogon
  import Cidr
  import opened Jobs

  const DAY: nat := 86_400_000_000_000

  datatype ParsedRecord = ParsedRecord(address: string, lastSeenAt: Option<Instant>)

  datatype Feed = Feed(name: string, maxAgeDays: Option<int>, skipBogons: Option<bool>)

  /** One feed's outcome: its records, or an error. */
  datatype FeedResult = FeedResult(name: string, records: Option<seq<ParsedRecord>>)

  // ---------------------------------------------------------------- filtering one feed

  /** Not provably older than the feed allows. */
  predicate YoungEnough(r: ParsedRecord, maxAgeDays: Option<int>, now: Instant) {
    maxAgeDays.None? || r.lastSeenAt.None? || r.lastSeenAt.value as int >= now as int - maxAgeDays.value * DAY
  }

  function Young(rs: seq<ParsedRecord>, maxAgeDays: Option<int>, now: Instant): seq<string> {
    if rs == [] then []
    else (if YoungEnough(rs[0], maxAgeDays, now) then [rs[0].address] else []) + Young(rs[1..], maxAgeDays, now)
  }

  datatype Policy = Policy(parse: string -> Option<Cidr.Network>, groupSkipsBogons: bool, feeds: seq<Feed>)

  function FeedNamed(feeds: seq<Feed>, name: string): Option<Feed> {
    if feeds == [] then None else if feeds[0].name == name then Some(feeds[0]) else FeedNamed(feeds[1..], name)
  }

  /** The feed's own override, or else the group's policy. */
  function SkipsBogons(p: Policy, feed: Option<Feed>): bool {
    if feed.Some? && feed.value.skipBogons.Some? then feed.value.skipBogons.value else p.groupSkipsBogons
  }

  function MaxAge(feed: Option<Feed>): Option<int> {
    if feed.Some? then feed.value.maxAgeDays else None
  }

  /** What records contribute when judged by one feed's age limit and bogon policy. */
  function Judged(p: Policy, feed: Option<Feed>, records: seq<ParsedRecord>, now: Instant): seq<string> {
    var addresses := Young(records, MaxAge(feed), now);
    if SkipsBogons(p, feed) then addresses else Bogon.Surviving(p.parse, addresses)
  }

  lemma {:induction false} YoungMembers(rs: seq<ParsedRecord>, maxAgeDays: Option<int>, now: Instant, a: string)
    ensures a in Young(rs, maxAgeDays, now) <==>
            exists k :: 0 <= k < |rs| && rs[k].address == a && YoungEnough(rs[k], maxAgeDays, now)
    decreases |rs|
  {
    if rs != [] {
      YoungMembers(rs[1..], maxAgeDays, now, a);
      if k :| 0 <= k < |rs| && rs[k].address == a && YoungEnough(rs[k], maxAgeDays, now) && k > 0 {
        assert rs[1..][k - 1] == rs[k];
      }
      if k :| 0 <= k < |rs| - 1 && rs[1..][k].address == a && YoungEnough(rs[1..][k], maxAgeDays, now) {
        assert rs[k + 1] == rs[1..][k];
      }
    }
  }

  /** Filtering by age keeps the order of the records. */
  lemma {:induction false} YoungAppend(p: seq<ParsedRecord>, q: seq<ParsedRecord>, maxAgeDays: Option<int>, now: Instant)
    ensures Young(p + q, maxAgeDays, now) == Young(p, maxAgeDays, now) + Young(q, maxAgeDays, now)
    decreases |p|
  {
    if p == [] {
      assert p + q == q;
    } else {
      assert (p + q)[0] == p[0] && (p + q)[1..] == p[1..] + q;
      YoungAppend(p[1..], q, maxAgeDays, now);
    }
  }

  /** An address gets through a feed exactly when one of its records was seen within the feed's days of
      86,400 seconds, or carries no sighting, or the feed sets no limit; and when the feed's own setting,
      or else the group's, waives the reserved-range filter, or the address passes it. */
  lemma {:induction false} JudgedMeans(p: Policy, feed: Feed, records: seq<ParsedRecord>, now: Instant, a: string)
    ensures a in Judged(p, Some(feed), records, now) <==>
            && (exists k :: && 0 <= k < |records|
                            && records[k].address == a
                            && (|| feed.maxAgeDays == None
                                || records[k].lastSeenAt == None
                                || now - records[k].lastSeenAt.value <= feed.maxAgeDays.value * 86_400_000_000_000))
            && (|| feed.skipBogons == Some(true)
                || (feed.skipBogons == None && p.groupSkipsBogons)
                || (p.parse(a).Some? && !Bogon.IsBogon(p.parse(a).value)))
  {
    YoungMembers(records, feed.maxAgeDays, now, a);
    Bogon.SurvivingMembers(p.parse, Young(records, feed.maxAgeDays, now), a);
  }

  /** What one result contributes, judged by the feed that its name finds. */
  function Contribution(p: Policy, r: FeedResult, now: Instant): seq<string>
    requires r.records.Some?
  {
    Judged(p, FeedNamed(p.feeds, r.name), r.records.value, now)
  }

  /** Everything the successful feeds contribute, in feed order. */
  function Contributions(p: Policy, results: seq<FeedResult>, clock: nat -> Instant): seq<string>
    decreases |results|
  {
    if results == [] then []
    else
      var n := |results| - 1;
      Contributions(p, results[..n], clock) +
      if results[n].records.Some? then Contribution(p, results[n], clock(n)) else []
  }

  /** Feed names are unique. */
  predicate DistinctNames(feeds: seq<Feed>) {
    forall i, j :: 0 <= i < j < |feeds| ==> feeds[i].name != feeds[j].name
  }

  lemma {:induction false} FeedNamedIsOwn(feeds: seq<Feed>, i: nat)
    requires DistinctNames(feeds) && i < |feeds|
    ensures FeedNamed(feeds, feeds[i].name) == Some(feeds[i])
    decreases |feeds|
  {
    if i > 0 {
      assert feeds[0].name != feeds[i].name && feeds[1..][i - 1] == feeds[i];
      FeedNamedIsOwn(feeds[1..], i - 1);
    }
  }

  /** The records of the i-th result judged by the i-th feed, in feed order. */
  function OwnContributions(p: Policy, results: seq<FeedResult>, clock: nat -> Instant): seq<string>
    requires |results| <= |p.feeds|
    decreases |results|
  {
    if results == [] then []
    else
      var n := |results| - 1;
      OwnContributions(p, results[..n], clock) +
      if results[n].records.Some? then Judged(p, Some(p.feeds[n]), results[n].records.value, clock(n)) else []
  }

  /** The fetch answers in feed order, every success under its feed's name. */
  predicate InFeedOrder(feeds: seq<Feed>, results: seq<FeedResult>) {
    && |results| <= |feeds|
    && forall i :: 0 <= i < |results| && results[i].records.Some? ==> results[i].name == feeds[i].name
  }

  /** With unique names, looking a feed up by name never borrows another feed's age limit or bogon policy. */
  lemma {:induction false} JudgedByOwnFeed(p: Policy, results: seq<FeedResult>, clock: nat -> Instant)
    requires DistinctNames(p.feeds) && InFeedOrder(p.feeds, results)
    ensures Contributions(p, results, clock) == OwnContributions(p, results, clock)
    decreases |results|
  {
    if results != [] {
      var n := |results| - 1;
      JudgedByOwnFeed(p, results[..n], clock);
      FeedNamedIsOwn(p.feeds, n);
    }
  }

  /** How many young addresses a feed's bogon policy removes. */
  function Removed(p: Policy, r: FeedResult, now: Instant): int
    requires r.records.Some?
  {
    |Young(r.records.value, MaxAge(FeedNamed(p.feeds, r.name)), now)| - |Contribution(p, r, now)|
  }

  function TotalRemoved(p: Policy, results: seq<FeedResult>, clock: nat -> Instant): int
    decreases |results|
  {
    if results == [] then 0
    else
      var n := |results| - 1;
      TotalRemoved(p, results[..n], clock) + if results[n].records.Some? then Removed(p, results[n], clock(n)) else 0
  }

  // ---------------------------------------------------------------- first occurrences

  function FirstOccurrences(s: seq<string>): seq<string>
    decreases |s|
  {
    if s == [] then []
    else
      var init, last := s[..|s| - 1], s[|s| - 1];
      FirstOccurrences(init) + if last in init then [] else [last]
  }

  lemma {:induction false} FirstOccurrencesMembers(s: seq<string>, x: string)
    ensures x in FirstOccurrences(s) <==> x in s
    decreases |s|
  {
    if s != [] {
      FirstOccurrencesMembers(s[..|s| - 1], x);
      assert s == s[..|s| - 1] + [s[|s| - 1]];
    }
  }

  /** Deduplication loses no address, repeats none, and keeps the order of first appearance. */
  lemma {:induction false} FirstOccurrencesMean(s: seq<string>, i: nat, j: nat)
    requires i < j < |FirstOccurrences(s)|
    ensures FirstOccurrences(s)[i] != FirstOccurrences(s)[j]
    ensures FirstIndex(s, FirstOccurrences(s)[i]) < FirstIndex(s, FirstOccurrences(s)[j]) < |s|
    decreases |s|
  {
    var init, last := s[..|s| - 1], s[|s| - 1];
    var d := FirstOccurrences(init);
    assert s == init + [last];
    FirstOccurrencesMembers(init, FirstOccurrences(s)[i]);
    FirstOccurrencesMembers(init, FirstOccurrences(s)[j]);
    if i < |d| {
      assert d[i] in d;
      FirstIndexSnoc(init, last, d[i]);
    }
    if j < |d| {
      assert d[j] in d;
      FirstIndexSnoc(init, last, d[j]);
      FirstOccurrencesMean(init, i, j);
    } else {
      FirstIndexSnoc(init, last, last);
      FirstOccurrencesMembers(init, last);
    }
  }

  function FirstIndex(s: seq<string>, x: string): (i: nat)
    ensures i <= |s| && (i < |s| <==> x in s)
    decreases |s|
  {
    if s == [] || s[0] == x then 0 else
      assert s == [s[0]] + s[1..];
      1 + FirstIndex(s[1..], x)
  }

  lemma {:induction false} FirstIndexSnoc(s: seq<string>, last: string, x: string)
    ensures FirstIndex(s + [last], x) ==
            if x in s then FirstIndex(s, x) else if x == last then |s| else |s| + 1
    decreases |s|
  {
    if s == [] {
      assert s + [last] == [last];
      assert [last][1..] == [];
    } else {
      assert (s + [last])[0] == s[0] && (s + [last])[1..] == s[1..] + [last];
      assert s == [s[0]] + s[1..];
      FirstIndexSnoc(s[1..], last, x);
    }
  }

  // ---------------------------------------------------------------- aggregation

  method MergeInto(aggregated0: seq<string>, seen0: set<string>, addresses: seq<string>, ghost before: seq<string>)
    returns (aggregated: seq<string>, seen: set<string>)
    requires aggregated0 == FirstOccurrences(before) && forall x :: x in seen0 <==> x in before
    ensures aggregated == FirstOccurrences(before + addresses)
    ensures forall x :: x in seen <==> x in before + addresses
  {
    aggregated, seen := aggregated0, seen0;
    assert before + addresses[..0] == before;
    for i := 0 to |addresses|
      invariant aggregated == FirstOccurrences(before + addresses[..i])
      invariant forall x :: x in seen <==> x in before + addresses[..i]
    {
      var a := addresses[i];
      ghost var upTo := before + addresses[..i];
      assert before + addresses[..i + 1] == upTo + [a];
      assert (upTo + [a])[..|upTo|] == upTo;
      if a !in seen {
        seen := seen + {a};
        aggregated := aggregated + [a];
      }
    }
    assert addresses[..|addresses|] == addresses;
  }

  /** The aggregated list is the first occurrences of what the successful feeds contribute; the failed ones
      and the removed addresses are counted. */
  method Aggregate(p: Policy, results: seq<FeedResult>, clock: nat -> Instant)
    returns (aggregated: seq<string>, errors: nat, bogons: nat)
    ensures aggregated == FirstOccurrences(Contributions(p, results, clock))
    ensures errors == Failed(results) && bogons == TotalRemoved(p, results, clock)
  {
    var seen: set<string> := {};
    aggregated, errors, bogons := [], 0, 0;
    ghost var all: seq<string> := [];
    for i := 0 to |results|
      invariant all == Contributions(p, results[..i], clock)
      invariant aggregated == FirstOccurrences(all) && forall x :: x in seen <==> x in all
      invariant errors == Failed(results[..i]) && bogons == TotalRemoved(p, results[..i], clock)
    {
      var r := results[i];
      assert results[..i + 1][..i] == results[..i];
      if r.records.Some? {
        var feed := FeedNamed(p.feeds, r.name);
        var addresses := Young(r.records.value, MaxAge(feed), clock(i));
        if !SkipsBogons(p, feed) {
          var kept, removed := Bogon.Sanitize(p.parse, addresses);
          addresses := kept;
          bogons := bogons + removed;
        }
        assert addresses == Contribution(p, r, clock(i));
        aggregated, seen := MergeInto(aggregated, seen, addresses, all);
        all := all + addresses;
      } else {
        errors := errors + 1;
        assert all + [] == all;
      }
    }
    assert results[..|results|] == results;
  }

  function Failed(results: seq<FeedResult>): nat
    decreases |results|
  {
    if results == [] then 0
    else Failed(results[..|results| - 1]) + if results[|results| - 1].records.None? then 1 else 0
  }

  predicate AllFailed(results: seq<FeedResult>) {
    forall r :: r in results ==> r.records.None?
  }

  predicate NoneFailed(results: seq<FeedResult>) {
    forall r :: r in results ==> r.records.Some?
  }

  lemma {:induction false} FailedMeans(results: seq<FeedResult>)
    ensures Failed(results) <= |results|
    ensures Failed(results) == |results| <==> AllFailed(results)
    ensures Failed(results) == 0 <==> NoneFailed(results)
    decreases |results|
  {
    if results != [] {
      FailedMeans(results[..|results| - 1]);
      assert results == results[..|results| - 1] + [results[|results| - 1]];
    }
  }

  // ---------------------------------------------------------------- one execution

  /** Unrecognised modes fall back to the one that deletes nothing. */
  function ParseMode(raw: string): BatchMode {
    if raw == "full_replace" then FullReplace else Upsert
  }

  function ToInput(address: string): Input {
    Input(address, None, None, None, None, None, None)
  }

  function ToInputs(addresses: seq<string>): seq<Input> {
    seq(|addresses|, i requires 0 <= i < |addresses| => ToInput(addresses[i]))
  }

  /** What a delivery in the run's mode leaves in its target, by the mode's name. */
  lemma {:induction false} TargetMeans(
    mode: string, g0: Group, g: Group, sent: seq<Attempt>, list: seq<string>, ok: bool)
    requires Delivered(g0, g, sent, ToInputs(list), ParseMode(mode), ok)
    ensures mode == "full_replace" && list != [] && ok ==> Live(g) == set a | a in list
    ensures mode != "full_replace" ==> Live(g0) <= Live(g) && (ok ==> Live(g) == Live(g0) + set a | a in list)
    ensures ok ==> |AcceptedRecords(sent)| == |list|
    ensures ok ==> forall k :: 0 <= k < |list| ==>
              AcceptedRecords(sent)[k] == Input(list[k], None, None, None, None, None, None)
  {
    if mode == "full_replace" && list != [] && ok {
      ReplacedLiveSet(g0, g, sent, list);
    }
    if mode != "full_replace" {
      UpsertedLiveSet(g0, g, sent, list, ok);
    }
    if ok {
      AcceptedAreBare(g0, g, sent, list, ParseMode(mode));
    }
  }

  /** One run: aggregate, push to every target, decide the outcome. */
  method Execute(p: Policy, results: seq<FeedResult>, clock: nat -> Instant, mode: string, targets: seq<Option<Endpoint>>)
    returns (status: Status, items: nat, ghost list: seq<string>, ghost oks: seq<bool>, ghost sents: seq<seq<Attempt>>)
    requires Separate(targets)
    requires forall t :: t in Existing(targets) ==> t.Valid()
    modifies Existing(targets)
    ensures list == FirstOccurrences(Contributions(p, results, clock)) && items == |list|
    ensures |oks| == |sents| == |targets|
    ensures status == SUCCESS <==> NoneFailed(results) && All(oks) && list != []
    ensures status == FAILED <==>
              || (results != [] && AllFailed(results))
              || (targets != [] && !Any(oks))
    ensures forall i :: 0 <= i < |targets| ==>
              Pushed(targets[i], old(LogOf(targets[i])), old(GroupOf(targets[i])),
                     sents[i], ToInputs(list), ParseMode(mode), oks[i])
    ensures mode == "full_replace" && list != [] ==>
              forall i :: 0 <= i < |targets| && targets[i].Some? && oks[i] ==>
                Live(targets[i].value.group) == set a | a in list
    ensures mode != "full_replace" ==>
              forall i :: 0 <= i < |targets| && targets[i].Some? ==>
                && old(Live(targets[i].value.group)) <= Live(targets[i].value.group)
                && (oks[i] ==> Live(targets[i].value.group) == old(Live(targets[i].value.group)) + set a | a in list)
    ensures forall i :: 0 <= i < |targets| && oks[i] ==>
              && |AcceptedRecords(sents[i])| == |list|
              && forall k :: 0 <= k < |list| ==>
                   AcceptedRecords(sents[i])[k] == Input(list[k], None, None, None, None, None, None)
  {
    var aggregated, errors, bogons := Aggregate(p, results, clock);
    FailedMeans(results);
    items, list := |aggregated|, aggregated;
    var anySuccess, allSucceeded;
    anySuccess, allSucceeded, oks, sents := PushList(targets, ToInputs(aggregated), ParseMode(mode));
    assert targets != [] && !Any(oks) ==> !oks[0];
    forall i | 0 <= i < |targets| && targets[i].Some?
      ensures mode == "full_replace" && list != [] && oks[i] ==> Live(targets[i].value.group) == set a | a in list
      ensures mode != "full_replace" ==> old(Live(targets[i].value.group)) <= Live(targets[i].value.group)
      ensures mode != "full_replace" && oks[i] ==>
                Live(targets[i].value.group) == old(Live(targets[i].value.group)) + set a | a in list
      ensures oks[i] ==> |AcceptedRecords(sents[i])| == |list|
      ensures oks[i] ==> forall k :: 0 <= k < |list| ==>
                AcceptedRecords(sents[i])[k] == Input(list[k], None, None, None, None, None, None)
    {
      TargetMeans(mode, old(GroupOf(targets[i])), targets[i].value.group, sents[i], list, oks[i]);
    }
    var allFeedsFailed := |results| != 0 && errors == |results|;
    status :=
      if allFeedsFailed then FAILED
      else if errors == 0 && allSucceeded then (if items == 0 then PARTIAL else SUCCESS)
      else if anySuccess then PARTIAL
      else FAILED;
  }

  // ---------------------------------------------------------------- what a run leaves live

  predicate NoTombstones(inputs: seq<Input>) {
    forall i :: 0 <= i < |inputs| ==> inputs[i].isDeleted != Some(true)
  }

  lemma {:induction false} UpsertGrowsLive(g: Group, rs: seq<Input>)
    requires NoTombstones(rs)
    ensures Live(UpsertAll(g, rs)) == Live(g) + Addresses(rs)
  {
    var u := UpsertAll(g, rs);
    forall a
      ensures a in Live(u) <==> a in Live(g) || a in Addresses(rs)
    {
      UpsertMeans(g, rs, a);
      MentionsAreLive(rs, a);
      assert a in Live(u) <==> Get(u, a).Some? && !Get(u, a).value.isDeleted;
      assert a in Live(g) <==> Get(g, a).Some? && !Get(g, a).value.isDeleted;
    }
  }

  /** However far an upserting delivery gets, no live address is taken down. */
  lemma {:induction false} UpsertKeepsLive(g: Group, start: Progress, log: seq<Attempt>, end: Progress)
    requires Tracks(start, log, end) && start.mode == Upsert && NoTombstones(start.rest)
    ensures Live(g) <= Live(Replay(g, log))
    decreases |log|
  {
    if log != [] {
      UpsertGrowsLive(g, log[0].records);
      UpsertKeepsLive(StepGroup(g, log[0]), After(start, log[0]), log[1..], end);
    }
  }

  lemma {:induction false} SentAddresses(list: seq<string>)
    ensures Addresses(ToInputs(list)) == set a | a in list
  {
    var inputs := ToInputs(list);
    forall a | a in list
      ensures a in Addresses(inputs)
    {
      var i :| 0 <= i < |list| && list[i] == a;
      assert inputs[i] in inputs && inputs[i].address == a;
    }
  }

  /** An upserting run takes no live address down, finished or not, and a finished one adds the sent ones. */
  lemma {:induction false} UpsertedLiveSet(g0: Group, g: Group, sent: seq<Attempt>, list: seq<string>, ok: bool)
    requires Delivered(g0, g, sent, ToInputs(list), Upsert, ok)
    ensures Live(g0) <= Live(g)
    ensures ok ==> Live(g) == Live(g0) + set a | a in list
  {
    var inputs := ToInputs(list);
    var owed :| Tracks(Progress(inputs, Upsert), sent, owed) && (ok <==> owed.rest == []);
    UpsertKeepsLive(g0, Progress(inputs, Upsert), sent, owed);
    UpsertGrowsLive(g0, inputs);
    SentAddresses(list);
  }

  /** The accepted requests of a successful target carry the bare addresses of the list, in order. */
  lemma {:induction false} AcceptedAreBare(g0: Group, g: Group, sent: seq<Attempt>, list: seq<string>, base: BatchMode)
    requires Delivered(g0, g, sent, ToInputs(list), base, true)
    ensures |AcceptedRecords(sent)| == |list|
    ensures forall k :: 0 <= k < |list| ==> AcceptedRecords(sent)[k] == Input(list[k], None, None, None, None, None, None)
  {
    var owed :| Tracks(Progress(ToInputs(list), base), sent, owed) && owed.rest == [];
    AcceptedIsPrefix(Progress(ToInputs(list), base), sent, owed);
    assert AcceptedRecords(sent) == ToInputs(list);
  }

  /** A successful replacing run of a non-empty list leaves exactly the sent addresses live. */
  lemma {:induction false} ReplacedLiveSet(g0: Group, g: Group, sent: seq<Attempt>, list: seq<string>)
    requires list != [] && Delivered(g0, g, sent, ToInputs(list), FullReplace, true)
    ensures Live(g) == set a | a in list
  {
    var inputs := ToInputs(list);
    forall a
      ensures a in Live(g) <==> a in list
    {
      ReplaceLiveSet(g0, inputs, a);
      MentionsAreLive(inputs, a);
      MentionedIffAddressed(inputs, a);
      if a in list {
        var i :| 0 <= i < |list| && list[i] == a;
        assert inputs[i] in inputs && inputs[i].address == a;
      }
    }
  }

  lemma {:induction false} MentionsAreLive(inputs: seq<Input>, a: Address)
    requires NoTombstones(inputs)
    ensures NoTombstones(Mentions(inputs, a))
    decreases |inputs|
  {
    if inputs != [] {
      assert inputs == [inputs[0]] + inputs[1..];
      MentionsAreLive(inputs[1..], a);
    }
  }

  /** An empty list is never sent, so it clears nothing: a replacing run of it has the effect of replacing
      exactly when the target already had nothing live. */
  lemma {:induction false} EmptyReplaceClearsNothing(g0: Group, g: Group, sent: seq<Attempt>)
    requires Delivered(g0, g, sent, ToInputs([]), FullReplace, true)
    ensures g == g0
    ensures g == Apply(g0, [], FullReplace) <==> Live(g0) == {}
  {
    assert ToInputs([]) == [];
    var swept := Sweep(g0, {});
    assert Addresses([]) == {};
    if Live(g0) == {} {
      assert forall a :: a in g0 ==> g0[a].isDeleted by {
        forall a | a in g0
          ensures g0[a].isDeleted
        {
          assert a !in Live(g0);
        }
      }
    } else {
      var a :| a in Live(g0);
      assert swept[a].isDeleted && !g0[a].isDeleted;
    }
  }
}
