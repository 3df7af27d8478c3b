/**
 The anti-replay ledger. Accepted signatures are remembered until one window after their acceptance;
 expired ones are swept out from time to time.
 */
module Replay {
  type Time = nat

  /** The key that signed and the raw digest. */
  datatype Signature = Signature(key: nat, digest: seq<nat>)

  const MAX_TRACKED: nat := 100_000

  /** What a sweep at `now` leaves behind. */
  function Unexpired(seen: map<Signature, Time>, now: Time): map<Signature, Time> {
    map s | s in seen && seen[s] > now :: seen[s]
  }

  /** Elapsed time, zero when the reading is older. */
  function Elapsed(now: Time, since: Time): nat {
    if now >= since then now - since else 0
  }

  function Clamp(secs: int): nat {
    if secs < 1 then 1 else if secs > 3600 then 3600 else secs
  }

  class ReplayGuard {
    const window: nat
    var seen: map<Signature, Time>
    var lastSweep: Time
    /** The specification: a ledger that never forgets, holding the last acceptance of each signature. */
    ghost var last: map<Signature, Time>
    ghost var clock: Time

    /** Whatever the real ledger has dropped, the complete one holds as expired. */
    ghost predicate Valid()
      reads this
    {
      && (forall s :: s in seen ==> s in last && seen[s] == last[s] + window)
      && (forall s :: s in last && last[s] + window > clock ==> s in seen)
    }

    /** `second` is the number of clock ticks in a second. */
    constructor (windowSecs: int, second: nat, now: Time)
      ensures Valid() && seen == map[] && last == map[] && clock == now && lastSweep == now
      ensures windowSecs <= 1 ==> window == second
      ensures 1 <= windowSecs <= 3600 ==> window == windowSecs * second
      ensures windowSecs >= 3600 ==> window == 3600 * second
    {
      window, seen, lastSweep := Clamp(windowSecs) * second, map[], now;
      last, clock := map[], now;
    }

    method PruneIfDue(now: Time)
      requires Valid() && clock <= now
      modifies this`seen, this`lastSweep, this`clock
      ensures Valid() && clock == now
      ensures var due := now >= old(lastSweep) + window / 4 || window < 4;
              && lastSweep == (if due then now else old(lastSweep))
              && (due || |old(seen)| >= 100_000 ==>
                    forall s :: s in seen <==> s in old(seen) && old(seen)[s] > now)
              && (!due && |old(seen)| < 100_000 ==> seen == old(seen))
      ensures forall s :: s in seen ==> s in old(seen) && seen[s] == old(seen)[s]
    {
      clock := now;
      var due := Elapsed(now, lastSweep) >= window / 4;
      if due {
        lastSweep := now;
      }
      var overCapacity := |seen| >= MAX_TRACKED;
      if due || overCapacity {
        seen := Unexpired(seen, now);
      }
    }

    /** Sweeping never changes an answer: a call is accepted exactly when the ledger that never forgets
        holds no acceptance of the signature less than one window old. */
    method CheckAndRecord(id: Signature, now: Time) returns (accepted: bool)
      requires Valid() && clock <= now
      modifies this
      ensures Valid() && clock == now
      ensures accepted <==> id !in old(last) || old(last)[id] + window <= now
      ensures accepted ==> id in seen && seen[id] == now + window
      ensures forall s :: s != id && s in seen ==> s in old(seen) && seen[s] == old(seen)[s]
      ensures var due := now >= old(lastSweep) + window / 4 || window < 4;
              && lastSweep == (if due then now else old(lastSweep))
              && (due || |old(seen)| >= 100_000 ==> forall s :: s in seen && s != id ==> seen[s] > now)
              && (!due && |old(seen)| < 100_000 ==> forall s :: s in old(seen) ==> s in seen)
      ensures last == if accepted then old(last)[id := now] else old(last)
    {
      PruneIfDue(now);
      if id in seen && seen[id] > now {
        return false;
      }
      seen := seen[id := now + window];
      last := last[id := now];
      return true;
    }
  }
}
