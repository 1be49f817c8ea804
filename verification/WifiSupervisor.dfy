// Pico W: supervision of the WiFi link. Time is kept in 32-bit milliseconds; the
// ghost fields keep the same instants unbounded.
module WifiSupervisor {
  import opened Ump
  import opened Wrappers

  const CHECK_MS := 250
  const SETTLE_MS := 2000
  const RETRY_MS := 10000

  /** A restart of the chip, from the decision to the end of the join. */
  datatype Restart = Restart(began: nat, ended: nat)

  function Clock(t: nat): Word { t % WORD_RANGE }

  /** The 32-bit difference, as the code takes it. */
  function Since(now: Word, then_: Word): Word { (now - then_) % WORD_RANGE }

  /** A difference of clock readings never overstates the time that has passed. */
  lemma SinceIsElapsed(t: nat, now: nat)
    requires t <= now
    ensures Since(Clock(now), Clock(t)) <= now - t
    ensures now - t < WORD_RANGE ==> Since(Clock(now), Clock(t)) == now - t
  {
    assert (Clock(now) - Clock(t)) % WORD_RANGE == (now - t) % WORD_RANGE by {
      assert now == now / WORD_RANGE * WORD_RANGE + Clock(now) && t == t / WORD_RANGE * WORD_RANGE + Clock(t);
    }
  }

  lemma ClockNext(t: nat)
    ensures (Clock(t) + 1) % WORD_RANGE == Clock(t + 1)
  {}

  predicate Spaced(rs: seq<Restart>) {
    && (forall i :: 0 <= i < |rs| ==> rs[i].began <= rs[i].ended)
    && (forall i :: 0 < i < |rs| ==> rs[i - 1].ended + RETRY_MS <= rs[i].began)
  }

  lemma SpacedSnoc(rs: seq<Restart>, r: Restart)
    requires Spaced(rs) && r.began <= r.ended
    requires rs != [] ==> rs[|rs|-1].ended + RETRY_MS <= r.began
    ensures Spaced(rs + [r])
  {}

  lemma NoRestarts()
    ensures Spaced([])
  {}

  /** Restarts in one outage are bounded by the time it lasts. */
  lemma {:induction false} RestartsAreRare(rs: seq<Restart>)
    requires rs != [] && Spaced(rs)
    ensures rs[|rs|-1].began - rs[0].began >= RETRY_MS * (|rs| - 1)
  {
    if |rs| > 1 {
      var init := rs[..|rs|-1];
      RestartsAreRare(init);
      assert rs[|rs|-2].ended + RETRY_MS <= rs[|rs|-1].began;
    }
  }

  class WifiSupervisor {
    var up: bool
    var lastCheckMs: Word
    var lostAtMs: Word
    var lastTryMs: Word
    var drops: Word
    var seenTimeouts: Word
    var chipUp: bool             // the driver is initialised
    ghost var losses: nat        // links lost so far
    ghost var backs: nat         // times the caller was told that the link is back
    ghost var restarts: seq<Restart>   // in this outage, or the last one
    ghost var triedAt: nat
    ghost var time: nat

    ghost predicate Valid()
      reads this
    {
      && losses == backs + (if up then 0 else 1)
      && drops == Clock(losses)
      && (up ==> chipUp)
      && lastTryMs == Clock(triedAt) && triedAt <= time
      && Spaced(restarts)
      && (!up && restarts != [] ==> restarts[|restarts|-1].ended <= triedAt)
    }

    /** Just after the first join, which succeeded. */
    constructor ()
      ensures Valid() && up && losses == backs == 0 && restarts == []
    {
      up, chipUp := true, true;
      lastCheckMs, lostAtMs, lastTryMs, drops, seenTimeouts := 0, 0, 0, 0, 0;
      losses, backs, restarts, triedAt, time := 0, 0, [], 0, 0;
    }

    /** Power cycle and join; `joins` and `doneAt` are the outcome. */
    method RestartChip(now: nat, joins: bool, doneAt: nat) returns (ok: bool)
      requires time <= now <= doneAt && triedAt <= now && !up
      requires losses == backs + 1 && drops == Clock(losses) && Spaced(restarts)
      requires restarts != [] ==> restarts[|restarts|-1].ended + RETRY_MS <= now
      modifies this`up, this`chipUp, this`lastTryMs, this`triedAt, this`restarts, this`backs, this`time
      ensures Valid() && ok == joins && up == joins && chipUp == joins && time == doneAt
      ensures backs == old(backs) + if ok then 1 else 0
      ensures restarts == old(restarts) + [Restart(now, doneAt)] && lastTryMs == Clock(doneAt)
    {
      SpacedSnoc(restarts, Restart(now, doneAt));
      hide Spaced, Clock;
      chipUp := joins;
      lastTryMs := Clock(doneAt);
      if joins {
        up := true;
        backs := backs + 1;
      }
      triedAt, time, restarts := doneAt, doneAt, restarts + [Restart(now, doneAt)];
      return joins;
    }

    /** Polled from the main loop; true exactly when the link has come back. */
    method Supervise(now: nat, timeouts: Option<Word>, linkUp: bool, joins: bool, doneAt: nat) returns (back: bool)
      requires Valid() && time <= now <= doneAt
      modifies this
      ensures Valid() && old(time) <= time
      ensures backs == old(backs) + if back then 1 else 0
      ensures
        var polled := Since(Clock(now), old(lastCheckMs)) >= CHECK_MS;
        var timedOut := timeouts.Some? && timeouts.value != old(seenTimeouts);
        var lost := old(up) && (!linkUp || timedOut);
        var settled := old(chipUp) && linkUp && Since(Clock(now), old(lostAtMs)) >= SETTLE_MS;
        var restart := if old(up) then lost && linkUp
                       else !settled && Since(Clock(now), old(lastTryMs)) >= RETRY_MS;
        && losses == old(losses) + (if polled && lost then 1 else 0)
        && restarts == (if polled && lost then [] else old(restarts))
                       + (if polled && restart then [Restart(now, doneAt)] else [])
        && (back <==> polled && if restart then joins else !old(up) && settled)
        && (up <==> if polled && lost then back else old(up) || back)
        && lastCheckMs == (if polled then Clock(now) else old(lastCheckMs))
        && seenTimeouts == (if polled && timeouts.Some? then timeouts.value else old(seenTimeouts))
        && lostAtMs == (if polled && lost then Clock(now) else old(lostAtMs))
        && chipUp == (if polled && restart then joins else old(chipUp))
        && lastTryMs == (if polled && restart then Clock(doneAt)
                         else if polled && lost then Clock(now) else old(lastTryMs))
        && time == (if !polled then old(time) else if restart then doneAt else now)
    {
      hide Since, Clock, Spaced;
      var nowMs := Clock(now);
      if Since(nowMs, lastCheckMs) < CHECK_MS { return false; }
      lastCheckMs := nowMs;
      var sessionTimedOut := false;
      if timeouts.Some? {
        sessionTimedOut := timeouts.value != seenTimeouts;
        seenTimeouts := timeouts.value;
      }
      hide *;
      if !up {
        back := InOutage(now, linkUp, joins, doneAt);
      } else {
        back := WhileUp(now, linkUp, sessionTimedOut, joins, doneAt);
      }
    }

    method InOutage(now: nat, linkUp: bool, joins: bool, doneAt: nat) returns (back: bool)
      requires Valid() && time <= now <= doneAt && !up
      modifies this`up, this`chipUp, this`lastTryMs, this`triedAt, this`restarts, this`backs, this`time
      ensures Valid() && now <= time && back == up
      ensures backs == old(backs) + if back then 1 else 0
      ensures
        var settled := old(chipUp) && linkUp && Since(Clock(now), lostAtMs) >= SETTLE_MS;
        var restart := !settled && Since(Clock(now), old(lastTryMs)) >= RETRY_MS;
        && restarts == old(restarts) + (if restart then [Restart(now, doneAt)] else [])
        && (back <==> settled || (restart && joins))
        && chipUp == (if restart then joins else old(chipUp))
        && lastTryMs == (if restart then Clock(doneAt) else old(lastTryMs))
        && time == (if restart then doneAt else now)
    {
      var nowMs := Clock(now);
      SinceIsElapsed(triedAt, now);
      hide Since, Clock, Spaced;
      time := now;
      if !chipUp {
        // No join has succeeded since the chip was last switched off.
        if Since(nowMs, lastTryMs) < RETRY_MS { return false; }
        back := RestartChip(now, joins, doneAt);
        return;
      }
      if linkUp && Since(nowMs, lostAtMs) >= SETTLE_MS {
        up := true;
        backs := backs + 1;
        return true;
      }
      if Since(nowMs, lastTryMs) < RETRY_MS { return false; }
      back := RestartChip(now, joins, doneAt);
    }

    method WhileUp(now: nat, linkUp: bool, sessionTimedOut: bool, joins: bool, doneAt: nat) returns (back: bool)
      requires Valid() && time <= now <= doneAt && up
      modifies this
      ensures Valid() && now <= time && lastCheckMs == old(lastCheckMs) && seenTimeouts == old(seenTimeouts)
      ensures backs == old(backs) + if back then 1 else 0
      ensures losses == old(losses) + if !linkUp || sessionTimedOut then 1 else 0
      ensures losses == old(losses) ==>
        && restarts == old(restarts) && !back && up && chipUp == old(chipUp)
        && lostAtMs == old(lostAtMs) && lastTryMs == old(lastTryMs) && time == now
      ensures losses != old(losses) ==>
        && restarts == (if linkUp then [Restart(now, doneAt)] else []) && (back <==> linkUp && joins) && back == up
        && lostAtMs == Clock(now) && lastTryMs == (if linkUp then Clock(doneAt) else Clock(now))
        && chipUp == (if linkUp then joins else old(chipUp)) && time == (if linkUp then doneAt else now)
    {
      ClockNext(losses);
      NoRestarts();
      hide Since, Clock, Spaced;
      time := now;
      if linkUp && !sessionTimedOut { return false; }
      up := false;
      lostAtMs, lastTryMs := Clock(now), Clock(now);
      drops := (drops + 1) % WORD_RANGE;
      losses, restarts, triedAt := losses + 1, [], now;
      // Without a link there is something to rejoin; with one, only a restart helps.
      if !linkUp { return false; }
      back := RestartChip(now, joins, doneAt);
    }
  }
}
