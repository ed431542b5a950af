/** Slowing down guessing (`auth/throttle.py`): free attempts, then locks that double, counters that
    are forgotten after an hour and purged by other keys' failures. Time is in microseconds. */
module Throttle {
  import opened Wrappers

  const SECOND := 1_000_000
  const FIRST_LOCK := 30 * SECOND
  const LONGEST_LOCK := 15 * 60 * SECOND
  const FORGET_AFTER := 60 * 60 * SECOND

  datatype Row = Row(failures: nat, lastFailure: int, lockedUntil: Option<int>)

  function Doublings(n: nat): nat {
    if n == 0 then 1 else 2 * Doublings(n - 1)
  }

  /** How long a failure locks for, this many over the free ones. */
  function Lock(over: int): int {
    if over <= 0 then 0
    else
      var delay := FIRST_LOCK * Doublings(if over - 1 < 10 then over - 1 else 10);
      if delay < LONGEST_LOCK then delay else LONGEST_LOCK
  }

  predicate IsLocked(rows: map<string, Row>, name: string, now: int) {
    name in rows && rows[name].lockedUntil.Some? && rows[name].lockedUntil.value > now
  }

  /** Locked now, and not free before this many seconds have passed. */
  predicate LockedFor(rows: map<string, Row>, name: string, now: int, seconds: int) {
    IsLocked(rows, name, now) && rows[name].lockedUntil.value >= now + seconds * SECOND
  }

  /** A row after one more failure. */
  function Failed(rows: map<string, Row>, name: string, free: nat, now: int): Row {
    var before := if name in rows then rows[name] else Row(0, now, None);
    var row := if now - before.lastFailure > FORGET_AFTER then Row(0, before.lastFailure, None) else before;
    var failures := row.failures + 1;
    Row(failures, now, if failures > free then Some(now + Lock(failures - free)) else row.lockedUntil)
  }

  predicate IsForgotten(row: Row, now: int) {
    row.lastFailure <= now - FORGET_AFTER && (row.lockedUntil.None? || row.lockedUntil.value <= now)
  }

  /** The table after a failure: the key's counter goes up, and forgotten ones of others are gone. */
  function Recorded(rows: map<string, Row>, name: string, free: nat, now: int): map<string, Row> {
    var kept := map other | other in rows && other != name && !IsForgotten(rows[other], now) :: rows[other];
    kept[name := Failed(rows, name, free, now)]
  }

  lemma {:induction false} DoublingsGrow(a: nat, b: nat)
    requires a <= b
    ensures 1 <= Doublings(a) <= Doublings(b)
  {
    if b > a {
      DoublingsGrow(a, b - 1);
    } else if a > 0 {
      DoublingsGrow(a - 1, a - 1);
    }
  }

  /** The locks, in microseconds: half a minute, then twice as long each time, and a quarter of an hour
      from the sixth on. */
  lemma LocksDouble(over: int)
    ensures Lock(over) ==
      if over <= 0 then 0
      else if over == 1 then 30_000_000
      else if over == 2 then 60_000_000
      else if over == 3 then 120_000_000
      else if over == 4 then 240_000_000
      else if over == 5 then 480_000_000
      else 900_000_000
  {
    assert Doublings(1) == 2 && Doublings(2) == 4 && Doublings(3) == 8 && Doublings(4) == 16;
    assert Doublings(5) == 32;
    if over >= 6 {
      DoublingsGrow(5, if over - 1 < 10 then over - 1 else 10);
    }
  }

  /** A failure counts on from the key's last, or from nothing when there is none within the hour; it
      locks from the first over the free ones. Of other keys, those untouched for an hour and not
      locked are gone, and the rest stay as they were. */
  lemma RecordedExactly(rows: map<string, Row>, name: string, free: nat, now: int)
    ensures var after := Recorded(rows, name, free, now);
      && name in after && after[name].lastFailure == now
      && (if name in rows && now - rows[name].lastFailure <= 3_600_000_000
          then after[name].failures == rows[name].failures + 1
          else after[name].failures == 1)
      && (after[name].failures > free ==> after[name].lockedUntil == Some(now + Lock(after[name].failures - free)))
      && (after[name].failures <= free ==>
        after[name].lockedUntil ==
        if name in rows && now - rows[name].lastFailure <= 3_600_000_000 then rows[name].lockedUntil else None)
      && (forall other :: other in after && other != name ==> other in rows && after[other] == rows[other])
      && (forall other :: other in rows && other != name ==>
        (other !in after <==>
        now - rows[other].lastFailure >= 3_600_000_000
        && (rows[other].lockedUntil.Some? ==> rows[other].lockedUntil.value <= now)))
  {
    hide Lock;
    assert FORGET_AFTER == 3_600_000_000;
  }

  class Throttle {
    var rows: map<string, Row>

    constructor ()
      ensures rows == map[]
    {
      rows := map[];
    }

    /** The least wait, in whole seconds, after which none of these keys is locked. */
    method SecondsLocked(keys: seq<string>, now: int) returns (remaining: nat)
      ensures remaining == 0 <==> forall i :: 0 <= i < |keys| && keys[i] in rows && rows[keys[i]].lockedUntil.Some? ==>
          rows[keys[i]].lockedUntil.value <= now
      ensures forall i :: 0 <= i < |keys| && keys[i] in rows && rows[keys[i]].lockedUntil.Some? ==>
          rows[keys[i]].lockedUntil.value <= now + 1_000_000 * remaining
      ensures remaining > 0 ==>
        exists i :: 0 <= i < |keys| && keys[i] in rows && rows[keys[i]].lockedUntil.Some? &&
          rows[keys[i]].lockedUntil.value > now &&
          rows[keys[i]].lockedUntil.value >= now + 1_000_000 * (remaining - 1)
    {
      remaining := 0;
      for n := 0 to |keys|
        invariant remaining == 0 <==> forall i :: 0 <= i < n ==> !IsLocked(rows, keys[i], now)
        invariant forall i :: 0 <= i < n ==> !IsLocked(rows, keys[i], now + remaining * SECOND)
        invariant remaining > 0 ==> exists i :: 0 <= i < n && LockedFor(rows, keys[i], now, remaining - 1)
      {
        if IsLocked(rows, keys[n], now) {
          var wait := (rows[keys[n]].lockedUntil.value - now) / SECOND + 1;
          if wait > remaining {
            remaining := wait;
          }
        }
      }
    }

    method RecordFailure(name: string, free: nat, now: int)
      modifies this
      ensures rows == Recorded(old(rows), name, free, now)
    {
      if name !in rows {
        rows := rows[name := Row(0, now, None)];
      } else if now - rows[name].lastFailure > FORGET_AFTER {
        rows := rows[name := rows[name].(failures := 0, lockedUntil := None)];
      }
      var row := rows[name].(failures := rows[name].failures + 1, lastFailure := now);
      var over := row.failures - free;
      if over > 0 {
        row := row.(lockedUntil := Some(now + Lock(over)));
      }
      rows := rows[name := row];
      rows := map other | other in rows && (other == name || !IsForgotten(rows[other], now)) :: rows[other];
    }

    method Clear(name: string)
      modifies this
      ensures rows == old(rows) - {name}
    {
      rows := rows - {name};
    }
  }

  // ---- Runs of attempts ----

  /** Something that happens: an attempt that fails if it isn't refused, guarded by and counted
      against some keys, or a success, which clears one. */
  datatype Event = Attempt(keys: seq<string>, at: int) | Success(key: string, at: int)

  predicate Refused(rows: map<string, Row>, event: Event) {
    event.Attempt? && exists i :: 0 <= i < |event.keys| && IsLocked(rows, event.keys[i], event.at)
  }

  function RecordAll(rows: map<string, Row>, keys: seq<string>, free: string -> nat, now: int): map<string, Row> {
    if keys == [] then rows
    else
      var last := keys[|keys| - 1];
      Recorded(RecordAll(rows, keys[..|keys| - 1], free, now), last, free(last), now)
  }

  function After(rows: map<string, Row>, event: Event, free: string -> nat): map<string, Row> {
    match event
    case Attempt(keys, at) => if Refused(rows, event) then rows else RecordAll(rows, keys, free, at)
    case Success(key, _) => rows - {key}
  }

  function Run(rows: map<string, Row>, events: seq<Event>, free: string -> nat): map<string, Row> {
    if events == [] then rows
    else After(Run(rows, events[..|events| - 1], free), events[|events| - 1], free)
  }

  /** How many failures of a key a run records. */
  function Count(rows: map<string, Row>, events: seq<Event>, free: string -> nat, key: string): nat {
    if events == [] then 0
    else
      var n := |events| - 1;
      var event := events[n];
      Count(rows, events[..n], free, key)
      + if event.Attempt? && key in event.keys && !Refused(Run(rows, events[..n], free), event) then 1 else 0
  }

  ghost predicate Distinct(keys: seq<string>) {
    forall i, j :: 0 <= i < j < |keys| ==> keys[i] != keys[j]
  }

  /** Events one at a time, of keys each named once. */
  ghost predicate InTurn(events: seq<Event>) {
    && (forall i, j :: 0 <= i < j < |events| ==> events[i].at <= events[j].at)
    && (forall i :: 0 <= i < |events| && events[i].Attempt? ==> Distinct(events[i].keys))
  }

  /** The least time there can be from a key's first failure to its n-th. */
  function Fastest(n: nat, free: nat): int {
    if n <= 1 then 0 else Fastest(n - 1, free) + Lock(n - 1 - free)
  }

  lemma {:induction false} LockGrows(a: int, b: int)
    requires a <= b
    ensures Lock(a) <= Lock(b)
  {
    var i, j := if a - 1 < 10 then a - 1 else 10, if b - 1 < 10 then b - 1 else 10;
    if a > 0 {
      DoublingsGrow(i, j);
    }
  }

  ghost predicate LocksAsLong(row: Row, free: nat) {
    row.failures > free ==>
      row.lockedUntil.Some? && row.lockedUntil.value >= row.lastFailure + Lock(row.failures - free)
  }

  /** What is known of a key's row after its n-th failure of a run that began at `start`. */
  ghost predicate Slowed(row: Row, n: nat, free: nat, start: int, now: int) {
    && row.failures >= n && start <= row.lastFailure <= now
    && row.lastFailure - start >= Fastest(n, free)
    && LocksAsLong(row, free)
  }

  lemma RecordedOne(rows: map<string, Row>, name: string, free: nat, now: int, key: string)
    ensures var r := Recorded(rows, name, free, now);
      && name in r && r[name] == Failed(rows, name, free, now)
      && r[name].failures >= 1 && r[name].lastFailure == now && LocksAsLong(r[name], free)
      && (key != name && key in rows && rows[key].lastFailure > now - FORGET_AFTER ==> key in r && r[key] == rows[key])
  {
    hide Lock;
  }

  lemma FailedSame(rows: map<string, Row>, other: map<string, Row>, key: string, free: nat, now: int)
    ensures key in rows && key in other && rows[key] == other[key] ==>
        Failed(rows, key, free, now) == Failed(other, key, free, now)
  {
  }

  /** What an attempt leaves of one key's row. */
  lemma {:induction false} RecordedRow(rows: map<string, Row>, keys: seq<string>, free: string -> nat, now: int,
        key: string)
    requires Distinct(keys)
    ensures var r := RecordAll(rows, keys, free, now);
      key in keys ==> key in r && r[key].failures >= 1 && r[key].lastFailure == now && LocksAsLong(r[key], free(key))
    ensures var r := RecordAll(rows, keys, free, now);
      key in rows && rows[key].lastFailure > now - FORGET_AFTER
      ==> key in r && r[key] == if key in keys then Failed(rows, key, free(key), now) else rows[key]
  {
    if keys != [] {
      var n := |keys| - 1;
      RecordedRow(rows, keys[..n], free, now, key);
      assert keys == keys[..n] + [keys[n]];
      assert key == keys[n] ==> key !in keys[..n];
      RecordedOne(RecordAll(rows, keys[..n], free, now), keys[n], free(keys[n]), now, key);
      FailedSame(rows, RecordAll(rows, keys[..n], free, now), key, free(key), now);
      hide Recorded, LocksAsLong, Failed;
    }
  }

  lemma LockIsShort(over: int)
    ensures 0 <= Lock(over) <= LONGEST_LOCK
  {
    if over > 0 { DoublingsGrow(0, if over - 1 < 10 then over - 1 else 10); }
  }

  lemma {:induction false} FastestIsLater(n: nat, free: nat)
    ensures Fastest(n, free) >= 0
  {
    if n > 1 {
      FastestIsLater(n - 1, free);
      LockIsShort(n - 1 - free);
    }
  }

  lemma NoLockWithinTheFree(over: int)
    ensures over <= 0 ==> Lock(over) == 0
  {
  }

  /** One more event of a run shorter than an hour, with no success of the key. */
  lemma SlowedStill(rows: map<string, Row>, event: Event, free: string -> nat, key: string, n: nat, start: int,
        before: int)
    requires n > 0 ==> key in rows && Slowed(rows[key], n, free(key), start, before)
    requires start <= before <= event.at < start + FORGET_AFTER
    requires event.Attempt? ==> Distinct(event.keys)
    requires event.Success? ==> event.key != key
    ensures var m := if event.Attempt? && key in event.keys && !Refused(rows, event) then n + 1 else n;
      var after := After(rows, event, free);
      m > 0 ==> key in after && Slowed(after[key], m, free(key), start, event.at)
  {
    hide Lock, RecordAll;
    FastestIsLater(n, free(key));
    if event.Attempt? && !Refused(rows, event) {
      RecordedRow(rows, event.keys, free, event.at, key);
      if key in event.keys && n > 0 {
        var i :| 0 <= i < |event.keys| && event.keys[i] == key;
        assert !IsLocked(rows, event.keys[i], event.at);
        LockGrows(n - free(key), rows[key].failures - free(key));
        NoLockWithinTheFree(n - free(key));
      }
    }
  }

  lemma {:induction false} RunIsSlowed(rows: map<string, Row>, events: seq<Event>, free: string -> nat, key: string)
    requires events != [] && InTurn(events) && events[|events| - 1].at < events[0].at + FORGET_AFTER
    requires forall i :: 0 <= i < |events| ==> !(events[i].Success? && events[i].key == key)
    ensures var n := Count(rows, events, free, key);
      var after := Run(rows, events, free);
      n > 0 ==> key in after && Slowed(after[key], n, free(key), events[0].at, events[|events| - 1].at)
  {
    hide After, Slowed, Refused;
    var n := |events| - 1;
    if n > 0 {
      RunIsSlowed(rows, events[..n], free, key);
      SlowedStill(Run(rows, events[..n], free), events[n], free, key, Count(rows, events[..n], free, key),
        events[0].at, events[n - 1].at);
    } else {
      assert events[..0] == [];
      SlowedStill(rows, events[0], free, key, 0, events[0].at, events[0].at);
    }
  }

  /** The locks after the free attempts: half a minute, one, two, four and eight minutes, then fifteen. */
  lemma LocksAre()
    ensures Lock(1) == 30 * SECOND && Lock(2) == 60 * SECOND && Lock(3) == 120 * SECOND
    ensures Lock(4) == 240 * SECOND && Lock(5) == 480 * SECOND
    ensures Lock(6) == Lock(7) == Lock(8) == 900 * SECOND
  {
    assert Doublings(0) == 1;
    assert Doublings(1) == 2;
    assert Doublings(2) == 4;
    assert Doublings(3) == 8;
    assert Doublings(4) == 16;
    assert Doublings(5) == 32;
    assert Doublings(6) == 64;
    assert Doublings(7) == 128;
  }

  /** A key can't fail eight more times than it has free attempts in less than 45 and a half
      minutes, nor nine more in less than an hour and half a minute. */
  lemma FastestAfterTheFree(free: nat)
    ensures Fastest(free + 8, free) == Fastest(free + 1, free) + 2730 * SECOND
    ensures Fastest(free + 9, free) == Fastest(free + 1, free) + 3630 * SECOND
  {
    LocksAre();
    hide Lock;
    assert Fastest(free + 2, free) == Fastest(free + 1, free) + Lock(1);
    assert Fastest(free + 3, free) == Fastest(free + 2, free) + Lock(2);
    assert Fastest(free + 4, free) == Fastest(free + 3, free) + Lock(3);
    assert Fastest(free + 5, free) == Fastest(free + 4, free) + Lock(4);
    assert Fastest(free + 6, free) == Fastest(free + 5, free) + Lock(5);
    assert Fastest(free + 7, free) == Fastest(free + 6, free) + Lock(6);
    assert Fastest(free + 8, free) == Fastest(free + 7, free) + Lock(7);
    assert Fastest(free + 9, free) == Fastest(free + 8, free) + Lock(8);
  }

  lemma {:induction false} FastestGrows(m: nat, n: nat, free: nat)
    requires m <= n
    ensures Fastest(m, free) <= Fastest(n, free)
  {
    if m < n {
      FastestGrows(m, n - 1, free);
      if n > 1 { LockIsShort(n - 1 - free); } else { FastestIsLater(m, free); }
    }
  }

  /** However its attempts and others' are mixed, and whatever is purged or already counted, a key
      with `free` free attempts and no success records at most eight more failures than that in
      any span shorter than an hour. */
  lemma AtMostEightOver(rows: map<string, Row>, events: seq<Event>, free: string -> nat, key: string)
    requires events != [] && InTurn(events) && events[|events| - 1].at < events[0].at + FORGET_AFTER
    requires forall i :: 0 <= i < |events| ==> !(events[i].Success? && events[i].key == key)
    ensures Count(rows, events, free, key) <= free(key) + 8
  {
    hide Lock, Run, Count, Fastest;
    RunIsSlowed(rows, events, free, key);
    var n := Count(rows, events, free, key);
    if n > 0 {
      FastestAfterTheFree(free(key));
      FastestIsLater(free(key) + 1, free(key));
      if n >= free(key) + 9 {
        FastestGrows(free(key) + 9, n, free(key));
      }
    }
  }

  /** Attempts on one key, each as soon as the lock before lets it. */
  function Eager(key: string, n: nat, free: nat): seq<Event> {
    if n == 0 then [] else Eager(key, n - 1, free) + [Attempt([key], Fastest(n, free))]
  }

  /** The key's row after `n` failures as fast as can be. */
  function EagerRow(n: nat, free: nat): Row {
    Row(n, Fastest(n, free), if n > free then Some(Fastest(n, free) + Lock(n - free)) else None)
  }

  lemma EagerStep(key: string, n: nat, limit: string -> nat, rows: map<string, Row>)
    requires 0 < n <= limit(key) + 8
    requires rows == if n == 1 then map[] else map[key := EagerRow(n - 1, limit(key))]
    ensures var event := Attempt([key], Fastest(n, limit(key)));
      !Refused(rows, event) && After(rows, event, limit) == map[key := EagerRow(n, limit(key))]
  {
    LockIsShort(n - 1 - limit(key));
    hide Lock;
    var event := Attempt([key], Fastest(n, limit(key)));
    assert event.keys[0] == key && !Refused(rows, event);
    assert RecordAll(rows, [key], limit, event.at) ==
      Recorded(rows, key, limit(key), event.at) by { assert [key][..0] == []; }
    assert forall other :: other in rows ==> other == key;
  }

  lemma {:induction false} EagerIsCounted(key: string, n: nat, limit: string -> nat)
    requires n <= limit(key) + 8
    ensures |Eager(key, n, limit(key))| == n
    ensures Count(map[], Eager(key, n, limit(key)), limit, key) == n
    ensures Run(map[], Eager(key, n, limit(key)), limit) ==
        if n == 0 then map[] else map[key := EagerRow(n, limit(key))]
  {
    if n > 0 {
      var free := limit(key);
      var before, events := Eager(key, n - 1, free), Eager(key, n, free);
      EagerIsCounted(key, n - 1, limit);
      assert events[..n - 1] == before && events[n - 1] == Attempt([key], Fastest(n, free));
      EagerStep(key, n, limit, Run(map[], before, limit));
      assert key in events[n - 1].keys;
      hide Lock, After, Refused, Fastest, EagerRow;
    }
  }

  lemma {:induction false} EagerIsInTurn(key: string, n: nat, free: nat)
    ensures |Eager(key, n, free)| == n && InTurn(Eager(key, n, free))
    ensures forall i :: 0 <= i < n ==> Eager(key, n, free)[i].at <= Fastest(n, free)
    ensures n > 0 ==> Eager(key, n, free)[0].at == 0 && Eager(key, n, free)[n - 1].at == Fastest(n, free)
  {
    if n > 0 {
      EagerIsInTurn(key, n - 1, free);
      FastestGrows(n - 1, n, free);
      hide Lock;
    }
  }

  lemma {:induction false} NoWaitWithinTheFree(n: nat, free: nat)
    requires n <= free + 1
    ensures Fastest(n, free) == 0
  {
    if n > 1 {
      NoWaitWithinTheFree(n - 1, free);
      NoLockWithinTheFree(n - 1 - free);
    }
  }

  /** The bound is reached: that many failures fit in 45 and a half minutes. */
  lemma EightOverIsReached(key: string, free: string -> nat)
    ensures var events := Eager(key, free(key) + 8, free(key));
      && events != [] && InTurn(events) && Count(map[], events, free, key) == free(key) + 8
      && events[|events| - 1].at == events[0].at + 2730 * SECOND
  {
    EagerIsCounted(key, free(key) + 8, free);
    FastestAfterTheFree(free(key));
    NoWaitWithinTheFree(free(key) + 1, free(key));
    EagerIsInTurn(key, free(key) + 8, free(key));
  }
}
