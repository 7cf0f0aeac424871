/**
  The deduplication gate (`shouldSendNow`): a map from message key to the time the key was
  last admitted, a 60 000 ms window, and eviction of stale entries once the map holds more
  than 500 of them.

  Times are Kotlin `Long` milliseconds and `now - last` is a 64-bit subtraction, so `Minus`
  writes out its two's-complement wrap-around. The clock is a parameter.
 */
module Dedupe {
  import opened Wrappers

  /** `dedupeWindowMs`. */
  const Window: int := 60000

  /** The size above which `shouldSendNow` evicts stale entries. */
  const EvictionThreshold: int := 500

  const LongMin: int := -0x8000_0000_0000_0000
  const LongMax: int := 0x7FFF_FFFF_FFFF_FFFF

  /** A Kotlin `Long`. */
  type Long = x: int | -0x8000_0000_0000_0000 <= x <= 0x7FFF_FFFF_FFFF_FFFF

  /** `a - b` on `Long`: the exact difference wrapped into the 64-bit range. */
  function Minus(a: Long, b: Long): (d: Long)
    ensures d == a - b || d == a - b - 0x1_0000_0000_0000_0000 || d == a - b + 0x1_0000_0000_0000_0000
    ensures LongMin <= a - b <= LongMax ==> d == a - b
  {
    var e := a - b;
    if e > LongMax then e - 0x1_0000_0000_0000_0000
    else if e < LongMin then e + 0x1_0000_0000_0000_0000
    else e
  }

  // ---------------------------------------------------------------------------
  // The gate as a function of the map
  // ---------------------------------------------------------------------------

  /** The entry for `key` blocks a send at `now`: it was admitted less than a window ago. */
  predicate Blocks(recent: map<string, Long>, key: string, now: Long) {
    key in recent && Minus(now, recent[key]) < Window
  }

  /** An entry admitted at `v` is older than the window at `now`. */
  predicate Stale(now: Long, v: Long) {
    Minus(now, v) > Window
  }

  /** `removeIf { now - it.value > dedupeWindowMs }`. */
  function RemoveStale(recent: map<string, Long>, now: Long): map<string, Long> {
    map k | k in recent && !Stale(now, recent[k]) :: recent[k]
  }

  /** The map after the occasional clean-up: stale entries go only when there are more than 500. */
  function Evict(recent: map<string, Long>, now: Long): map<string, Long> {
    if |recent| > EvictionThreshold then RemoveStale(recent, now) else recent
  }

  /** The outcome of one `shouldSendNow` call and the map it leaves. */
  datatype Admission = Admission(admitted: bool, after: map<string, Long>)

  /** `shouldSendNow(key)` at time `now`, with its compare-and-swap succeeding at once. */
  function Admit(recent: map<string, Long>, key: string, now: Long): (a: Admission)
    ensures a.admitted <==> !Blocks(recent, key, now)
    ensures a.admitted ==> key in a.after && a.after[key] == now
  {
    var m := Evict(recent, now);
    EvictionKeepsOutcome(recent, key, now);
    if Blocks(m, key, now) then Admission(false, m) else Admission(true, m[key := now])
  }

  // ---------------------------------------------------------------------------
  // Lemmas about one call
  // ---------------------------------------------------------------------------

  /** Eviction removes only entries that would not block: it never changes whether a key
      is admitted. */
  lemma EvictionKeepsOutcome(recent: map<string, Long>, key: string, now: Long)
    ensures Blocks(Evict(recent, now), key, now) <==> Blocks(recent, key, now)
    ensures forall k :: k in Evict(recent, now) ==> k in recent && Evict(recent, now)[k] == recent[k]
    ensures forall k :: k in recent && k !in Evict(recent, now) ==> |recent| > EvictionThreshold && Stale(now, recent[k])
  {
  }

  /** Apart from recording an admitted key, a call only drops entries: stale ones, and only
      from a map of more than 500. */
  lemma AdmitFrame(recent: map<string, Long>, key: string, now: Long)
    ensures forall k :: k in Admit(recent, key, now).after && k != key ==> k in recent && Admit(recent, key, now).after[k] == recent[k]
    ensures forall k :: k in recent && k !in Admit(recent, key, now).after ==> |recent| > EvictionThreshold && Stale(now, recent[k])
    ensures !Admit(recent, key, now).admitted ==> (key in recent <==> key in Admit(recent, key, now).after)
  {
    EvictionKeepsOutcome(recent, key, now);
  }

  /** Without eviction the map changes only by recording the admitted key. */
  lemma AdmitWithoutEviction(recent: map<string, Long>, key: string, now: Long)
    requires |recent| <= EvictionThreshold
    ensures Admit(recent, key, now).after == if Blocks(recent, key, now) then recent else recent[key := now]
  {
  }

  /** A refused call changes nothing but eviction. */
  lemma RefusalKeepsEntry(recent: map<string, Long>, key: string, now: Long)
    requires Blocks(recent, key, now)
    ensures !Admit(recent, key, now).admitted
    ensures key in Admit(recent, key, now).after && Admit(recent, key, now).after[key] == recent[key]
  {
    EvictionKeepsOutcome(recent, key, now);
  }

  // ---------------------------------------------------------------------------
  // Sequences of calls
  // ---------------------------------------------------------------------------

  /** One `shouldSendNow(key)` call made at time `now`. */
  datatype Call = Call(key: string, now: Long)

  /** The map after the first `n` calls, starting from `m0`. */
  function StateAfter(m0: map<string, Long>, calls: seq<Call>, n: nat): map<string, Long>
    requires n <= |calls|
  {
    if n == 0 then m0
    else Admit(StateAfter(m0, calls, n - 1), calls[n - 1].key, calls[n - 1].now).after
  }

  /** Whether call `i` for its key was admitted. */
  predicate AdmittedAt(m0: map<string, Long>, calls: seq<Call>, i: nat)
    requires i < |calls|
  {
    Admit(StateAfter(m0, calls, i), calls[i].key, calls[i].now).admitted
  }

  /** The clock never goes backwards and never reads before the epoch; entries already in the
      map are not before the epoch either. */
  predicate OrderlyClock(m0: map<string, Long>, calls: seq<Call>) {
    (forall a, b :: 0 <= a < b < |calls| ==> calls[a].now <= calls[b].now)
    && (forall a :: 0 <= a < |calls| ==> calls[a].now >= 0)
    && (forall k :: k in m0 ==> m0[k] >= 0)
  }

  /** After the admission of `key` at time `t1`, the map either still holds `key` with a time
      no earlier than `t1`, or dropped it when more than a window had passed since `t1`. */
  predicate Remembers(m: map<string, Long>, key: string, t1: int, last: int) {
    (key in m && m[key] >= t1) || (key !in m && last - t1 > Window)
  }

  /** All times in `m` are non-negative. */
  predicate NonNegative(m: map<string, Long>) {
    forall k :: k in m ==> m[k] >= 0
  }

  /** One call at a non-negative time keeps the times non-negative. */
  lemma StepNonNegative(m: map<string, Long>, key: string, now: Long)
    requires NonNegative(m) && now >= 0
    ensures NonNegative(Admit(m, key, now).after)
  {
    var a := Admit(m, key, now);
    AdmitFrame(m, key, now);
    forall k | k in a.after ensures a.after[k] >= 0 {
      if k != key {
        assert k in m;
      }
    }
  }

  /** One call no earlier than the last keeps `Remembers` for an earlier admission. */
  lemma StepRemembers(m: map<string, Long>, key: string, t1: int, last: int, c: Call)
    requires NonNegative(m) && Remembers(m, key, t1, last)
    requires 0 <= t1 <= last <= c.now
    ensures Remembers(Admit(m, c.key, c.now).after, key, t1, c.now)
  {
    var a := Admit(m, c.key, c.now);
    AdmitFrame(m, c.key, c.now);
    if key in m && key !in a.after {
      // evicted now: its time is at least t1 and more than a window old
      assert Stale(c.now, m[key]);
      assert Minus(c.now, m[key]) == c.now - m[key];
    }
  }

  /** Every entry in the map after `n` calls is a non-negative time. */
  lemma {:induction false} ValuesBounded(m0: map<string, Long>, calls: seq<Call>, n: nat)
    requires OrderlyClock(m0, calls) && n <= |calls|
    ensures NonNegative(StateAfter(m0, calls, n))
    decreases n
  {
    if n > 0 {
      ValuesBounded(m0, calls, n - 1);
      StepNonNegative(StateAfter(m0, calls, n - 1), calls[n - 1].key, calls[n - 1].now);
    }
  }

  /** Right after its admission the map holds the key with the admission time. */
  lemma AdmissionRemembered(m0: map<string, Long>, calls: seq<Call>, i: nat)
    requires i < |calls| && AdmittedAt(m0, calls, i)
    ensures Remembers(StateAfter(m0, calls, i + 1), calls[i].key, calls[i].now, calls[i].now)
  {
    assert StateAfter(m0, calls, i + 1) == Admit(StateAfter(m0, calls, i), calls[i].key, calls[i].now).after;
  }

  /** The call after the first `n - 1` keeps `Remembers` and the times non-negative. */
  lemma RememberedAcrossCall(m0: map<string, Long>, calls: seq<Call>, i: nat, n: nat)
    requires i < n - 1 && n <= |calls|
    requires 0 <= calls[i].now <= calls[n - 2].now && OrderlyUpTo(m0, calls, n)
    requires NonNegative(StateAfter(m0, calls, n - 1))
    requires Remembers(StateAfter(m0, calls, n - 1), calls[i].key, calls[i].now, calls[n - 2].now)
    ensures Remembers(StateAfter(m0, calls, n), calls[i].key, calls[i].now, calls[n - 1].now)
    ensures NonNegative(StateAfter(m0, calls, n)) && calls[n - 2].now <= calls[n - 1].now
  {
    assert calls[n - 2].now <= calls[n - 1].now;
    StepRemembers(StateAfter(m0, calls, n - 1), calls[i].key, calls[i].now, calls[n - 2].now, calls[n - 1]);
    StepNonNegative(StateAfter(m0, calls, n - 1), calls[n - 1].key, calls[n - 1].now);
  }

  /** `OrderlyClock` for the first `n` calls, one call at a time. */
  predicate OrderlyUpTo(m0: map<string, Long>, calls: seq<Call>, n: nat)
    requires n <= |calls|
  {
    if n == 0 then NonNegative(m0)
    else OrderlyUpTo(m0, calls, n - 1) && calls[n - 1].now >= 0 && (n == 1 || calls[n - 2].now <= calls[n - 1].now)
  }

  lemma {:induction false} OrderlyPrefix(m0: map<string, Long>, calls: seq<Call>, n: nat)
    requires OrderlyClock(m0, calls) && n <= |calls|
    ensures OrderlyUpTo(m0, calls, n)
    decreases n
  {
    if n > 0 {
      OrderlyPrefix(m0, calls, n - 1);
      assert n == 1 || calls[n - 2].now <= calls[n - 1].now;
    }
  }

  /** Once the map remembers call `i`, it goes on remembering it, and its times stay
      non-negative and no earlier than call `i`'s. */
  lemma {:induction false} RemembersFrom(m0: map<string, Long>, calls: seq<Call>, i: nat, n: nat)
    requires i < n <= |calls| && OrderlyUpTo(m0, calls, n)
    requires NonNegative(StateAfter(m0, calls, i + 1))
    requires Remembers(StateAfter(m0, calls, i + 1), calls[i].key, calls[i].now, calls[i].now)
    ensures Remembers(StateAfter(m0, calls, n), calls[i].key, calls[i].now, calls[n - 1].now)
    ensures NonNegative(StateAfter(m0, calls, n)) && 0 <= calls[i].now <= calls[n - 1].now
    decreases n
  {
    if n - 1 != i {
      RemembersFrom(m0, calls, i, n - 1);
      RememberedAcrossCall(m0, calls, i, n);
    }
  }

  /** From the admission of call `i` on, the map remembers it. */
  lemma RemembersAfterAdmission(m0: map<string, Long>, calls: seq<Call>, i: nat, n: nat)
    requires OrderlyClock(m0, calls)
    requires i < n <= |calls| && AdmittedAt(m0, calls, i)
    ensures Remembers(StateAfter(m0, calls, n), calls[i].key, calls[i].now, calls[n - 1].now)
  {
    AdmissionRemembered(m0, calls, i);
    ValuesBounded(m0, calls, i + 1);
    OrderlyPrefix(m0, calls, n);
    RemembersFrom(m0, calls, i, n);
  }

  /** Two admissions of the same key are at least a window apart. */
  lemma SpacedAdmissions(m0: map<string, Long>, calls: seq<Call>, i: nat, j: nat)
    requires OrderlyClock(m0, calls)
    requires i < j < |calls| && calls[i].key == calls[j].key
    requires AdmittedAt(m0, calls, i) && AdmittedAt(m0, calls, j)
    ensures calls[j].now - calls[i].now >= Window
  {
    var key, t1 := calls[i].key, calls[i].now;
    RemembersAfterAdmission(m0, calls, i, j);
    var m := StateAfter(m0, calls, j);
    ValuesBounded(m0, calls, j);
    if key in m {
      assert !Blocks(m, key, calls[j].now);
    }
  }

  /** A key seen again less than a window after it was admitted is refused. */
  lemma RepeatWithinWindowDropped(m0: map<string, Long>, calls: seq<Call>, i: nat, j: nat)
    requires OrderlyClock(m0, calls)
    requires i < j < |calls| && calls[i].key == calls[j].key && AdmittedAt(m0, calls, i)
    requires calls[j].now - calls[i].now < Window
    ensures !AdmittedAt(m0, calls, j)
  {
    if AdmittedAt(m0, calls, j) {
      SpacedAdmissions(m0, calls, i, j);
    }
  }

  // ---------------------------------------------------------------------------
  // The gate as an object
  // ---------------------------------------------------------------------------

  /** The `recent` map of the listener and the operations it performs on it. */
  class DedupeGate {
    var recent: map<string, Long>

    constructor()
      ensures recent == map[]
    {
      recent := map[];
    }

    /** `recent[key]`. */
    method Get(key: string) returns (last: Option<Long>)
      ensures last.Some? <==> key in recent
      ensures last.Some? ==> last.value == recent[key]
    {
      if key in recent {
        last := Some(recent[key]);
      } else {
        last := None;
      }
    }

    /** `recent.putIfAbsent(key, value)`: records `value` unless `key` is present, and returns
        what was there. */
    method PutIfAbsent(key: string, value: Long) returns (previous: Option<Long>)
      modifies this
      ensures previous.Some? <==> key in old(recent)
      ensures previous.Some? ==> previous.value == old(recent)[key] && recent == old(recent)
      ensures previous.None? ==> recent == old(recent)[key := value]
    {
      if key in recent {
        previous := Some(recent[key]);
      } else {
        previous := None;
        recent := recent[key := value];
      }
    }

    /** `recent.replace(key, expected, value)`: swaps in `value` only if `key` maps to `expected`. */
    method Replace(key: string, expected: Long, value: Long) returns (swapped: bool)
      modifies this
      ensures swapped <==> key in old(recent) && old(recent)[key] == expected
      ensures recent == if swapped then old(recent)[key := value] else old(recent)
    {
      swapped := key in recent && recent[key] == expected;
      if swapped {
        recent := recent[key := value];
      }
    }

    /** `recent.entries.removeIf { now - it.value > dedupeWindowMs }`. */
    method RemoveStaleEntries(now: Long)
      modifies this
      ensures recent == RemoveStale(old(recent), now)
    {
      recent := map k | k in recent && !Stale(now, recent[k]) :: recent[k];
    }

    /** `shouldSendNow(key)` at time `now`. */
    method ShouldSendNow(key: string, now: Long) returns (send: bool)
      modifies this
      ensures send == Admit(old(recent), key, now).admitted
      ensures recent == Admit(old(recent), key, now).after
    {
      if |recent| > EvictionThreshold {
        RemoveStaleEntries(now);
      }
      var last := Get(key);
      if last.Some? && Minus(now, last.value) < Window {
        return false;
      }
      // With no other writer, the compare-and-swap below always succeeds, so the source's
      // retry loop never runs again and `send` comes out true.
      if last.None? {
        var previous := PutIfAbsent(key, now);
        send := previous.None?;
      } else {
        send := Replace(key, last.value, now);
      }
    }
  }
}
