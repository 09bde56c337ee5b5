/** A per-key token bucket held in a bounded map. Times are nanoseconds, tokens real numbers. */
module RateLimit {
  import opened Wrappers
  import Sets

  const SECOND := 1_000_000_000

  /** `burst` back-to-back requests, one token back per `refill`, at most `capacity` keys. */
  datatype RawLimits = Limits(burst: int, refill: int, capacity: int)
  type Limits = l: RawLimits | l.burst >= 1 && l.refill > 0 witness Limits(1, 1, 0)

  datatype Bucket = Bucket(tokens: real, last: int)
  type Keys = map<string, Bucket>

  /** `full` says the refusal was for want of room in the map rather than for want of a token. */
  datatype Answer = Answer(ok: bool, retryAfter: int, full: bool)

  function Min(a: real, b: real): real {
    if a < b then a else b
  }

  /** How many tokens come back over a duration. */
  function Rate(l: Limits, d: int): real {
    d as real / l.refill as real
  }

  lemma RateLaws(l: Limits, a: int, b: int)
    ensures Rate(l, a + b) == Rate(l, a) + Rate(l, b)
    ensures a <= b ==> Rate(l, a) <= Rate(l, b)
    ensures Rate(l, 0) == 0.0
    ensures 0 <= a ==> 0.0 <= Rate(l, a)
  {
  }

  /** A bucket brought up to date. */
  function Refill(l: Limits, b: Bucket, now: int): Bucket {
    if now > b.last then Bucket(Min(l.burst as real, b.tokens + Rate(l, now - b.last)), now) else b
  }

  /** How much one key may still spend at a time; a key not held has everything. */
  function Level(l: Limits, keys: Keys, key: string, t: int): real {
    if key in keys then Refill(l, keys[key], t).tokens else l.burst as real
  }

  predicate Refilled(l: Limits, b: Bucket, now: int) {
    b.tokens + Rate(l, now - b.last) >= l.burst as real
  }

  /** Forgets every key whose bucket has refilled completely. */
  function Sweep(l: Limits, keys: Keys, now: int): Keys {
    map k | k in keys && !Refilled(l, keys[k], now) :: keys[k]
  }

  /** A number of tokens as the time they take to come back, in whole nanoseconds. */
  function Duration(l: Limits, tokens: real): int {
    (tokens * l.refill as real).Floor
  }

  /** The wait told to a refused caller, from the tokens it had. */
  function RetryAfter(l: Limits, tokens: real): int {
    Round(Duration(l, 1.0 - tokens)) + SECOND
  }

  /** To the nearest second, halves up. */
  function Round(d: int): int {
    if 2 * (d % SECOND) < SECOND then d - d % SECOND else d + SECOND - d % SECOND
  }

  /** The map after making room for a key. */
  function Room(l: Limits, keys: Keys, key: string, now: int): Keys {
    if key !in keys && |keys| >= l.capacity then Sweep(l, keys, now) else keys
  }

  /** Spends a token of a key that has, or has just been given, a bucket. */
  function Spend(l: Limits, keys: Keys, key: string, b: Bucket, now: int): (Keys, Answer) {
    var r := Refill(l, b, now);
    if r.tokens < 1.0 then (keys[key := r], Answer(false, RetryAfter(l, r.tokens), false))
    else (keys[key := r.(tokens := r.tokens - 1.0)], Answer(true, 0, false))
  }

  function AllowStep(l: Limits, keys: Keys, key: string, now: int): (Keys, Answer) {
    var room := Room(l, keys, key, now);
    if key !in keys && |room| >= l.capacity then (room, Answer(false, l.refill, true))
    else Spend(l, room, key, if key in keys then keys[key] else Bucket(l.burst as real, now), now)
  }

  function RestoreStep(l: Limits, keys: Keys, key: string): Keys {
    if key !in keys then keys
    else keys[key := keys[key].(tokens := Min(l.burst as real, keys[key].tokens + 1.0))]
  }

  /** The limiter itself: one shared map, updated in place under a mutex. */
  class Limiter {
    const l: Limits
    var keys: Keys

    constructor (l: Limits)
      ensures this.l == l && keys == map[]
    {
      this.l, keys := l, map[];
    }

    method Allow(key: string, now: int) returns (r: Answer)
      modifies this
      ensures (keys, r) == AllowStep(l, old(keys), key, now)
    {
      ghost var room := keys;
      if key !in keys {
        if |keys| >= l.capacity {
          SweepFull(now);
        }
        if |keys| >= l.capacity {
          return Answer(false, l.refill, true);
        }
        room := keys;
        keys := keys[key := Bucket(l.burst as real, now)];
      }
      ghost var b := keys[key];
      TopUp(key, now);
      r := TakeOne(key);
      assert keys == room[key := keys[key]];
      assert (keys, r) == Spend(l, room, key, b, now);
    }

    /** Spends a token of a bucket brought up to date, or says how long to wait for one. */
    method TakeOne(key: string) returns (r: Answer)
      requires key in keys
      modifies this
      ensures var b := old(keys)[key];
        (keys, r) == if b.tokens < 1.0 then (old(keys), Answer(false, RetryAfter(l, b.tokens), false))
                     else (old(keys)[key := b.(tokens := b.tokens - 1.0)], Answer(true, 0, false))
    {
      if keys[key].tokens < 1.0 {
        var need := 1.0 - keys[key].tokens;
        var wait := Duration(l, need);
        return Answer(false, Round(wait) + SECOND, false);
      }
      keys := keys[key := keys[key].(tokens := keys[key].tokens - 1.0)];
      return Answer(true, 0, false);
    }

    /** Refills one bucket for the time that has passed. */
    method TopUp(key: string, now: int)
      requires key in keys
      modifies this
      ensures keys == old(keys)[key := Refill(l, old(keys)[key], now)]
    {
      if now - keys[key].last > 0 {
        var tokens := keys[key].tokens + (now - keys[key].last) as real / l.refill as real;
        keys := keys[key := keys[key].(tokens := tokens)];
        if keys[key].tokens > l.burst as real {
          keys := keys[key := keys[key].(tokens := l.burst as real)];
        }
        keys := keys[key := keys[key].(last := now)];
      }
    }

    method Restore(key: string)
      modifies this
      ensures keys == RestoreStep(l, old(keys), key)
    {
      if key !in keys {
        return;
      }
      keys := keys[key := keys[key].(tokens := keys[key].tokens + 1.0)];
      if keys[key].tokens > l.burst as real {
        keys := keys[key := keys[key].(tokens := l.burst as real)];
      }
    }

    /** Deletes refilled buckets while ranging over the map in its arbitrary order. */
    method SweepFull(now: int)
      modifies this
      ensures keys == Sweep(l, old(keys), now)
    {
      var rest := keys.Keys;
      while rest != {}
        invariant rest <= old(keys).Keys
        invariant keys == map k | k in old(keys) && (k in rest || !Refilled(l, old(keys)[k], now)) :: old(keys)[k]
      {
        var key :| key in rest;
        rest := rest - {key};
        if keys[key].tokens + (now - keys[key].last) as real / l.refill as real >= l.burst as real {
          keys := keys - {key};
        }
      }
    }
  }

  // ---- what every call keeps, whatever times the calls read ----

  predicate BucketOk(l: Limits, b: Bucket) {
    0.0 <= b.tokens <= l.burst as real
  }

  predicate Sane(l: Limits, keys: Keys) {
    forall k | k in keys :: BucketOk(l, keys[k])
  }

  predicate Fits(l: Limits, keys: Keys) {
    |keys| <= l.capacity || keys == map[]
  }

  lemma RefillKeeps(l: Limits, b: Bucket, now: int)
    requires BucketOk(l, b)
    ensures BucketOk(l, Refill(l, b, now))
  {
    RateLaws(l, now - b.last, 0);
  }

  lemma SweepSmaller(l: Limits, keys: Keys, now: int)
    ensures |Sweep(l, keys, now)| <= |keys|
  {
    Sets.SubsetSize(Sweep(l, keys, now).Keys, keys.Keys);
  }

  lemma AllowKeeps(l: Limits, keys: Keys, key: string, now: int)
    requires Sane(l, keys)
    ensures Sane(l, AllowStep(l, keys, key, now).0)
    ensures Fits(l, keys) ==> Fits(l, AllowStep(l, keys, key, now).0)
  {
    var room := Room(l, keys, key, now);
    SweepSmaller(l, keys, now);
    if key in keys || |room| < l.capacity {
      var b := if key in keys then keys[key] else Bucket(l.burst as real, now);
      RefillKeeps(l, b, now);
      assert key in room ==> |room[key := b]| == |room|;
    }
  }

  lemma RestoreKeeps(l: Limits, keys: Keys, key: string)
    requires Sane(l, keys)
    ensures Sane(l, RestoreStep(l, keys, key)) && |RestoreStep(l, keys, key)| == |keys|
  {
    if key in keys {
      assert RestoreStep(l, keys, key).Keys == keys.Keys;
    }
  }

  /** A bucket that is full at one time is full ever after. */
  lemma FullStays(l: Limits, b: Bucket, now: int, t: int)
    requires BucketOk(l, b) && Refilled(l, b, now) && now <= t
    ensures b.last <= now && Refilled(l, b, t) && Refill(l, b, t).tokens == l.burst as real
  {
    RateLaws(l, now - b.last, t - now);
    RateLaws(l, 0, t - now);
    RateNegative(l, now - b.last);
  }

  lemma RateNegative(l: Limits, d: int)
    ensures d < 0 ==> Rate(l, d) < 0.0
  {
    if d < 0 {
      assert d as real == Rate(l, d) * l.refill as real;
    }
  }

  // ---- sweeping and other keys' traffic ----

  /** What other keys' calls may do to a key: nothing, or forget it at some time by which it was full. */
  ghost predicate Untouched(l: Limits, keys: Keys, keys': Keys, key: string, t: int) {
    if key in keys' then key in keys && keys'[key] == keys[key]
    else key in keys ==> Refilled(l, keys[key], t)
  }

  lemma AllowLeavesOthers(l: Limits, keys: Keys, key: string, other: string, now: int)
    requires key != other
    ensures Untouched(l, keys, AllowStep(l, keys, other, now).0, key, now)
  {
  }

  lemma UntouchedLevel(l: Limits, keys: Keys, keys': Keys, key: string, now: int, t: int)
    requires Sane(l, keys) && now <= t && Untouched(l, keys, keys', key, now)
    ensures Level(l, keys', key, t) == Level(l, keys, key, t)
  {
    if key in keys && key !in keys' {
      FullStays(l, keys[key], now, t);
    }
  }

  /** A call on one key never changes what another may spend at any time from the call's own on. */
  lemma KeysAreIndependent(l: Limits, keys: Keys, key: string, other: string, now: int, t: int)
    requires Sane(l, keys) && now <= t && key != other
    ensures Level(l, AllowStep(l, keys, other, now).0, key, t) == Level(l, keys, key, t)
    ensures Level(l, RestoreStep(l, keys, other), key, t) == Level(l, keys, key, t)
  {
    AllowLeavesOthers(l, keys, key, other, now);
    UntouchedLevel(l, keys, AllowStep(l, keys, other, now).0, key, now, t);
  }

  // ---- runs ----

  datatype Call = Allow(key: string, now: int) | Restore(key: string, now: int)

  function Step(l: Limits, keys: Keys, c: Call): Keys {
    match c
    case Allow(key, now) => AllowStep(l, keys, key, now).0
    case Restore(key, _) => RestoreStep(l, keys, key)
  }

  /** The map after a run of calls. */
  function After(l: Limits, keys: Keys, cs: seq<Call>): Keys {
    if cs == [] then keys else Step(l, After(l, keys, cs[..|cs|-1]), cs[|cs|-1])
  }

  lemma StepKeeps(l: Limits, keys: Keys, c: Call)
    requires Sane(l, keys)
    ensures Sane(l, Step(l, keys, c)) && (Fits(l, keys) ==> Fits(l, Step(l, keys, c)))
  {
    match c {
      case Allow(key, now) => AllowKeeps(l, keys, key, now);
      case Restore(key, _) => RestoreKeeps(l, keys, key);
    }
  }

  /** Whatever times its calls read, a run keeps tokens between nothing and the burst and the map within capacity. */
  lemma {:induction false} RunKeeps(l: Limits, keys: Keys, cs: seq<Call>)
    requires Sane(l, keys) && Fits(l, keys)
    ensures Sane(l, After(l, keys, cs)) && Fits(l, After(l, keys, cs))
  {
    if cs != [] {
      RunKeeps(l, keys, cs[..|cs|-1]);
      StepKeeps(l, After(l, keys, cs[..|cs|-1]), cs[|cs|-1]);
    }
  }

  // ---- the bounded map against an unbounded one ----

  /** The same limiter with room for every key: nothing is ever swept or refused for want of room. */
  function IdealAllow(l: Limits, keys: Keys, key: string, now: int): (Keys, Answer) {
    Spend(l, keys, key, if key in keys then keys[key] else Bucket(l.burst as real, now), now)
  }

  /** What the bounded map holds the ideal one holds. */
  predicate Same(l: Limits, keys: Keys, ideal: Keys) {
    Sane(l, ideal) && forall k | k in keys :: k in ideal && keys[k] == ideal[k]
  }

  /** A request on a key that was forgotten, reading a time by which its bucket had not refilled. */
  predicate Late(l: Limits, keys: Keys, ideal: Keys, key: string, now: int) {
    key !in keys && key in ideal && !Refilled(l, ideal[key], now)
  }

  predicate Full(l: Limits, keys: Keys, key: string, now: int) {
    AllowStep(l, keys, key, now).1.full
  }

  lemma NewAsForgotten(l: Limits, b: Bucket, now: int)
    requires BucketOk(l, b) && Refilled(l, b, now)
    ensures Refill(l, b, now) == Bucket(l.burst as real, now)
  {
    FullStays(l, b, now, now);
    RateLaws(l, 0, 0);
  }

  /** A request that is not late, and not refused for want of room, is answered the same, and the maps stay the same. */
  lemma AllowSame(l: Limits, keys: Keys, ideal: Keys, key: string, now: int)
    requires Same(l, keys, ideal) && !Full(l, keys, key, now) && !Late(l, keys, ideal, key, now)
    ensures AllowStep(l, keys, key, now).1 == IdealAllow(l, ideal, key, now).1
    ensures Same(l, AllowStep(l, keys, key, now).0, IdealAllow(l, ideal, key, now).0)
    ensures key in AllowStep(l, keys, key, now).0
  {
    var b := if key in ideal then ideal[key] else Bucket(l.burst as real, now);
    RefillKeeps(l, b, now);
    if key !in keys && key in ideal {
      NewAsForgotten(l, ideal[key], now);
    }
  }

  lemma FullSame(l: Limits, keys: Keys, ideal: Keys, key: string, now: int)
    requires Same(l, keys, ideal) && Full(l, keys, key, now)
    ensures Same(l, AllowStep(l, keys, key, now).0, ideal)
  {
  }

  lemma RestoreSame(l: Limits, keys: Keys, ideal: Keys, key: string)
    requires Same(l, keys, ideal)
    ensures Same(l, RestoreStep(l, keys, key), RestoreStep(l, ideal, key))
  {
  }

  /** The ideal map after the same calls, less those the bounded one refused for want of room. */
  function IdealAfter(l: Limits, cs: seq<Call>): Keys {
    if cs == [] then map[]
    else
      var p := cs[..|cs|-1];
      match cs[|cs|-1]
      case Restore(key, _) => RestoreStep(l, IdealAfter(l, p), key)
      case Allow(key, now) =>
        if Full(l, After(l, map[], p), key, now) then IdealAfter(l, p) else IdealAllow(l, IdealAfter(l, p), key, now).0
  }

  /** The last call of a run is no late request that is let in. */
  predicate Prompt(l: Limits, p: seq<Call>, c: Call) {
    c.Allow? && !Full(l, After(l, map[], p), c.key, c.now) ==>
      !Late(l, After(l, map[], p), IdealAfter(l, p), c.key, c.now)
  }

  /** No request of the run is late. */
  predicate LateFree(l: Limits, cs: seq<Call>) {
    forall i | 0 <= i < |cs| :: Prompt(l, cs[..i], cs[i])
  }

  lemma LateFreePrefix(l: Limits, cs: seq<Call>, n: nat)
    requires n <= |cs| && forall i | 0 <= i < n :: Prompt(l, cs[..i], cs[i])
    ensures LateFree(l, cs[..n])
  {
    forall i | 0 <= i < n ensures Prompt(l, cs[..n][..i], cs[..n][i]) {
      assert cs[..n][..i] == cs[..i];
    }
  }

  lemma LateFreeSplits(l: Limits, cs: seq<Call>)
    requires LateFree(l, cs) && cs != []
    ensures LateFree(l, cs[..|cs|-1]) && Prompt(l, cs[..|cs|-1], cs[|cs|-1])
  {
    hide Prompt;
    LateFreePrefix(l, cs, |cs| - 1);
  }

  /** Through a run without late requests the two maps keep equal buckets. */
  lemma {:induction false} RunSame(l: Limits, cs: seq<Call>)
    requires LateFree(l, cs)
    ensures Same(l, After(l, map[], cs), IdealAfter(l, cs))
  {
    hide Prompt, LateFree;
    if cs != [] {
      var n := |cs| - 1;
      LateFreeSplits(l, cs);
      RunSame(l, cs[..n]);
      LastSame(l, cs[..n], cs[n]);
      assert cs[..n] + [cs[n]] == cs;
    }
  }

  lemma LastSame(l: Limits, p: seq<Call>, c: Call)
    requires Same(l, After(l, map[], p), IdealAfter(l, p)) && Prompt(l, p, c)
    ensures Same(l, After(l, map[], p + [c]), IdealAfter(l, p + [c]))
  {
    var keys, ideal := After(l, map[], p), IdealAfter(l, p);
    assert (p + [c])[..|p|] == p;
    match c {
      case Restore(key, _) => RestoreSame(l, keys, ideal, key);
      case Allow(key, now) =>
        if Full(l, keys, key, now) {
          FullSame(l, keys, ideal, key, now);
        } else {
          AllowSame(l, keys, ideal, key, now);
        }
    }
  }

  // ---- telling a forgotten bucket from a fresh one ----

  /** The answers to requests on one key at these times. */
  function Answers(l: Limits, keys: Keys, key: string, times: seq<int>): seq<Answer>
    decreases |times|
  {
    if times == [] then []
    else
      var (keys', a) := AllowStep(l, keys, key, times[0]);
      [a] + Answers(l, keys', key, times[1..])
  }

  function IdealAnswers(l: Limits, ideal: Keys, key: string, times: seq<int>): (r: seq<Answer>)
    ensures |r| == |times|
    decreases |times|
  {
    if times == [] then []
    else
      var (ideal', a) := IdealAllow(l, ideal, key, times[0]);
      [a] + IdealAnswers(l, ideal', key, times[1..])
  }

  /** As many requests as the burst at one time, and one more when a token has come back. */
  function Probe(l: Limits, now: int): seq<int> {
    seq(l.burst, _ => now) + [now + l.refill]
  }

  predicate AnsweredAlike(l: Limits, keys: Keys, ideal: Keys, key: string, times: seq<int>) {
    Answers(l, keys, key, times) == IdealAnswers(l, ideal, key, times)
  }

  lemma {:induction false} AlikeUnlessLate(l: Limits, keys: Keys, ideal: Keys, key: string, times: seq<int>)
    requires Same(l, keys, ideal) && times != []
    requires !Full(l, keys, key, times[0]) && !Late(l, keys, ideal, key, times[0])
    ensures AnsweredAlike(l, keys, ideal, key, times)
    decreases |times|
  {
    AllowSame(l, keys, ideal, key, times[0]);
    if |times| > 1 {
      AlikeUnlessLate(l, AllowStep(l, keys, key, times[0]).0, IdealAllow(l, ideal, key, times[0]).0, key, times[1..]);
    }
  }

  predicate AllServed(answers: seq<Answer>) {
    forall a | a in answers :: a.ok
  }

  /** A fresh bucket serves the whole probe. */
  lemma {:induction false} FreshServes(l: Limits, keys: Keys, key: string, now: int, n: nat)
    requires n <= l.burst && key in keys && keys[key] == Bucket(n as real, now)
    ensures AllServed(Answers(l, keys, key, seq(n, _ => now) + [now + l.refill]))
    decreases n
  {
    var times := seq(n, _ => now) + [now + l.refill];
    if n == 0 {
      RefillIsOne(l);
      var a := AllowStep(l, keys, key, now + l.refill).1;
      assert Refill(l, keys[key], now + l.refill).tokens == 1.0;
      assert times == [now + l.refill] && times[1..] == [];
      assert a.ok && Answers(l, keys, key, times) == [a];
    } else {
      var (keys', a) := AllowStep(l, keys, key, now);
      assert keys'[key] == Bucket((n - 1) as real, now);
      FreshServes(l, keys', key, now, n - 1);
      assert times[1..] == seq(n - 1, _ => now) + [now + l.refill];
      assert Answers(l, keys, key, times) == [a] + Answers(l, keys', key, times[1..]);
    }
  }

  lemma RefillIsOne(l: Limits)
    ensures Rate(l, l.refill) == 1.0
  {
  }

  lemma ForgottenServesProbe(l: Limits, keys: Keys, key: string, now: int)
    requires key !in keys && !Full(l, keys, key, now)
    ensures AllServed(Answers(l, keys, key, Probe(l, now)))
  {
    var times, keys' := Probe(l, now), AllowStep(l, keys, key, now).0;
    assert keys'[key] == Bucket((l.burst - 1) as real, now);
    FreshServes(l, keys', key, now, l.burst - 1);
    assert times[1..] == seq(l.burst - 1, _ => now) + [now + l.refill];
  }

  /** The most a bucket can still serve by a time, if it is never capped. */
  function Worth(l: Limits, b: Bucket, hi: int): real {
    b.tokens + if b.last < hi then Rate(l, hi - b.last) else 0.0
  }

  lemma RefillIsNoGain(l: Limits, b: Bucket, now: int, hi: int)
    requires now <= hi
    ensures Worth(l, Refill(l, b, now), hi) <= Worth(l, b, hi)
  {
    RateLaws(l, now - b.last, hi - now);
    RateLaws(l, 0, hi - now);
  }

  /** A bucket that serves a request at every one of these times was worth as many tokens. */
  lemma {:induction false} ServedIsWorth(l: Limits, ideal: Keys, key: string, times: seq<int>, hi: int)
    requires Sane(l, ideal) && key in ideal && forall i | 0 <= i < |times| :: times[i] <= hi
    requires AllServed(IdealAnswers(l, ideal, key, times))
    ensures Worth(l, ideal[key], hi) >= |times| as real
    decreases |times|
  {
    RateLaws(l, 0, hi - ideal[key].last);
    if times != [] {
      var (ideal', a) := IdealAllow(l, ideal, key, times[0]);
      assert IdealAnswers(l, ideal, key, times)[0] == a;
      assert forall x | x in IdealAnswers(l, ideal', key, times[1..]) :: x in IdealAnswers(l, ideal, key, times);
      RefillIsNoGain(l, ideal[key], times[0], hi);
      RefillKeeps(l, ideal[key], times[0]);
      ServedIsWorth(l, ideal', key, times[1..], hi);
    }
  }

  lemma NotRefilledIsWorthLess(l: Limits, b: Bucket, now: int)
    requires BucketOk(l, b) && !Refilled(l, b, now)
    ensures Worth(l, b, now + l.refill) < (l.burst + 1) as real
  {
    RefillIsOne(l);
    RateLaws(l, now - b.last, l.refill);
    if b.last > now {
      RateLaws(l, now - b.last, l.refill);
      RateNegative(l, now - b.last);
    }
  }

  /** After a run in which the maps kept equal buckets, a request that is let in is late exactly when the two limiters
      can be told apart by it, the rest of a burst and one request more. */
  lemma LateIsDetectable(l: Limits, keys: Keys, ideal: Keys, key: string, now: int)
    requires Same(l, keys, ideal) && !Full(l, keys, key, now)
    ensures Late(l, keys, ideal, key, now) <==> !AnsweredAlike(l, keys, ideal, key, Probe(l, now))
  {
    if Late(l, keys, ideal, key, now) {
      ForgottenServesProbe(l, keys, key, now);
      NotRefilledIsWorthLess(l, ideal[key], now);
      if AnsweredAlike(l, keys, ideal, key, Probe(l, now)) {
        ServedIsWorth(l, ideal, key, Probe(l, now), now + l.refill);
      }
    } else {
      AlikeUnlessLate(l, keys, ideal, key, Probe(l, now));
    }
  }

  /** The request that follows a run, if it is let in, and a probe begun with it are answered alike. */
  predicate ProbedAlike(l: Limits, p: seq<Call>, c: Call) {
    c.Allow? && !Full(l, After(l, map[], p), c.key, c.now) ==>
      AnsweredAlike(l, After(l, map[], p), IdealAfter(l, p), c.key, Probe(l, c.now))
  }

  lemma {:induction false} LateFreeUpTo(l: Limits, cs: seq<Call>, n: nat)
    requires n <= |cs| && forall i | 0 <= i < n :: ProbedAlike(l, cs[..i], cs[i])
    ensures forall i | 0 <= i < n :: Prompt(l, cs[..i], cs[i])
  {
    hide Prompt, ProbedAlike, LateFree, Same;
    if n > 0 {
      LateFreeUpTo(l, cs, n - 1);
      LateFreePrefix(l, cs, n - 1);
      RunSame(l, cs[..n-1]);
      PromptIffAlike(l, cs[..n-1], cs[n-1]);
    }
  }

  lemma PromptIffAlike(l: Limits, p: seq<Call>, c: Call)
    requires Same(l, After(l, map[], p), IdealAfter(l, p))
    ensures Prompt(l, p, c) <==> ProbedAlike(l, p, c)
  {
    if c.Allow? && !Full(l, After(l, map[], p), c.key, c.now) {
      LateIsDetectable(l, After(l, map[], p), IdealAfter(l, p), c.key, c.now);
    }
  }

  /** Sweeping is invisible, to every request let in and to a probe begun with it, exactly in the runs without a late
      request. The times of the calls may come in any order. */
  lemma SweepingIsInvisible(l: Limits, cs: seq<Call>)
    ensures LateFree(l, cs) <==> forall i | 0 <= i < |cs| :: ProbedAlike(l, cs[..i], cs[i])
    ensures Fits(l, After(l, map[], cs))
  {
    RunKeeps(l, map[], cs);
    if LateFree(l, cs) {
      forall i | 0 <= i < |cs| ensures ProbedAlike(l, cs[..i], cs[i]) {
        LateFreePrefix(l, cs, i);
        RunSame(l, cs[..i]);
        PromptIffAlike(l, cs[..i], cs[i]);
      }
    } else if forall i | 0 <= i < |cs| :: ProbedAlike(l, cs[..i], cs[i]) {
      LateFreeUpTo(l, cs, |cs|);
    }
  }

  /** In particular every answer of such a run is the unbounded limiter's, unless it is for want of room. */
  lemma AnswersAreIdeal(l: Limits, cs: seq<Call>, i: nat)
    requires LateFree(l, cs) && i < |cs| && cs[i].Allow? && !Full(l, After(l, map[], cs[..i]), cs[i].key, cs[i].now)
    ensures AllowStep(l, After(l, map[], cs[..i]), cs[i].key, cs[i].now).1
         == IdealAllow(l, IdealAfter(l, cs[..i]), cs[i].key, cs[i].now).1
  {
    LateFreePrefix(l, cs, i);
    RunSame(l, cs[..i]);
    assert Prompt(l, cs[..i], cs[i]);
    AllowSame(l, After(l, map[], cs[..i]), IdealAfter(l, cs[..i]), cs[i].key, cs[i].now);
  }

  // ---- refusals for want of room ----

  /** The keys still held that have something to remember at this time. */
  function Spending(l: Limits, keys: Keys, now: int): set<string> {
    set k | k in keys && !Refilled(l, keys[k], now)
  }

  /** A request is refused for room exactly when its key is new and the map is full of keys that have not refilled;
      what has refilled is then forgotten, and the caller is told to come back when a token has. */
  lemma FullExactly(l: Limits, keys: Keys, key: string, now: int)
    ensures Full(l, keys, key, now) <==> key !in keys && |Spending(l, keys, now)| >= l.capacity
    ensures Full(l, keys, key, now) ==>
      AllowStep(l, keys, key, now) == (map k | k in Spending(l, keys, now) :: keys[k], Answer(false, l.refill, true))
  {
    var left := Sweep(l, keys, now);
    assert left.Keys == Spending(l, keys, now);
    assert left == map k | k in Spending(l, keys, now) :: keys[k];
    Sets.SubsetSize(Spending(l, keys, now), keys.Keys);
    if Full(l, keys, key, now) {
      assert Room(l, keys, key, now) == left;
    }
  }

  /** What a request leaves in the map: nothing is forgotten for a key that is held or that there is room for, and what
      has refilled for one that there is not; and its own bucket, unless it is refused for room. */
  lemma KeysAfter(l: Limits, keys: Keys, key: string, now: int)
    ensures var kept := if key in keys || |keys| < l.capacity then keys.Keys else Spending(l, keys, now);
      && AllowStep(l, keys, key, now).0.Keys == kept + (if Full(l, keys, key, now) then {} else {key})
      && forall k | k in kept && k != key :: AllowStep(l, keys, key, now).0[k] == keys[k]
  {
    var left := Sweep(l, keys, now);
    assert left.Keys == Spending(l, keys, now);
    FullExactly(l, keys, key, now);
  }

  /** So over any run, whatever the order of times. */
  lemma RefusedForRoomExactly(l: Limits, cs: seq<Call>, i: nat)
    requires i < |cs| && cs[i].Allow?
    ensures var keys := After(l, map[], cs[..i]);
      Full(l, keys, cs[i].key, cs[i].now) <==>
        cs[i].key !in keys && |Spending(l, keys, cs[i].now)| >= l.capacity
  {
    FullExactly(l, After(l, map[], cs[..i]), cs[i].key, cs[i].now);
  }

  // ---- what a caller can see to ----

  /** When the sweep ran that last forgot a key, if it is forgotten. */
  function ForgottenAt(l: Limits, cs: seq<Call>, key: string): Option<int> {
    if cs == [] || key in After(l, map[], cs) then None
    else if key in After(l, map[], cs[..|cs|-1]) then Some(cs[|cs|-1].now)
    else ForgottenAt(l, cs[..|cs|-1], key)
  }

  /** No request reads a time before the sweep that forgot its key. */
  predicate AfterSweeps(l: Limits, cs: seq<Call>) {
    forall i | 0 <= i < |cs| && cs[i].Allow? && ForgottenAt(l, cs[..i], cs[i].key).Some? ::
      ForgottenAt(l, cs[..i], cs[i].key).value <= cs[i].now
  }

  /** What one call forgets was full by its time, and giving a full bucket a token back leaves it full. */
  lemma CallForgetsFull(l: Limits, keys: Keys, ideal: Keys, c: Call, key: string)
    requires Same(l, keys, ideal)
    ensures key in keys && key !in Step(l, keys, c) ==> c.Allow? && c.key != key && Refilled(l, ideal[key], c.now)
    ensures key !in keys && key !in Step(l, keys, c) && c.Allow? && c.key == key ==> Full(l, keys, key, c.now)
  {
  }

  lemma RestoreStaysFull(l: Limits, b: Bucket, t: int)
    requires BucketOk(l, b) && Refilled(l, b, t)
    ensures Refilled(l, b.(tokens := Min(l.burst as real, b.tokens + 1.0)), t)
  {
    FullStays(l, b, t, t);
    RateLaws(l, 0, t - b.last);
  }

  lemma {:induction false} ForgottenWasFull(l: Limits, cs: seq<Call>, key: string)
    requires LateFree(l, cs) && key in IdealAfter(l, cs) && key !in After(l, map[], cs)
    ensures ForgottenAt(l, cs, key).Some? && Refilled(l, IdealAfter(l, cs)[key], ForgottenAt(l, cs, key).value)
  {
    hide LateFree, Prompt, AllowStep, IdealAllow, Refilled;
    if cs != [] {
      var p, c := cs[..|cs|-1], cs[|cs|-1];
      var keys, ideal := After(l, map[], p), IdealAfter(l, p);
      LateFreeSplits(l, cs);
      RunSame(l, p);
      CallForgetsFull(l, keys, ideal, c, key);
      IdealKeepsOthers(l, p, c, key);
      assert p + [c] == cs;
      if key !in keys {
        ForgottenWasFull(l, p, key);
        RestoreStaysFull(l, ideal[key], ForgottenAt(l, p, key).value);
      }
    }
  }

  /** A request leaves the other keys' buckets of the ideal map alone, and all of them when it is not let in. */
  lemma IdealKeepsOthers(l: Limits, p: seq<Call>, c: Call, key: string)
    ensures c.Allow? && (c.key != key || Full(l, After(l, map[], p), key, c.now)) ==>
      && (key in IdealAfter(l, p + [c]) <==> key in IdealAfter(l, p))
      && (key in IdealAfter(l, p) ==> IdealAfter(l, p + [c])[key] == IdealAfter(l, p)[key])
  {
    assert (p + [c])[..|p|] == p;
  }

  lemma LateFreeExtends(l: Limits, cs: seq<Call>, n: nat)
    requires n < |cs| && LateFree(l, cs[..n]) && Prompt(l, cs[..n], cs[n])
    ensures LateFree(l, cs[..n+1])
  {
    hide Prompt;
    var p, q := cs[..n], cs[..n+1];
    forall i | 0 <= i < |q| ensures Prompt(l, q[..i], q[i]) {
      assert i < n ==> q[..i] == p[..i] && q[i] == p[i];
      assert i == n ==> q[..i] == p;
    }
  }

  lemma AfterSweepsIsPrompt(l: Limits, cs: seq<Call>, n: nat)
    requires AfterSweeps(l, cs) && n < |cs| && LateFree(l, cs[..n])
    ensures Prompt(l, cs[..n], cs[n])
  {
    hide LateFree, AllowStep;
    var p, c := cs[..n], cs[n];
    var keys, ideal := After(l, map[], p), IdealAfter(l, p);
    RunSame(l, p);
    if c.Allow? && c.key !in keys && c.key in ideal {
      ForgottenWasFull(l, p, c.key);
      FullStays(l, ideal[c.key], ForgottenAt(l, p, c.key).value, c.now);
    }
  }

  /** Then no request is late. */
  lemma {:induction false} AfterSweepsIsLateFree(l: Limits, cs: seq<Call>, n: nat)
    requires AfterSweeps(l, cs) && n <= |cs|
    ensures LateFree(l, cs[..n])
  {
    if n > 0 {
      hide AfterSweeps, LateFree, Prompt;
      AfterSweepsIsLateFree(l, cs, n - 1);
      AfterSweepsIsPrompt(l, cs, n - 1);
      LateFreeExtends(l, cs, n - 1);
    }
  }

  /** Times that never run backwards are enough. */
  predicate InOrder(cs: seq<Call>) {
    forall i, j | 0 <= i < j < |cs| :: cs[i].now <= cs[j].now
  }

  lemma {:induction false} ForgottenBefore(l: Limits, cs: seq<Call>, key: string, t: int)
    requires ForgottenAt(l, cs, key).Some? && forall i | 0 <= i < |cs| :: cs[i].now <= t
    ensures ForgottenAt(l, cs, key).value <= t
  {
    if key !in After(l, map[], cs[..|cs|-1]) {
      ForgottenBefore(l, cs[..|cs|-1], key, t);
    }
  }

  lemma InOrderIsAfterSweeps(l: Limits, cs: seq<Call>)
    requires InOrder(cs)
    ensures AfterSweeps(l, cs)
  {
    forall i | 0 <= i < |cs| && cs[i].Allow? && ForgottenAt(l, cs[..i], cs[i].key).Some?
      ensures ForgottenAt(l, cs[..i], cs[i].key).value <= cs[i].now
    {
      ForgottenBefore(l, cs[..i], cs[i].key, cs[i].now);
    }
  }

  // ---- the ceiling over any window ----

  function Granted(l: Limits, p: seq<Call>, c: Call, key: string): nat {
    if c.Allow? && c.key == key && AllowStep(l, After(l, map[], p), key, c.now).1.ok then 1 else 0
  }

  function Returned(c: Call, key: string): nat {
    if c.Restore? && c.key == key then 1 else 0
  }

  /** Requests of one key let through from the n-th call on. */
  function Admitted(l: Limits, cs: seq<Call>, n: nat, key: string): nat {
    if |cs| <= n then 0
    else
      Admitted(l, cs[..|cs|-1], n, key) + Granted(l, cs[..|cs|-1], cs[|cs|-1], key)
  }

  function Restores(cs: seq<Call>, n: nat, key: string): nat {
    if |cs| <= n then 0
    else Restores(cs[..|cs|-1], n, key) + Returned(cs[|cs|-1], key)
  }

  predicate Reads(cs: seq<Call>, n: nat, lo: int, hi: int) {
    lo <= hi && forall i | n <= i < |cs| :: lo <= cs[i].now <= hi
  }

  /** The most a key can still spend by `hi` in a window of readings no earlier than `lo`. */
  function Potential(l: Limits, ideal: Keys, key: string, lo: int, hi: int): real {
    if key in ideal && ideal[key].last >= lo then Worth(l, ideal[key], hi) else l.burst as real + Rate(l, hi - lo)
  }

  lemma PotentialBounds(l: Limits, ideal: Keys, key: string, lo: int, hi: int)
    requires Sane(l, ideal) && lo <= hi
    ensures 0.0 <= Potential(l, ideal, key, lo, hi) <= l.burst as real + Rate(l, hi - lo)
  {
    RateLaws(l, 0, hi - lo);
    if key in ideal && ideal[key].last >= lo {
      RateLaws(l, hi - ideal[key].last, hi - lo);
      RateLaws(l, 0, hi - ideal[key].last);
    }
  }

  /** A request that is let in pays for itself. */
  lemma AllowPays(l: Limits, ideal: Keys, key: string, now: int, lo: int, hi: int)
    requires Sane(l, ideal) && lo <= now <= hi
    ensures var (ideal', a) := IdealAllow(l, ideal, key, now);
      Potential(l, ideal', key, lo, hi) + (if a.ok then 1.0 else 0.0) <= Potential(l, ideal, key, lo, hi)
  {
    var b := if key in ideal then ideal[key] else Bucket(l.burst as real, now);
    RefillKeeps(l, b, now);
    RateLaws(l, now - lo, hi - now);
    RateLaws(l, 0, now - lo);
    if key in ideal && b.last >= lo {
      RefillIsNoGain(l, b, now, hi);
    }
  }

  lemma RestorePays(l: Limits, ideal: Keys, key: string, lo: int, hi: int)
    requires Sane(l, ideal)
    ensures Potential(l, RestoreStep(l, ideal, key), key, lo, hi) <= Potential(l, ideal, key, lo, hi) + 1.0
  {
  }

  lemma CallPays(l: Limits, p: seq<Call>, c: Call, key: string, lo: int, hi: int)
    requires Same(l, After(l, map[], p), IdealAfter(l, p)) && Prompt(l, p, c) && lo <= c.now <= hi
    ensures Potential(l, IdealAfter(l, p + [c]), key, lo, hi)
         <= Potential(l, IdealAfter(l, p), key, lo, hi)
            - Granted(l, p, c, key) as real + Returned(c, key) as real
  {
    var keys, ideal := After(l, map[], p), IdealAfter(l, p);
    assert (p + [c])[..|p|] == p;
    match c {
      case Restore(k, _) => RestorePays(l, ideal, key, lo, hi);
      case Allow(k, now) =>
        if !Full(l, keys, k, now) {
          AllowSame(l, keys, ideal, k, now);
          AllowPays(l, ideal, key, now, lo, hi);
        }
    }
  }

  lemma Add(a: int, b: int)
    ensures (a + b) as real == a as real + b as real
  {
  }

  lemma {:induction false} WindowAccounts(l: Limits, cs: seq<Call>, n: nat, key: string, lo: int, hi: int)
    requires LateFree(l, cs) && n <= |cs| && Reads(cs, n, lo, hi)
    ensures Potential(l, IdealAfter(l, cs), key, lo, hi) + Admitted(l, cs, n, key) as real
         <= l.burst as real + Rate(l, hi - lo) + Restores(cs, n, key) as real
  {
    hide Potential, IdealAfter, After, Granted, Returned, LateFree, Prompt;
    if |cs| == n {
      RunSame(l, cs);
      PotentialBounds(l, IdealAfter(l, cs), key, lo, hi);
    } else {
      var p, c := cs[..|cs|-1], cs[|cs|-1];
      LateFreeSplits(l, cs);
      RunSame(l, p);
      WindowAccounts(l, p, n, key, lo, hi);
      CallPays(l, p, c, key, lo, hi);
      assert p + [c] == cs;
      Add(Admitted(l, p, n, key), Granted(l, p, c, key));
      Add(Restores(p, n, key), Returned(c, key));
    }
  }

  /** The ceiling over any window of any run without late requests: however the calls of all keys interleave, one key
      gets at most its burst, what comes back between the least and the greatest time read, and what was restored. */
  lemma SlidingWindow(l: Limits, cs: seq<Call>, n: nat, key: string, lo: int, hi: int)
    requires LateFree(l, cs) && n <= |cs| && Reads(cs, n, lo, hi)
    ensures Admitted(l, cs, n, key) as real
         <= l.burst as real + (hi - lo) as real / l.refill as real + Restores(cs, n, key) as real
  {
    WindowAccounts(l, cs, n, key, lo, hi);
    RunSame(l, cs);
    PotentialBounds(l, IdealAfter(l, cs), key, lo, hi);
  }

  // ---- what a late request does ----

  const SPENT := Bucket(0.0, 0)

  /** Two keys fill a small limiter; a third, once both have refilled, sweeps them out. */
  lemma ThirdKeySweeps(l: Limits, a: string, b: string, c: string)
    requires l == Limits(1, 100, 2) && a != b && b != c && a != c
    ensures AllowStep(l, map[a := SPENT, c := SPENT], b, 100).0 == map[b := Bucket(0.0, 100)]
    ensures IdealAllow(l, map[a := SPENT, c := SPENT], b, 100).0 == map[a := SPENT, c := SPENT, b := Bucket(0.0, 100)]
  {
    var two: Keys := map[a := SPENT, c := SPENT];
    assert |two.Keys| == |{a, c}| == 2;
    assert Refilled(l, SPENT, 100);
    assert Sweep(l, two, 100) == map[];
  }

  lemma TwoKeysSpend(l: Limits, a: string, c: string)
    requires l == Limits(1, 100, 2) && a != c
    ensures AllowStep(l, map[], a, 0).0 == map[a := SPENT] == IdealAllow(l, map[], a, 0).0
    ensures AllowStep(l, map[a := SPENT], c, 0).0 == map[a := SPENT, c := SPENT]
    ensures IdealAllow(l, map[a := SPENT], c, 0).0 == map[a := SPENT, c := SPENT]
  {
  }

  /** A call that read the clock before that sweep, and comes after it, finds a full bucket where the unbounded
      limiter still counts what was spent. */
  lemma LateCallSeesSweep(l: Limits, a: string, b: string, c: string)
    requires l == Limits(1, 100, 2) && a != b && b != c && a != c
    ensures var one, ideal1 := AllowStep(l, map[], a, 0).0, IdealAllow(l, map[], a, 0).0;
      var two, ideal2 := AllowStep(l, one, c, 0).0, IdealAllow(l, ideal1, c, 0).0;
      var swept, ideal3 := AllowStep(l, two, b, 100).0, IdealAllow(l, ideal2, b, 100).0;
      Late(l, swept, ideal3, a, 50) && AllowStep(l, swept, a, 50).1.ok && !IdealAllow(l, ideal3, a, 50).1.ok
  {
    TwoKeysSpend(l, a, c);
    ThirdKeySweeps(l, a, b, c);
  }

  /** The calls of that run, and one more of the same key when the fresh bucket has refilled. */
  function LateCalls(a: string, b: string, c: string): seq<Call> {
    [Allow(a, 0), Allow(c, 0), Allow(b, 100), Allow(a, 50), Allow(a, 150)]
  }

  lemma OneMore(l: Limits, p: seq<Call>, c: Call, key: string)
    ensures After(l, map[], p + [c]) == Step(l, After(l, map[], p), c)
    ensures Admitted(l, p + [c], 0, key) == Admitted(l, p, 0, key) + Granted(l, p, c, key)
    ensures Restores(p + [c], 0, key) == Restores(p, 0, key) + Returned(c, key)
  {
    assert (p + [c])[..|p|] == p;
  }

  /** A run with so many requests of the key let in and none restored, and the map it leaves. */
  predicate Counts(l: Limits, cs: seq<Call>, key: string, keys: Keys, n: nat) {
    After(l, map[], cs) == keys && Admitted(l, cs, 0, key) == n && Restores(cs, 0, key) == 0
  }

  lemma CountsOneMore(l: Limits, p: seq<Call>, keys: Keys, n: nat, key: string, other: string, now: int)
    requires Counts(l, p, key, keys, n)
    ensures var (keys', a) := AllowStep(l, keys, other, now);
      Counts(l, p + [Allow(other, now)], key, keys', if other == key && a.ok then n + 1 else n)
  {
    OneMore(l, p, Allow(other, now), key);
  }

  lemma TwoCounted(l: Limits, a: string, c: string)
    requires l == Limits(1, 100, 2) && a != c
    ensures Counts(l, [Allow(a, 0), Allow(c, 0)], a, map[a := SPENT, c := SPENT], 1)
  {
    TwoKeysSpend(l, a, c);
    CountsOneMore(l, [], map[], 0, a, a, 0);
    assert [] + [Allow(a, 0)] == [Allow(a, 0)];
    CountsOneMore(l, [Allow(a, 0)], map[a := SPENT], 1, a, c, 0);
    assert [Allow(a, 0)] + [Allow(c, 0)] == [Allow(a, 0), Allow(c, 0)];
  }

  /** And through it the key gets more than the ceiling: three requests between 0 and 150, where its burst and what
      comes back make two and a half. */
  lemma LateWindow(l: Limits, a: string, b: string, c: string)
    requires l == Limits(1, 100, 2) && a != b && b != c && a != c
    ensures var cs := LateCalls(a, b, c);
      && Reads(cs, 0, 0, 150) && Restores(cs, 0, a) == 0
      && Admitted(l, cs, 0, a) == 3 && l.burst as real + Rate(l, 150) == 2.5
  {
    hide After, Admitted, Restores;
    var p2 := [Allow(a, 0), Allow(c, 0)];
    var swept: Keys := map[b := Bucket(0.0, 100)];
    TwoCounted(l, a, c);
    ThirdKeySweeps(l, a, b, c);
    CountsOneMore(l, p2, map[a := SPENT, c := SPENT], 1, a, b, 100);
    LateStates(l, a, b);
    CountsOneMore(l, p2 + [Allow(b, 100)], swept, 1, a, a, 50);
    CountsOneMore(l, p2 + [Allow(b, 100)] + [Allow(a, 50)], swept[a := Bucket(0.0, 50)], 2, a, a, 150);
    assert p2 + [Allow(b, 100)] + [Allow(a, 50)] + [Allow(a, 150)] == LateCalls(a, b, c);
  }

  lemma LateStates(l: Limits, a: string, b: string)
    requires l == Limits(1, 100, 2) && a != b
    ensures var swept: Keys := map[b := Bucket(0.0, 100)];
      && AllowStep(l, swept, a, 50) == (swept[a := Bucket(0.0, 50)], Answer(true, 0, false))
      && AllowStep(l, swept[a := Bucket(0.0, 50)], a, 150).1.ok
  {
  }

  // ---- waiting and refunds ----

  predicate OnOthers(cs: seq<Call>, key: string) {
    forall c | c in cs :: c.key != key
  }

  /** All these calls read times up to `t`. */
  predicate UpTo(cs: seq<Call>, t: int) {
    forall c | c in cs :: c.now <= t
  }

  lemma {:induction false} OthersLeave(l: Limits, keys: Keys, cs: seq<Call>, key: string, t: int)
    requires Sane(l, keys) && OnOthers(cs, key) && UpTo(cs, t)
    ensures Untouched(l, keys, After(l, keys, cs), key, t)
  {
    if cs != [] {
      var p, c := cs[..|cs|-1], cs[|cs|-1];
      OthersLeave(l, keys, p, key, t);
      assert c in cs;
      if c.Allow? {
        AllowLeavesOthers(l, After(l, keys, p), key, c.key, c.now);
      }
      if key in keys && key in After(l, keys, p) && key !in After(l, keys, cs) {
        FullStays(l, keys[key], c.now, t);
      }
    }
  }

  lemma RoundIsNear(d: int)
    ensures 2 * (Round(d) - d) <= SECOND && 2 * (d - Round(d)) < SECOND
  {
  }

  /** The wait covers the time the missing part of a token takes, by at most a second and a half. */
  lemma WaitIsHonest(l: Limits, tokens: real)
    requires tokens < 1.0
    ensures var need := (1.0 - tokens) * l.refill as real;
      need <= RetryAfter(l, tokens) as real <= need + 1_500_000_000.0
  {
    RoundIsNear(Duration(l, 1.0 - tokens));
  }

  lemma WaitRefills(l: Limits, tokens: real, d: int)
    requires 0.0 <= tokens < 1.0 && RetryAfter(l, tokens) <= d
    ensures tokens + Rate(l, d) >= 1.0
  {
    WaitIsHonest(l, tokens);
    var need := (1.0 - tokens) * l.refill as real;
    assert d as real >= need;
    DivAtLeast(d as real, 1.0 - tokens, l.refill as real);
  }

  lemma DivAtLeast(d: real, x: real, r: real)
    requires r > 0.0 && d >= x * r
    ensures d / r >= x
  {
    assert d == (d / r) * r;
  }

  function Max(a: int, b: int): int {
    if a > b then a else b
  }

  /** The time a request counts from: its own, or a later one its bucket has seen. */
  function Seen(keys: Keys, key: string, now: int): int {
    if key in keys then Max(now, keys[key].last) else now
  }

  lemma RefusedBucket(l: Limits, keys: Keys, key: string, now: int)
    requires Sane(l, keys) && !AllowStep(l, keys, key, now).1.ok && !Full(l, keys, key, now)
    ensures var (keys', a) := AllowStep(l, keys, key, now);
      && key in keys' && 0.0 <= keys'[key].tokens < 1.0 && keys'[key].last == Seen(keys, key, now)
      && a.retryAfter == RetryAfter(l, keys'[key].tokens)
  {
    AllowKeeps(l, keys, key, now);
  }

  /** A caller refused for want of a token who waits as told, with no other call on its key, is let through. */
  lemma WaitingWorks(l: Limits, keys: Keys, key: string, now: int, between: seq<Call>, t: int)
    requires Sane(l, keys) && OnOthers(between, key) && UpTo(between, t)
    requires !AllowStep(l, keys, key, now).1.ok && !Full(l, keys, key, now)
    requires Seen(keys, key, now) + AllowStep(l, keys, key, now).1.retryAfter <= t
    ensures var later := AllowStep(l, After(l, AllowStep(l, keys, key, now).0, between), key, t).1;
      later.ok || later.full
  {
    var keys1 := AllowStep(l, keys, key, now).0;
    RefusedBucket(l, keys, key, now);
    AllowKeeps(l, keys, key, now);
    OthersLeave(l, keys1, between, key, t);
    WaitRefills(l, keys1[key].tokens, t - keys1[key].last);
    WaitIsHonest(l, keys1[key].tokens);
  }

  /** Spending a token of a bucket and restoring it gives the bucket back. */
  lemma SpentAndRestored(l: Limits, b: Bucket)
    requires 1.0 <= b.tokens <= l.burst as real
    ensures b.(tokens := Min(l.burst as real, b.tokens - 1.0 + 1.0)) == b
  {
  }

  /** Bringing a bucket up to date changes no later level. */
  lemma RefillTwice(l: Limits, b: Bucket, now: int, t: int)
    requires BucketOk(l, b) && now <= t
    ensures Refill(l, Refill(l, b, now), t).tokens == Refill(l, b, t).tokens
  {
    RateLaws(l, now - b.last, t - now);
    RateLaws(l, 0, t - now);
  }

  /** A bucket that fills up even with a token missing would have been full without it missing. */
  lemma FullAnyway(l: Limits, b: Bucket, t: int)
    requires BucketOk(l, b) && 1.0 <= b.tokens && Refilled(l, b.(tokens := b.tokens - 1.0), t)
    ensures Refill(l, b, t).tokens == l.burst as real
  {
    FullStays(l, b.(tokens := b.tokens - 1.0), t, t);
    FullStays(l, b, t, t);
  }

  lemma AdmittedBucket(l: Limits, keys: Keys, key: string, now: int)
    requires Sane(l, keys) && AllowStep(l, keys, key, now).1.ok
    ensures var b := Refill(l, if key in keys then keys[key] else Bucket(l.burst as real, now), now);
      && BucketOk(l, b) && 1.0 <= b.tokens
      && key in AllowStep(l, keys, key, now).0 && AllowStep(l, keys, key, now).0[key] == b.(tokens := b.tokens - 1.0)
  {
    RefillKeeps(l, if key in keys then keys[key] else Bucket(l.burst as real, now), now);
  }

  /** A token spent and given back, whatever other keys do in between, leaves the key's future unchanged. */
  lemma RefundIsExact(l: Limits, keys: Keys, key: string, now: int, between: seq<Call>, t: int)
    requires Sane(l, keys) && OnOthers(between, key) && UpTo(between, t) && now <= t
    requires AllowStep(l, keys, key, now).1.ok
    ensures Level(l, RestoreStep(l, After(l, AllowStep(l, keys, key, now).0, between), key), key, t)
         == Level(l, keys, key, t)
  {
    var keys1 := AllowStep(l, keys, key, now).0;
    var start := if key in keys then keys[key] else Bucket(l.burst as real, now);
    var b := Refill(l, start, now);
    AdmittedBucket(l, keys, key, now);
    AllowKeeps(l, keys, key, now);
    OthersLeave(l, keys1, between, key, t);
    RefillTwice(l, start, now, t);
    RateLaws(l, t - now, 0);
    assert Level(l, keys, key, t) == Refill(l, b, t).tokens;
    if key in After(l, keys1, between) {
      SpentAndRestored(l, b);
    } else {
      FullAnyway(l, b, t);
    }
  }
}
