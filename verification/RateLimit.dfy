/** The per-key token bucket of internal/ratelimit/limiter.go.

    Tokens and clock readings are real numbers. `Step` is the meaning of one `Allow` call on the
    bucket table; the class `Limiter` is the imperative form, proved to compute it. The theorems
    are about whole runs: sequences of calls with a clock that never goes back.
  */
module RateLimit {
  import opened Sequences
  import opened Wrappers

  datatype Error = InvalidRate | InvalidBurst

  /** `refill(d)` is what a bucket earns in `d` seconds. */
  datatype Params = Params(refill: real -> real, burst: real) {
    /** A bucket holds at least one token; what is earned is never negative and adds up over
        consecutive intervals. */
    ghost predicate Valid() {
      && burst >= 1.0
      && (forall d :: d >= 0.0 ==> refill(d) >= 0.0)
      && (forall a, b, c :: Consecutive(a, b, c) ==> refill(b - a) + refill(c - b) == refill(c - a))
    }
  }

  predicate Consecutive(a: real, b: real, c: real) {
    a <= b <= c
  }

  /** The source's parameters: a constant number of tokens per second. */
  function Steady(rate: real, burst: real): Params {
    Params(d => d * rate, burst)
  }

  lemma SteadyIsValid(rate: real, burst: real)
    requires rate > 0.0 && burst >= 1.0
    ensures Steady(rate, burst).Valid()
  {
    var p := Steady(rate, burst);
    forall a, b, c | Consecutive(a, b, c)
      ensures p.refill(b - a) + p.refill(c - b) == p.refill(c - a)
    {
      assert (b - a) * rate + (c - b) * rate == (c - a) * rate;
    }
  }

  datatype BucketState = BucketState(tokens: real, last: real)

  type Buckets = map<string, BucketState>

  datatype Call = Call(key: string, now: real)

  function Min(a: real, b: real): real {
    if a < b then a else b
  }

  /** One call to `Allow`: the new table and the decision. */
  function Step(p: Params, table: Buckets, c: Call): (Buckets, bool) {
    if c.key == "" then
      (table, false)
    else if c.key !in table then
      (table[c.key := BucketState(p.burst - 1.0, c.now)], true)
    else
      var tokens := Min(p.burst, table[c.key].tokens + p.refill(c.now - table[c.key].last));
      if tokens < 1.0 then
        (table[c.key := BucketState(tokens, c.now)], false)
      else
        (table[c.key := BucketState(tokens - 1.0, c.now)], true)
  }

  // ---------------------------------------------------------------------------------------------
  // The imperative form
  // ---------------------------------------------------------------------------------------------

  class Bucket {
    var tokens: real
    var last: real

    constructor (tokens: real, last: real)
      ensures this.tokens == tokens && this.last == last
    {
      this.tokens, this.last := tokens, last;
    }

    /** Refills up to `burst`, then takes a token if there is one. */
    method Take(burst: real, earned: real, now: real) returns (ok: bool)
      modifies this
      ensures last == now && ok == (Min(burst, old(tokens) + earned) >= 1.0)
      ensures tokens == Min(burst, old(tokens) + earned) - if ok then 1.0 else 0.0
    {
      tokens := Min(burst, tokens + earned);
      last := now;
      if tokens < 1.0 {
        return false;
      }
      tokens := tokens - 1.0;
      return true;
    }
  }

  class Limiter {
    var buckets: map<string, Bucket>
    const tokensPerSecond: real
    const burst: real

    /** Keys never share a bucket, and the parameters are the ones `New` accepts. */
    ghost predicate Valid()
      reads this
    {
      && tokensPerSecond > 0.0 && burst >= 1.0
      && forall j, k :: j in buckets && k in buckets && j != k ==> buckets[j] != buckets[k]
    }

    ghost function Settings(): Params {
      Steady(tokensPerSecond, burst)
    }

    ghost function Table(): Buckets
      reads this, buckets.Values
    {
      map k | k in buckets :: BucketState(buckets[k].tokens, buckets[k].last)
    }

    constructor (rate: real, burst: real)
      requires rate > 0.0 && burst >= 1.0
      ensures Valid() && Settings() == Steady(rate, burst) && Table() == map[]
    {
      buckets := map[];
      tokensPerSecond, this.burst := rate, burst;
    }

    static method New(tokensPerSecond: real, burst: int) returns (r: Result<Limiter, Error>)
      ensures tokensPerSecond <= 0.0 ==> r == Err(InvalidRate)
      ensures tokensPerSecond > 0.0 && burst <= 0 ==> r == Err(InvalidBurst)
      ensures tokensPerSecond > 0.0 && burst > 0 ==>
                && r.Ok? && fresh(r.value) && r.value.Valid() && r.value.Table() == map[]
                && r.value.Settings() == Steady(tokensPerSecond, burst as real)
    {
      if tokensPerSecond <= 0.0 {
        return Err(InvalidRate);
      }
      if burst <= 0 {
        return Err(InvalidBurst);
      }
      var limiter := new Limiter(tokensPerSecond, burst as real);
      return Ok(limiter);
    }

    /** One bucket has changed in place: what that means for the table. */
    twostate lemma OneBucketChanged(key: string)
      requires old(Valid()) && key in buckets && buckets == old(buckets)
      requires forall k :: k in buckets && k != key ==> unchanged(buckets[k])
      ensures Table() == old(Table())[key := BucketState(buckets[key].tokens, buckets[key].last)]
    {
    }

    /** A bucket has been added. */
    twostate lemma OneBucketAdded(key: string, new created: Bucket)
      requires old(Valid()) && key !in old(buckets) && buckets == old(buckets)[key := created]
      requires forall k :: k in old(buckets) ==> unchanged(buckets[k])
      ensures Table() == old(Table())[key := BucketState(created.tokens, created.last)]
    {
    }

    method Allow(key: string, now: real) returns (ok: bool)
      requires Valid()
      modifies this, buckets.Values
      ensures Valid() && fresh(buckets.Values - old(buckets.Values))
      ensures (Table(), ok) == Step(Settings(), old(Table()), Call(key, now))
    {
      if key == "" {
        return false;
      }
      if key !in buckets {
        var created := new Bucket(burst - 1.0, now);
        buckets := buckets[key := created];
        OneBucketAdded(key, created);
        return true;
      }
      var current := buckets[key];
      var earned := (now - current.last) * tokensPerSecond;
      assert Settings().refill(now - old(Table())[key].last) == earned;
      ok := current.Take(burst, earned, now);
      OneBucketChanged(key);
    }
  }

  // ---------------------------------------------------------------------------------------------
  // Runs
  // ---------------------------------------------------------------------------------------------

  ghost predicate Monotone(calls: seq<Call>) {
    forall i, j :: 0 <= i <= j < |calls| ==> calls[i].now <= calls[j].now
  }

  ghost predicate NotBefore(t: real, calls: seq<Call>) {
    forall i :: 0 <= i < |calls| ==> calls[i].now <= t
  }

  /** The bucket table after a run that starts with no buckets. */
  function After(p: Params, calls: seq<Call>): Buckets {
    if calls == [] then map[] else Step(p, After(p, Init(calls)), Last(calls)).0
  }

  /** The decision of every call of a run. */
  function Decisions(p: Params, calls: seq<Call>): (r: seq<bool>)
    ensures |r| == |calls|
  {
    if calls == [] then []
    else Decisions(p, Init(calls)) + [Step(p, After(p, Init(calls)), Last(calls)).1]
  }

  /** Would the next call of `key`, made at time `t`, be admitted? */
  predicate Admits(p: Params, calls: seq<Call>, key: string, t: real) {
    Step(p, After(p, calls), Call(key, t)).1
  }

  /** Tokens on hand for `key` at time `t`; a key without a bucket has a full one. */
  function Level(p: Params, table: Buckets, key: string, t: real): real {
    if key in table then Min(p.burst, table[key].tokens + p.refill(t - table[key].last)) else p.burst
  }

  /** The times at which `key` was admitted, in order. */
  function Admitted(p: Params, calls: seq<Call>, key: string): seq<real> {
    if calls == [] then []
    else
      var before := Admitted(p, Init(calls), key);
      if Last(calls).key == key && Last(Decisions(p, calls)) then before + [Last(calls).now] else before
  }

  lemma {:induction false} LastIsNotLater(p: Params, calls: seq<Call>, key: string, t: real)
    requires NotBefore(t, calls)
    ensures key in After(p, calls) ==> After(p, calls)[key].last <= t
  {
    if calls != [] {
      LastIsNotLater(p, Init(calls), key, t);
    }
  }

  lemma {:induction false} AdmittedNotLater(p: Params, calls: seq<Call>, key: string, t: real)
    requires NotBefore(t, calls)
    ensures forall i :: 0 <= i < |Admitted(p, calls, key)| ==> Admitted(p, calls, key)[i] <= t
  {
    if calls != [] {
      AdmittedNotLater(p, Init(calls), key, t);
    }
  }

  lemma LevelGrows(p: Params, table: Buckets, key: string, now: real, t: real)
    requires p.Valid() && now <= t && (key in table ==> table[key].last <= now)
    ensures Level(p, table, key, t) == Min(p.burst, Level(p, table, key, now) + p.refill(t - now))
  {
    if key in table {
      assert Consecutive(table[key].last, now, t);
    }
  }

  /** The level after one more call. A call of another key, or a refused one, changes nothing at any
      later time: refilling over two consecutive intervals, capped each time, is refilling once. */
  lemma LevelAfterStep(p: Params, table: Buckets, c: Call, key: string, t: real)
    requires p.Valid() && key != "" && c.now <= t && (key in table ==> table[key].last <= c.now)
    ensures var s := Step(p, table, c);
            Level(p, s.0, key, t) ==
            if c.key == key && s.1 then Min(p.burst, Level(p, table, key, c.now) - 1.0 + p.refill(t - c.now))
            else Level(p, table, key, t)
    ensures c.key == key ==> (Step(p, table, c).1 <==> Level(p, table, key, c.now) >= 1.0)
  {
    LevelGrows(p, table, key, c.now, t);
  }

  // ---------------------------------------------------------------------------------------------
  // Exact window characterisation
  // ---------------------------------------------------------------------------------------------

  /** What the window from the `i`-th admitted call up to time `t` still allows: burst plus rate
      times its length, minus the calls admitted in it. */
  function Allowance(p: Params, admitted: seq<real>, i: nat, t: real): real
    requires i < |admitted|
  {
    p.burst + p.refill(t - admitted[i]) - (|admitted| - i) as real
  }

  /** `x` is the least of the burst (the empty window) and all window allowances at `t`. */
  ghost predicate IsLeastAllowance(p: Params, admitted: seq<real>, t: real, x: real) {
    && x <= p.burst
    && (forall i :: 0 <= i < |admitted| ==> x <= Allowance(p, admitted, i, t))
    && (x == p.burst || exists i :: 0 <= i < |admitted| && x == Allowance(p, admitted, i, t))
  }

  /** Admitting a call at `now` lowers every allowance by one and opens a new window. */
  lemma LeastAllowanceAfterAdmission(p: Params, admitted: seq<real>, now: real, t: real, x: real, y: real)
    requires p.Valid() && now <= t && IsLeastAllowance(p, admitted, now, x)
    requires forall i :: 0 <= i < |admitted| ==> admitted[i] <= now
    requires y == Min(p.burst, x - 1.0 + p.refill(t - now))
    ensures IsLeastAllowance(p, admitted + [now], t, y)
  {
    var admitted', gain := admitted + [now], p.refill(t - now);
    forall i | 0 <= i < |admitted|
      ensures Allowance(p, admitted', i, t) == Allowance(p, admitted, i, now) - 1.0 + gain
    {
      assert Consecutive(admitted[i], now, t);
    }
    assert Allowance(p, admitted', |admitted|, t) == p.burst - 1.0 + gain;
  }

  /** The stored level is, at every moment, exactly the least window allowance. */
  lemma {:induction false} LevelIsLeastAllowance(p: Params, calls: seq<Call>, key: string, t: real)
    requires p.Valid() && key != "" && Monotone(calls) && NotBefore(t, calls)
    ensures IsLeastAllowance(p, Admitted(p, calls, key), t, Level(p, After(p, calls), key, t))
  {
    if calls == [] {
    } else {
      var before, c := Init(calls), Last(calls);
      var admitted, x := Admitted(p, before, key), Level(p, After(p, before), key, c.now);
      var y := Level(p, After(p, calls), key, t);
      LastIsNotLater(p, before, key, c.now);
      LevelAfterStep(p, After(p, before), c, key, t);
      if c.key == key && Last(Decisions(p, calls)) {
        assert y == Min(p.burst, x - 1.0 + p.refill(t - c.now));
        LevelIsLeastAllowance(p, before, key, c.now);
        AdmittedNotLater(p, before, key, c.now);
        LeastAllowanceAfterAdmission(p, admitted, c.now, t, x, y);
        assert Admitted(p, calls, key) == admitted + [c.now];
      } else {
        assert y == Level(p, After(p, before), key, t);
        LevelIsLeastAllowance(p, before, key, t);
      }
    }
  }

  /** What a call leaves stored in the bucket is that least allowance. */
  lemma StoredTokensAreLeastAllowance(p: Params, calls: seq<Call>, key: string)
    requires p.Valid() && key != "" && Monotone(calls) && calls != [] && Last(calls).key == key
    ensures key in After(p, calls)
    ensures IsLeastAllowance(p, Admitted(p, calls, key), Last(calls).now, After(p, calls)[key].tokens)
  {
    assert Consecutive(0.0, 0.0, 0.0);
    LevelIsLeastAllowance(p, calls, key, Last(calls).now);
  }

  /** One more call at `now` would put more than burst plus rate times its length into the window
      that starts at the `i`-th admitted call. */
  ghost predicate WouldOverflow(p: Params, admitted: seq<real>, i: nat, now: real)
    requires i < |admitted|
  {
    (|admitted| - i + 1) as real > p.burst + p.refill(now - admitted[i])
  }

  /** A call is refused exactly when admitting it would overflow some window. */
  lemma RefusedExactlyWhenWindowFull(p: Params, calls: seq<Call>, key: string, now: real)
    requires p.Valid() && key != "" && Monotone(calls) && NotBefore(now, calls)
    ensures !Admits(p, calls, key, now) <==>
            exists i :: 0 <= i < |Admitted(p, calls, key)| && WouldOverflow(p, Admitted(p, calls, key), i, now)
  {
    var admitted, x := Admitted(p, calls, key), Level(p, After(p, calls), key, now);
    LevelIsLeastAllowance(p, calls, key, now);
    LastIsNotLater(p, calls, key, now);
    LevelAfterStep(p, After(p, calls), Call(key, now), key, now);
    forall i | 0 <= i < |admitted|
      ensures WouldOverflow(p, admitted, i, now) <==> Allowance(p, admitted, i, now) < 1.0
    {
    }
    if x < 1.0 {
      var i :| 0 <= i < |admitted| && x == Allowance(p, admitted, i, now);
      assert WouldOverflow(p, admitted, i, now);
      assert !Admits(p, calls, key, now);
      assert exists i :: 0 <= i < |Admitted(p, calls, key)| && WouldOverflow(p, Admitted(p, calls, key), i, now);
    } else {
      assert Admits(p, calls, key, now);
      assert forall i :: 0 <= i < |admitted| ==> Allowance(p, admitted, i, now) >= 1.0;
      assert forall i :: 0 <= i < |admitted| ==> !WouldOverflow(p, admitted, i, now);
      assert !exists i :: 0 <= i < |Admitted(p, calls, key)| && WouldOverflow(p, Admitted(p, calls, key), i, now);
    }
  }

  /** The promise of the limiter: between any two admitted calls of a key, both included, at most
      burst plus rate times the elapsed time were admitted. */
  lemma {:induction false} NoWindowOverflows(p: Params, calls: seq<Call>, key: string, i: nat, j: nat)
    requires p.Valid() && key != "" && Monotone(calls)
    requires i <= j < |Admitted(p, calls, key)|
    ensures var admitted := Admitted(p, calls, key);
            (j - i + 1) as real <= p.burst + p.refill(admitted[j] - admitted[i])
  {
    var before, c := Init(calls), Last(calls);
    var admitted := Admitted(p, before, key);
    if j < |admitted| {
      NoWindowOverflows(p, before, key, i, j);
    } else if i < j {
      RefusedExactlyWhenWindowFull(p, before, key, c.now);
      assert Admitted(p, calls, key) == admitted + [c.now] && Admits(p, before, key, c.now);
      assert !WouldOverflow(p, admitted, i, c.now);
    }
  }

  lemma SteadyEarns(rate: real, burst: real, d: real)
    ensures Steady(rate, burst).refill(d) == d * rate && Steady(rate, burst).burst == burst
  {
  }

  /** The same promise in the source's own numbers, for a window of the given length. */
  lemma BurstPlusRateTimesLength(rate: real, burst: int, calls: seq<Call>, key: string, i: nat, j: nat, length: real)
    requires rate > 0.0 && burst > 0 && key != "" && Monotone(calls)
    requires i <= j < |Admitted(Steady(rate, burst as real), calls, key)|
    requires var admitted := Admitted(Steady(rate, burst as real), calls, key); length == admitted[j] - admitted[i]
    ensures (j - i + 1) as real <= burst as real + length * rate
  {
    SteadyIsValid(rate, burst as real);
    NoWindowOverflows(Steady(rate, burst as real), calls, key, i, j);
    SteadyEarns(rate, burst as real, length);
  }

  /** The window from the `i`-th admitted call up to `now`, in the source's own numbers: what burst plus
      tokens per second times its length leaves over. */
  function Left(rate: real, burst: int, admitted: seq<real>, i: nat, now: real): real
    requires i < |admitted|
  {
    burst as real + (now - admitted[i]) * rate - (|admitted| - i) as real
  }

  lemma AllowanceInNumbers(rate: real, burst: int, admitted: seq<real>, i: nat, now: real)
    requires i < |admitted|
    ensures Allowance(Steady(rate, burst as real), admitted, i, now) == Left(rate, burst, admitted, i, now)
    ensures WouldOverflow(Steady(rate, burst as real), admitted, i, now) <==> Left(rate, burst, admitted, i, now) < 1.0
  {
    SteadyEarns(rate, burst as real, now - admitted[i]);
  }

  /** A call is refused if and only if its key is empty, or one more admitted call would be more than
      burst plus rate times length in some window that starts at an earlier admitted call. */
  lemma RefusedExactly(rate: real, burst: int, calls: seq<Call>, key: string, now: real)
    requires rate > 0.0 && burst > 0 && Monotone(calls) && NotBefore(now, calls)
    ensures var admitted := Admitted(Steady(rate, burst as real), calls, key);
            !Admits(Steady(rate, burst as real), calls, key, now) <==>
            key == "" || exists i :: 0 <= i < |admitted| && Left(rate, burst, admitted, i, now) < 1.0
  {
    var p := Steady(rate, burst as real);
    var admitted := Admitted(p, calls, key);
    SteadyIsValid(rate, burst as real);
    forall i | 0 <= i < |admitted|
      ensures WouldOverflow(p, admitted, i, now) <==> Left(rate, burst, admitted, i, now) < 1.0
    {
      AllowanceInNumbers(rate, burst, admitted, i, now);
    }
    if key != "" {
      RefusedExactlyWhenWindowFull(p, calls, key, now);
    }
  }

  /** What a call leaves stored is the least of the burst and what all those windows leave over. */
  lemma StoredExactly(rate: real, burst: int, calls: seq<Call>, key: string)
    requires rate > 0.0 && burst > 0 && key != "" && Monotone(calls) && calls != [] && Last(calls).key == key
    ensures key in After(Steady(rate, burst as real), calls)
    ensures var admitted, now := Admitted(Steady(rate, burst as real), calls, key), Last(calls).now;
            var tokens := After(Steady(rate, burst as real), calls)[key].tokens;
            && tokens <= burst as real
            && (forall i :: 0 <= i < |admitted| ==> tokens <= Left(rate, burst, admitted, i, now))
            && (tokens == burst as real || exists i :: 0 <= i < |admitted| && tokens == Left(rate, burst, admitted, i, now))
  {
    var p := Steady(rate, burst as real);
    var admitted, now := Admitted(p, calls, key), Last(calls).now;
    SteadyIsValid(rate, burst as real);
    SteadyEarns(rate, burst as real, 0.0);
    StoredTokensAreLeastAllowance(p, calls, key);
    forall i | 0 <= i < |admitted|
      ensures Allowance(p, admitted, i, now) == Left(rate, burst, admitted, i, now)
    {
      AllowanceInNumbers(rate, burst, admitted, i, now);
    }
  }

  // ---------------------------------------------------------------------------------------------
  // Greedy admission is optimal
  // ---------------------------------------------------------------------------------------------

  /** The level at `t` of a full bucket with the same rate and burst from which exactly the chosen
      calls of `key` take one token each. */
  function Spare(p: Params, calls: seq<Call>, chosen: seq<bool>, key: string, t: real): real
    requires |chosen| == |calls|
  {
    if calls == [] then p.burst
    else
      var c := Last(calls);
      if c.key == key && Last(chosen) then
        Min(p.burst, Spare(p, Init(calls), Init(chosen), key, c.now) - 1.0 + p.refill(t - c.now))
      else
        Spare(p, Init(calls), Init(chosen), key, t)
  }

  /** That bucket never goes below zero. */
  ghost predicate Affordable(p: Params, calls: seq<Call>, chosen: seq<bool>, key: string)
    requires |chosen| == |calls|
  {
    calls != [] ==>
      && Affordable(p, Init(calls), Init(chosen), key)
      && (Last(calls).key == key && Last(chosen) ==>
            Spare(p, Init(calls), Init(chosen), key, Last(calls).now) - 1.0 >= 0.0)
  }

  function Count(calls: seq<Call>, chosen: seq<bool>, key: string): nat
    requires |chosen| == |calls|
  {
    if calls == [] then 0
    else Count(Init(calls), Init(chosen), key) + if Last(calls).key == key && Last(chosen) then 1 else 0
  }

  /** How many more calls of `key` the limiter has admitted than the choice. */
  function Lead(p: Params, calls: seq<Call>, chosen: seq<bool>, key: string): int
    requires |chosen| == |calls|
  {
    Count(calls, Decisions(p, calls), key) - Count(calls, chosen, key)
  }

  lemma LeadAfterCall(p: Params, calls: seq<Call>, chosen: seq<bool>, key: string)
    requires |chosen| == |calls| && calls != []
    ensures Lead(p, calls, chosen, key) ==
            Lead(p, Init(calls), Init(chosen), key) +
            if Last(calls).key != key then 0
            else (if Admits(p, Init(calls), key, Last(calls).now) then 1 else 0) - (if Last(chosen) then 1 else 0)
  {
    assert Init(Decisions(p, calls)) == Decisions(p, Init(calls));
  }

  /** One call of `key`, from the levels just before it: `greedy` admits when it can, `other` when it
      chooses to; `gain` is what is earned until later. */
  lemma GreedyStep(p: Params, greedy: real, other: real, lead: int, chosen: bool, gain: real)
    requires lead >= 0 && other <= greedy + lead as real && (chosen ==> other >= 1.0) && gain >= 0.0
    ensures var lead' := lead + (if greedy >= 1.0 then 1 else 0) - (if chosen then 1 else 0);
            && lead' >= 0
            && (chosen ==>
                  Min(p.burst, other - 1.0 + gain) <=
                  Min(p.burst, if greedy >= 1.0 then greedy - 1.0 + gain else greedy + gain) + lead' as real)
  {
  }

  /** The choice has not got ahead, and what it saves is at most what it gave up. */
  ghost predicate Ahead(p: Params, calls: seq<Call>, chosen: seq<bool>, key: string, t: real)
    requires |chosen| == |calls|
  {
    var lead := Lead(p, calls, chosen, key);
    lead >= 0 && Spare(p, calls, chosen, key, t) <= Level(p, After(p, calls), key, t) + lead as real
  }

  lemma AheadAfterTakenCall(p: Params, calls: seq<Call>, chosen: seq<bool>, key: string, t: real)
    requires p.Valid() && key != "" && |chosen| == |calls| && calls != [] && Monotone(calls) && Last(calls).now <= t
    requires Last(calls).key == key && Last(chosen) && Affordable(p, calls, chosen, key)
    requires Ahead(p, Init(calls), Init(chosen), key, Last(calls).now)
    ensures Ahead(p, calls, chosen, key, t)
  {
    var before, now := Init(calls), Last(calls).now;
    var table := After(p, before);
    LeadAfterCall(p, calls, chosen, key);
    LastIsNotLater(p, before, key, now);
    LevelGrows(p, table, key, now, t);
    LevelAfterStep(p, table, Last(calls), key, t);
    GreedyStep(p, Level(p, table, key, now), Spare(p, before, Init(chosen), key, now),
      Lead(p, before, Init(chosen), key), true, p.refill(t - now));
  }

  lemma AheadAfterOtherCall(p: Params, calls: seq<Call>, chosen: seq<bool>, key: string, t: real)
    requires p.Valid() && key != "" && |chosen| == |calls| && calls != [] && Monotone(calls) && Last(calls).now <= t
    requires Last(calls).key != key || !Last(chosen)
    requires Ahead(p, Init(calls), Init(chosen), key, t)
    ensures Ahead(p, calls, chosen, key, t)
  {
    var before, now := Init(calls), Last(calls).now;
    LeadAfterCall(p, calls, chosen, key);
    LastIsNotLater(p, before, key, now);
    LevelGrows(p, After(p, before), key, now, t);
    LevelAfterStep(p, After(p, before), Last(calls), key, t);
  }

  /** No affordable choice ever gets ahead, and what it saves is at most what it gave up. */
  lemma {:induction false} GreedyStaysAhead(p: Params, calls: seq<Call>, chosen: seq<bool>, key: string, t: real)
    requires p.Valid() && key != "" && |chosen| == |calls| && Monotone(calls) && NotBefore(t, calls)
    requires Affordable(p, calls, chosen, key)
    ensures Lead(p, calls, chosen, key) >= 0
    ensures Spare(p, calls, chosen, key, t) <=
            Level(p, After(p, calls), key, t) + Lead(p, calls, chosen, key) as real
  {
    if calls != [] {
      if Last(calls).key == key && Last(chosen) {
        GreedyStaysAhead(p, Init(calls), Init(chosen), key, Last(calls).now);
        AheadAfterTakenCall(p, calls, chosen, key, t);
      } else {
        GreedyStaysAhead(p, Init(calls), Init(chosen), key, t);
        AheadAfterOtherCall(p, calls, chosen, key, t);
      }
    }
  }

  /** For any choice of a key's calls whose own bucket never goes below zero, `Allow` has admitted
      at least as many of them at every prefix of the run. */
  lemma GreedyIsOptimal(p: Params, calls: seq<Call>, chosen: seq<bool>, key: string, n: nat)
    requires p.Valid() && key != "" && |chosen| == |calls| && Monotone(calls) && n <= |calls|
    requires Affordable(p, calls, chosen, key)
    ensures Count(calls[..n], chosen[..n], key) <= Count(calls[..n], Decisions(p, calls)[..n], key)
  {
    PrefixOfRun(p, calls, chosen, key, n);
    if n == 0 {
    } else {
      GreedyStaysAhead(p, calls[..n], chosen[..n], key, calls[n - 1].now);
    }
  }

  lemma {:induction false} PrefixOfRun(p: Params, calls: seq<Call>, chosen: seq<bool>, key: string, n: nat)
    requires |chosen| == |calls| && n <= |calls|
    ensures Decisions(p, calls[..n]) == Decisions(p, calls)[..n]
    ensures Affordable(p, calls, chosen, key) ==> Affordable(p, calls[..n], chosen[..n], key)
    decreases |calls|
  {
    if n == |calls| {
      assert calls[..n] == calls && chosen[..n] == chosen;
    } else {
      PrefixOfRun(p, Init(calls), Init(chosen), key, n);
      assert Init(calls)[..n] == calls[..n] && Init(chosen)[..n] == chosen[..n];
    }
  }

  // ---------------------------------------------------------------------------------------------
  // Refused calls and other keys are invisible
  // ---------------------------------------------------------------------------------------------

  lemma {:induction false} KeptCalls(calls: seq<Call>, keep: seq<bool>, t: real)
    requires |keep| == |calls| && NotBefore(t, calls)
    ensures NotBefore(t, Kept(calls, keep))
  {
    if calls != [] {
      KeptCalls(Init(calls), Init(keep), t);
    }
  }

  /** The calls a mask may delete without `key` noticing: refused ones and other keys'. */
  ghost predicate KeepsAdmitted(p: Params, calls: seq<Call>, keep: seq<bool>, key: string)
    requires |keep| == |calls|
  {
    forall i :: 0 <= i < |calls| && calls[i].key == key && Decisions(p, calls)[i] ==> keep[i]
  }

  lemma KeepsAdmittedBefore(p: Params, calls: seq<Call>, keep: seq<bool>, key: string)
    requires |keep| == |calls| && calls != [] && KeepsAdmitted(p, calls, keep, key)
    ensures KeepsAdmitted(p, Init(calls), Init(keep), key)
    ensures Last(calls).key == key && Admits(p, Init(calls), key, Last(calls).now) ==> Last(keep)
  {
    assert forall i :: 0 <= i < |calls| - 1 ==> Decisions(p, Init(calls))[i] == Decisions(p, calls)[i];
  }

  /** The level after the remaining calls is the level after all of them. */
  lemma {:induction false} DeletedCallsLeaveLevel(p: Params, calls: seq<Call>, keep: seq<bool>, key: string, t: real)
    requires p.Valid() && key != "" && |keep| == |calls| && Monotone(calls) && NotBefore(t, calls)
    requires KeepsAdmitted(p, calls, keep, key)
    ensures Level(p, After(p, Kept(calls, keep)), key, t) == Level(p, After(p, calls), key, t)
  {
    if calls != [] {
      var before, c := Init(calls), Last(calls);
      var fewer := Kept(before, Init(keep));
      KeepsAdmittedBefore(p, calls, keep, key);
      DeletedCallsLeaveLevel(p, before, Init(keep), key, t);
      DeletedCallsLeaveLevel(p, before, Init(keep), key, c.now);
      LastIsNotLater(p, before, key, c.now);
      LevelAfterStep(p, After(p, before), c, key, t);
      if Last(keep) {
        assert Init(fewer + [c]) == fewer;
        KeptCalls(before, Init(keep), c.now);
        LastIsNotLater(p, fewer, key, c.now);
        LevelAfterStep(p, After(p, fewer), c, key, t);
      }
    }
  }

  lemma SameDecision(p: Params, calls: seq<Call>, keep: seq<bool>, key: string, now: real)
    requires p.Valid() && key != "" && |keep| == |calls| && Monotone(calls) && NotBefore(now, calls)
    requires KeepsAdmitted(p, calls, keep, key)
    ensures Admits(p, Kept(calls, keep), key, now) == Admits(p, calls, key, now)
  {
    DeletedCallsLeaveLevel(p, calls, keep, key, now);
    KeptCalls(calls, keep, now);
    LastIsNotLater(p, calls, key, now);
    LastIsNotLater(p, Kept(calls, keep), key, now);
    LevelAfterStep(p, After(p, calls), Call(key, now), key, now);
    LevelAfterStep(p, After(p, Kept(calls, keep)), Call(key, now), key, now);
  }

  /** The remaining calls of `key` are decided as before. */
  lemma {:induction false} DeletedCallsLeaveDecisions(p: Params, calls: seq<Call>, keep: seq<bool>, key: string)
    requires p.Valid() && key != "" && |keep| == |calls| && Monotone(calls) && KeepsAdmitted(p, calls, keep, key)
    ensures |Kept(calls, keep)| == |Kept(Decisions(p, calls), keep)|
    ensures forall j :: 0 <= j < |Kept(calls, keep)| && Kept(calls, keep)[j].key == key ==>
              Decisions(p, Kept(calls, keep))[j] == Kept(Decisions(p, calls), keep)[j]
  {
    KeptLength(calls, Decisions(p, calls), keep);
    if calls != [] {
      var before, c := Init(calls), Last(calls);
      KeepsAdmittedBefore(p, calls, keep, key);
      DeletedCallsLeaveDecisions(p, before, Init(keep), key);
      assert Init(Decisions(p, calls)) == Decisions(p, before);
      if Last(keep) {
        assert Init(Kept(calls, keep)) == Kept(before, Init(keep));
        SameDecision(p, before, Init(keep), key, c.now);
      }
    }
  }

  /** Deleting any refused calls of `key` and any calls of other keys from a run changes neither a
      remaining decision of `key` nor its level at any later time. */
  lemma DeletedCallsAreInvisible(p: Params, calls: seq<Call>, keep: seq<bool>, key: string, t: real)
    requires p.Valid() && key != "" && |keep| == |calls| && Monotone(calls) && NotBefore(t, calls)
    requires KeepsAdmitted(p, calls, keep, key)
    ensures Level(p, After(p, Kept(calls, keep)), key, t) == Level(p, After(p, calls), key, t)
    ensures |Kept(calls, keep)| == |Kept(Decisions(p, calls), keep)|
    ensures forall j :: 0 <= j < |Kept(calls, keep)| && Kept(calls, keep)[j].key == key ==>
              Decisions(p, Kept(calls, keep))[j] == Kept(Decisions(p, calls), keep)[j]
  {
    DeletedCallsLeaveLevel(p, calls, keep, key, t);
    DeletedCallsLeaveDecisions(p, calls, keep, key);
  }
}
