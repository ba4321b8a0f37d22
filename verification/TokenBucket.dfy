/** The outbound rate limiter (`resource.rs`). A call is one atomic step; the
    clock reading is a parameter. */
module TokenBucket {
  import opened Bytes

  /** `saturating_mul` and `saturating_add` on 64-bit `usize`. */
  function SatMul(a: nat, b: nat): (r: nat)
    ensures r <= a * b && r <= U64_MAX
  {
    Min(a * b, U64_MAX)
  }

  function SatAdd(a: nat, b: nat): (r: nat)
    ensures r <= a + b && r <= U64_MAX
  {
    Min(a + b, U64_MAX)
  }

  datatype Bucket = Bucket(max: u64, tokens: nat, last: nat)

  predicate Ok(b: Bucket) { b.tokens <= b.max }

  function Elapsed(last: nat, now: nat): nat { if now > last then now - last else 0 }

  /** Tokens available at `now`. */
  function Refilled(b: Bucket, now: nat): (r: nat)
    ensures r <= b.max
  {
    var elapsed := Elapsed(b.last, now);
    var added := if elapsed > 0 then SatMul(elapsed, b.max) / 1000 else 0;
    Min(SatAdd(b.tokens, added), b.max)
  }

  /** `try_send` */
  function TrySend(b: Bucket, now: nat, bytes: nat): (r: (Bucket, bool))
    ensures Ok(b) ==> Ok(r.0) && r.0.max == b.max
  {
    if Refilled(b, now) < bytes then (b, false)
    else (b.(tokens := Refilled(b, now) - bytes, last := now), true)
  }

  /** The limiter with its two counters. */
  class LeakyBucket {
    const maxTokens: u64
    var tokens: nat
    var lastRefill: nat

    ghost function Contents(): Bucket reads this { Bucket(maxTokens, tokens, lastRefill) }

    constructor (maxTokens: u64)
      ensures Contents() == Bucket(maxTokens, maxTokens, 0)
    {
      this.maxTokens := maxTokens;
      tokens := maxTokens;
      lastRefill := 0;
    }

    method Send(bytes: nat, now: nat) returns (ok: bool)
      requires Ok(Contents())
      modifies this
      ensures (Contents(), ok) == TrySend(old(Contents()), now, bytes)
      ensures ok <==> bytes <= Refilled(old(Contents()), now)
      ensures ok ==> tokens + bytes == Refilled(old(Contents()), now) && lastRefill == now
      ensures !ok ==> unchanged(this)
      ensures tokens <= maxTokens
      ensures ok ==> tokens + bytes <= old(tokens) + Earned(maxTokens, Elapsed(old(lastRefill), now))
    {
      var elapsed := if now > lastRefill then now - lastRefill else 0;
      var added := if elapsed > 0 then SatMul(elapsed, maxTokens) / 1000 else 0;
      var refilled := Min(SatAdd(tokens, added), maxTokens);
      if refilled < bytes { return false; }
      tokens := refilled - bytes;
      lastRefill := now;
      ok := true;
    }
  }

  // ---------------------------------------------------------------- any window

  datatype Call = Call(now: nat, bytes: nat)

  function After(b: Bucket, calls: seq<Call>): (r: Bucket)
    requires Ok(b)
    ensures Ok(r) && r.max == b.max
  {
    if calls == [] then b
    else TrySend(After(b, calls[..|calls| - 1]), calls[|calls| - 1].now, calls[|calls| - 1].bytes).0
  }

  /** Bytes let through. */
  function Admitted(b: Bucket, calls: seq<Call>): (n: nat)
    requires Ok(b)
  {
    if calls == [] then 0
    else
      var init, c := calls[..|calls| - 1], calls[|calls| - 1];
      Admitted(b, init) + if TrySend(After(b, init), c.now, c.bytes).1 then c.bytes else 0
  }

  predicate Between(calls: seq<Call>, from: nat, to: nat) {
    && (forall i :: 0 <= i < |calls| ==> from <= calls[i].now <= to)
    && (forall i, j :: 0 <= i < j < |calls| ==> calls[i].now <= calls[j].now)
  }

  /** What `t` milliseconds earn. */
  function Earned(max: nat, t: nat): nat { t * max / 1000 }

  lemma EarnedAdds(max: nat, s: nat, t: nat)
    ensures Earned(max, s) + Earned(max, t) <= Earned(max, s + t)
  {
    assert (s + t) * max == s * max + t * max;
  }

  lemma EarnedMonotone(max: nat, s: nat, t: nat)
    requires s <= t
    ensures Earned(max, s) <= Earned(max, t)
  {
    EarnedAdds(max, s, t - s);
  }

  lemma RefillBound(b: Bucket, now: nat)
    requires b.last <= now
    ensures Refilled(b, now) <= b.tokens + Earned(b.max, now - b.last)
  {
    var elapsed := now - b.last;
    if elapsed > 0 {
      assert SatMul(elapsed, b.max) <= elapsed * b.max;
    }
  }

  /** Nothing happened yet, or spent and left are covered by one full bucket and
      what was earned since `from`. */
  predicate Covered(b: Bucket, calls: seq<Call>, from: nat)
    requires Ok(b)
  {
    var s := After(b, calls);
    || (s == b && Admitted(b, calls) == 0)
    || (&& calls != [] && from <= s.last <= calls[|calls| - 1].now
        && Admitted(b, calls) + s.tokens <= b.max + Earned(b.max, s.last - from))
  }

  lemma {:induction false} CallsCovered(b: Bucket, calls: seq<Call>, from: nat, to: nat)
    requires Ok(b) && Between(calls, from, to)
    ensures Covered(b, calls, from)
  {
    if calls != [] {
      var init, c := calls[..|calls| - 1], calls[|calls| - 1];
      CallsCovered(b, init, from, to);
      var s := After(b, init);
      if TrySend(s, c.now, c.bytes).1 && !(s == b && Admitted(b, init) == 0) {
        RefillBound(s, c.now);
        EarnedAdds(b.max, s.last - from, c.now - s.last);
      }
    }
  }

  lemma WindowFrom(b: Bucket, calls: seq<Call>, from: nat, t: nat)
    requires Ok(b) && Between(calls, from, from + t)
    ensures Admitted(b, calls) <= b.max + Earned(b.max, t)
  {
    CallsCovered(b, calls, from, from + t);
    var s := After(b, calls);
    if !(s == b && Admitted(b, calls) == 0) {
      EarnedMonotone(b.max, s.last - from, t);
    }
  }

  /** In every run of calls at non-decreasing times, the bytes let through in any
      window of `t` milliseconds are at most one full bucket and what the window
      earns, in spite of rounding, saturation and rejected calls. */
  lemma WindowBound(max: u64, calls: seq<Call>, i: nat, j: nat, from: nat, t: nat)
    requires i <= j <= |calls| && Between(calls[i..j], from, from + t)
    ensures Admitted(After(Bucket(max, max, 0), calls[..i]), calls[i..j]) <= max + Earned(max, t)
  {
    WindowFrom(After(Bucket(max, max, 0), calls[..i]), calls[i..j], from, t);
  }

  /** Rejection means the refilled tokens do not cover the call, and changes nothing. */
  lemma RejectedIffShort(b: Bucket, now: nat, bytes: nat)
    requires Ok(b) && b.last <= now && (now - b.last) * b.max <= U64_MAX
               && b.tokens + Earned(b.max, now - b.last) <= U64_MAX
    ensures !TrySend(b, now, bytes).1 <==> bytes > Min(b.max, b.tokens + Earned(b.max, now - b.last))
    ensures !TrySend(b, now, bytes).1 ==> TrySend(b, now, bytes).0 == b
  {
  }
}
