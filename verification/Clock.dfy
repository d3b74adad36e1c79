/** TTL encoding: memcached's overloaded seconds field and the offsets the other protocols send. */
module Clock {
  import opened Core

  /** Sentinel deadline meaning "no expiry". */
  const NEVER: nat := 0
  /** Deadline of something stored already expired. */
  const ALREADY_EXPIRED_MS: nat := 1
  /** Above this many seconds a TTL is an absolute unix timestamp. */
  const MAX_TTL_SECS: u32 := 60 * 60 * 24 * 30
  const TTL_ALREADY_EXPIRED: u32 := U32_MAX

  function DivCeil(a: nat, b: nat): nat
    requires b > 0
  {
    (a + b - 1) / b
  }

  /** The absolute deadline a TTL means at the clock reading `now`, in milliseconds. */
  function ExpiryFromTtl(ttl: u32, now: nat): nat {
    if ttl == 0 then NEVER
    else if ttl == TTL_ALREADY_EXPIRED then ALREADY_EXPIRED_MS
    else if ttl > MAX_TTL_SECS then ttl * 1000
    else now + ttl * 1000
  }

  /** Encodes a plain offset in seconds as the overloaded field. */
  function TtlFromOffset(offset: u32, now: nat): u32 {
    if offset <= MAX_TTL_SECS then offset
    else Min(DivCeil(now, 1000) + offset as int, U32_MAX - 1)
  }

  /** The absolute stamp the offset asks for is past the last second the field can name. */
  predicate Saturates(offset: u32, now: nat) {
    offset > MAX_TTL_SECS && DivCeil(now, 1000) + offset as int > U32_MAX - 1
  }

  /** Remaining lifetime as memcached's `t` flag reports it. */
  function RemainingTtl(deadline: nat, now: nat): int {
    if deadline == NEVER then -1 else DivCeil(Max(deadline - now, 0), 1000)
  }

  /** Encoding an offset at one clock reading and storing it at a later one loses nothing and
      adds less than a second; a deadline shorter than asked for means exactly saturation. */
  lemma OffsetDeadline(offset: u32, encoded: nat, stored: nat)
    requires 0 < offset && encoded <= stored
    ensures
      var deadline := ExpiryFromTtl(TtlFromOffset(offset, encoded), stored);
      && (deadline >= encoded + 1000 * offset <==> !Saturates(offset, encoded))
      && (!Saturates(offset, encoded) ==> deadline <= stored + 1000 * offset + 999)
      && deadline != NEVER && deadline != ALREADY_EXPIRED_MS
  {
    var stamp := DivCeil(encoded, 1000);
    assert 1000 * stamp - 1000 < encoded <= 1000 * stamp;
  }

  /** At one clock reading a longer offset never expires sooner, and the lifetime read back is
      the one asked for, rounded up by at most a second. */
  lemma OffsetMonotone(shorter: u32, longer: u32, now: nat)
    requires 0 < shorter <= longer && !Saturates(longer, now)
    ensures
      var d := ExpiryFromTtl(TtlFromOffset(longer, now), now);
      && ExpiryFromTtl(TtlFromOffset(shorter, now), now) <= d
      && longer <= RemainingTtl(d, now) <= longer + 1
  {
    OffsetDeadline(longer, now, now);
    OffsetDeadline(shorter, now, now);
    var stamp := DivCeil(now, 1000);
    assert 1000 * stamp - 1000 < now <= 1000 * stamp;
  }

  /** What the overloaded field says, for every value of it and every later clock: zero is for ever,
      all ones is already over, up to thirty days counts from the write, and anything larger is a
      point in time. */
  lemma TtlMeans(ttl: u32, now: nat, later: nat)
    ensures
      var deadline := ExpiryFromTtl(ttl, now);
      (deadline != 0 && deadline <= later) <==>
        if ttl == 0 then false
        else if ttl == 0xFFFF_FFFF then later > 0
        else if ttl <= 2_592_000 then later - now >= 1000 * ttl
        else later >= 1000 * ttl
    ensures ExpiryFromTtl(ttl, now) == 0 <==> ttl == 0
  {
  }

  /** The lifetime a read reports: nothing to count down for ever, else whole seconds rounded up,
      never below zero. */
  lemma RemainingMeans(deadline: nat, now: nat)
    ensures RemainingTtl(deadline, now) == -1 <==> deadline == 0
    ensures deadline != 0 && deadline <= now ==> RemainingTtl(deadline, now) == 0
    ensures deadline > now ==>
      1000 * (RemainingTtl(deadline, now) - 1) < deadline - now <= 1000 * RemainingTtl(deadline, now)
  {
  }
}
