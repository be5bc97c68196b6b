/** The dedupe lease against the embedded queue's duplicate window: internal/config/backends.go,
    internal/dedupe/dynamodb.go and internal/api/ingest.go. Times are nanoseconds. */
module LeaseWindow {
  import opened Common

  const DUPLICATE_WINDOW: int := 120 * SECOND

  function CeilSecond(d: int): int
    requires d >= 0
  {
    if d % SECOND != 0 then d + SECOND - d % SECOND else d
  }

  // Dedupe.validate and the rule across the two layers.
  predicate Accepted(lease: int, embeddedQueue: bool) {
    lease > 0 && !(embeddedQueue && lease + CeilSecond(lease) + SECOND > DUPLICATE_WINDOW)
  }

  // expiresAt, in epoch seconds.
  function ExpiresAt(t: int, lease: int): int
    requires t >= 0 && lease >= 0
  {
    (t + lease) / SECOND + if (t + lease) % SECOND > 0 then 1 else 0
  }

  // Not yet absent to condReserve, which compares epoch seconds.
  predicate StillLive(claimed: int, lease: int, now: int)
    requires claimed >= 0 && lease >= 0 && now >= 0
  {
    ExpiresAt(claimed, lease) > now / SECOND
  }

  // The in-flight answer's Retry-After.
  function RetryAfter(lease: int): int
    requires lease >= 0
  {
    CeilSecond(lease) / SECOND
  }

  lemma CeilSecondIsCeiling(d: int)
    requires d >= 0
    ensures CeilSecond(d) % SECOND == 0 && d <= CeilSecond(d) < d + SECOND
  {}

  // The rule, checked in whole, accepts exactly the leases up to 59 seconds.
  lemma AcceptedExactlyWhen(lease: int)
    ensures Accepted(lease, true) <==> 0 < lease <= 59 * SECOND
    ensures Accepted(lease, false) <==> 0 < lease
  {
    if lease > 0 {
      CeilSecondIsCeiling(lease);
    }
  }

  // When a client that obeys the Retry-After it was given at told publishes again.
  function Republishes(told: int, lease: int): int
    requires lease >= 0
  {
    told + RetryAfter(lease) * SECOND
  }

  lemma LiveUntil(claimed: int, lease: int, now: int)
    requires claimed >= 0 && lease >= 0 && now >= 0
    ensures StillLive(claimed, lease, now) <==> now < CeilSecond(claimed + lease)
  {
    var end := claimed + lease;
    CeilSecondIsCeiling(end);
    assert CeilSecond(end) == ExpiresAt(claimed, lease) * SECOND;
  }

  // A claim may outlive its lease by less than a second; a client told so at the last moment, and
  // waiting as it was told, is still inside the window of the claim's own publish.
  lemma RetryFallsInWindow(lease: int, claimed: int, published: int, told: int)
    requires Accepted(lease, true) && 0 <= claimed <= published && told >= 0 && StillLive(claimed, lease, told)
    ensures Republishes(told, lease) < published + DUPLICATE_WINDOW
  {
    LiveUntil(claimed, lease, told);
    CeilSecondIsCeiling(claimed + lease);
    CeilSecondIsCeiling(lease);
    assert RetryAfter(lease) * SECOND == CeilSecond(lease);
  }

  predicate CanMissWindow(lease: int, claimed: int, told: int)
    requires lease >= 0
  {
    claimed >= 0 && told >= 0 && StillLive(claimed, lease, told) && Republishes(told, lease) >= claimed + DUPLICATE_WINDOW
  }

  // The rule gives nothing away: past 59 seconds, but for the very next nanosecond, some claim
  // published at once is republished outside the window.
  lemma RuleIsTight(lease: int)
    requires lease > 0
    ensures (exists claimed, told :: CanMissWindow(lease, claimed, told)) <==> lease >= 59 * SECOND + 2
  {
    CeilSecondIsCeiling(lease);
    assert RetryAfter(lease) * SECOND == CeilSecond(lease);
    if lease >= 59 * SECOND + 2 {
      // Claimed so that the lease ends one nanosecond into a second.
      var claimed := CeilSecond(lease) - lease + 1;
      var end := claimed + lease;
      assert end % SECOND == 1;
      var told := CeilSecond(end) - 1;
      LiveUntil(claimed, lease, told);
      assert CanMissWindow(lease, claimed, told);
    } else {
      forall claimed, told | claimed >= 0 && told >= 0 && StillLive(claimed, lease, told) ensures Republishes(told, lease) < claimed + DUPLICATE_WINDOW {
        LiveUntil(claimed, lease, told);
        CeilSecondIsCeiling(claimed + lease);
      }
    }
  }
}
