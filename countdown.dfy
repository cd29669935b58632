/**
 * The countdown every service reports next to a token:
 * `30 - (Math.floor(Date.now() / 1000) % 30)`, the whole seconds until the
 * 30-second window of the current token closes.
 */
module Countdown {
  import Totp

  /** Seconds left in the current time step, given `Date.now()` in milliseconds. */
  function ExpiresIn(nowMs: nat): (r: nat)
    ensures 1 <= r <= 30
    ensures r == 30 <==> (nowMs / 1000) % 30 == 0
  {
    30 - (nowMs / 1000) % 30
  }

  /**
   * The countdown ends exactly where the token changes: `expiresIn` seconds
   * from now is the first second of the next time step.
   */
  lemma {:induction false} ExpiresInEndsWindow(nowMs: nat)
    requires nowMs <= Totp.U64Max
    ensures (nowMs / 1000 + ExpiresIn(nowMs)) % 30 == 0
    ensures (nowMs / 1000 + ExpiresIn(nowMs)) / 30 == Totp.Counter(nowMs) + 1
  {
    var s := nowMs / 1000;
    var c := s / 30;
    assert s == 30 * c + s % 30;
    assert s + ExpiresIn(nowMs) == 30 * (c + 1);
    Totp.NestedDivision(nowMs);
  }
}
