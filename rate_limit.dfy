/**
 * The fixed-window invitation rate limiter `checkInviteRateLimit` of
 * src/routes/households/utils.ts (the copy in api/src/routes/households.ts is identical).
 * The module-level `Map` becomes a field of an injectable object, and `Date.now()` the
 * parameter `now` (milliseconds).
 */
module InviteRateLimit {
  import opened Wrappers

  const InviteRateLimit: int := 10
  const InviteWindowMs: int := 60_000

  /** The per-user entry `{ count, windowStartMs }`. */
  datatype Window = Window(count: int, windowStartMs: int)

  /** What one call decides for the calling user: allowed or not, and that user's entry afterwards. */
  datatype Decision = Decision(allowed: bool, window: Window)

  /** A stored entry as the limiter keeps it: between one and the limit calls counted. */
  predicate WindowOk(w: Window) {
    1 <= w.count <= InviteRateLimit
  }

  /** The window has elapsed: strictly more than `InviteWindowMs` since it started. */
  predicate Elapsed(w: Window, now: int) {
    now - w.windowStartMs > InviteWindowMs
  }

  /** One call of the limiter, for the entry `current` the calling user has (if any). */
  function Admit(current: Option<Window>, now: int): (d: Decision)
    ensures current.Some? ==> WindowOk(current.value) ==> WindowOk(d.window)
    ensures current.None? ==> WindowOk(d.window)
    ensures !d.allowed <==> current.Some? && !Elapsed(current.value, now) && current.value.count >= InviteRateLimit
    ensures !d.allowed ==> d.window == current.value
  {
    match current
    case None => Decision(true, Window(1, now))
    case Some(w) =>
      if Elapsed(w, now) then Decision(true, Window(1, now))
      else if w.count >= InviteRateLimit then Decision(false, w)
      else Decision(true, w.(count := w.count + 1))
  }

  datatype RunResult = RunResult(allowedCalls: nat, last: Option<Window>)

  /**
   * Calls by one user at the times `times`, starting from the entry `current`:
   * how many were allowed, and the entry afterwards.
   */
  function Run(current: Option<Window>, times: seq<int>): RunResult
    decreases |times|
  {
    if times == [] then RunResult(0, current)
    else
      var d := Admit(current, times[0]);
      var rest := Run(Some(d.window), times[1..]);
      RunResult((if d.allowed then 1 else 0) + rest.allowedCalls, rest.last)
  }

  function Min(a: int, b: int): int {
    if a <= b then a else b
  }

  /**
   * Inside one window (no call more than `InviteWindowMs` after its start) a user who has
   * already used `w.count` calls gets exactly `min(n, limit - w.count)` of `n` more calls,
   * and the window start never moves.
   */
  lemma {:induction false} WithinWindowAllowed(w: Window, times: seq<int>)
    requires WindowOk(w)
    requires forall i :: 0 <= i < |times| ==> times[i] - w.windowStartMs <= InviteWindowMs
    ensures Run(Some(w), times).allowedCalls == Min(|times|, InviteRateLimit - w.count)
    ensures Run(Some(w), times).last.Some? && Run(Some(w), times).last.value.windowStartMs == w.windowStartMs
    decreases |times|
  {
    if times != [] {
      var d := Admit(Some(w), times[0]);
      assert !Elapsed(w, times[0]);
      WithinWindowAllowed(d.window, times[1..]);
    }
  }

  /**
   * From no entry at all, of `n` calls made within `InviteWindowMs` of the first one,
   * exactly the first ten are allowed: `min(n, 10)`.
   */
  lemma {:induction false} FreshWindowAllowsLimit(times: seq<int>)
    requires |times| > 0
    requires forall i :: 0 <= i < |times| ==> times[i] - times[0] <= InviteWindowMs
    ensures Run(None, times).allowedCalls == Min(|times|, InviteRateLimit)
  {
    var w := Window(1, times[0]);
    assert Admit(None, times[0]) == Decision(true, w);
    WithinWindowAllowed(w, times[1..]);
  }

  /** The eleventh call of a window is denied, whatever the ten before it were. */
  lemma {:induction false} EleventhCallDenied(times: seq<int>)
    requires |times| == InviteRateLimit + 1
    requires forall i :: 0 <= i < |times| ==> times[i] - times[0] <= InviteWindowMs
    ensures Run(None, times[..InviteRateLimit]).allowedCalls == InviteRateLimit
    ensures !Admit(Run(None, times[..InviteRateLimit]).last, times[InviteRateLimit]).allowed
  {
    var first := times[..InviteRateLimit];
    FreshWindowAllowsLimit(first);
    var w := Window(1, times[0]);
    WithinWindowAllowed(w, first[1..]);
    RunCount(w, first[1..]);
  }

  /** Allowed calls inside one window are counted in the entry itself. */
  lemma {:induction false} RunCount(w: Window, times: seq<int>)
    requires WindowOk(w)
    requires forall i :: 0 <= i < |times| ==> times[i] - w.windowStartMs <= InviteWindowMs
    ensures Run(Some(w), times).last.Some?
    ensures Run(Some(w), times).last.value.count == w.count + Min(|times|, InviteRateLimit - w.count)
    decreases |times|
  {
    if times != [] {
      var d := Admit(Some(w), times[0]);
      assert !Elapsed(w, times[0]);
      RunCount(d.window, times[1..]);
    }
  }

  /** The limiter object: one entry per requesting user. */
  class InviteRateLimiter {
    var windows: map<string, Window>

    /** Every stored count lies between 1 and the limit. */
    ghost predicate Valid()
      reads this
    {
      forall u :: u in windows ==> WindowOk(windows[u])
    }

    constructor ()
      ensures Valid() && windows == map[]
    {
      windows := map[];
    }

    /** The entry of `userId`, if it has one. */
    function Entry(userId: string): Option<Window>
      reads this
    {
      if userId in windows then Some(windows[userId]) else None
    }

    /**
     * `checkInviteRateLimit(userId)` at time `now`: true when the call may proceed.
     * Only `userId`'s entry is read or written.
     */
    method CheckInviteRateLimit(userId: string, now: int) returns (allowed: bool)
      requires Valid()
      modifies this
      ensures Valid()
      ensures allowed == Admit(old(Entry(userId)), now).allowed
      ensures windows == old(windows)[userId := Admit(old(Entry(userId)), now).window]
      // first call, or more than InviteWindowMs after the window start: a new window of one call
      ensures userId !in old(windows) || Elapsed(old(windows)[userId], now) ==>
        allowed && windows[userId] == Window(1, now)
      // inside the window with the limit reached: denied, nothing changes
      ensures (userId in old(windows) && !Elapsed(old(windows)[userId], now)
        && old(windows)[userId].count >= InviteRateLimit) ==> !allowed && windows == old(windows)
      // inside the window below the limit: one more call counted, same window start
      ensures (userId in old(windows) && !Elapsed(old(windows)[userId], now)
        && old(windows)[userId].count < InviteRateLimit) ==>
        allowed && windows[userId] == old(windows)[userId].(count := old(windows)[userId].count + 1)
      ensures forall u :: u != userId ==> Entry(u) == old(Entry(u))
    {
      if userId !in windows {
        windows := windows[userId := Window(1, now)];
        return true;
      }
      var current := windows[userId];
      if now - current.windowStartMs > InviteWindowMs {
        windows := windows[userId := Window(1, now)];
        return true;
      }
      if current.count >= InviteRateLimit {
        return false;
      }
      windows := windows[userId := current.(count := current.count + 1)];
      return true;
    }
  }
}
