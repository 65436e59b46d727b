/** The lock-guarded rate limiter of the background doctor. */
module RateLimit {
  import opened Optional

  // The code is in bin/_intent/doctor_trigger.py. Callers read the clock before they take the lock, so the times
  // arrive in any order; the file keeps whole seconds. One call is one step: it reads and writes the file under an
  // exclusive lock.

  /** How the file operations of one call end. A failed write can leave anything: nothing readable, or the part of
      the new stamp that was written, which may be read as an earlier one. */
  datatype Io = Fine | NotOpened | WriteFails(left: Option<int>)

  /** The file: a stamp, or nothing readable. */
  class StateFile {
    var stamp: Option<int>

    constructor ()
      ensures stamp == None
    {
      stamp := None;
    }

    /** True exactly when the slot is free and could be taken; then the stamp is already written. */
    method ShouldTrigger(now: real, minutes: nat, io: Io) returns (claimed: bool)
      modifies this
      ensures claimed <==> io.Fine? && Free(old(stamp), now, minutes)
      ensures stamp == match io
        case Fine => After(old(stamp), Call(now), minutes)
        case NotOpened => old(stamp)
        case WriteFails(left) =>
          if Free(old(stamp), now, minutes) then After(old(stamp), Torn(left), minutes) else old(stamp)
    {
      if io.NotOpened? {
        return false;
      }
      if stamp.Some? {
        var delta := now - stamp.value as real;
        if delta < (60 * minutes) as real {
          return false;
        }
      }
      if io.WriteFails? {
        stamp := io.left;
        return false;
      }
      stamp := Some(now.Floor);
      claimed := true;
    }

    method ResetTimestamp(now: real, io: Io)
      modifies this
      ensures stamp == match io
        case Fine => After(old(stamp), Reset(now), 0)
        case NotOpened => old(stamp)
        case WriteFails(left) => After(old(stamp), Torn(left), 0)
    {
      if io.NotOpened? {
        return;
      }
      stamp := if io.WriteFails? then io.left else Some(now.Floor);
    }
  }

  // ---------- Runs ----------

  /** In the order in which the lock was taken; steps without effect are left out. */
  datatype Step = Call(now: real) | Reset(now: real) | Torn(left: Option<int>)

  predicate Free(stamp: Option<int>, now: real, minutes: nat) {
    stamp.Some? ==> now - stamp.value as real >= (60 * minutes) as real
  }

  function After(stamp: Option<int>, s: Step, minutes: nat): Option<int> {
    match s
    case Call(now) => if Free(stamp, now, minutes) then Some(now.Floor) else stamp
    case Reset(now) => Some(now.Floor)
    case Torn(left) => left
  }

  function StampAfter(stamp: Option<int>, steps: seq<Step>, minutes: nat): Option<int> {
    if steps == [] then stamp
    else After(StampAfter(stamp, steps[..|steps| - 1], minutes), steps[|steps| - 1], minutes)
  }

  /** The clock readings of the successful claims. */
  function Claims(stamp: Option<int>, steps: seq<Step>, minutes: nat): seq<real> {
    if steps == [] then []
    else
      var n := |steps| - 1;
      var claims := Claims(stamp, steps[..n], minutes);
      if steps[n].Call? && Free(StampAfter(stamp, steps[..n], minutes), steps[n].now, minutes)
      then claims + [steps[n].now] else claims
  }

  /** The stamp is at or after the last claim, cut to the second. */
  predicate CoversLast(claims: seq<real>, stamp: Option<int>) {
    claims != [] ==> stamp.Some? && stamp.value >= claims[|claims| - 1].Floor
  }

  /** Every reset and every torn write leaves such a stamp. */
  ghost predicate ResetsCover(stamp: Option<int>, steps: seq<Step>, minutes: nat) {
    forall i | 0 <= i < |steps| && !steps[i].Call? ::
      CoversLast(Claims(stamp, steps[..i], minutes), After(None, steps[i], minutes))
  }

  // ---------- Spacing ----------

  ghost predicate Spaced(claims: seq<real>, gap: real) {
    forall i | 0 <= i < |claims| - 1 :: claims[i + 1] - claims[i] > gap
  }

  function Gap(minutes: nat): int {
    60 * minutes - 1
  }

  /** Successive claims are more than 60*I - 1 seconds apart, in any interleaving: the stamp on file is never older
      than the last claim, cut to the second. */
  lemma {:induction false} ClaimsAreSpaced(stamp: Option<int>, steps: seq<Step>, minutes: nat)
    requires ResetsCover(stamp, steps, minutes)
    ensures var claims := Claims(stamp, steps, minutes);
      && Spaced(claims, Gap(minutes) as real)
      && CoversLast(claims, StampAfter(stamp, steps, minutes))
  {
    if steps != [] {
      var n := |steps| - 1;
      CoverPrefix(stamp, steps, minutes, n);
      ClaimsAreSpaced(stamp, steps[..n], minutes);
      var claims, s := Claims(stamp, steps[..n], minutes), StampAfter(stamp, steps[..n], minutes);
      if claims != [] && steps[n].Call? && Free(s, steps[n].now, minutes) {
        OneMoreClaim(claims[|claims| - 1], s.value, steps[n].now, minutes);
      }
    }
  }

  lemma CoverPrefix(stamp: Option<int>, steps: seq<Step>, minutes: nat, n: nat)
    requires n <= |steps| && ResetsCover(stamp, steps, minutes)
    ensures ResetsCover(stamp, steps[..n], minutes)
  {
    var init := steps[..n];
    forall i | 0 <= i < n && !init[i].Call?
      ensures CoversLast(Claims(stamp, init[..i], minutes), After(None, init[i], minutes))
    {
      assert init[..i] == steps[..i] && init[i] == steps[i];
    }
  }

  lemma OneMoreClaim(last: real, s: int, now: real, minutes: nat)
    ensures s >= last.Floor && now - s as real >= (60 * minutes) as real ==>
      now - last > Gap(minutes) as real && now.Floor >= last.Floor
  {}

  /** Whether the next claim must keep its distance from the last one c is decided by the stamp alone. */
  lemma NextClaimIsApartIffCovered(c: real, s: Option<int>, minutes: nat)
    ensures (forall now | Free(s, now, minutes) :: now - c > Gap(minutes) as real) <==> CoversLast([c], s)
  {
    var earliest := FirstFree(c, s, minutes);
    assert Free(s, earliest, minutes);
  }

  /** A reading at which the slot is free, and too early if it can be. */
  function FirstFree(c: real, s: Option<int>, minutes: nat): real {
    if s.Some? then (s.value + 60 * minutes) as real else c + Gap(minutes) as real
  }

  /** No call, made at any point of the run with any clock reading, could claim too soon. */
  ghost predicate NeverTooSoon(stamp: Option<int>, steps: seq<Step>, minutes: nat) {
    forall i, now {:trigger Call(now), steps[..i]} | 0 <= i <= |steps| ::
      Spaced(Claims(stamp, steps[..i] + [Call(now)], minutes), Gap(minutes) as real)
  }

  lemma ClaimsOfOneMore(stamp: Option<int>, steps: seq<Step>, now: real, minutes: nat)
    ensures Claims(stamp, steps + [Call(now)], minutes) ==
      Claims(stamp, steps, minutes) + (if Free(StampAfter(stamp, steps, minutes), now, minutes) then [now] else [])
  {
    assert (steps + [Call(now)])[..|steps|] == steps;
  }

  /** Main result: spacing is guaranteed exactly when every reset and every torn write leaves a stamp that is at or
      after the last claim. */
  lemma SpacedExactlyWhenResetsCover(stamp: Option<int>, steps: seq<Step>, minutes: nat)
    ensures NeverTooSoon(stamp, steps, minutes) <==> ResetsCover(stamp, steps, minutes)
  {
    if ResetsCover(stamp, steps, minutes) {
      forall i, now {:trigger Call(now), steps[..i]} | 0 <= i <= |steps|
        ensures Spaced(Claims(stamp, steps[..i] + [Call(now)], minutes), Gap(minutes) as real)
      {
        CoverPrefix(stamp, steps, minutes, i);
        CoverSnoc(stamp, steps[..i], now, minutes);
        ClaimsAreSpaced(stamp, steps[..i] + [Call(now)], minutes);
      }
    } else {
      var i :| 0 <= i < |steps| && !steps[i].Call? &&
        !CoversLast(Claims(stamp, steps[..i], minutes), After(None, steps[i], minutes));
      UncoveredStampIsUnsafe(stamp, steps[..i], steps[i], minutes);
      assert steps[..i + 1] == steps[..i] + [steps[i]];
    }
  }

  lemma CoverSnoc(stamp: Option<int>, steps: seq<Step>, now: real, minutes: nat)
    requires ResetsCover(stamp, steps, minutes)
    ensures ResetsCover(stamp, steps + [Call(now)], minutes)
  {
    var more := steps + [Call(now)];
    forall i | 0 <= i < |more| && !more[i].Call?
      ensures CoversLast(Claims(stamp, more[..i], minutes), After(None, more[i], minutes))
    {
      assert more[..i] == steps[..i];
    }
  }

  /** After such a step to before the last claim, the first free instant is too soon. */
  lemma UncoveredStampIsUnsafe(stamp: Option<int>, steps: seq<Step>, s: Step, minutes: nat)
    requires !s.Call? && !CoversLast(Claims(stamp, steps, minutes), After(None, s, minutes))
    ensures exists now ::
      !Spaced(Claims(stamp, steps + [s] + [Call(now)], minutes), Gap(minutes) as real)
  {
    var done := steps + [s];
    var claims, k := Claims(stamp, steps, minutes), |Claims(stamp, steps, minutes)| - 1;
    var now := FirstFree(claims[k], After(None, s, minutes), minutes);
    assert done[..|steps|] == steps;
    ClaimsOfOneMore(stamp, done, now, minutes);
    var more := Claims(stamp, done + [Call(now)], minutes);
    assert more == claims + [now];
    assert more[k + 1] - more[k] <= Gap(minutes) as real;
  }

  // ---------- Windows ----------

  lemma {:induction false} SpreadOf(claims: seq<real>, gap: real, i: nat, j: nat)
    requires Spaced(claims, gap) && i < j < |claims|
    ensures claims[j] - claims[i] > (j - i) as real * gap
    decreases j
  {
    assert claims[j - 1 + 1] - claims[j - 1] > gap;
    if i < j - 1 {
      SpreadOf(claims, gap, i, j - 1);
      assert (j - i) as real * gap == (j - 1 - i) as real * gap + gap;
    } else {
      assert (j - i) as real * gap == gap;
    }
  }

  lemma Monotone(a: nat, b: nat, g: nat)
    ensures a <= b ==> a * g <= b * g
  {}

  lemma CountFromSpread(m: nat, g: nat, w: nat)
    requires g > 0 && m as real * g as real <= w as real
    ensures m <= w / g
  {
    assert (m * g) as real == m as real * g as real;
    if m > w / g {
      Monotone(w / g + 1, m, g);
    }
  }

  lemma SpacedBound(claims: seq<real>, g: nat, i: nat, j: nat, w: nat)
    requires g > 0 && Spaced(claims, g as real) && i <= j < |claims| && claims[j] - claims[i] <= w as real
    ensures j - i <= w / g
  {
    if i < j {
      SpreadOf(claims, g as real, i, j);
      CountFromSpread(j - i, g, w);
    }
  }

  lemma GapIsPositive(minutes: nat)
    ensures minutes >= 1 ==> Gap(minutes) > 0
  {}

  /** Main result: with a positive interval, any window of W seconds contains at most
      floor(W / (60*I - 1)) + 1 claims, whatever the interleaving of the callers. */
  lemma WindowBound(stamp: Option<int>, steps: seq<Step>, minutes: nat, i: nat, j: nat, from: real, w: nat)
    requires minutes >= 1 && ResetsCover(stamp, steps, minutes)
    requires i <= j < |Claims(stamp, steps, minutes)|
    requires forall k | i <= k <= j :: from <= Claims(stamp, steps, minutes)[k] <= from + w as real
    ensures Gap(minutes) > 0 && j - i + 1 <= w / Gap(minutes) + 1
  {
    hide Claims, Spaced, StampAfter, ResetsCover, Gap;
    ClaimsAreSpaced(stamp, steps, minutes);
    GapIsPositive(minutes);
    SpacedBound(Claims(stamp, steps, minutes), Gap(minutes), i, j, w);
  }

  /** A reset that comes late with an old clock reading breaks the spacing. */
  lemma StaleResetBreaksSpacing()
    ensures var steps := [Call(1000.0), Reset(0.0), Call(3600.0)];
      !ResetsCover(None, steps, 60) && !Spaced(Claims(None, steps, 60), Gap(60) as real)
  {
    var steps := [Call(1000.0), Reset(0.0), Call(3600.0)];
    var one, two := steps[..1], steps[..2];
    assert steps[..0] == [] && one[..0] == [] && two[..1] == one;
    assert StampAfter(None, one, 60) == Some(1000) && Claims(None, one, 60) == [1000.0];
    assert StampAfter(None, two, 60) == Some(0) && Claims(None, two, 60) == [1000.0];
    var claims := Claims(None, steps, 60);
    assert claims == [1000.0, 3600.0];
    assert claims[0 + 1] - claims[0] == 2600.0;
    assert !steps[1].Call?;
  }
}
