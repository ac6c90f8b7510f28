/** Point splitting for one RS run: the per-player share credited when a run
    is logged, the unrounded amount debited when it is removed, and the drift
    between the two. Balances are exact reals; a logged share is a whole
    number of tenths. */
module Shares {

  /** Math.Round(x, 1, MidpointRounding.AwayFromZero), in tenths: the
      integer nearest to 10*x, halves going away from zero. This is the
      reference definition the split is checked against. */
  function RoundTenthsAwayFromZero(x: real): (t: int)
    ensures x >= 0.0 ==> t as real - 0.5 <= 10.0 * x < t as real + 0.5
    ensures x < 0.0 ==> t as real - 0.5 < 10.0 * x <= t as real + 0.5
  {
    if x >= 0.0 then (10.0 * x + 0.5).Floor else -((-10.0 * x + 0.5).Floor)
  }

  /** The share of `points` for each of `count` players, in tenths of a
      point, computed on integers only. */
  function ShareTenths(points: int, count: int): (t: int)
    requires points > 0 && count > 0
    ensures t >= 0
    ensures 2 * count * t - count <= 20 * points < 2 * count * t + count
  {
    (20 * points + count) / (2 * count)
  }

  /** The share credited to each participant of a logged run. */
  function Share(points: int, count: int): (s: real)
    requires points > 0 && count > 0
    ensures s >= 0.0
  {
    ShareTenths(points, count) as real / 10.0
  }

  /** The amount debited from each participant when a run is removed:
      plain division, not rounded. */
  function RemovalAmount(points: int, count: int): (a: real)
    requires count > 0
    ensures a * count as real == points as real
  {
    points as real / count as real
  }

  /** For b > 0, the floor of the real quotient a/b is Euclidean division. */
  lemma {:induction false} FloorOfQuotient(a: int, b: int)
    requires b > 0
    ensures (a as real / b as real).Floor == a / b
  {
    var q, r := a / b, a % b;
    assert a == q * b + r && 0 <= r < b;
    var x := a as real / b as real;
    assert x * b as real == a as real;
    assert x == q as real + r as real / b as real by {
      assert (q as real + r as real / b as real) * b as real == q as real * b as real + r as real;
    }
    assert 0.0 <= r as real / b as real < 1.0 by {
      assert (r as real / b as real) * b as real == r as real;
    }
  }

  /** Two reals with equal products by a non-zero factor are equal. */
  lemma CancelFactor(a: real, b: real, c: real)
    requires c != 0.0 && a * c == b * c
    ensures a == b
  {
  }

  /** The integer split is exactly the round-half-away-from-zero of the
      real quotient to one decimal, as the source computes it. */
  lemma {:induction false} ShareIsRoundedQuotient(points: int, count: int)
    requires points > 0 && count > 0
    ensures ShareTenths(points, count) == RoundTenthsAwayFromZero(points as real / count as real)
  {
    var x := points as real / count as real;
    assert x * count as real == points as real;
    assert x >= 0.0;
    var y := (20 * points + count) as real / (2 * count) as real;
    assert y * (2 * count) as real == (20 * points + count) as real;
    assert (10.0 * x + 0.5) * (2 * count) as real == (20 * points + count) as real;
    CancelFactor(10.0 * x + 0.5, y, (2 * count) as real);
    FloorOfQuotient(20 * points + count, 2 * count);
  }

  /** A logged share is within half a tenth of the exact quotient, so the
      points credited for one run differ from the run's points by at most
      0.05 per participant. */
  lemma {:induction false} ShareWithinHalfTenth(points: int, count: int)
    requires points > 0 && count > 0
    ensures -0.05 * count as real <= count as real * Share(points, count) - points as real <= 0.05 * count as real
  {
    var t := ShareTenths(points, count);
    assert count as real * Share(points, count) == (count * t) as real / 10.0;
    assert 2 * count * t - count <= 20 * points < 2 * count * t + count;
  }

  /** `n` copies of `d` added up; keeps the sums below free of products. */
  ghost function Times(n: nat, d: real): real
  {
    if n == 0 then 0.0 else Times(n - 1, d) + d
  }

  lemma {:induction false} TimesIsProduct(n: nat, d: real)
    ensures Times(n, d) == n as real * d
  {
    if n > 0 {
      TimesIsProduct(n - 1, d);
      assert (n - 1) as real * d + d == n as real * d;
    }
  }

  /** All participants' shares of a logged run together differ from the
      run's points by at most 0.05 per participant. */
  lemma CreditedWithinHalfTenth(points: int, count: int)
    requires points > 0 && count > 0
    ensures -0.05 * count as real <= Times(count, Share(points, count)) - points as real <= 0.05 * count as real
  {
    TimesIsProduct(count, Share(points, count));
    ShareWithinHalfTenth(points, count);
  }

  /** The amounts debited from all participants of a removed run add up
      to exactly the run's points. */
  lemma DebitedAddsUpToPoints(points: int, count: int)
    requires count > 0
    ensures Times(count, -RemovalAmount(points, count)) == -(points as real)
  {
    var a := RemovalAmount(points, count);
    TimesIsProduct(count, -a);
    assert count as real * -a == -(a * count as real);
  }

  /** Net change of one participant's balance after a run is logged and
      then removed again. */
  function Drift(points: int, count: int): (d: real)
    requires points > 0 && count > 0
  {
    Share(points, count) - RemovalAmount(points, count)
  }

  /** Dividing both sides of a strict inequality by a positive factor. */
  lemma {:induction false} CancelPositiveFactor(c: int, a: int, b: int)
    requires c > 0 && c * a < c * b
    ensures a < b
  {
    assert c * (b - a) == c * b - c * a;
  }

  /** The rounded share times the number of participants gives back the
      run's points exactly when 10 * points is divisible by that number. */
  lemma {:induction false} ShareExactIff(points: int, count: int)
    requires points > 0 && count > 0
    ensures count * ShareTenths(points, count) == 10 * points <==> (10 * points) % count == 0
  {
    var t := ShareTenths(points, count);
    var q, r := (10 * points) / count, (10 * points) % count;
    assert 10 * points == count * q + r && 0 <= r < count;
    if r == 0 {
      assert 2 * count * t - count <= 20 * points < 2 * count * t + count;
      assert count * (2 * t - 1) < count * (2 * q + 1);
      CancelPositiveFactor(count, 2 * t - 1, 2 * q + 1);
      assert count * (2 * q) < count * (2 * t + 1);
      CancelPositiveFactor(count, 2 * q, 2 * t + 1);
      assert q == t;
    } else if count * t == 10 * points {
      assert count * (t - q) == r;
      assert count * 0 < count * (t - q) < count * 1;
      CancelPositiveFactor(count, 0, t - q);
      CancelPositiveFactor(count, t - q, 1);
      assert false;
    }
  }

  /** Logging and removing a run restores a participant's balance exactly
      when 10 * points is divisible by the number of participants. */
  lemma {:induction false} DriftZeroIff(points: int, count: int)
    requires points > 0 && count > 0
    ensures Drift(points, count) == 0.0 <==> (10 * points) % count == 0
  {
    var t := ShareTenths(points, count);
    var n := count as real;
    var d := Drift(points, count);
    assert RemovalAmount(points, count) * n == points as real;
    assert d * n * 10.0 == (count * t) as real - (10 * points) as real;
    ShareExactIff(points, count);
  }

  /** The drift is not zero in general: 10 points for 3 players credits 3.3
      to each, and removing the run takes 10/3 from each, leaving each
      player 1/30 of a point short. */
  lemma DocumentedDrift()
    ensures Share(10, 3) == 3.3
    ensures RemovalAmount(10, 3) == 10.0 / 3.0
    ensures Drift(10, 3) == -1.0 / 30.0
  {
  }

  /** A share that lies exactly between two tenths is rounded away from zero,
      not to the even neighbour: 1 point for 4 players is 0.25, credited as
      0.3; 5 points for 4 players is 1.25, credited as 1.3. */
  lemma MidpointsRoundAway()
    ensures Share(1, 4) == 0.3
    ensures Share(5, 4) == 1.3
  {
  }
}
