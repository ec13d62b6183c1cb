/** `canonical_ts`: the frozen text of a UTC instant, and its injectivity. */
module Timestamps {
  import opened JsonText

  datatype Moment = Moment(year: nat, month: nat, day: nat, hour: nat, minute: nat, second: nat, micro: nat)
  {
    predicate InRange() {
      && 1 <= year <= 9999 && 1 <= month <= 12 && 1 <= day <= 31
      && hour < 24 && minute < 60 && second < 60 && micro < 1000000
    }
  }

  /** A timezone-aware `datetime`, already moved to UTC. */
  type Instant = m: Moment | m.InRange() witness Moment(1970, 1, 1, 0, 0, 0, 0)

  /** `n` on exactly `w` decimal digits. */
  function Pad(n: nat, w: nat): string {
    if w == 0 then "" else Pad(n / 10, w - 1) + [Digit(n % 10)]
  }

  function Pow10(w: nat): nat { if w == 0 then 1 else 10 * Pow10(w - 1) }

  /** The fractional part is absent when the microseconds are zero; the suffix is always `+00:00`. */
  function Fraction(micro: nat): string {
    (if micro == 0 then "" else "." + Pad(micro, 6)) + "+00:00"
  }

  function ClockText(t: Instant): string {
    Pad(t.hour, 2) + (":" + (Pad(t.minute, 2) + (":" + (Pad(t.second, 2) + Fraction(t.micro)))))
  }

  /** `astimezone(UTC).isoformat()` */
  function CanonicalTs(t: Instant): string {
    Pad(t.year, 4) + ("-" + (Pad(t.month, 2) + ("-" + (Pad(t.day, 2) + ("T" + ClockText(t))))))
  }

  lemma {:induction false} PadLength(n: nat, w: nat)
    ensures |Pad(n, w)| == w
  {
    if w > 0 { PadLength(n / 10, w - 1); }
  }

  lemma {:induction false} PadInjective(m: nat, n: nat, w: nat)
    requires m < Pow10(w) && n < Pow10(w) && Pad(m, w) == Pad(n, w)
    ensures m == n
  {
    if w > 0 {
      PadLength(m / 10, w - 1);
      PadLength(n / 10, w - 1);
      Cancel(Pad(m / 10, w - 1), Pad(n / 10, w - 1), [Digit(m % 10)], [Digit(n % 10)]);
      PadInjective(m / 10, n / 10, w - 1);
      assert Digit(m % 10) == [Digit(m % 10)][0] == [Digit(n % 10)][0] == Digit(n % 10);
    }
  }

  lemma PadSplit(m: nat, n: nat, w: nat, u: string, v: string)
    requires m < Pow10(w) && n < Pow10(w) && Pad(m, w) + u == Pad(n, w) + v
    ensures m == n && u == v
  {
    PadLength(m, w);
    PadLength(n, w);
    Cancel(Pad(m, w), Pad(n, w), u, v);
    PadInjective(m, n, w);
  }

  lemma Powers()
    ensures Pow10(2) == 100 && Pow10(4) == 10000 && Pow10(6) == 1000000
  {
    assert Pow10(1) == 10 && Pow10(3) == 1000 && Pow10(5) == 100000;
  }

  lemma FractionInjective(m: nat, n: nat)
    requires m < 1000000 && n < 1000000 && Fraction(m) == Fraction(n)
    ensures m == n
  {
    Powers();
    PadLength(m, 6);
    PadLength(n, 6);
    assert |Fraction(m)| == (if m == 0 then 6 else 13) && |Fraction(n)| == (if n == 0 then 6 else 13);
    if m != 0 {
      Cancel("." + Pad(m, 6), "." + Pad(n, 6), "+00:00", "+00:00");
      Cancel(".", ".", Pad(m, 6), Pad(n, 6));
      PadInjective(m, n, 6);
    }
  }

  lemma ClockTextInjective(s: Instant, t: Instant)
    requires ClockText(s) == ClockText(t)
    ensures s.hour == t.hour && s.minute == t.minute && s.second == t.second && s.micro == t.micro
  {
    Powers();
    var s3, t3 := Pad(s.second, 2) + Fraction(s.micro), Pad(t.second, 2) + Fraction(t.micro);
    var s2, t2 := Pad(s.minute, 2) + (":" + s3), Pad(t.minute, 2) + (":" + t3);
    PadSplit(s.hour, t.hour, 2, ":" + s2, ":" + t2);
    Cancel(":", ":", s2, t2);
    PadSplit(s.minute, t.minute, 2, ":" + s3, ":" + t3);
    Cancel(":", ":", s3, t3);
    PadSplit(s.second, t.second, 2, Fraction(s.micro), Fraction(t.micro));
    FractionInjective(s.micro, t.micro);
  }

  /** Two instants with the same canonical text are the same instant. */
  lemma CanonicalTsInjective(s: Instant, t: Instant)
    requires CanonicalTs(s) == CanonicalTs(t)
    ensures s == t
  {
    Powers();
    var s3, t3 := Pad(s.day, 2) + ("T" + ClockText(s)), Pad(t.day, 2) + ("T" + ClockText(t));
    var s2, t2 := Pad(s.month, 2) + ("-" + s3), Pad(t.month, 2) + ("-" + t3);
    PadSplit(s.year, t.year, 4, "-" + s2, "-" + t2);
    Cancel("-", "-", s2, t2);
    PadSplit(s.month, t.month, 2, "-" + s3, "-" + t3);
    Cancel("-", "-", s3, t3);
    PadSplit(s.day, t.day, 2, "T" + ClockText(s), "T" + ClockText(t));
    Cancel("T", "T", ClockText(s), ClockText(t));
    ClockTextInjective(s, t);
  }
}
