/** Setting the bus clock of the two-wire interface. */
module TwiSpeed {
  import opened Numbers

  const FAST_MODE_SPEED: nat := 400000
  const CALC_ARGU: nat := 4
  const CLDIV_MAX: nat := 0xFF
  const CKDIV_MAX: nat := 7

  /** The clock waveform register: two eight-bit dividers and a three-bit exponent. */
  datatype Waveform = Waveform(cldiv: nat, chdiv: nat, ckdiv: nat)

  datatype Verdict = Pass | Fail | ZeroSpeed

  function Pow2(k: nat): (p: nat)
    ensures p > 0
  {
    if k == 0 then 1 else 2 * Pow2(k - 1)
  }

  function DividedBy(a: nat, b: nat): nat
    requires b > 0
  {
    a / b
  }

  /** What the register should hold for `q` periods: the finest setting, cut off by less than one
      unit of it. */
  predicate Right(q: nat, w: Waveform)
  {
    && w.chdiv == w.cldiv <= CLDIV_MAX && w.ckdiv <= CKDIV_MAX
    && w.cldiv * Pow2(w.ckdiv) + CALC_ARGU <= q < (w.cldiv + 1) * Pow2(w.ckdiv) + CALC_ARGU
    && forall k: nat | k < w.ckdiv :: (CLDIV_MAX + 1) * Pow2(k) + CALC_ARGU <= q
  }

  /** What the register should hold to divide `mck` down to `speed`: half a bus period is CLDIV units and
      four master clock periods, too short by less than one unit, and no finer unit will do. */
  predicate Timed(speed: nat, mck: nat, w: Waveform)
  {
    && w.chdiv == w.cldiv <= 0xFF && w.ckdiv <= 7
    && 2 * speed * (w.cldiv * Pow2(w.ckdiv) + 4) <= mck < 2 * speed * ((w.cldiv + 1) * Pow2(w.ckdiv) + 4)
    && forall k: nat | k < w.ckdiv :: TooLong(speed, mck, k)
  }

  /** Half a bus period is too long for the largest CLDIV with units of `2^k` master clock periods. */
  predicate TooLong(speed: nat, mck: nat, k: nat)
  {
    2 * speed * (0x100 * Pow2(k) + 4) <= mck
  }

  class Twi {
    var cwgr: Waveform

    /** The subtraction wraps as 32-bit arithmetic does, and the fields keep their low bits. */
    method SetSpeed(speed: nat, mck: nat) returns (v: Verdict)
      requires speed < WORD && mck < WORD
      modifies this
      ensures v == Fail <==> speed > FAST_MODE_SPEED
      ensures v == ZeroSpeed <==> speed == 0
      ensures v != Pass ==> cwgr == old(cwgr)
      ensures v == Pass ==> cwgr == Setting(DividedBy(mck, speed * 2))
      ensures v == Pass ==> (Timed(speed, mck, cwgr) <==> 8 * speed <= mck < 2 * speed * 32772)
      ensures v == Pass && mck < 8 * speed ==> cwgr == Waveform(0xFF, 0xFF, 7)
      ensures v == Pass && mck >= 2 * speed * 32772 ==>
        cwgr.ckdiv == 7 && cwgr.chdiv == cwgr.cldiv == (mck / (2 * speed) - 4) / 128 % 0x100
    {
      if speed > FAST_MODE_SPEED {
        return Fail;
      }
      if speed == 0 {
        return ZeroSpeed;
      }
      var q := DividedBy(mck, speed * 2);
      var ckdiv: nat, div: nat := 0, (q + (WORD - CALC_ARGU)) % WORD;
      while div > CLDIV_MAX && ckdiv < CKDIV_MAX
        invariant ckdiv <= CKDIV_MAX && Halved((q + (WORD - CALC_ARGU)) % WORD, 0) == Halved(div, ckdiv)
        decreases CKDIV_MAX - ckdiv
      {
        ckdiv := ckdiv + 1;
        div := div / 2;
      }
      cwgr := Waveform(div % 0x100, div % 0x100, ckdiv % 8);
      TimedIff(speed, mck);
      OutOfRange(speed, mck);
      hide Setting, Timed;
      return Pass;
    }
  }

  function Halved(div: nat, ckdiv: nat): (r: (nat, nat))
    requires ckdiv <= CKDIV_MAX
    ensures ckdiv <= r.1 <= CKDIV_MAX && (r.0 > CLDIV_MAX ==> r.1 == CKDIV_MAX)
    decreases CKDIV_MAX - ckdiv
  {
    if div > CLDIV_MAX && ckdiv < CKDIV_MAX then Halved(div / 2, ckdiv + 1) else (div, ckdiv)
  }

  function Setting(q: nat): (w: Waveform)
  {
    var (div, ckdiv) := Halved((q + (WORD - CALC_ARGU)) % WORD, 0);
    Waveform(div % 0x100, div % 0x100, ckdiv % 8)
  }

  lemma DoublePow2(k: nat)
    ensures Pow2(k + 1) == 2 * Pow2(k)
  {
  }

  lemma HalfBounds(n: nat, div: nat, p: nat)
    requires div * p <= n < (div + 1) * p
    ensures div / 2 * (2 * p) <= n < (div / 2 + 1) * (2 * p)
    ensures CLDIV_MAX < div ==> (CLDIV_MAX + 1) * p <= n
  {
    if CLDIV_MAX < div {
      Scale(CLDIV_MAX + 1, div, p);
    }
    Scale(div / 2 * 2, div, p);
    Scale(div + 1, (div / 2 + 1) * 2, p);
    assert div / 2 * 2 * p == div / 2 * (2 * p);
    assert (div / 2 + 1) * 2 * p == (div / 2 + 1) * (2 * p);
  }

  /** Halving keeps what it stands for, to within one unit, and stops as soon as it can. */
  lemma {:induction false} HalvedBounds(n: nat, div: nat, ckdiv: nat)
    requires ckdiv <= CKDIV_MAX && div * Pow2(ckdiv) <= n < (div + 1) * Pow2(ckdiv)
    requires forall k: nat | k < ckdiv :: (CLDIV_MAX + 1) * Pow2(k) <= n
    ensures var (d, c) := Halved(div, ckdiv);
      d * Pow2(c) <= n < (d + 1) * Pow2(c) && forall k: nat | k < c :: (CLDIV_MAX + 1) * Pow2(k) <= n
    decreases CKDIV_MAX - ckdiv
  {
    if div > CLDIV_MAX && ckdiv < CKDIV_MAX {
      hide Pow2;
      DoublePow2(ckdiv);
      HalfBounds(n, div, Pow2(ckdiv));
      HalvedBounds(n, div / 2, ckdiv + 1);
    }
  }

  lemma Scale(a: nat, b: nat, p: nat)
    requires a <= b
    ensures a * p <= b * p
  {
  }

  lemma Powers()
    ensures Pow2(0) == 1 && Pow2(7) == 128 && forall c: nat | c <= CKDIV_MAX :: Pow2(c) <= 128
  {
    assert Pow2(3) == 8;
    assert Pow2(5) == 32;
    assert Pow2(6) == 64;
    assert Pow2(7) == 128;
    assert Pow2(1) == 2 && Pow2(2) == 4 && Pow2(4) == 16;
  }

  /** What the loop leaves when it starts from `n`. */
  lemma Settled(n: nat)
    ensures var (d, c) := Halved(n, 0);
      && c <= CKDIV_MAX && d * Pow2(c) <= n < (d + 1) * Pow2(c) && (forall k: nat | k < c :: (CLDIV_MAX + 1) * Pow2(k) <= n)
      && (d <= CLDIV_MAX <==> n < 0x100 * 128) && (d > CLDIV_MAX ==> c == CKDIV_MAX)
  {
    hide Pow2;
    Powers();
    HalvedBounds(n, n, 0);
    var (d, c) := Halved(n, 0);
    if d <= CLDIV_MAX {
      Scale(d + 1, 0x100, Pow2(c));
    }
  }

  /** For every quotient of 32-bit clocks the register is right exactly when the quotient lies in
      the range that the two fields can express. */
  lemma RightIff(q: nat)
    requires q < WORD
    ensures Right(q, Setting(q)) <==> CALC_ARGU <= q < 0x100 * 128 + CALC_ARGU
  {
    hide Halved, Pow2;
    var n := (q + (WORD - CALC_ARGU)) % WORD;
    Settled(n);
    Powers();
    var (d, c) := Halved(n, 0);
    assert c % 8 == c;
    if CALC_ARGU <= q < 0x100 * 128 + CALC_ARGU {
      assert n == q - CALC_ARGU && d % 0x100 == d;
    } else {
      assert c == CKDIV_MAX && Setting(q).ckdiv == 7;
      assert CALC_ARGU <= q ==> n == q - CALC_ARGU;
      assert Setting(q).cldiv + 0x100 <= d;
    }
  }

  lemma QuotientBounds(mck: nat, d: nat, a: nat)
    requires d > 0
    ensures a <= DividedBy(mck, d) <==> d * a <= mck
  {
    var q := mck / d;
    assert d * q <= mck < d * (q + 1) by {
      assert mck == d * q + mck % d;
    }
    if a <= q {
      Scale(a, q, d);
    } else {
      Scale(q + 1, a, d);
    }
  }

  lemma HalfPeriods(speed: nat, mck: nat, x: nat)
    requires speed > 0
    ensures x <= DividedBy(mck, speed * 2) <==> 2 * speed * x <= mck
  {
    QuotientBounds(mck, speed * 2, x);
  }

  lemma TimedIsRight(speed: nat, mck: nat, w: Waveform)
    requires speed > 0
    ensures Timed(speed, mck, w) <==> Right(DividedBy(mck, speed * 2), w)
  {
    var q := DividedBy(mck, speed * 2);
    HalfPeriods(speed, mck, w.cldiv * Pow2(w.ckdiv) + 4);
    HalfPeriods(speed, mck, (w.cldiv + 1) * Pow2(w.ckdiv) + 4);
    hide DividedBy, Pow2;
    forall k: nat ensures TooLong(speed, mck, k) <==> 0x100 * Pow2(k) + 4 <= q {
      HalfPeriods(speed, mck, 0x100 * Pow2(k) + 4);
    }
    hide TooLong;
    if Timed(speed, mck, w) {
      forall k: nat | k < w.ckdiv ensures (CLDIV_MAX + 1) * Pow2(k) + CALC_ARGU <= q {
        assert TooLong(speed, mck, k);
      }
    }
  }

  /** The register is timed right exactly for the bus clocks that the two fields can express. */
  lemma TimedIff(speed: nat, mck: nat)
    requires 0 < speed && mck < WORD
    ensures Timed(speed, mck, Setting(DividedBy(mck, speed * 2))) <==> 8 * speed <= mck < 2 * speed * 32772
  {
    var q := DividedBy(mck, speed * 2);
    TimedIsRight(speed, mck, Setting(q));
    HalfPeriods(speed, mck, WORD);
    HalfPeriods(speed, mck, 4);
    HalfPeriods(speed, mck, 32772);
    hide Setting, DividedBy, Pow2, Timed, Right;
    RightIff(q);
  }

  /** Too fast a bus clock is answered with the slowest setting, since the subtraction wraps; too slow a
      one loses the high bits of the divider. */
  lemma OutOfRange(speed: nat, mck: nat)
    requires 0 < speed && mck < WORD
    ensures var w := Setting(DividedBy(mck, speed * 2));
      && (mck < 8 * speed ==> w == Waveform(0xFF, 0xFF, 7))
      && (mck >= 2 * speed * 32772 ==> w.ckdiv == 7 && w.chdiv == w.cldiv == (mck / (2 * speed) - 4) / 128 % 0x100)
  {
    var q := DividedBy(mck, speed * 2);
    assert q == mck / (2 * speed);
    HalfPeriods(speed, mck, WORD);
    HalfPeriods(speed, mck, 4);
    HalfPeriods(speed, mck, 32772);
    hide DividedBy;
    LostBits(q);
  }

  lemma LostBits(q: nat)
    requires q < WORD
    ensures q < 4 ==> Setting(q) == Waveform(0xFF, 0xFF, 7)
    ensures q >= 32772 ==> Setting(q).ckdiv == 7 && Setting(q).chdiv == Setting(q).cldiv == (q - 4) / 128 % 0x100
  {
    hide Halved, Pow2;
    var n := (q + (WORD - CALC_ARGU)) % WORD;
    Settled(n);
    Powers();
    if q < 4 || q >= 32772 {
      assert n >= 0x100 * 128;
      assert Halved(n, 0) == (n / 128, 7);
    }
  }
}
