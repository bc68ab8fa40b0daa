/** The search for a timer clock divisor. */
module TcDivisor {
  import opened Numbers

  const DIV_FACTOR: nat := 65536
  const SLOW_CLOCK: nat := 32768
  const DIVISORS: nat := 5

  /** The fifth divisor comes from the board clock. */
  function Divisor(i: nat, boardMck: nat): nat
    requires i < DIVISORS
  {
    match i
    case 0 => 2
    case 1 => 8
    case 2 => 32
    case 3 => 128
    case _ => boardMck / SLOW_CLOCK
  }

  function High(mck: nat, d: nat): nat
    requires d > 0
  {
    mck / d
  }

  function Low(mck: nat, d: nat): nat
    requires d > 0
  {
    High(mck, d) / DIV_FACTOR
  }

  /** The documented equation for a divisor. */
  predicate Suits(freq: nat, mck: nat, d: nat)
    requires d > 0
  {
    Low(mck, d) <= freq <= High(mck, d)
  }

  /** A divisor's index, none, or a division by a zero divisor. */
  datatype Answer = Found(index: nat) | NotFound | ZeroDivisor

  /** What the documentation promises of an answer: the lowest divisor that suits, or none suits. */
  ghost predicate Promised(a: Answer, freq: nat, mck: nat, boardMck: nat)
    requires boardMck >= SLOW_CLOCK
  {
    match a
    case Found(i) =>
      && i < DIVISORS && Suits(freq, mck, Divisor(i, boardMck))
      && forall j: nat | j < DIVISORS && Suits(freq, mck, Divisor(j, boardMck)) :: Divisor(i, boardMck) <= Divisor(j, boardMck)
    case NotFound => forall j: nat | j < DIVISORS :: !Suits(freq, mck, Divisor(j, boardMck))
    case ZeroDivisor => false
  }

  /** The search, from index `i`. */
  function Search(freq: nat, mck: nat, boardMck: nat, i: nat): (a: Answer)
    requires i <= DIVISORS
    decreases DIVISORS - i
  {
    if i == DIVISORS then NotFound
    else if Divisor(i, boardMck) == 0 then ZeroDivisor
    else if freq > High(mck, Divisor(i, boardMck)) then NotFound
    else if freq >= Low(mck, Divisor(i, boardMck)) then Found(i)
    else Search(freq, mck, boardMck, i + 1)
  }

  method FindMckDivisor(freq: nat, mck: nat, boardMck: nat) returns (a: Answer, div: nat, tcclks: nat)
    ensures a == Search(freq, mck, boardMck, 0)
    ensures a.Found? ==> tcclks == a.index < DIVISORS && div == Divisor(a.index, boardMck)
  {
    div, tcclks := 0, 0;
    var index: nat := 0;
    while index < DIVISORS
      invariant index <= DIVISORS
      invariant Search(freq, mck, boardMck, 0) == Search(freq, mck, boardMck, index)
    {
      var d := Divisor(index, boardMck);
      if d == 0 {
        return ZeroDivisor, div, tcclks;
      }
      var high := mck / d;
      var low := high / DIV_FACTOR;
      if freq > high {
        return NotFound, div, tcclks;
      } else if freq >= low {
        break;
      }
      index := index + 1;
    }
    if index >= DIVISORS {
      return NotFound, div, tcclks;
    }
    return Found(index), Divisor(index, boardMck), index;
  }

  lemma DivMonotone(m: nat, a: nat, b: nat)
    requires 0 < a <= b
    ensures m / b <= m / a
  {
    var q := m / b;
    assert q * b <= m;
    assert q * a <= q * b by { MulMonotone(a, b, q); }
    QuotientAtLeast(m, a, q);
  }

  lemma MulMonotone(a: nat, b: nat, q: nat)
    requires a <= b
    ensures q * a <= q * b
  {
  }

  lemma QuotientAtLeast(m: nat, a: nat, q: nat)
    requires 0 < a && q * a <= m
    ensures q <= m / a
  {
    assert m == a * (m / a) + m % a;
    if q > m / a {
      MulMonotone(m / a + 1, q, a);
    }
  }

  lemma QuotientBelow(m: nat, a: nat, q: nat)
    requires 0 < a
    ensures m / a < q <==> m < q * a
  {
    assert m == a * (m / a) + m % a;
    if q <= m / a {
      MulMonotone(q, m / a, a);
    } else {
      MulMonotone(m / a + 1, q, a);
    }
  }

  /** The equation without divisions: because both quotients are cut off, the clock may exceed
      65536 times the divided frequency, but not reach that of the next frequency. */
  lemma SuitsIff(freq: nat, mck: nat, d: nat)
    requires d > 0
    ensures Suits(freq, mck, d) <==> freq * d <= mck < (freq + 1) * DIV_FACTOR * d
  {
    QuotientBelow(mck, d, freq);
    QuotientBelow(mck, d, (freq + 1) * DIV_FACTOR);
  }

  /** Passing over a divisor for being too fast never passes over a later one for being too slow. */
  lemma LowBelowNextHigh(mck: nat, a: nat, b: nat)
    requires 0 < a && 0 < b <= DIV_FACTOR * a
    ensures Low(mck, a) <= High(mck, b)
  {
    var l := Low(mck, a);
    assert l * DIV_FACTOR <= mck / a;
    MulMonotone(l * DIV_FACTOR, mck / a, a);
    assert l * DIV_FACTOR * a <= mck;
    MulMonotone(b, DIV_FACTOR * a, l);
    assert l * (DIV_FACTOR * a) == l * DIV_FACTOR * a;
    QuotientAtLeast(mck, b, l);
  }

  lemma LowMonotone(mck: nat, a: nat, b: nat)
    requires 0 < a <= b
    ensures Low(mck, b) <= Low(mck, a) && High(mck, b) <= High(mck, a)
  {
    DivMonotone(mck, a, b);
    QuotientMonotone(mck / b, mck / a);
  }

  lemma QuotientMonotone(x: nat, y: nat)
    requires x <= y
    ensures x / DIV_FACTOR <= y / DIV_FACTOR
  {
  }

  /** When the fifth divisor is one of the first three again, or no smaller than the fourth. */
  predicate InOrder(d: nat) { d in {2, 8, 32} || 128 <= d }

  lemma PromiseKept(freq: nat, mck: nat, boardMck: nat)
    requires SLOW_CLOCK <= boardMck < WORD && InOrder(boardMck / SLOW_CLOCK)
    ensures Promised(Search(freq, mck, boardMck, 0), freq, mck, boardMck)
  {
    hide High, Low;
    var d := boardMck / SLOW_CLOCK;
    LowMonotone(mck, 2, 8);
    LowMonotone(mck, 8, 32);
    LowMonotone(mck, 32, 128);
    if d >= 128 {
      LowMonotone(mck, 128, d);
    }
    LowBelowNextHigh(mck, 2, 8);
    LowBelowNextHigh(mck, 8, 32);
    LowBelowNextHigh(mck, 32, 128);
    LowBelowNextHigh(mck, 128, d);
    Unfold(freq, mck, boardMck);
  }

  /** The search in one piece. */
  lemma Unfold(freq: nat, mck: nat, boardMck: nat)
    ensures Search(freq, mck, boardMck, 0) ==
      if freq > High(mck, 2) then NotFound
      else if freq >= Low(mck, 2) then Found(0)
      else if freq > High(mck, 8) then NotFound
      else if freq >= Low(mck, 8) then Found(1)
      else if freq > High(mck, 32) then NotFound
      else if freq >= Low(mck, 32) then Found(2)
      else if freq > High(mck, 128) then NotFound
      else if freq >= Low(mck, 128) then Found(3)
      else Search(freq, mck, boardMck, 4)
  {
    hide High, Low;
    assert Search(freq, mck, boardMck, 1) ==
      if freq > High(mck, 8) then NotFound
      else if freq >= Low(mck, 8) then Found(1)
      else Search(freq, mck, boardMck, 2);
    assert Search(freq, mck, boardMck, 2) ==
      if freq > High(mck, 32) then NotFound
      else if freq >= Low(mck, 32) then Found(2)
      else Search(freq, mck, boardMck, 3);
  }

  /** The largest fixed divisor below `d`, or the rate at which the fifth is missed altogether. */
  function Below(d: nat): nat
    requires !InOrder(d) && d > 1
  {
    if d < 8 then 2 else if d < 32 then 8 else 32
  }

  /** With a fifth divisor out of order there are clocks for which the promise is broken. */
  lemma PromiseBroken(boardMck: nat) returns (freq: nat, mck: nat)
    requires SLOW_CLOCK <= boardMck && !InOrder(boardMck / SLOW_CLOCK)
    ensures freq < WORD && mck < WORD
    ensures !Promised(Search(freq, mck, boardMck, 0), freq, mck, boardMck)
  {
    var d := boardMck / SLOW_CLOCK;
    if d == 1 {
      freq, mck := 2, 2;
      assert Suits(freq, mck, Divisor(4, boardMck));
    } else {
      var p := Below(d);
      freq, mck := p, DIV_FACTOR * (p * d);
      LowOf(p * d, p, d);
      LowOf(p * d, d, p);
      assert Suits(freq, mck, d);
      assert d == Divisor(4, boardMck);
      LowMonotone(mck, 2, 8);
      LowMonotone(mck, 8, 32);
      if d < 8 {
        LowMonotone(mck, d, 8);
        LowBelowNextHigh(mck, 2, 8);
      } else if d < 32 {
        LowMonotone(mck, d, 32);
        LowBelowNextHigh(mck, 8, 32);
      } else {
        LowMonotone(mck, d, 128);
        LowBelowNextHigh(mck, 32, 128);
      }
      LowBelowNextHigh(mck, 2, 2);
      LowBelowNextHigh(mck, 2, 8);
      LowBelowNextHigh(mck, 8, 32);
      hide High, Low;
      Unfold(freq, mck, boardMck);
    }
  }

  lemma LowOf(m: nat, a: nat, q: nat)
    requires 0 < a && m == a * q
    ensures High(DIV_FACTOR * m, a) == DIV_FACTOR * q && Low(DIV_FACTOR * m, a) == q
  {
    assert DIV_FACTOR * m == a * (DIV_FACTOR * q);
    Exact(a, DIV_FACTOR * q);
  }

  lemma Exact(a: nat, k: nat)
    requires 0 < a
    ensures a * k / a == k
  {
    QuotientAtLeast(a * k, a, k);
    if a * k / a > k {
      MulMonotone(k + 1, a * k / a, a);
    }
  }

  /** The documented guarantee holds for every frequency and clock exactly when the board's own
      divisor is in order. */
  lemma PromiseIff(boardMck: nat)
    requires SLOW_CLOCK <= boardMck < WORD
    ensures (forall freq: nat, mck: nat | freq < WORD && mck < WORD ::
               Promised(Search(freq, mck, boardMck, 0), freq, mck, boardMck))
       <==> InOrder(boardMck / SLOW_CLOCK)
  {
    if InOrder(boardMck / SLOW_CLOCK) {
      forall freq: nat, mck: nat ensures Promised(Search(freq, mck, boardMck, 0), freq, mck, boardMck) {
        PromiseKept(freq, mck, boardMck);
      }
    } else {
      var freq, mck := PromiseBroken(boardMck);
    }
  }

  /** A slower board clock makes the fifth divisor zero; the search divides by it exactly when the
      frequency lies below the range of every other divisor. */
  lemma ZeroDivisorIff(freq: nat, mck: nat, boardMck: nat)
    ensures Search(freq, mck, boardMck, 0) == ZeroDivisor <==> boardMck < SLOW_CLOCK && freq < Low(mck, 128)
  {
    hide High, Low;
    LowMonotone(mck, 2, 8);
    LowMonotone(mck, 8, 32);
    LowMonotone(mck, 32, 128);
    LowBelowNextHigh(mck, 2, 2);
    LowBelowNextHigh(mck, 2, 8);
    LowBelowNextHigh(mck, 8, 32);
    LowBelowNextHigh(mck, 32, 128);
    Unfold(freq, mck, boardMck);
  }
}
