/** What the register stores of a shift mean on the wires, and for a JTAG device on them. */
module JtagWaveform {
  import opened Bits
  import opened JtagPort

  /** The output levels after a run of stores. */
  function Word(odsr: bv32, ws: seq<Write>): bv32
  {
    if ws == [] then odsr else Levels(Word(odsr, ws[..|ws| - 1]), ws[|ws| - 1])
  }

  lemma {:induction false} WordOfPort<D>(board: Board<D>, port: Port<D>, ws: seq<Write>)
    ensures ApplyAll(board, port, ws).odsr == Word(port.odsr, ws)
  {
    if ws != [] {
      WordOfPort(board, port, ws[..|ws| - 1]);
    }
  }

  /** The pins that the masks of a clock touch. */
  lemma ClearMaskLevels(pins: Pins, tdi: bool, tms: bool, q: bv5)
    ensures Level(ClearMask(pins, tdi, tms), q) <==> (!tdi && q == pins.tdi) || (!tms && q == pins.tms)
  {
    TwoFlags(pins.tdi, !tdi, pins.tms, !tms, q);
    hide Level, TwoMask;
  }

  lemma SetMaskLevels(pins: Pins, tdi: bool, tms: bool, q: bv5)
    ensures Level(SetMask(pins, tdi, tms), q) <==> (tdi && q == pins.tdi) || (tms && q == pins.tms)
  {
    TwoFlags(pins.tdi, tdi, pins.tms, tms, q);
    hide Level, TwoMask;
  }

  lemma TwoFlags(p: bv5, v: bool, r: bv5, u: bool, q: bv5)
    ensures Level(TwoMask(p, v, r, u), q) <==> (v && p == q) || (u && r == q)
  {
    FlagLevel(p, v, q);
    FlagLevel(r, u, q);
    RaisedLevel(Flag32(v) << p, Flag32(u) << r, q);
  }

  /** The level of pin `q` after `c` of the four stores of a clock that starts at `w`. */
  predicate LevelInClock(pins: Pins, w: bv32, tdi: bool, tms: bool, c: nat, q: bv5)
    requires c <= 4
  {
    if q == pins.tck then c == 3
    else if q == pins.tdi then if c == 0 then Level(w, q) else if c == 1 then Level(w, q) && tdi else tdi
    else if q == pins.tms then if c == 0 then Level(w, q) else if c == 1 then Level(w, q) && tms else tms
    else Level(w, q)
  }

  /** The output levels after `c` of the four stores of a clock that starts at `w`. */
  function ClockWord(pins: Pins, w: bv32, tdi: bool, tms: bool, c: nat): bv32
    requires c <= 4
  {
    if c == 0 then w else Levels(ClockWord(pins, w, tdi, tms, c - 1), ClockWrites(pins, tdi, tms)[c - 1])
  }

  lemma {:induction false} ClockLevels(pins: Pins, w: bv32, tdi: bool, tms: bool, c: nat, q: bv5)
    requires pins.Distinct() && !Level(w, pins.tck) && c <= 4
    ensures Level(ClockWord(pins, w, tdi, tms, c), q) <==> LevelInClock(pins, w, tdi, tms, c, q)
  {
    hide Level, ClearMask, SetMask, Mask, Raised, Lowered;
    if c > 0 {
      var b := ClockWord(pins, w, tdi, tms, c - 1);
      ClockLevels(pins, w, tdi, tms, c - 1, q);
      if c == 1 {
        ClearMaskLevels(pins, tdi, tms, q);
        LoweredLevel(b, ClearMask(pins, tdi, tms), q);
      } else if c == 2 {
        SetMaskLevels(pins, tdi, tms, q);
        RaisedLevel(b, SetMask(pins, tdi, tms), q);
      } else {
        MaskLevel(pins.tck, q);
        RaisedLevel(b, Mask(pins.tck), q);
        LoweredLevel(b, Mask(pins.tck), q);
      }
    }
  }

  /** Rising and falling edges of pin `q` over a run of stores. */
  function Rises(w: bv32, ws: seq<Write>, q: bv5): nat
  {
    if ws == [] then 0
    else
      var before := Word(w, ws[..|ws| - 1]);
      Rises(w, ws[..|ws| - 1], q) + if !Level(before, q) && Level(Levels(before, ws[|ws| - 1]), q) then 1 else 0
  }

  function Falls(w: bv32, ws: seq<Write>, q: bv5): nat
  {
    if ws == [] then 0
    else
      var before := Word(w, ws[..|ws| - 1]);
      Falls(w, ws[..|ws| - 1], q) + if Level(before, q) && !Level(Levels(before, ws[|ws| - 1]), q) then 1 else 0
  }

  lemma {:induction false} WordConcat(w: bv32, a: seq<Write>, b: seq<Write>, q: bv5)
    ensures Word(w, a + b) == Word(Word(w, a), b)
    ensures Rises(w, a + b, q) == Rises(w, a, q) + Rises(Word(w, a), b, q)
    ensures Falls(w, a + b, q) == Falls(w, a, q) + Falls(Word(w, a), b, q)
  {
    hide Level, Levels;
    if b == [] {
      assert a + b == a;
    } else {
      assert (a + b)[..|a + b| - 1] == a + b[..|b| - 1];
      WordConcat(w, a, b[..|b| - 1], q);
    }
  }

  lemma {:induction false} WordInClock(pins: Pins, w: bv32, tdi: bool, tms: bool, c: nat)
    requires c <= 4
    ensures Word(w, ClockWrites(pins, tdi, tms)[..c]) == ClockWord(pins, w, tdi, tms, c)
  {
    hide Levels, ClearMask, SetMask, Mask;
    var ws := ClockWrites(pins, tdi, tms);
    if c > 0 {
      assert ws[..c][..c - 1] == ws[..c - 1];
      WordInClock(pins, w, tdi, tms, c - 1);
    }
  }

  lemma ClockEdgeStep(pins: Pins, w: bv32, tdi: bool, tms: bool, c: nat, q: bv5)
    requires pins.Distinct() && !Level(w, pins.tck) && c < 4
    ensures var ws := ClockWrites(pins, tdi, tms);
      var before, after := LevelInClock(pins, w, tdi, tms, c, q), LevelInClock(pins, w, tdi, tms, c + 1, q);
      && Rises(w, ws[..c + 1], q) == Rises(w, ws[..c], q) + (if !before && after then 1 else 0)
      && Falls(w, ws[..c + 1], q) == Falls(w, ws[..c], q) + (if before && !after then 1 else 0)
  {
    hide Level, Levels, ClearMask, SetMask, Mask, LevelInClock, ClockWrites;
    var ws := ClockWrites(pins, tdi, tms);
    assert ws[..c + 1][..c] == ws[..c];
    WordInClock(pins, w, tdi, tms, c);
    ClockLevels(pins, w, tdi, tms, c, q);
    ClockLevels(pins, w, tdi, tms, c + 1, q);
  }

  /** Within one clock TCK pulses once, and a data pin changes at most once: if it must. */
  lemma ClockEdges(pins: Pins, w: bv32, tdi: bool, tms: bool, q: bv5)
    requires pins.Distinct() && !Level(w, pins.tck)
    ensures var ws := ClockWrites(pins, tdi, tms);
      && Rises(w, ws, q) == (if q == pins.tck then 1
                             else if q == pins.tdi then if tdi && !Level(w, q) then 1 else 0
                             else if q == pins.tms then if tms && !Level(w, q) then 1 else 0
                             else 0)
      && Falls(w, ws, q) == (if q == pins.tck then 1
                             else if q == pins.tdi then if !tdi && Level(w, q) then 1 else 0
                             else if q == pins.tms then if !tms && Level(w, q) then 1 else 0
                             else 0)
  {
    hide Level, Levels, ClearMask, SetMask, Mask, Rises, Falls;
    var ws := ClockWrites(pins, tdi, tms);
    NoEdges(w, q);
    assert ws[..0] == [] && ws[..4] == ws;
    ClockEdgeStep(pins, w, tdi, tms, 0, q);
    ClockEdgeStep(pins, w, tdi, tms, 1, q);
    ClockEdgeStep(pins, w, tdi, tms, 2, q);
    ClockEdgeStep(pins, w, tdi, tms, 3, q);
  }

  lemma NoEdges(w: bv32, q: bv5)
    ensures Rises(w, [], q) == Falls(w, [], q) == 0
  {
  }

  /** A shift of `n` bits leaves TCK low after exactly `n` pulses (a TCK that was high is first
      lowered). */
  lemma {:induction false} ShiftPulses(pins: Pins, w: bv32, tdi: seq<bool>, tms: seq<bool>, n: nat)
    requires pins.Distinct() && n <= |tdi| && n <= |tms|
    ensures var ws := ShiftWrites(pins, tdi, tms, n);
      && !Level(Word(w, ws), pins.tck)
      && Rises(w, ws, pins.tck) == n
      && Falls(w, ws, pins.tck) == n + (if Level(w, pins.tck) then 1 else 0)
  {
    hide Level, Mask, Lowered;
    if n == 0 {
      assert [Codr(Mask(pins.tck))][..0] == [];
      LoweredLevel(w, Mask(pins.tck), pins.tck);
      MaskLevel(pins.tck, pins.tck);
    } else {
      hide Levels, ClockWrites;
      ShiftPulses(pins, w, tdi, tms, n - 1);
      ClockAppended(pins, w, tdi, tms, n, pins.tck);
    }
  }

  /** Parking TCK moves no other pin. */
  lemma ParkingLeavesPin(pins: Pins, w: bv32, tdi: seq<bool>, tms: seq<bool>, q: bv5)
    requires q != pins.tck
    ensures var ws := ShiftWrites(pins, tdi, tms, 0);
      Level(Word(w, ws), q) == Level(w, q) && Rises(w, ws, q) == Falls(w, ws, q) == 0
  {
    hide Level, Mask, Lowered;
    assert [Codr(Mask(pins.tck))][..0] == [];
    LoweredLevel(w, Mask(pins.tck), q);
    MaskLevel(pins.tck, q);
  }

  /** It never moves a pin other than TCK, TDI and TMS. */
  lemma {:induction false} ShiftLeavesPin(pins: Pins, w: bv32, tdi: seq<bool>, tms: seq<bool>, n: nat, q: bv5)
    requires pins.Distinct() && n <= |tdi| && n <= |tms|
    requires q != pins.tck && q != pins.tdi && q != pins.tms
    ensures var ws := ShiftWrites(pins, tdi, tms, n);
      Level(Word(w, ws), q) == Level(w, q) && Rises(w, ws, q) == Falls(w, ws, q) == 0
  {
    hide Level, Levels, Mask, Lowered, ClockWrites, ShiftWrites, Word, Rises, Falls;
    if n == 0 {
      ParkingLeavesPin(pins, w, tdi, tms, q);
    } else {
      ShiftPulses(pins, w, tdi, tms, n - 1);
      ShiftLeavesPin(pins, w, tdi, tms, n - 1, q);
      ClockAppended(pins, w, tdi, tms, n, q);
    }
  }

  /** Clock `n - 1` as the last one of a shift of `n` bits. */
  lemma ClockAppended(pins: Pins, w: bv32, tdi: seq<bool>, tms: seq<bool>, n: nat, q: bv5)
    requires pins.Distinct() && 0 < n <= |tdi| && n <= |tms|
    requires !Level(Word(w, ShiftWrites(pins, tdi, tms, n - 1)), pins.tck)
    ensures var a, ws := ShiftWrites(pins, tdi, tms, n - 1), ShiftWrites(pins, tdi, tms, n);
      var v, clock := Word(w, a), ClockWrites(pins, tdi[n - 1], tms[n - 1]);
      && (Level(Word(w, ws), q) <==> LevelInClock(pins, v, tdi[n - 1], tms[n - 1], 4, q))
      && Rises(w, ws, q) == Rises(w, a, q) + (if q == pins.tck then 1 else Rises(v, clock, q))
      && Falls(w, ws, q) == Falls(w, a, q) + (if q == pins.tck then 1 else Falls(v, clock, q))
      && (q != pins.tck && q != pins.tdi && q != pins.tms ==> Rises(v, clock, q) == Falls(v, clock, q) == 0)
  {
    hide Level, Levels, LevelInClock, Rises, Falls, ClearMask, SetMask, Mask;
    var a, b := ShiftWrites(pins, tdi, tms, n - 1), ClockWrites(pins, tdi[n - 1], tms[n - 1]);
    assert b[..4] == b;
    WordConcat(w, a, b, q);
    ClockEdges(pins, Word(w, a), tdi[n - 1], tms[n - 1], q);
    ClockLevels(pins, Word(w, a), tdi[n - 1], tms[n - 1], 4, q);
    WordInClock(pins, Word(w, a), tdi[n - 1], tms[n - 1], 4);
  }

  lemma {:induction false} ShiftPrefix(pins: Pins, tdi: seq<bool>, tms: seq<bool>, n: nat, i: nat, c: nat)
    requires i < n <= |tdi| && n <= |tms| && c <= 4
    ensures ShiftWrites(pins, tdi, tms, n)[..1 + 4 * i + c]
         == ShiftWrites(pins, tdi, tms, i) + ClockWrites(pins, tdi[i], tms[i])[..c]
  {
    hide ClockWrites;
    if i < n - 1 {
      ShiftPrefix(pins, tdi, tms, n - 1, i, c);
    }
  }

  /** The whole waveform, store by store. Store `c` of clock `i` finds TCK high exactly when
      `c == 3` and leaves it high exactly when `c == 2`; TDI and TMS move only while TCK is low
      on both sides of the store; on the rising edge they carry bit `i` of their vectors; every
      other pin still has its initial level. */
  lemma Waveform(pins: Pins, w: bv32, tdi: seq<bool>, tms: seq<bool>, n: nat, i: nat, c: nat, q: bv5)
    requires pins.Distinct() && i < n <= |tdi| && n <= |tms| && c < 4
    ensures var ws := ShiftWrites(pins, tdi, tms, n);
      var before, after := Word(w, ws[..1 + 4 * i + c]), Word(w, ws[..2 + 4 * i + c]);
      && (Level(before, pins.tck) <==> c == 3)
      && (Level(after, pins.tck) <==> c == 2)
      && (q != pins.tck && Level(before, q) != Level(after, q) ==> c < 2 && (q == pins.tdi || q == pins.tms))
      && (c == 2 ==> Level(after, pins.tdi) == tdi[i] && Level(after, pins.tms) == tms[i])
      && (q != pins.tck && q != pins.tdi && q != pins.tms ==> Level(after, q) == Level(w, q))
  {
    hide Level, Levels, ClockWrites, ClearMask, SetMask, Mask, Lowered, Raised;
    ShiftPulses(pins, w, tdi, tms, i);
    if q != pins.tck && q != pins.tdi && q != pins.tms {
      ShiftLeavesPin(pins, w, tdi, tms, i, q);
    }
    LevelAt(pins, w, tdi, tms, n, i, c, q);
    LevelAt(pins, w, tdi, tms, n, i, c + 1, q);
    LevelAt(pins, w, tdi, tms, n, i, c, pins.tck);
    LevelAt(pins, w, tdi, tms, n, i, c + 1, pins.tck);
    LevelAt(pins, w, tdi, tms, n, i, c + 1, pins.tdi);
    LevelAt(pins, w, tdi, tms, n, i, c + 1, pins.tms);
  }

  /** Pin `q` after `c` stores of clock `i`. */
  lemma LevelAt(pins: Pins, w: bv32, tdi: seq<bool>, tms: seq<bool>, n: nat, i: nat, c: nat, q: bv5)
    requires pins.Distinct() && i < n <= |tdi| && n <= |tms| && c <= 4
    ensures Level(Word(w, ShiftWrites(pins, tdi, tms, n)[..1 + 4 * i + c]), q)
        <==> LevelInClock(pins, Word(w, ShiftWrites(pins, tdi, tms, i)), tdi[i], tms[i], c, q)
  {
    hide Level, Levels, ClockWrites, LevelInClock;
    var a := ShiftWrites(pins, tdi, tms, i);
    ShiftPulses(pins, w, tdi, tms, i);
    ShiftPrefix(pins, tdi, tms, n, i, c);
    WordConcat(w, a, ClockWrites(pins, tdi[i], tms[i])[..c], q);
    WordInClock(pins, Word(w, a), tdi[i], tms[i], c);
    ClockLevels(pins, Word(w, a), tdi[i], tms[i], c, q);
  }

  /** A JTAG device: it acts on TCK edges only and presents TDO. */
  datatype Tap<!S> = Tap(rise: (S, bool, bool) -> S, fall: S -> S, tdo: S -> bool)

  /** The device wired to the port. */
  function AsBoard<S>(tap: Tap<S>, pins: Pins): Board<S>
  {
    Board(
      (s: S, before: bv32, after: bv32) =>
        if !Level(before, pins.tck) && Level(after, pins.tck) then
          tap.rise(s, Level(after, pins.tdi), Level(after, pins.tms))
        else if Level(before, pins.tck) && !Level(after, pins.tck) then tap.fall(s)
        else s,
      (s: S) => if tap.tdo(s) then Mask(pins.tdo) else 0)
  }

  /** The simple run: one bit per clock. */
  function Clocked<S>(tap: Tap<S>, s: S, tdi: seq<bool>, tms: seq<bool>, n: nat): S
    requires n <= |tdi| && n <= |tms|
  {
    if n == 0 then s
    else tap.fall(tap.rise(Clocked(tap, s, tdi, tms, n - 1), tdi[n - 1], tms[n - 1]))
  }

  function ClockedTdo<S>(tap: Tap<S>, s: S, tdi: seq<bool>, tms: seq<bool>, i: nat): bool
    requires i < |tdi| && i < |tms|
  {
    tap.tdo(tap.rise(Clocked(tap, s, tdi, tms, i), tdi[i], tms[i]))
  }

  /** The device's state over one clock on the port: a rising edge with the data bits, then a
      falling edge; the two data stores leave it alone. */
  lemma TapClock<S>(tap: Tap<S>, pins: Pins, port: Port<S>, tdi: bool, tms: bool)
    requires pins.Distinct() && !Level(port.odsr, pins.tck)
    ensures var board, ws := AsBoard(tap, pins), ClockWrites(pins, tdi, tms);
      && ApplyAll(board, port, ws[..3]) == Port(ClockWord(pins, port.odsr, tdi, tms, 3), tap.rise(port.dev, tdi, tms))
      && ApplyAll(board, port, ws) == Port(ClockWord(pins, port.odsr, tdi, tms, 4), tap.fall(tap.rise(port.dev, tdi, tms)))
  {
    hide Level, Levels, ClearMask, SetMask, Mask, LevelInClock;
    var ws := ClockWrites(pins, tdi, tms);
    assert ws[..4] == ws;
    TapInClock(tap, pins, port, tdi, tms, 3);
    TapInClock(tap, pins, port, tdi, tms, 4);
  }

  lemma {:induction false} TapInClock<S>(tap: Tap<S>, pins: Pins, port: Port<S>, tdi: bool, tms: bool, c: nat)
    requires pins.Distinct() && !Level(port.odsr, pins.tck) && c <= 4
    ensures ApplyAll(AsBoard(tap, pins), port, ClockWrites(pins, tdi, tms)[..c])
         == Port(ClockWord(pins, port.odsr, tdi, tms, c),
                 if c < 3 then port.dev
                 else if c == 3 then tap.rise(port.dev, tdi, tms)
                 else tap.fall(tap.rise(port.dev, tdi, tms)))
  {
    hide Level, Levels, ClearMask, SetMask, Mask;
    if c > 0 {
      TapInClock(tap, pins, port, tdi, tms, c - 1);
      var ws := ClockWrites(pins, tdi, tms);
      assert ws[..c][..c - 1] == ws[..c - 1];
      var w := port.odsr;
      ClockLevels(pins, w, tdi, tms, c - 1, pins.tck);
      ClockLevels(pins, w, tdi, tms, c, pins.tck);
      ClockLevels(pins, w, tdi, tms, c, pins.tdi);
      ClockLevels(pins, w, tdi, tms, c, pins.tms);
    }
  }

  lemma {:induction false} ApplyConcat<D>(board: Board<D>, port: Port<D>, a: seq<Write>, b: seq<Write>)
    ensures ApplyAll(board, port, a + b) == ApplyAll(board, ApplyAll(board, port, a), b)
  {
    hide Levels;
    if b == [] {
      assert a + b == a;
    } else {
      assert (a + b)[..|a + b| - 1] == a + b[..|b| - 1];
      ApplyConcat(board, port, a, b[..|b| - 1]);
    }
  }

  /** The device the shift starts from: parking a TCK that was high is a falling edge. */
  function Parked<S>(tap: Tap<S>, pins: Pins, port: Port<S>): S
  {
    if Level(port.odsr, pins.tck) then tap.fall(port.dev) else port.dev
  }

  /** Refinement of the simple run: for every JTAG device, after the stores of `n` clocks the
      device is where `n` one-bit clocks take it. */
  lemma {:induction false} ShiftRefinesClocks<S>(tap: Tap<S>, pins: Pins, port: Port<S>, tdi: seq<bool>, tms: seq<bool>, n: nat)
    requires pins.Distinct() && n <= |tdi| && n <= |tms|
    ensures ApplyAll(AsBoard(tap, pins), port, ShiftWrites(pins, tdi, tms, n)).dev
         == Clocked(tap, Parked(tap, pins, port), tdi, tms, n)
  {
    hide Level, Mask, Lowered;
    var board := AsBoard(tap, pins);
    if n == 0 {
      var ws := [Codr(Mask(pins.tck))];
      assert ws[..0] == [];
      LoweredLevel(port.odsr, Mask(pins.tck), pins.tck);
      MaskLevel(pins.tck, pins.tck);
    } else {
      hide Levels, ClockWrites, ClockWord;
      ShiftRefinesClocks(tap, pins, port, tdi, tms, n - 1);
      var a, b := ShiftWrites(pins, tdi, tms, n - 1), ClockWrites(pins, tdi[n - 1], tms[n - 1]);
      ApplyConcat(board, port, a, b);
      ShiftPulses(pins, port.odsr, tdi, tms, n - 1);
      WordOfPort(board, port, a);
      TapClock(tap, pins, ApplyAll(board, port, a), tdi[n - 1], tms[n - 1]);
    }
  }

  /** What the loop samples on clock `i` is what the device presents after its `i`-th rising
      edge in the simple run. */
  lemma SamplesAreClockedTdo<S>(tap: Tap<S>, pins: Pins, port: Port<S>, tdi: seq<bool>, tms: seq<bool>)
    requires pins.Distinct() && |tdi| == |tms|
    ensures forall i: nat | i < |tdi| ::
              Samples(AsBoard(tap, pins), pins, port, tdi, tms)[i] == ClockedTdo(tap, Parked(tap, pins, port), tdi, tms, i)
  {
    var board := AsBoard(tap, pins);
    forall i: nat | i < |tdi|
      ensures Samples(board, pins, port, tdi, tms)[i] == ClockedTdo(tap, Parked(tap, pins, port), tdi, tms, i)
    {
      SampleIsClockedTdo(tap, pins, port, tdi, tms, i);
    }
  }

  lemma SampleIsClockedTdo<S>(tap: Tap<S>, pins: Pins, port: Port<S>, tdi: seq<bool>, tms: seq<bool>, i: nat)
    requires pins.Distinct() && |tdi| == |tms| && i < |tdi|
    ensures Sample(AsBoard(tap, pins), pins, port, tdi, tms, i) == ClockedTdo(tap, Parked(tap, pins, port), tdi, tms, i)
  {
    var board := AsBoard(tap, pins);
    var a, b := ShiftWrites(pins, tdi, tms, i), ClockWrites(pins, tdi[i], tms[i]);
    ShiftRefinesClocks(tap, pins, port, tdi, tms, i);
    ApplyConcat(board, port, a, b[..3]);
    ShiftPulses(pins, port.odsr, tdi, tms, i);
    WordOfPort(board, port, a);
    TapClock(tap, pins, ApplyAll(board, port, a), tdi[i], tms[i]);
    hide Mask;
    MaskLevel(pins.tdo, pins.tdo);
    ZeroLevel(pins.tdo);
    hide Level;
  }

  lemma ZeroLevel(q: bv5)
    ensures !Level(0, q)
  {
  }
}
