/** The clock generator of the SAM3X as the wait mode uses it: registers, and what they start. */
module ClockTree {

  datatype Oscillator = FastRc | Crystal
  datatype Source = Slow | Main | PllA | Upll

  /** The main oscillator register: enables, bypass of the crystal by an external clock, the RC frequency, the selection, and the other fields. */
  datatype Mor = Mor(crystal: bool, bypass: bool, rc: bool, rcFreq: nat, sel: Oscillator, other: nat)
  datatype Pllar = Pllar(mula: nat, low: nat, one: bool)
  datatype Uckr = Uckr(on: bool, other: nat)
  datatype Mckr = Mckr(css: Source, pres: nat, other: nat)
  datatype Fmr = Fmr(fws: nat, other: nat)

  /** The registers; which oscillators and PLLs have become stable; and the main clock and master clock
      selections that are in effect, which follow their registers with a delay. */
  datatype Clocks = Clocks(mor: Mor, pllar: Pllar, uckr: Uckr, mckr: Mckr, fmr0: Fmr, fmr1: Fmr,
                           crystalOk: bool, rcOk: bool, lockA: bool, lockU: bool, mainNow: Oscillator, mckNow: Mckr)

  /** What may become stable or take effect before the next access, if it can. */
  datatype Tick = Tick(crystal: bool, rc: bool, lockA: bool, lockU: bool, main: bool, mck: bool)

  function After(c: Clocks, t: Tick): Clocks
  {
    c.(crystalOk := c.crystalOk || (t.crystal && c.mor.crystal),
       rcOk := c.rcOk || (t.rc && c.mor.rc),
       lockA := c.lockA || (t.lockA && c.pllar.mula > 0),
       lockU := c.lockU || (t.lockU && c.uckr.on),
       mainNow := if t.main && Runs(c, c.mor.sel) then c.mor.sel else c.mainNow,
       mckNow := if t.mck then c.mckr else c.mckNow)
  }

  predicate Runs(c: Clocks, o: Oscillator)
  {
    match o
    case FastRc => c.mor.rc && c.rcOk
    case Crystal => (c.mor.crystal && c.crystalOk) || c.mor.bypass
  }

  function SetMor(c: Clocks, m: Mor): Clocks
  {
    c.(mor := m, crystalOk := c.crystalOk && m.crystal, rcOk := c.rcOk && m.rc, lockA := c.lockA && m.sel == c.mor.sel)
  }
  function SetPllar(c: Clocks, p: Pllar): Clocks { c.(pllar := p, lockA := false) }
  function SetUckr(c: Clocks, u: Uckr): Clocks { c.(uckr := u, lockU := c.lockU && u.on) }

  /** The main clock: while a selection is taking effect both oscillators are needed. */
  predicate MainRuns(c: Clocks) { Runs(c, c.mainNow) && Runs(c, c.mor.sel) }

  predicate SourceRuns(c: Clocks, s: Source)
  {
    match s
    case Slow => true
    case Main => MainRuns(c)
    case PllA => c.pllar.mula > 0 && c.lockA && MainRuns(c)
    case Upll => c.uckr.on && c.lockU && Runs(c, Crystal)
  }

  predicate Fast(s: Source) { s.PllA? || s.Upll? }

  /** The master clock in effect and the one selected both run, and the flash has the wait states
      `f0` and `f1` as long as either is a PLL. */
  predicate Safe(c: Clocks, f0: Fmr, f1: Fmr)
  {
    && SourceRuns(c, c.mckNow.css) && SourceRuns(c, c.mckr.css)
    && (Fast(c.mckNow.css) || Fast(c.mckr.css) ==> c.fmr0 == f0 && c.fmr1 == f1)
  }

  /** Time alone makes nothing unsafe. */
  lemma TickSafe(c: Clocks, t: Tick, f0: Fmr, f1: Fmr)
    requires Safe(c, f0, f1)
    ensures Safe(After(c, t), f0, f1)
  {
  }

  datatype Flag = CrystalReady | RcReady | MainSelected | MckReady | LockA | LockU | AnyLock(a: bool, u: bool)

  /** The status bits; the last one is a reading of a mask of lock bits. */
  predicate Raised(c: Clocks, f: Flag)
  {
    match f
    case CrystalReady => c.crystalOk
    case RcReady => c.rcOk
    case MainSelected => c.mainNow == c.mor.sel
    case MckReady => c.mckNow == c.mckr
    case LockA => c.lockA
    case LockU => c.lockU
    case AnyLock(a, u) => (a && c.lockA) || (u && c.lockU)
  }

  datatype Saved = Saved(mor: Mor, pllar: Pllar, uckr: Uckr, mckr: Mckr, fmr0: Fmr, fmr1: Fmr)

  function Settings(c: Clocks): Saved
  {
    Saved(c.mor, c.pllar, c.uckr, c.mckr, c.fmr0, c.fmr1)
  }

  /** Only enabled things are stable. */
  predicate Formed(c: Clocks)
  {
    (c.crystalOk ==> c.mor.crystal) && (c.rcOk ==> c.mor.rc) && (c.lockA ==> c.pllar.mula > 0) && (c.lockU ==> c.uckr.on)
  }

  /** What any number of ticks can make of a state. */
  predicate Later(a: Clocks, b: Clocks)
  {
    && Settings(a) == Settings(b)
    && (a.crystalOk ==> b.crystalOk) && (b.crystalOk ==> a.crystalOk || a.mor.crystal)
    && (a.rcOk ==> b.rcOk) && (b.rcOk ==> a.rcOk || a.mor.rc)
    && (a.lockA ==> b.lockA) && (b.lockA ==> a.lockA || a.pllar.mula > 0)
    && (a.lockU ==> b.lockU) && (b.lockU ==> a.lockU || a.uckr.on)
    && b.mainNow in {a.mainNow, a.mor.sel} && b.mckNow in {a.mckNow, a.mckr}
  }

  lemma TickLater(a: Clocks, b: Clocks, t: Tick)
    requires Later(a, b)
    ensures Later(a, After(b, t))
  {
  }

  /** Clocks at rest: selections have taken effect, and what is selected runs; a crystal oscillator
      that is on is stable. */
  predicate AtRest(c: Clocks)
  {
    && Formed(c) && c.mainNow == c.mor.sel && Runs(c, c.mor.sel) && c.mckNow == c.mckr && SourceRuns(c, c.mckr.css)
    && (c.mor.crystal ==> c.crystalOk)
  }

  function LowMckr(m: Mckr): Mckr
  {
    m.(css := if Fast(m.css) then Main else m.css, pres := 0)
  }

  /** Shutting down, once the master clock has left the PLLs and the prescaler. */
  predicate OffPll(c: Clocks, s: Saved)
  {
    && Formed(c) && c.mor == s.mor.(rc := true) && c.mainNow == s.mor.sel && Runs(c, s.mor.sel)
    && (c.mor.crystal ==> c.crystalOk)
    && c.mckr == c.mckNow == LowMckr(s.mckr) && c.fmr0 == s.fmr0 && c.fmr1 == s.fmr1
  }

  /** ... and once the PLLs are off and the RC oscillator is stable. */
  predicate NoPll(c: Clocks, s: Saved)
  {
    OffPll(c, s) && c.pllar == Pllar(0, 0, true) && c.uckr == s.uckr.(on := false) && c.rcOk
  }

  /** The shut-down state: main clock from the fast RC oscillator, master clock from it or the slow
      clock, PLLs off, no wait states. */
  predicate Low(c: Clocks, s: Saved, crystalOff: bool)
  {
    && Formed(c) && c.mor == s.mor.(rc := true, sel := FastRc, crystal := s.mor.crystal && !crystalOff)
    && c.rcOk && c.mainNow == FastRc && (c.mor.crystal ==> c.crystalOk)
    && c.pllar == Pllar(0, 0, true) && c.uckr == s.uckr.(on := false)
    && c.mckr == c.mckNow == LowMckr(s.mckr)
    && c.fmr0 == s.fmr0.(fws := 0) && c.fmr1 == s.fmr1.(fws := 0)
  }

  /** What saved settings of clocks at rest satisfy: a selected source was on. */
  predicate Sound(s: Saved)
  {
    && (s.mor.crystal || s.mor.bypass || s.mor.sel == FastRc)
    && (s.mckr.css == PllA ==> s.pllar.mula > 0) && (s.mckr.css == Upll ==> s.uckr.on && (s.mor.crystal || s.mor.bypass))
  }

  /** Bypassed, with the master clock not on the slow clock, the restoration is not always safe. */
  predicate Guarded(s: Saved) { !s.mor.bypass || s.mckr.css == Slow }

  /** The two stores of the restoration when the crystal was bypassed. */
  function BypassOn(m: Mor): Mor { m.(crystal := false, bypass := true, sel := Crystal) }
  function RcOff(m: Mor): Mor { m.(rc := false, rcFreq := 0) }

  function MainAfter(m: Mor): Mor
  {
    if m.bypass then RcOff(BypassOn(m))
    else if m.crystal then m.(rc := false, rcFreq := 0, sel := Crystal) else m.(rc := true, sel := FastRc)
  }

  function PllarAfter(p: Pllar): Pllar
  {
    if p.mula != 0 then p.(one := true) else Pllar(0, 0, true)
  }

  /** Coming back, once the main clock is the final one; when the crystal was bypassed that is not
      waited for. */
  predicate MainBack(c: Clocks, s: Saved)
  {
    && Formed(c) && c.mor == MainAfter(s.mor) && Runs(c, c.mor.sel) && (!s.mor.bypass ==> c.mainNow == c.mor.sel)
    && c.mckr == c.mckNow == LowMckr(s.mckr)
  }

  /** ... and once the PLLs are on again and the one selected is locked. */
  predicate PllBack(c: Clocks, s: Saved)
  {
    && Formed(c) && c.mor == MainAfter(s.mor) && Runs(c, c.mor.sel)
    && (!s.mor.bypass ==> c.mainNow == c.mor.sel && SourceRuns(c, s.mckr.css))
    && c.pllar == PllarAfter(s.pllar) && c.uckr == s.uckr
  }

  lemma PllBackLater(c: Clocks, s: Saved)
    requires PllBack(c, s) && c.mckr == c.mckNow
    ensures forall b | Later(c, b) ::
      PllBack(b, s) && b.mckr == b.mckNow == c.mckr && b.fmr0 == c.fmr0 && b.fmr1 == c.fmr1
  {
  }

  lemma PllBackSafe(c: Clocks, s: Saved, f0: Fmr, f1: Fmr)
    requires PllBack(c, s) && c.mckr == c.mckNow == LowMckr(s.mckr).(pres := s.mckr.pres)
    ensures var b := c.(fmr0 := f0, fmr1 := f1);
      PllBack(b, s) && (Guarded(s) ==> Safe(b, s.fmr0, s.fmr1))
  {
  }

  /** The clocks after a wait mode that has run to its end. */
  predicate Restored(c: Clocks, s: Saved)
  {
    PllBack(c, s) && c.mckr == c.mckNow == s.mckr && c.fmr0 == s.fmr0 && c.fmr1 == s.fmr1
  }

  /** The master clock, UPLL and flash settings always come back. Everything does exactly when the RC
      oscillator was left on or off as the main clock choice makes it, and an unused PLLA register
      held its reset value. */
  lemma RoundTripIff(c: Clocks, s: Saved)
    requires Restored(c, s)
    ensures Settings(c) == s <==>
      && s.pllar.one && (s.pllar.mula == 0 ==> s.pllar.low == 0)
      && (if s.mor.bypass then s.mor.sel == Crystal && !s.mor.crystal && !s.mor.rc && s.mor.rcFreq == 0
          else if s.mor.crystal then s.mor.sel == Crystal && !s.mor.rc && s.mor.rcFreq == 0 else s.mor.sel == FastRc && s.mor.rc)
  {
  }

  /** Nothing is waited for between the two stores for a bypassed crystal. They are safe, however much time passes between them and
      whatever happens in it, exactly when the master clock is the slow clock: otherwise the RC
      oscillator may go off while it is still the main clock. */
  lemma BypassSafeIff(c: Clocks, s: Saved, crystalOff: bool)
    requires Low(c, s, crystalOff) && s.mor.bypass
    ensures (forall b | Later(SetMor(c, BypassOn(c.mor)), b) :: Safe(SetMor(b, RcOff(b.mor)), s.fmr0, s.fmr1))
       <==> s.mckr.css == Slow
  {
    var b := SetMor(c, BypassOn(c.mor));
    assert Later(b, b);
    if s.mckr.css != Slow {
      assert !Safe(SetMor(b, RcOff(b.mor)), s.fmr0, s.fmr1);
    }
  }

  /** What the last wait is commented as waiting for. */
  predicate AllLocked(c: Clocks, s: Saved)
  {
    (s.pllar.mula != 0 ==> c.lockA) && (s.uckr.on ==> c.lockU)
  }

  /** A restored state in which these locks show. */
  function RestoredWith(s: Saved, lockA: bool, lockU: bool): (c: Clocks)
    requires Sound(s) && (lockA ==> s.pllar.mula != 0) && (lockU ==> s.uckr.on)
    requires (s.mckr.css == PllA ==> lockA) && (s.mckr.css == Upll ==> lockU)
    ensures Restored(c, s) && c.lockA == lockA && c.lockU == lockU
  {
    var m := MainAfter(s.mor);
    Clocks(m, PllarAfter(s.pllar), s.uckr, s.mckr, s.fmr0, s.fmr1, m.crystal, m.rc, lockA, lockU, m.sel, s.mckr)
  }

  /** In the states that the last wait can find, its test tells that all restored PLLs are locked
      exactly when one of the two was on: with none it never shows, with both it shows at the first. */
  lemma LastWaitIff(s: Saved)
    requires Sound(s)
    ensures var a, u := s.pllar.mula != 0, s.uckr.on;
      (forall c | Restored(c, s) :: Raised(c, AnyLock(a, u)) <==> AllLocked(c, s)) <==> a != u
  {
    var a, u := s.pllar.mula != 0, s.uckr.on;
    if a && u {
      var c := RestoredWith(s, s.mckr.css != Upll, s.mckr.css == Upll);
      assert Raised(c, AnyLock(a, u)) && !AllLocked(c, s);
    } else if !a && !u {
      var c := RestoredWith(s, false, false);
      assert !Raised(c, AnyLock(a, u)) && AllLocked(c, s);
    }
  }

  /** Ticks that bring everything the wait mode waits for: each of them lets the oscillators and the
      selections settle, and locks the PLL that the master clock needs and one that was on. */
  predicate Feeds(ticks: seq<Tick>, s: Saved)
  {
    forall t | t in ticks ::
      && t.crystal && t.rc && t.main && t.mck
      && (s.mckr.css == PllA ==> t.lockA) && (s.mckr.css == Upll ==> t.lockU)
      && ((s.pllar.mula != 0 && t.lockA) || (s.uckr.on && t.lockU))
  }

  /** Bits that a tick of that kind raises, if they are not raised yet. */
  predicate Comes(c: Clocks, f: Flag, s: Saved)
  {
    match f
    case CrystalReady => c.mor.crystal
    case RcReady => c.mor.rc
    case MainSelected => Runs(c, c.mor.sel)
    case MckReady => true
    case LockA => c.pllar.mula > 0 && s.mckr.css == PllA
    case LockU => c.uckr.on && s.mckr.css == Upll
    case AnyLock(a, u) =>
      a == (s.pllar.mula != 0) && u == s.uckr.on && (a ==> c.pllar.mula > 0) && (u ==> c.uckr.on)
  }

  lemma ComesNow(c: Clocks, f: Flag, s: Saved, ticks: seq<Tick>)
    requires Feeds(ticks, s) && ticks != [] && (Comes(c, f, s) || Raised(c, f))
    ensures Raised(After(c, ticks[0]), f)
  {
    assert ticks[0] in ticks;
  }

  predicate NoLockA(ticks: seq<Tick>) { forall t | t in ticks :: !t.lockA }
  predicate NoLockU(ticks: seq<Tick>) { forall t | t in ticks :: !t.lockU }

  /** What holds of all ticks holds of those that are left. */
  lemma FewerTicks(ticks: seq<Tick>, s: Saved)
    requires ticks != []
    ensures Feeds(ticks, s) ==> Feeds(ticks[1..], s)
    ensures NoLockA(ticks) ==> NoLockA(ticks[1..]) && !ticks[0].lockA
    ensures NoLockU(ticks) ==> NoLockU(ticks[1..]) && !ticks[0].lockU
  {
    assert ticks[0] in ticks && forall t | t in ticks[1..] :: t in ticks;
  }
}
