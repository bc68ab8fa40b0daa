/** Shutting the clocks down for the wait mode and bringing them back. */
module ClockSleep {
  import opened ClockTree

  class Pmc {
    var c: Clocks
    /** What is still to happen in the clock generator. */
    var ticks: seq<Tick>
    /** Every state since the beginning: after each register write and each lapse of time. */
    ghost var trace: seq<Clocks>
    /** Whether the run has kept to where it is claimed to be safe. */
    ghost var watched: bool

    constructor (c: Clocks, ticks: seq<Tick>)
      ensures this.c == c && this.ticks == ticks && trace == [] && watched
    {
      this.c, this.ticks, trace, watched := c, ticks, [], true;
    }

    /** All states so far were safe for the flash settings of `s`, if the run is watched. */
    ghost predicate SafeSoFar(s: Saved)
      reads this
    {
      watched ==> Safe(c, s.fmr0, s.fmr1) && forall k: nat | k < |trace| :: Safe(trace[k], s.fmr0, s.fmr1)
    }

    /** The run has gone on, and has been safe. Ticks that bring what is needed still do; a lock that no
        tick brings has not come. */
    twostate predicate WentOn(s: Saved)
      reads this
    {
      && SafeSoFar(s) && old(trace) <= trace && (Feeds(old(ticks), s) ==> Feeds(ticks, s))
      && (NoLockA(old(ticks)) ==> NoLockA(ticks) && (c.lockA ==> old(c).lockA))
      && (NoLockU(old(ticks)) ==> NoLockU(ticks) && (c.lockU ==> old(c).lockU))
    }

    /** A register write, which time passes before. */
    method Write(n: Clocks, ghost s: Saved)
      requires SafeSoFar(s) && (watched ==> Safe(n, s.fmr0, s.fmr1)) && (n.lockA ==> c.lockA) && (n.lockU ==> c.lockU)
      modifies this`c, this`trace
      ensures WentOn(s) && c == n && trace == old(trace) + [n]
    {
      c := n;
      trace := trace + [n];
    }

    method Elapse(ghost s: Saved)
      requires SafeSoFar(s) && ticks != []
      modifies this`c, this`ticks, this`trace
      ensures WentOn(s) && c == After(old(c), old(ticks)[0]) && ticks == old(ticks)[1..]
    {
      FewerTicks(ticks, s);
      hide Safe, Feeds, NoLockA, NoLockU;
      if watched {
        TickSafe(c, ticks[0], s.fmr0, s.fmr1);
      }
      c := After(c, ticks[0]);
      ticks := ticks[1..];
      trace := trace + [c];
    }

    /** Time passes, at most `n` ticks. */
    method Pass(n: nat, ghost s: Saved)
      requires SafeSoFar(s)
      modifies this`c, this`ticks, this`trace
      ensures WentOn(s) && Later(old(c), c) && |old(ticks)| <= |ticks| + n
    {
      hide Safe, After, Later, Feeds, NoLockA, NoLockU;
      Same(c);
      var k := 0;
      while k < n && ticks != []
        invariant k <= n && WentOn(s) && Later(old(c), c) && |old(ticks)| == |ticks| + k
      {
        TickLater(old(c), c, ticks[0]);
        Elapse(s);
        k := k + 1;
      }
    }

    /** Polls the status register until a bit shows; false when that has not happened at the end of
        the ticks. A bit that the next tick raises is seen. */
    method Await(f: Flag, ghost s: Saved) returns (shown: bool)
      requires SafeSoFar(s)
      modifies this`c, this`ticks, this`trace
      ensures WentOn(s) && Later(old(c), c) && (shown ==> Raised(c, f))
      ensures Feeds(old(ticks), s) && old(ticks) != [] && Comes(old(c), f, s) ==> shown && |old(ticks)| <= |ticks| + 1
    {
      if Feeds(ticks, s) && ticks != [] && Comes(c, f, s) {
        ComesNow(c, f, s, ticks);
      }
      hide Safe, After, Later, Raised, Feeds, NoLockA, NoLockU, Comes;
      Same(c);
      if Raised(c, f) {
        return true;
      }
      if ticks == [] {
        return false;
      }
      TickLater(c, c, ticks[0]);
      Elapse(s);
      while !Raised(c, f)
        invariant WentOn(s) && Later(old(c), c)
        invariant Raised(After(old(c), old(ticks)[0]), f) ==> Raised(c, f) && |old(ticks)| <= |ticks| + 1
        decreases |ticks|
      {
        if ticks == [] {
          return false;
        }
        TickLater(old(c), c, ticks[0]);
        Elapse(s);
      }
      return true;
    }

    /** Writes the master clock register and waits for it to take effect. */
    method SwitchMck(m: Mckr, ghost s: Saved) returns (done: bool)
      requires SafeSoFar(s) && c.mckNow == c.mckr && (watched ==> SourceRuns(c, m.css))
      requires watched && Fast(m.css) ==> c.fmr0 == s.fmr0 && c.fmr1 == s.fmr1
      modifies this`c, this`ticks, this`trace
      ensures WentOn(s)
      ensures Later(old(c).(mckr := m), c) && (done ==> c.mckNow == m)
      ensures Feeds(old(ticks), s) && |old(ticks)| >= 1 ==> done && |old(ticks)| <= |ticks| + 1
    {
      hide Feeds, NoLockA, NoLockU;
      Write(c.(mckr := m), s);
      done := Await(MckReady, s);
    }

    /** The master clock leaves the PLLs, then the prescaler. */
    method LowerMck(ghost s: Saved) returns (done: bool)
      requires c.mckNow == c.mckr == s.mckr && SafeSoFar(s) && MainRuns(c)
      modifies this`c, this`ticks, this`trace
      ensures WentOn(s)
      ensures done ==> c.mckNow == c.mckr == LowMckr(s.mckr) && Later(old(c).(mckr := c.mckr), c)
      ensures Feeds(old(ticks), s) && |old(ticks)| >= 2 ==> done && |old(ticks)| <= |ticks| + 2
    {
      hide Feeds, NoLockA, NoLockU;
      var mckr := c.mckr;
      if Fast(mckr.css) {
        mckr := mckr.(css := Main);
        done := SwitchMck(mckr, s);
        if !done {
          return;
        }
      }
      if mckr.pres != 0 {
        mckr := mckr.(pres := 0);
        done := SwitchMck(mckr, s);
        if !done {
          return;
        }
      }
      done := true;
    }

    /** The first part of saving: on to the fast RC oscillator, off the PLLs and the prescaler. `n`
        says how much time passes between a register access and the next. */
    method LeavePlls(n: nat, ghost s: Saved) returns (done: bool)
      requires AtRest(c) && Settings(c) == s && SafeSoFar(s)
      modifies this`c, this`ticks, this`trace
      ensures WentOn(s)
      ensures done ==> OffPll(c, s) && Uncut(s)
      ensures Feeds(old(ticks), s) && |old(ticks)| >= n + 2 ==> done && |old(ticks)| <= |ticks| + n + 2
    {
      hide Feeds, NoLockA, NoLockU;
      Write(SetMor(c, c.mor.(rc := true)), s);
      Pass(n, s);
      done := LowerMck(s);
    }

    /** The PLL registers are still as they were. */
    ghost predicate Uncut(s: Saved)
      reads this
    {
      c.pllar == s.pllar && c.uckr == s.uckr
    }

    method StopPlls(n: nat, ghost s: Saved) returns (done: bool)
      requires OffPll(c, s) && Uncut(s) && SafeSoFar(s)
      modifies this`c, this`ticks, this`trace
      ensures WentOn(s)
      ensures done ==> NoPll(c, s)
      ensures Feeds(old(ticks), s) && |old(ticks)| >= n + 1 ==> done && |old(ticks)| <= |ticks| + n + 1
    {
      hide Feeds, NoLockA, NoLockU;
      Write(SetPllar(c, Pllar(0, 0, true)), s);
      Pass(n, s);
      Write(SetUckr(c, c.uckr.(on := false)), s);
      done := Await(RcReady, s);
    }

    /** `pmc_save_clock_settings`. */
    method Save(n: nat, disableCrystal: bool) returns (done: bool, s: Saved)
      requires AtRest(c) && SafeSoFar(Settings(c))
      modifies this`c, this`ticks, this`trace
      ensures s == old(Settings(c)) && WentOn(s)
      ensures done ==> Low(c, s, disableCrystal)
      ensures done ==>
        && c.mckNow == c.mckr == Mckr(if s.mckr.css == Slow then Slow else Main, 0, s.mckr.other)
        && c.mor == Mor(s.mor.crystal && !disableCrystal, s.mor.bypass, true, s.mor.rcFreq, FastRc, s.mor.other)
        && c.mainNow == FastRc && c.pllar.mula == 0 && c.uckr == Uckr(false, s.uckr.other)
        && c.fmr0 == Fmr(0, s.fmr0.other) && c.fmr1 == Fmr(0, s.fmr1.other)
      ensures Feeds(old(ticks), s) && |old(ticks)| >= 4 * n + 4 ==> done && |old(ticks)| <= |ticks| + 4 * n + 4
    {
      hide Feeds, NoLockA, NoLockU;
      s := Settings(c);
      done := LeavePlls(n, s);
      if done {
        done := StopPlls(n, s);
      }
      if !done {
        return;
      }
      Write(SetMor(c, c.mor.(sel := FastRc)), s);
      done := Await(MainSelected, s);
      if done {
        LowerFlash(n, disableCrystal, s);
      }
    }

    method LowerFlash(n: nat, disableCrystal: bool, s: Saved)
      requires Formed(c) && c.mor == s.mor.(rc := true, sel := FastRc) && c.rcOk && c.mainNow == FastRc
      requires (c.mor.crystal ==> c.crystalOk) && c.pllar == Pllar(0, 0, true) && c.uckr == s.uckr.(on := false)
      requires c.mckr == c.mckNow == LowMckr(s.mckr) && c.fmr0 == s.fmr0 && c.fmr1 == s.fmr1
      requires SafeSoFar(s)
      modifies this`c, this`ticks, this`trace
      ensures WentOn(s) && Low(c, s, disableCrystal) && |old(ticks)| <= |ticks| + 2 * n
    {
      hide Feeds, NoLockA, NoLockU;
      Write(c.(fmr0 := s.fmr0.(fws := 0)), s);
      Pass(n, s);
      Write(c.(fmr1 := s.fmr1.(fws := 0)), s);
      Pass(n, s);
      if disableCrystal {
        Write(SetMor(c, c.mor.(crystal := false)), s);
      }
    }

    /** The crystal starts, if it is not running, and becomes the main clock. */
    method SelectCrystal(s: Saved) returns (done: bool)
      requires (exists off :: Low(c, s, off)) && !s.mor.bypass && s.mor.crystal && SafeSoFar(s)
      modifies this`c, this`ticks, this`trace
      ensures WentOn(s)
      ensures done ==>
        && Formed(c) && c.mor == s.mor.(rc := true, sel := Crystal) && c.mainNow == Crystal && c.crystalOk
        && c.pllar == Pllar(0, 0, true) && c.uckr == s.uckr.(on := false) && c.mckr == c.mckNow == LowMckr(s.mckr)
      ensures Feeds(old(ticks), s) && |old(ticks)| >= 2 ==> done && |old(ticks)| <= |ticks| + 2
    {
      hide Feeds, NoLockA, NoLockU;
      if !c.mor.crystal {
        Write(SetMor(c, c.mor.(crystal := true)), s);
        done := Await(CrystalReady, s);
        if !done {
          return;
        }
      }
      if c.mor.sel != Crystal {
        Write(SetMor(c, c.mor.(sel := Crystal)), s);
        done := Await(MainSelected, s);
      }
    }

    /** The two stores for a bypassed crystal. */
    method SelectBypass(n: nat, s: Saved)
      requires (exists off :: Low(c, s, off)) && s.mor.bypass && SafeSoFar(s) && (watched ==> Guarded(s))
      modifies this`c, this`ticks, this`trace
      ensures WentOn(s) && MainBack(c, s) && c.pllar == Pllar(0, 0, true) && c.uckr == s.uckr.(on := false)
      ensures |old(ticks)| <= |ticks| + 2 * n
    {
      hide Feeds, NoLockA, NoLockU;
      Write(SetMor(c, BypassOn(c.mor)), s);
      Pass(n, s);
      Write(SetMor(c, RcOff(c.mor)), s);
      Pass(n, s);
    }

    /** The main clock comes back from the bypass or the crystal if there is one; then the RC oscillator
        goes off. */
    method RestoreMain(n: nat, s: Saved) returns (done: bool)
      requires (exists off :: Low(c, s, off)) && SafeSoFar(s) && Sound(s) && (watched ==> Guarded(s))
      modifies this`c, this`ticks, this`trace
      ensures WentOn(s)
      ensures done ==> MainBack(c, s) && c.pllar == Pllar(0, 0, true) && c.uckr == s.uckr.(on := false)
      ensures Feeds(old(ticks), s) && |old(ticks)| >= 2 * n + 2 ==> done && |old(ticks)| <= |ticks| + 2 * n + 2
    {
      hide Feeds, NoLockA, NoLockU;
      done := true;
      if s.mor.bypass {
        SelectBypass(n, s);
      } else if s.mor.crystal {
        done := SelectCrystal(s);
        if done {
          Write(SetMor(c, RcOff(c.mor)), s);
          Pass(n, s);
        }
      }
    }

    /** The PLLs that were on are started. */
    method StartPlls(n: nat, s: Saved)
      requires MainBack(c, s) && (watched ==> Guarded(s)) && c.pllar == Pllar(0, 0, true) && c.uckr == s.uckr.(on := false)
      requires SafeSoFar(s)
      modifies this`c, this`ticks, this`trace
      ensures WentOn(s) && MainBack(c, s) && c.pllar == PllarAfter(s.pllar) && c.uckr == s.uckr
      ensures |old(ticks)| <= |ticks| + 2 * n
    {
      hide Feeds, NoLockA, NoLockU, MainAfter;
      if s.pllar.mula != 0 {
        Write(SetPllar(c, s.pllar.(one := true)), s);
        Pass(n, s);
      }
      if s.uckr.on {
        Write(SetUckr(c, s.uckr), s);
        Pass(n, s);
      }
    }

    /** The PLLs that were on, and the lock of the one that the master clock needs. */
    method RestorePlls(n: nat, s: Saved) returns (done: bool)
      requires MainBack(c, s) && (watched ==> Guarded(s)) && c.pllar == Pllar(0, 0, true) && c.uckr == s.uckr.(on := false)
      requires SafeSoFar(s) && Sound(s)
      modifies this`c, this`ticks, this`trace
      ensures WentOn(s)
      ensures done ==> PllBack(c, s) && c.mckr == c.mckNow == LowMckr(s.mckr)
      ensures Feeds(old(ticks), s) && |old(ticks)| >= 2 * n + 1 ==> done && |old(ticks)| <= |ticks| + 2 * n + 1
    {
      hide Feeds, NoLockA, NoLockU;
      StartPlls(n, s);
      match s.mckr.css
      case PllA => done := Await(LockA, s);
      case Upll => done := Await(LockU, s);
      case _ => done := true;
    }

    /** The wait states come back before the master clock returns to a PLL. */
    method RaiseFlash(n: nat, s: Saved)
      requires PllBack(c, s) && c.mckr == c.mckNow == LowMckr(s.mckr).(pres := s.mckr.pres) && SafeSoFar(s)
      requires watched ==> Guarded(s)
      modifies this`c, this`ticks, this`trace
      ensures WentOn(s) && |old(ticks)| <= |ticks| + 2 * n
      ensures PllBack(c, s) && c.mckr == c.mckNow && c.fmr0 == s.fmr0 && c.fmr1 == s.fmr1
    {
      PllBackSafe(c, s, s.fmr0, c.fmr1);
      hide Feeds, NoLockA, NoLockU, PllBack, Safe, Later;
      Write(c.(fmr0 := s.fmr0), s);
      PllBackLater(c, s);
      Pass(n, s);
      PllBackSafe(c, s, s.fmr0, s.fmr1);
      Write(c.(fmr1 := s.fmr1), s);
      PllBackLater(c, s);
      Pass(n, s);
    }

    /** The master clock and the flash settings come back, in three steps. */
    method RestoreMck(n: nat, s: Saved) returns (done: bool)
      requires PllBack(c, s) && c.mckr == c.mckNow == LowMckr(s.mckr) && SafeSoFar(s) && (watched ==> Guarded(s))
      modifies this`c, this`ticks, this`trace
      ensures WentOn(s)
      ensures done ==> Restored(c, s)
      ensures Feeds(old(ticks), s) && |old(ticks)| >= 2 * n + 2 ==> done && |old(ticks)| <= |ticks| + 2 * n + 2
    {
      hide Feeds, NoLockA, NoLockU;
      done := SwitchMck(c.mckr.(pres := s.mckr.pres), s);
      if done {
        RaiseFlash(n, s);
        done := SwitchMck(s.mckr, s);
      }
    }

    method RestoreAll(n: nat, s: Saved) returns (done: bool)
      requires (exists off :: Low(c, s, off)) && SafeSoFar(s) && Sound(s) && (watched ==> Guarded(s))
      modifies this`c, this`ticks, this`trace
      ensures WentOn(s)
      ensures done ==> Restored(c, s) && ((s.pllar.mula != 0 && c.lockA) || (s.uckr.on && c.lockU))
      ensures Feeds(old(ticks), s) && |old(ticks)| >= 6 * n + 6 ==> done
    {
      hide Feeds, NoLockA, NoLockU, Low, MainBack, Sound, Safe;
      done := RestoreMain(n, s);
      if done {
        done := RestorePlls(n, s);
      }
      if done {
        done := RestoreMck(n, s);
      }
      if done {
        done := Await(AnyLock(s.pllar.mula != 0, s.uckr.on), s);
      }
    }

    /** `pmc_restore_clock_setting`. When the crystal was bypassed nothing is claimed about safety,
        unless the master clock is the slow clock. */
    method Restore(n: nat, s: Saved) returns (done: bool)
      requires (exists off :: Low(c, s, off)) && SafeSoFar(s) && Sound(s)
      modifies this
      ensures WentOn(s) && (Guarded(s) ==> watched == old(watched))
      ensures done ==>
        && c.mckNow == c.mckr == s.mckr && c.fmr0 == s.fmr0 && c.fmr1 == s.fmr1 && c.uckr == s.uckr
        && (s.pllar.mula != 0 ==> c.pllar == Pllar(s.pllar.mula, s.pllar.low, true)) && (s.pllar.mula == 0 ==> c.pllar.mula == 0)
        && c.mor == if s.mor.bypass then Mor(false, true, false, 0, Crystal, s.mor.other)
                    else if s.mor.crystal then Mor(true, false, false, 0, Crystal, s.mor.other)
                    else Mor(false, false, true, s.mor.rcFreq, FastRc, s.mor.other)
      ensures done ==> Restored(c, s) && ((s.pllar.mula != 0 && c.lockA) || (s.uckr.on && c.lockU))
      ensures Feeds(old(ticks), s) && |old(ticks)| >= 6 * n + 6 ==> done
    {
      hide Feeds, NoLockA, NoLockU;
      ghost var off :| Low(c, s, off);
      watched := watched && Guarded(s);
      assert Low(c, s, off);
      done := RestoreAll(n, s);
    }

    /** The wait mode: save, sleep for a while, restore. Wherever the run stops, the clocks have been safe
        throughout, unless the crystal was bypassed and the master clock is not the slow clock. When it
        does not stop, the clocks are restored, but a PLL that has not locked by then is not waited for.
        It does not stop when the ticks bring what it waits for. */
    method WaitMode(n: nat, asleep: nat, disableCrystal: bool) returns (done: bool, s: Saved)
      requires AtRest(c) && SafeSoFar(Settings(c)) && watched
      modifies this
      ensures s == old(Settings(c)) && SafeSoFar(s) && old(trace) <= trace && (Guarded(s) ==> watched)
      ensures done ==> Restored(c, s) && ((s.pllar.mula != 0 && c.lockA) || (s.uckr.on && c.lockU))
      ensures Feeds(old(ticks), s) && |old(ticks)| >= 10 * n + asleep + 10 ==> done
      ensures done ==> (NoLockA(old(ticks)) ==> !c.lockA) && (NoLockU(old(ticks)) ==> !c.lockU)
    {
      hide Feeds, NoLockA, NoLockU;
      done, s := Save(n, disableCrystal);
      if done {
        Pass(asleep, s);
        assert Low(c, s, disableCrystal);
        done := Restore(n, s);
      }
    }
  }

  lemma Same(c: Clocks)
    ensures Later(c, c)
  {
  }
}
