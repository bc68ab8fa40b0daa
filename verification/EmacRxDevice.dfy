/** The receive side of the EMAC driver, working on its descriptor list in place. */
module EmacRxDevice {
  import opened EmacRing
  import opened EmacRx
  import opened Numbers

  lemma ViewUpdate(d: seq<Descriptor>, r: nat, k: nat, x: Descriptor)
    requires r < |d| && k < |d|
    ensures View(d[Wrapped(r, k, |d|) := x], r) == View(d, r)[k := x]
  {
  }

  lemma ReleasedStep(v: seq<Descriptor>, b: nat)
    requires b < |v|
    ensures Released(v, b)[b := v[b].(owned := false)] == Released(v, b + 1)
  {
  }

  lemma NothingReleased(v: seq<Descriptor>)
    ensures Released(v, 0) == v
  {
  }

  /** Cutting a concatenation off at `cap`. */
  lemma CutAfter<T>(g: seq<T>, unit: seq<T>, cap: nat)
    ensures var n := Min(cap, |g|);
      var m := Min(cap - n, |unit|);
      (g + unit)[..n + m] == g[..n] + unit[..m]
  {
  }

  lemma GatheredMore(mem: seq<bv8>, v: seq<Descriptor>, c: seq<nat>, q: nat)
    requires InMemory(mem, v) && q < |v| && forall i | i in c :: i < |v|
    ensures forall i | i in c + [q] :: i < |v|
    ensures Gathered(mem, v, c + [q]) == Gathered(mem, v, c) + mem[v[q].addr..v[q].addr + RX_UNITSIZE]
  {
    assert (c + [q])[..|c|] == c;
  }

  /** One descriptor's worth of a pass. */
  lemma ScanStep(v: seq<Descriptor>, k: nat, b: nat, open: bool, c: seq<nat>)
    requires b <= k < |v| && v[k].owned && (!open ==> b == k)
    ensures var start := v[k].sof;
      var q, b1, c1 := if start && b < k then k - 1 else k, if start then k else b, if start then [] else c;
      Scan(v, k, b, open, c) ==
        if !open && !start then Scan(v, k + 1, k + 1, false, [])
        else if k + 1 - b1 == |v| then Nothing(|v|)
        else if v[q].eof then Frame(c1 + [q], q, k + 1)
        else Scan(v, k + 1, b1, true, c1 + [q])
  {
  }

  lemma OutcomeNothing(v: seq<Descriptor>, mem: seq<bv8>, cap: nat, b: nat)
    requires InMemory(mem, v) && Scan(v, 0, 0, false, []) == Nothing(b)
    ensures ReadOutcome(v, mem, cap) == Outcome(RxNull, 0, [], b)
  {
  }

  lemma OutcomeFrame(v: seq<Descriptor>, mem: seq<bv8>, cap: nat, c: seq<nat>, last: nat, next: nat)
    requires InMemory(mem, v) && Scan(v, 0, 0, false, []) == Frame(c, last, next)
    requires last < |v| && next <= |v| && forall i | i in c :: i < |v|
    ensures var g := Gathered(mem, v, c);
      var bytes := g[..Min(cap, |g|)];
      ReadOutcome(v, mem, cap) == Outcome(if |bytes| < v[last].len then SizeTooSmall else Ok, v[last].len, bytes, next)
  {
  }

  lemma ScanStops(v: seq<Descriptor>, k: nat, b: nat, open: bool, c: seq<nat>)
    requires b <= k <= |v| && (!open ==> b == k) && (k < |v| ==> !v[k].owned)
    ensures Scan(v, k, b, open, c) == Nothing(b)
  {
  }

  class Receiver {
    const size: nat
    const dscr: array<Descriptor>
    const buffer: array<bv8>
    var idx: nat

    ghost predicate Valid()
      reads this, dscr, buffer
    {
      1 < size == dscr.Length && idx < size && dscr as object != buffer && InMemory(buffer[..], dscr[..])
    }

    /** The caller's buffer is none of the driver's own memory. */
    predicate Outside(frame: array<bv8>)
    {
      frame != buffer && frame as object != dscr
    }

    /** The ring from the current index on. */
    ghost function Ring(): (v: seq<Descriptor>)
      requires Valid()
      reads this, dscr, buffer
      ensures |v| == size && InMemory(buffer[..], v)
    {
      View(dscr[..], idx)
    }

    /** A list of `n` descriptors over `n` units of buffer. */
    constructor (n: nat)
      requires n > 1
      ensures Valid() && size == n && fresh(dscr) && fresh(buffer)
      ensures idx == 0 && forall i: nat | i < n :: dscr[i] == Descriptor(false, i == n - 1, RX_UNITSIZE * i, false, false, 0)
    {
      size, idx := n, 0;
      dscr := new Descriptor[n](_ => Descriptor(false, false, 0, false, false, 0));
      buffer := new bv8[RX_UNITSIZE * n];
      new;
      Reset();
    }

    /** Hands the whole list to the controller, in order, with the wrap mark on its last entry. */
    method Reset()
      requires 1 < size == dscr.Length && buffer.Length == RX_UNITSIZE * size && dscr as object != buffer
      modifies this`idx, dscr
      ensures Valid() && idx == 0
      ensures forall i: nat | i < size :: dscr[i] == Descriptor(false, i == size - 1, RX_UNITSIZE * i, false, false, 0)
    {
      idx := 0;
      for i := 0 to size
        invariant idx == 0
        invariant forall k: nat | k < i :: dscr[k] == Descriptor(false, false, RX_UNITSIZE * k, false, false, 0)
      {
        dscr[i] := Descriptor(false, false, RX_UNITSIZE * i, false, false, 0);
      }
      assert dscr[size - 1] == Descriptor(false, false, RX_UNITSIZE * (size - 1), false, false, 0);
      dscr[size - 1] := dscr[size - 1].(wrap := true);
      forall i: nat | i < size
        ensures dscr[i] == Descriptor(false, i == size - 1, RX_UNITSIZE * i, false, false, 0)
        ensures dscr[..][i].addr + RX_UNITSIZE <= |buffer[..]|
      {
        assert RX_UNITSIZE * (i + 1) <= RX_UNITSIZE * size;
      }
    }

    /** Since index `r` and ring `v`, the first `b` descriptors have been released. */
    ghost predicate Since(r: nat, v: seq<Descriptor>, b: nat)
      reads this, dscr
    {
      && size == dscr.Length == |v| && r < size && b <= size
      && View(dscr[..], r) == Released(v, b) && idx == Wrapped(r, b, size)
    }

    method ReleaseOne(ghost r: nat, ghost v: seq<Descriptor>, ghost b: nat) returns (p: nat)
      requires Since(r, v, b) && b < size
      modifies this`idx, dscr
      ensures Since(r, v, b + 1) && p == Wrapped(r, b, size)
    {
      p := idx;
      ghost var was := dscr[..];
      assert dscr[p] == View(was, r)[b];
      ViewUpdate(was, r, b, v[b].(owned := false));
      ReleasedStep(v, b);
      dscr[p] := dscr[p].(owned := false);
      assert dscr[..] == was[p := v[b].(owned := false)];
      idx := CircInc(idx, size);
    }

    /** Releases descriptors until the index reaches `t`. */
    method ReleaseTo(t: nat, p0: nat, ghost r: nat, ghost v: seq<Descriptor>, ghost b: nat, ghost k: nat) returns (p: nat)
      requires Since(r, v, b) && b <= k <= size && k - b < size && t == Wrapped(r, k, size)
      modifies this`idx, dscr
      ensures Since(r, v, k) && p == if b < k then Wrapped(r, k - 1, size) else p0
    {
      p := p0;
      ghost var c := b;
      while t != idx
        invariant b <= c <= k && Since(r, v, c) && p == if b < c then Wrapped(r, c - 1, size) else p0
        decreases k - c
      {
        p := ReleaseOne(r, v, c);
        c := c + 1;
      }
    }

    /** What the descriptor `k` steps from the starting index holds by now. */
    lemma At(r: nat, v: seq<Descriptor>, b: nat, k: nat)
      requires Since(r, v, b) && k < size
      ensures var p := Wrapped(r, k, size);
        dscr[p] == if k < b then v[k].(owned := false) else v[k]
    {
      assert View(dscr[..], r)[k] == dscr[Wrapped(r, k, size)];
    }

    lemma StillValid(r: nat, v: seq<Descriptor>, b: nat)
      requires 1 < size && dscr as object != buffer && Since(r, v, b) && InMemory(buffer[..], v)
      ensures Valid()
    {
      forall i: nat | i < size ensures dscr[i].addr + RX_UNITSIZE <= |buffer[..]| {
        var k := if r <= i then i - r else i + size - r;
        assert View(dscr[..], r)[k] == dscr[i] && Released(v, b)[k].addr == v[k].addr;
      }
    }

    /** Copies one buffer, or as much of it as the caller's capacity leaves room for. */
    method Gather(frame: array<bv8>, capacity: nat, copied: nat, addr: nat,
                  ghost v: seq<Descriptor>, ghost c: seq<nat>, ghost q: nat) returns (total: nat)
      requires Outside(frame) && capacity <= frame.Length && InMemory(buffer[..], v)
      requires q < |v| && addr == v[q].addr && forall i | i in c :: i < |v|
      requires copied == Min(capacity, RX_UNITSIZE * |c|) && frame[..copied] == Gathered(buffer[..], v, c)[..copied]
      modifies frame
      ensures unchanged(dscr)
      ensures (forall i | i in c + [q] :: i < |v|) && total == Min(capacity, RX_UNITSIZE * |c + [q]|)
      ensures frame[..total] == Gathered(buffer[..], v, c + [q])[..total]
      ensures frame[capacity..] == old(frame[capacity..])
    {
      hide Gathered;
      ghost var mem, was := buffer[..], frame[..copied];
      var n := if copied + RX_UNITSIZE > capacity then capacity - copied else RX_UNITSIZE;
      forall i | 0 <= i < n {
        frame[copied + i] := buffer[addr + i];
      }
      total := copied + n;
      assert buffer[..] == mem;
      ghost var g, unit := Gathered(mem, v, c), mem[addr..addr + RX_UNITSIZE];
      GatheredMore(mem, v, c, q);
      CutAfter(g, unit, capacity);
      assert frame[..copied] == was;
      assert frame[copied..total] == unit[..n];
      assert frame[..total] == was + frame[copied..total];
    }

    /** Delivers the next frame into `frame`, which has room for `capacity` bytes. */
    method Read(frame: array?<bv8>, capacity: nat) returns (status: Status, rcvSize: nat)
      requires Valid()
      requires frame != null ==> Outside(frame) && capacity <= frame.Length
      modifies this`idx, dscr, frame
      ensures Valid()
      ensures frame == null ==> status == Param && dscr[..] == old(dscr[..]) && idx == old(idx)
      ensures frame != null ==>
        var o := ReadOutcome(old(Ring()), buffer[..], capacity);
        && status == o.status && rcvSize == o.size
        && Since(old(idx), old(Ring()), o.released)
        && (status != RxNull ==> frame[..|o.bytes|] == o.bytes)
        && frame[capacity..] == old(frame[capacity..])
    {
      hide Scan, Gathered, View, Released, ReadOutcome, CircInc, Wrapped;
      if frame == null {
        return Param, 0;
      }
      ghost var r, v, mem := idx, Ring(), buffer[..];
      rcvSize := 0;
      var t, p := idx, idx;
      var isFrame, copied := false, 0;
      ghost var k, b, c: seq<nat> := 0, 0, [];
      NothingReleased(v);
      NoTurn(r, size);
      while dscr[p].owned
        invariant b <= k <= size && (!isFrame ==> b == k && c == []) && (k == size ==> 0 < b)
        invariant buffer[..] == mem && InMemory(mem, v)
        invariant p == t == Wrapped(r, k, size) && Since(r, v, b)
        invariant Scan(v, 0, 0, false, []) == Scan(v, k, b, isFrame, c)
        invariant (forall i | i in c :: i < size) && copied == Min(capacity, RX_UNITSIZE * |c|)
        invariant frame[..copied] == Gathered(mem, v, c)[..copied] && frame[capacity..] == old(frame[capacity..])
        decreases size - k
      {
        At(r, v, b, if k < size then k else 0);
        assert k < size;
        ScanStep(v, k, b, isFrame, c);
        ghost var oldB := b;
        if dscr[p].sof {
          p := ReleaseTo(t, p, r, v, b, k);
          copied := 0;
          isFrame := true;
          b, c := k, [];
        }
        t := CircInc(t, size);
        CircIncWraps(r, k, size);
        if isFrame {
          ghost var q := if v[k].sof && oldB < k then k - 1 else k;
          assert p == Wrapped(r, q, size);
          At(r, v, b, q);
          WholeTurn(r, b, k, size);
          if t == idx {
            assert b == 0 && k + 1 == size;
            var _ := ReleaseOne(r, v, b);
            var _ := ReleaseTo(t, p, r, v, b + 1, size);
            StillValid(r, v, size);
            OutcomeNothing(v, mem, capacity, size);
            return RxNull, 0;
          }
          copied := Gather(frame, capacity, copied, dscr[p].addr, v, c, q);
          c := c + [q];
          if dscr[p].eof {
            rcvSize := dscr[p].len;
            p := ReleaseTo(t, p, r, v, b, k + 1);
            StillValid(r, v, k + 1);
            OutcomeFrame(v, mem, capacity, c, q, k + 1);
            return if copied < rcvSize then SizeTooSmall else Ok, rcvSize;
          }
        } else {
          var _ := ReleaseOne(r, v, b);
          b := k + 1;
        }
        p := t;
        k := k + 1;
      }
      if k < size {
        At(r, v, b, k);
      }
      ScanStops(v, k, b, isFrame, c);
      OutcomeNothing(v, mem, capacity, b);
      StillValid(r, v, b);
      return RxNull, 0;
    }
  }
}
