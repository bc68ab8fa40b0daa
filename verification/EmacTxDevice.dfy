/** The transmit side of the EMAC driver, working on its lists in place. */
module EmacTxDevice {
  import opened EmacRing
  import opened EmacTx

  /** The callbacks that are there. */
  function Present(c: seq<Option<Callback>>): (p: seq<Callback>)
  {
    if c == [] then []
    else
      var n := |c| - 1;
      Present(c[..n]) + if c[n].Some? then [c[n].value] else []
  }

  lemma NonePresent()
    ensures Present([]) == []
  {
  }

  lemma OneMorePresent(c: seq<Option<Callback>>, k: nat, cb: Option<Callback>)
    requires k <= |c|
    ensures Present((c + [cb])[k..]) == Present(c[k..]) + if cb.Some? then [cb.value] else []
  {
    assert (c + [cb])[k..] == c[k..] + [cb];
    assert (c[k..] + [cb])[..|c| - k] == c[k..];
  }

  lemma RunStops(s: State)
    requires Inv(s) && s.handler.Quiet?
    ensures HandlerRun(s) == s
  {
  }

  function Units(mem: seq<bv8>, n: nat): (u: seq<seq<bv8>>)
    requires |mem| == TX_UNITSIZE * n
    ensures |u| == n && forall i: nat | i < n :: u[i] == mem[TX_UNITSIZE * i..TX_UNITSIZE * (i + 1)]
  {
    seq(n, i requires 0 <= i < n => mem[TX_UNITSIZE * i..TX_UNITSIZE * (i + 1)])
  }

  /** Bytes written to the start of unit `k` change that unit only. */
  lemma UnitOverwritten(mem: seq<bv8>, n: nat, k: nat, bytes: seq<bv8>)
    requires |mem| == TX_UNITSIZE * n && k < n && |bytes| <= TX_UNITSIZE
    ensures var base := TX_UNITSIZE * k;
      base + |bytes| <= |mem| && Units(mem[..base] + bytes + mem[base + |bytes|..], n)
                              == Units(mem, n)[k := Overwrite(Units(mem, n)[k], bytes)]
  {
    var base := TX_UNITSIZE * k;
    assert base + TX_UNITSIZE <= |mem|;
    var now := mem[..base] + bytes + mem[base + |bytes|..];
    forall i: nat | i < n
      ensures Units(now, n)[i] == if i == k then Overwrite(Units(mem, n)[k], bytes) else Units(mem, n)[i]
    {
      UnitAt(mem, n, k, bytes, now, i);
    }
  }

  lemma UnitAt(mem: seq<bv8>, n: nat, k: nat, bytes: seq<bv8>, now: seq<bv8>, i: nat)
    requires |mem| == |now| == TX_UNITSIZE * n && k < n && i < n && |bytes| <= TX_UNITSIZE
    requires TX_UNITSIZE * k + |bytes| <= |mem|
    requires now == mem[..TX_UNITSIZE * k] + bytes + mem[TX_UNITSIZE * k + |bytes|..]
    ensures Units(now, n)[i] == if i == k then Overwrite(Units(mem, n)[k], bytes) else Units(mem, n)[i]
  {
    hide Units;
    var base, at := TX_UNITSIZE * k, TX_UNITSIZE * i;
    if i < k {
      assert at + TX_UNITSIZE <= base;
      assert now[at..at + TX_UNITSIZE] == mem[at..at + TX_UNITSIZE];
    } else if i > k {
      assert base + TX_UNITSIZE <= at && at + TX_UNITSIZE <= |mem|;
      forall x | at <= x < at + TX_UNITSIZE ensures now[x] == mem[x] {
      }
      assert now[at..at + TX_UNITSIZE] == mem[at..at + TX_UNITSIZE];
    } else {
      assert base + TX_UNITSIZE <= |mem|;
      assert now[base..base + TX_UNITSIZE] == bytes + mem[base..base + TX_UNITSIZE][|bytes|..];
    }
  }

  class Transmitter {
    const size: nat
    const dscr: array<Descriptor>
    const buffer: array<bv8>
    const callbacks: array<Option<Callback>>
    var head: nat
    var tail: nat
    /** The controller's side and the histories. */
    ghost var rest: State

    ghost predicate Shaped()
      reads this
    {
      && 1 < size == dscr.Length == callbacks.Length && buffer.Length == TX_UNITSIZE * size
      && dscr as object != buffer && dscr as object != callbacks && buffer as object != callbacks
    }

    ghost function Abs(): State
      requires Shaped()
      reads this, dscr, buffer, callbacks
    {
      rest.(size := size, head := head, tail := tail, dscr := dscr[..], units := Units(buffer[..], size),
            callbacks := callbacks[..])
    }

    /** Between calls. */
    ghost predicate Valid()
      reads this, dscr, buffer, callbacks
    {
      Shaped() && Inv(Abs()) && Abs().writer.Idle? && Abs().handler.Quiet?
    }

    constructor (n: nat)
      requires n > 1
      ensures Valid() && Init(Abs()) && size == n && fresh(dscr) && fresh(buffer) && fresh(callbacks)
    {
      size, head, tail := n, 0, 0;
      dscr := new Descriptor[n](_ => Descriptor(true, false, 0));
      buffer := new bv8[TX_UNITSIZE * n];
      callbacks := new Option<Callback>[n](_ => None);
      rest := State(n, 0, 0, [], [], [], Idle, Quiet, 0, [], [], [], [], []);
      new;
      Reset();
    }

    /** Takes every buffer back from the controller and forgets what was in flight. */
    method Reset()
      requires Shaped()
      modifies this`head, this`tail, this`rest, dscr
      ensures Valid() && Init(Abs())
    {
      head, tail := 0, 0;
      rest := State(size, 0, 0, [], [], [], Idle, Quiet, 0, [], [], [], [], []);
      for i := 0 to size
        invariant head == tail == 0 && rest == State(size, 0, 0, [], [], [], Idle, Quiet, 0, [], [], [], [], [])
        invariant forall k: nat | k < i :: dscr[k] == Descriptor(true, false, 0)
      {
        dscr[i] := Descriptor(true, false, 0);
      }
      dscr[size - 1] := Descriptor(true, true, 0);
      assert forall k: nat | k < size :: dscr[k] == Descriptor(true, k == size - 1, 0);
      InitInv(Abs());
    }

    /** Puts one frame into the ring. */
    method Write(q: Request) returns (r: Result)
      requires Valid()
      modifies this`head, this`rest, dscr, buffer, callbacks
      ensures Valid()
      ensures r == old(Check(Abs(), q.p)) && Abs() == old(Written(Abs(), q))
    {
      ghost var s, t := Abs(), Written(Abs(), q);
      WrittenMemory(s, q);
      hide Inv, Written, Units, CircSpace, Overwrite, Settled;
      if q.p.Size() > TX_UNITSIZE {
        return Param;
      }
      if CircSpace(head, tail, size) == 0 {
        return Busy;
      }
      Put(q);
      rest := t;
      assert dscr[..] == t.dscr && callbacks[..] == t.callbacks && head == t.head;
      assert Units(buffer[..], size) == t.units;
      r := Ok;
    }

    /** The frame goes into the slot at the head, and the head moves on. */
    method Put(q: Request)
      requires Shaped() && head < size && q.p.Size() <= TX_UNITSIZE
      modifies this`head, dscr, buffer, callbacks
      ensures head == Settled(old(head) + 1, size)
      ensures dscr[..] == old(dscr[..])[old(head) := Descriptor(false, old(head) == size - 1, q.p.Size() % LEN_LIMIT)]
      ensures callbacks[..] == old(callbacks[..])[old(head) := q.cb]
      ensures var u := old(Units(buffer[..], size));
        Units(buffer[..], size) == if q.p.Bytes? && q.p.Size() > 0 then u[old(head) := Overwrite(u[old(head)], q.p.bytes)] else u
    {
      hide Units, Overwrite;
      if q.p.Bytes? && q.p.Size() > 0 {
        CopyIn(q.p.bytes);
      }
      SetUp(q);
      head := head + 1;
      if head >= size {
        head := 0;
      }
    }

    /** The callback and the descriptor of the frame at the head. */
    method SetUp(q: Request)
      requires Shaped() && head < size
      modifies dscr, callbacks
      ensures dscr[..] == old(dscr[..])[head := Descriptor(false, head == size - 1, q.p.Size() % LEN_LIMIT)]
      ensures callbacks[..] == old(callbacks[..])[head := q.cb]
      ensures buffer[..] == old(buffer[..])
    {
      callbacks[head] := q.cb;
      dscr[head] := Descriptor(false, head == size - 1, q.p.Size() % LEN_LIMIT);
    }

    /** Copies a caller's bytes into the unit at the head. */
    method CopyIn(bytes: seq<bv8>)
      requires Shaped() && head < size && |bytes| <= TX_UNITSIZE
      modifies buffer
      ensures var u := old(Units(buffer[..], size)); Units(buffer[..], size) == u[head := Overwrite(u[head], bytes)]
      ensures dscr[..] == old(dscr[..]) && callbacks[..] == old(callbacks[..])
    {
      hide Units;
      ghost var was := buffer[..];
      var base := TX_UNITSIZE * head;
      forall i | 0 <= i < |bytes| {
        buffer[base + i] := bytes[i];
      }
      assert buffer[..] == was[..base] + bytes + was[base + |bytes|..];
      UnitOverwritten(was, size, head, bytes);
    }

    /** The transmit half of the interrupt handler: runs the callbacks of frames that were sent. */
    method Drain() returns (called: seq<Callback>)
      requires Valid()
      modifies this`tail, this`rest
      ensures Valid() && Abs() == old(HandlerCall(Abs()))
      ensures old(Abs().completed) <= Abs().completed && called == Present(Abs().completed[old(|Abs().completed|)..])
    {
      hide Inv, HandlerRun, HandlerCall, CircCnt, CircInc, Present;
      called := [];
      NoGapBetweenWrites(Abs());
      ghost var was, t := Abs().completed, HandlerCall(Abs());
      HandlerEntered(Abs());
      NonePresent();
      assert was[|was|..] == [];
      if head != tail {
        ghost var s := Abs().(handler := Looking);
        rest := s;
        while true
          invariant Shaped() && Abs() == s && Inv(s) && s.handler.Looking? && s.writer.Idle?
          invariant was <= s.completed && called == Present(s.completed[|was|..]) && HandlerRun(s) == t
          decreases Queued(s)
        {
          RoundRuns(s);
          if Round(s).handler.Quiet? {
            RunStops(Round(s));
          }
          if !dscr[tail].used {
            rest := Round(s);
            return;
          }
          if callbacks[tail].Some? {
            called := called + [callbacks[tail].value];
          }
          OneMorePresent(s.completed, |was|, callbacks[tail]);
          tail := CircInc(tail, size);
          rest := Round(s);
          if CircCnt(head, tail, size) == 0 {
            return;
          }
          s := Round(s);
        }
      }
    }
  }
}
