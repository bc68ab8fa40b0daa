/** The PIO port that carries TCK, TDI, TMS and TDO, and the shift loop that drives it. */
module JtagPort {
  import opened Bits

  const MAX_VECTOR_BYTES: nat := 512
  const MAX_VECTOR_BITS: nat := MAX_VECTOR_BYTES * 8

  /** Pin positions within the port. */
  datatype Pins = Pins(tck: bv5, tdi: bv5, tms: bv5, tdo: bv5) {
    predicate Distinct() { tck != tdi && tck != tms && tdi != tms }
  }

  /** A store to the clear-output or the set-output data register. */
  datatype Write = Codr(mask: bv32) | Sodr(mask: bv32)

  /** Whatever is wired to the port: an arbitrary machine that sees the output levels
      before and after each store and presents the levels read back through PDSR. */
  datatype Board<!D> = Board(react: (D, bv32, bv32) -> D, pdsr: D -> bv32)

  datatype Port<D> = Port(odsr: bv32, dev: D)

  function Levels(odsr: bv32, w: Write): bv32
  {
    match w
    case Codr(mask) => Lowered(odsr, mask)
    case Sodr(mask) => Raised(odsr, mask)
  }

  function Apply<D>(board: Board<D>, port: Port<D>, w: Write): Port<D>
  {
    var after := Levels(port.odsr, w);
    Port(after, board.react(port.dev, port.odsr, after))
  }

  function ApplyAll<D>(board: Board<D>, port: Port<D>, ws: seq<Write>): Port<D>
  {
    if ws == [] then port
    else Apply(board, ApplyAll(board, port, ws[..|ws| - 1]), ws[|ws| - 1])
  }

  /** Two flags at two pins' positions. */
  function TwoMask(p: bv5, v: bool, r: bv5, u: bool): bv32
  {
    (Flag32(v) << p) | (Flag32(u) << r)
  }

  function ClearMask(pins: Pins, tdi: bool, tms: bool): bv32
  {
    TwoMask(pins.tdi, !tdi, pins.tms, !tms)
  }

  function SetMask(pins: Pins, tdi: bool, tms: bool): bv32
  {
    TwoMask(pins.tdi, tdi, pins.tms, tms)
  }

  /** The stores of one clock: data pins while TCK is low, then a TCK pulse. */
  function ClockWrites(pins: Pins, tdi: bool, tms: bool): (ws: seq<Write>)
    ensures |ws| == 4
  {
    [Codr(ClearMask(pins, tdi, tms)), Sodr(SetMask(pins, tdi, tms)), Sodr(Mask(pins.tck)), Codr(Mask(pins.tck))]
  }

  /** The stores of the first `n` clocks of a shift, after the one that parks TCK low. */
  function ShiftWrites(pins: Pins, tdi: seq<bool>, tms: seq<bool>, n: nat): (ws: seq<Write>)
    requires n <= |tdi| && n <= |tms|
    ensures |ws| == 1 + 4 * n
  {
    if n == 0 then [Codr(Mask(pins.tck))]
    else ShiftWrites(pins, tdi, tms, n - 1) + ClockWrites(pins, tdi[n - 1], tms[n - 1])
  }

  /** The stores that precede the sampling of TDO on clock `i`. */
  function WritesToSample(pins: Pins, tdi: seq<bool>, tms: seq<bool>, i: nat): (ws: seq<Write>)
    requires i < |tdi| && i < |tms|
  {
    ShiftWrites(pins, tdi, tms, i) + ClockWrites(pins, tdi[i], tms[i])[..3]
  }

  /** TDO as the board presents it on clock `i`, while TCK is high. */
  function Sample<D>(board: Board<D>, pins: Pins, port: Port<D>, tdi: seq<bool>, tms: seq<bool>, i: nat): bool
    requires i < |tdi| && i < |tms|
  {
    Level(board.pdsr(ApplyAll(board, port, WritesToSample(pins, tdi, tms, i)).dev), pins.tdo)
  }

  function Samples<D>(board: Board<D>, pins: Pins, port: Port<D>, tdi: seq<bool>, tms: seq<bool>): (tdo: seq<bool>)
    requires |tdi| == |tms|
    ensures |tdo| == |tdi|
  {
    seq(|tdi|, i requires 0 <= i < |tdi| => Sample(board, pins, port, tdi, tms, i))
  }

  lemma ApplySnoc<D>(board: Board<D>, port: Port<D>, ws: seq<Write>, w: Write)
    ensures ApplyAll(board, port, ws + [w]) == Apply(board, ApplyAll(board, port, ws), w)
  {
    assert (ws + [w])[..|ws|] == ws;
  }

  /** The TDO bytes once clock `8 * byte_ + bit - 1` is over. */
  function TdoSoFar(out: seq<bool>, byte_: nat, bit: nat): (bytes: seq<bv8>)
    requires bit <= 8
  {
    seq(byte_ + 1, k requires 0 <= k <= byte_ => if k < byte_ then Gather(out, k, 8) else Gather(out, k, bit))
  }

  /** The buffer in mid-shift: TDO replaces TDI up to `byte_`, the rest is as it was. */
  ghost predicate HalfShifted(now: seq<bv8>, was: seq<bv8>, tdi: nat, out: seq<bool>, byte_: nat, bit: nat)
  {
    && |now| == |was| && tdi + byte_ < |was| && bit <= 8
    && now == was[..tdi] + TdoSoFar(out, byte_, bit) + was[tdi + byte_ + 1..]
  }

  lemma HalfShiftedStart(was: seq<bv8>, tdi: nat, out: seq<bool>)
    requires tdi < |was|
    ensures HalfShifted(was[tdi := 0], was, tdi, out, 0, 0)
  {
    assert TdoSoFar(out, 0, 0) == [0];
  }

  lemma HalfShiftedAt(now: seq<bv8>, was: seq<bv8>, tdi: nat, out: seq<bool>, byte_: nat, bit: nat, k: nat)
    requires HalfShifted(now, was, tdi, out, byte_, bit) && k < |was|
    requires !(tdi <= k <= tdi + byte_)
    ensures now[k] == was[k]
  {
  }

  lemma HalfShiftedLast(now: seq<bv8>, was: seq<bv8>, tdi: nat, out: seq<bool>, byte_: nat, bit: nat)
    requires HalfShifted(now, was, tdi, out, byte_, bit)
    ensures now[tdi + byte_] == Gather(out, byte_, bit)
  {
  }

  /** Storing a sampled bit. */
  lemma HalfShiftedBit(now: seq<bv8>, was: seq<bv8>, tdi: nat, out: seq<bool>, byte_: nat, bit: nat, v: bv8)
    requires HalfShifted(now, was, tdi, out, byte_, bit) && bit < 8
    requires v == Gather(out, byte_, bit + 1)
    ensures HalfShifted(now[tdi + byte_ := v], was, tdi, out, byte_, bit + 1)
  {
    assert TdoSoFar(out, byte_, bit + 1) == TdoSoFar(out, byte_, bit)[byte_ := v];
  }

  /** Clearing the next byte once this one is full. */
  lemma HalfShiftedNext(now: seq<bv8>, was: seq<bv8>, tdi: nat, out: seq<bool>, byte_: nat)
    requires HalfShifted(now, was, tdi, out, byte_, 8) && tdi + byte_ + 1 < |was|
    ensures HalfShifted(now[tdi + byte_ + 1 := 0], was, tdi, out, byte_ + 1, 0)
  {
    assert TdoSoFar(out, byte_ + 1, 0) == TdoSoFar(out, byte_, 8) + [0];
  }

  /** The buffer once the byte after `k` has been cleared, if it has. */
  function Cleared(now: seq<bv8>, k: nat, fetched: bool): seq<bv8>
  {
    if fetched && k + 1 < |now| then now[k + 1 := 0] else now
  }

  /** The buffer once `tdo` has been OR-ed into bit `bit` of byte `k`. */
  function TdoStored(now: seq<bv8>, k: nat, bit: nat, tdo: bool): seq<bv8>
  {
    if k < |now| && bit < 8 then now[k := OrAt(now[k], bit, tdo)] else now
  }

  /** One clock's worth of stores to the buffer. */
  lemma HalfShiftedClock(now: seq<bv8>, after: seq<bv8>, was: seq<bv8>, tdi: nat, out: seq<bool>,
                         byte_: nat, bit: nat, nextByte: nat, nextBit: nat)
    requires HalfShifted(now, was, tdi, out, byte_, bit) && bit < 8 && 8 * byte_ + bit < |out|
    requires if nextBit == 0 then bit == 7 && nextByte == byte_ + 1 && tdi + nextByte < |was|
             else nextByte == byte_ && nextBit == bit + 1
    requires after == TdoStored(Cleared(now, tdi + byte_, nextBit == 0), tdi + byte_, bit, out[8 * byte_ + bit])
    ensures HalfShifted(after, was, tdi, out, nextByte, nextBit)
  {
    HalfShiftedLast(now, was, tdi, out, byte_, bit);
    GatherStep(out, byte_, bit);
    var v := Gather(out, byte_, bit + 1);
    HalfShiftedBit(now, was, tdi, out, byte_, bit, v);
    if nextBit == 0 {
      HalfShiftedNext(now[tdi + byte_ := v], was, tdi, out, byte_);
      assert after == now[tdi + byte_ := v][tdi + nextByte := 0];
    }
  }

  /** After the last clock the TDI bytes have become the packed TDO bits. */
  lemma HalfShiftedDone(now: seq<bv8>, was: seq<bv8>, tdi: nat, out: seq<bool>, byte_: nat, bit: nat)
    requires HalfShifted(now, was, tdi, out, byte_, bit)
    requires byte_ + 1 == BytesFor(|out|) && 8 * byte_ + bit == |out|
    ensures now == was[..tdi] + Pack(out) + was[tdi + BytesFor(|out|)..]
  {
    GatherPadding(out, byte_, bit, 8);
    assert TdoSoFar(out, byte_, bit) == Pack(out);
  }

  /** What one shift starts from: the buffer, the two vectors in it, the port and its trace. */
  datatype Job<D> = Job(was: seq<bv8>, tdi: nat, tms: nat, length: nat, before: seq<Write>, from: Port<D>) {
    function Size(): nat { BytesFor(length) }

    /** The vectors lie inside the buffer and do not overlap. */
    predicate Fits() {
      && 0 < length <= MAX_VECTOR_BITS
      && tdi + Size() <= |was| && tms + Size() <= |was|
      && (tms + Size() <= tdi || tdi + Size() <= tms)
    }

    function TdiBits(): (bits: seq<bool>)
      requires Fits()
      ensures |bits| == length
    {
      Unpack(was[tdi..tdi + Size()], length)
    }

    function TmsBits(): (bits: seq<bool>)
      requires Fits()
      ensures |bits| == length
    {
      Unpack(was[tms..tms + Size()], length)
    }

    lemma BitsAt(k: nat, j: nat)
      requires Fits() && k < Size() && j < 8 && 8 * k + j < length
      ensures TdiBits()[8 * k + j] == Bit(was[tdi + k], j)
      ensures TmsBits()[8 * k + j] == Bit(was[tms + k], j)
    {
      UnpackAt(was[tdi..tdi + Size()], length, k, j);
      UnpackAt(was[tms..tms + Size()], length, k, j);
    }
  }

  /** The locals that the loop carries from one clock to the next. */
  datatype Next = Next(byte_: nat, bit: nat, tdiByte: bv8, tmsByte: bv8, tdi: bool, tms: bool)

  /** The carried locals address bit `i` of the original vectors. */
  ghost predicate InStep<D>(job: Job<D>, n: Next, i: nat)
  {
    && job.Fits() && i <= job.length
    && n.byte_ < job.Size() && n.bit <= 8 && 8 * n.byte_ + n.bit == i
    && (n.bit == 8 ==> i == job.length)
    && n.tdiByte == job.was[job.tdi + n.byte_] && n.tmsByte == job.was[job.tms + n.byte_]
    && n.tdi == Bit(n.tdiByte, n.bit) && n.tms == Bit(n.tmsByte, n.bit)
  }

  /** The server's hold on the port. */
  class Jtag<D> {
    const board: Board<D>
    const pins: Pins
    var port: Port<D>
    ghost var trace: seq<Write>

    constructor (board: Board<D>, pins: Pins, port: Port<D>)
      ensures this.board == board && this.pins == pins && this.port == port && trace == []
    {
      this.board := board;
      this.pins := pins;
      this.port := port;
      trace := [];
    }

    /** From `from`, exactly the stores `ws` have been made since the trace was `before`. */
    ghost predicate Wrote(before: seq<Write>, from: Port<D>, ws: seq<Write>)
      reads this
    {
      trace == before + ws && port == ApplyAll(board, from, ws)
    }

    method Store(w: Write, ghost before: seq<Write>, ghost from: Port<D>, ghost ws: seq<Write>)
      requires Wrote(before, from, ws)
      modifies this
      ensures Wrote(before, from, ws + [w])
    {
      port := Apply(board, port, w);
      trace := trace + [w];
      ApplySnoc(board, from, ws, w);
    }

    method SetTckHigh(ghost before: seq<Write>, ghost from: Port<D>, ghost ws: seq<Write>)
      requires Wrote(before, from, ws)
      modifies this
      ensures Wrote(before, from, ws + [Sodr(Mask(pins.tck))])
    {
      Store(Sodr(Mask(pins.tck)), before, from, ws);
    }

    method SetTckLow(ghost before: seq<Write>, ghost from: Port<D>, ghost ws: seq<Write>)
      requires Wrote(before, from, ws)
      modifies this
      ensures Wrote(before, from, ws + [Codr(Mask(pins.tck))])
    {
      Store(Codr(Mask(pins.tck)), before, from, ws);
    }

    method SetTdiTms(tdi: bool, tms: bool, ghost before: seq<Write>, ghost from: Port<D>, ghost ws: seq<Write>)
      requires Wrote(before, from, ws)
      modifies this
      ensures Wrote(before, from, ws + ClockWrites(pins, tdi, tms)[..2])
    {
      var clear, set_ := ClearMask(pins, tdi, tms), SetMask(pins, tdi, tms);
      Store(Codr(clear), before, from, ws);
      Store(Sodr(set_), before, from, ws + [Codr(clear)]);
      assert ws + [Codr(clear)] + [Sodr(set_)] == ws + ClockWrites(pins, tdi, tms)[..2];
    }

    /** First half of clock `i`: the data pins while TCK is low, then the rising edge. */
    method RaiseClock(tdi: bool, tms: bool,
                      ghost before: seq<Write>, ghost from: Port<D>, ghost tdis: seq<bool>, ghost tmss: seq<bool>, ghost i: nat)
      requires i < |tdis| == |tmss| && tdi == tdis[i] && tms == tmss[i]
      requires Wrote(before, from, ShiftWrites(pins, tdis, tmss, i))
      modifies this
      ensures Wrote(before, from, WritesToSample(pins, tdis, tmss, i))
    {
      ghost var done, clock := ShiftWrites(pins, tdis, tmss, i), ClockWrites(pins, tdi, tms);
      SetTdiTms(tdi, tms, before, from, done);
      SetTckHigh(before, from, done + clock[..2]);
      assert done + clock[..2] + [Sodr(Mask(pins.tck))] == done + clock[..3];
    }

    /** Second half of clock `i`: the falling edge. */
    method LowerClock(ghost before: seq<Write>, ghost from: Port<D>, ghost tdis: seq<bool>, ghost tmss: seq<bool>, ghost i: nat)
      requires i < |tdis| == |tmss|
      requires Wrote(before, from, WritesToSample(pins, tdis, tmss, i))
      modifies this
      ensures Wrote(before, from, ShiftWrites(pins, tdis, tmss, i + 1))
    {
      SetTckLow(before, from, WritesToSample(pins, tdis, tmss, i));
      assert WritesToSample(pins, tdis, tmss, i) + [Codr(Mask(pins.tck))] == ShiftWrites(pins, tdis, tmss, i + 1);
    }

    /** The TDO bits that this job yields. */
    ghost function Out(job: Job<D>): (bits: seq<bool>)
      requires job.Fits()
      ensures |bits| == job.length
    {
      Samples(board, pins, job.from, job.TdiBits(), job.TmsBits())
    }

    /** Reads TDO. Between the rising and the falling edge of clock `i` that is bit `i` of the job. */
    method GetTdo(ghost job: Job<D>, ghost i: nat) returns (tdo: bool)
      requires job.Fits() && i < job.length
      requires Wrote(job.before, job.from, WritesToSample(pins, job.TdiBits(), job.TmsBits(), i))
      ensures tdo == Out(job)[i]
    {
      tdo := Level(board.pdsr(port.dev), pins.tdo);
    }

    /** The loop invariant, before clock `i`. */
    ghost predicate Ready(buf: array<bv8>, job: Job<D>, n: Next, i: nat)
      reads this, buf
    {
      && InStep(job, n, i)
      && Wrote(job.before, job.from, ShiftWrites(pins, job.TdiBits(), job.TmsBits(), i))
      && HalfShifted(buf[..], job.was, job.tdi, Out(job), n.byte_, n.bit)
    }

    /** Fetches the bits of the next clock; a new TDI byte is cleared as soon as it is read. */
    method Fetch(buf: array<bv8>, tdi: nat, tms: nat, last: nat, n: Next, ghost job: Job<D>, ghost i: nat)
      returns (next: Next)
      requires InStep(job, n, i) && i < job.length
      requires HalfShifted(buf[..], job.was, job.tdi, Out(job), n.byte_, n.bit)
      requires tdi == job.tdi && tms == job.tms && last == job.Size() - 1
      modifies buf
      ensures InStep(job, next, i + 1)
      ensures if next.bit == 0 then n.bit == 7 && next.byte_ == n.byte_ + 1
              else next.byte_ == n.byte_ && next.bit == n.bit + 1
      ensures buf[..] == Cleared(old(buf[..]), tdi + n.byte_, next.bit == 0)
    {
      BytesForBound(job.length);
      var nextByte, nextBit, tdiByte, tmsByte := n.byte_, n.bit, n.tdiByte, n.tmsByte;
      if n.bit == 7 && n.byte_ != last {
        nextByte := nextByte + 1;
        nextBit := 0;
        HalfShiftedAt(buf[..], job.was, tdi, Out(job), n.byte_, n.bit, tdi + nextByte);
        HalfShiftedAt(buf[..], job.was, tdi, Out(job), n.byte_, n.bit, tms + nextByte);
        tdiByte, tmsByte := buf[tdi + nextByte], buf[tms + nextByte];
        buf[tdi + nextByte] := 0;
      } else {
        nextBit := nextBit + 1;
      }
      next := Next(nextByte, nextBit, tdiByte, tmsByte, Bit(tdiByte, nextBit), Bit(tmsByte, nextBit));
    }

    /** One pass through the loop. The next TDI and TMS bits are fetched before TDO is stored. */
    method ShiftBit(buf: array<bv8>, tdi: nat, tms: nat, last: nat, n: Next, ghost job: Job<D>, ghost i: nat)
      returns (next: Next)
      requires Ready(buf, job, n, i) && i < job.length
      requires tdi == job.tdi && tms == job.tms && last == job.Size() - 1
      modifies this, buf
      ensures Ready(buf, job, next, i + 1)
    {
      hide *;
      UseReady(buf, job, n, i);
      job.BitsAt(n.byte_, n.bit);
      RaiseClock(n.tdi, n.tms, job.before, job.from, job.TdiBits(), job.TmsBits(), i);
      ghost var now := buf[..];
      next := Fetch(buf, tdi, tms, last, n, job, i);
      var tdo := GetTdo(job, i);
      StoreTdo(buf, tdi + n.byte_, n.bit, tdo);
      HalfShiftedClock(now, buf[..], job.was, tdi, Out(job), n.byte_, n.bit, next.byte_, next.bit);
      LowerClock(job.before, job.from, job.TdiBits(), job.TmsBits(), i);
      MakeReady(buf, job, next, i + 1);
    }

    method StoreTdo(buf: array<bv8>, k: nat, bit: nat, tdo: bool)
      requires k < buf.Length && bit < 8
      modifies buf
      ensures buf[..] == TdoStored(old(buf[..]), k, bit, tdo)
    {
      buf[k] := OrAt(buf[k], bit, tdo);
    }

    lemma UseReady(buf: array<bv8>, job: Job<D>, n: Next, i: nat)
      requires Ready(buf, job, n, i) && i < job.length
      ensures InStep(job, n, i) && job.Fits() && |job.was| == buf.Length
      ensures n.bit < 8 && 8 * n.byte_ + n.bit == i && n.byte_ < job.Size()
      ensures job.tdi + job.Size() <= buf.Length && job.tms + job.Size() <= buf.Length
      ensures n.tdi == Bit(job.was[job.tdi + n.byte_], n.bit) && n.tms == Bit(job.was[job.tms + n.byte_], n.bit)
      ensures Wrote(job.before, job.from, ShiftWrites(pins, job.TdiBits(), job.TmsBits(), i))
      ensures HalfShifted(buf[..], job.was, job.tdi, Out(job), n.byte_, n.bit)
    {
    }

    lemma MakeReady(buf: array<bv8>, job: Job<D>, n: Next, i: nat)
      requires InStep(job, n, i) && job.Fits() && i <= job.length
      requires Wrote(job.before, job.from, ShiftWrites(pins, job.TdiBits(), job.TmsBits(), i))
      requires HalfShifted(buf[..], job.was, job.tdi, Out(job), n.byte_, n.bit)
      ensures Ready(buf, job, n, i)
    {
    }

    /** Shifts `length` bits out of `buf[tdi..]` and `buf[tms..]` and leaves the TDO bits in
        `buf[tdi..]`. `enabled` is what the first critical section finds, `disableAsked` whether
        the second one finds a recorded request to disable the server. */
    method DoShift(buf: array<bv8>, tdi: nat, tms: nat, length: nat, enabled: bool, disableAsked: bool)
      returns (ok: bool)
      requires length > 0 ==> Job(buf[..], tdi, tms, length, trace, port).Fits()
      modifies this, buf
      ensures length == 0 || !enabled ==>
        ok == (length == 0) && buf[..] == old(buf[..]) && trace == old(trace) && port == old(port)
      ensures length > 0 && enabled ==>
        var job := Job(old(buf[..]), tdi, tms, length, old(trace), old(port));
        && ok == !disableAsked
        && Wrote(old(trace), old(port), ShiftWrites(pins, job.TdiBits(), job.TmsBits(), length))
        && buf[..] == job.was[..tdi] + Pack(Out(job)) + job.was[tdi + job.Size()..]
    {
      if length == 0 {
        return true;
      }
      if !enabled {
        return false;
      }
      ShiftLoop(buf, tdi, tms, length, Job(buf[..], tdi, tms, length, trace, port));
      return !disableAsked;
    }

    /** Every clock has been driven, and the TDI bytes have become the packed TDO bits. */
    ghost predicate Finished(buf: array<bv8>, job: Job<D>)
      reads this, buf
    {
      && job.Fits()
      && Wrote(job.before, job.from, ShiftWrites(pins, job.TdiBits(), job.TmsBits(), job.length))
      && buf[..] == job.was[..job.tdi] + Pack(Out(job)) + job.was[job.tdi + job.Size()..]
    }

    /** Parks TCK low and fetches the bits of the first clock. */
    method Start(buf: array<bv8>, tdi: nat, tms: nat, ghost job: Job<D>) returns (n: Next)
      requires job.was == buf[..] && job.before == trace && job.from == port && job.Fits()
      requires tdi == job.tdi && tms == job.tms
      modifies this, buf
      ensures Ready(buf, job, n, 0)
    {
      BytesForBound(job.length);
      SetTckLow(job.before, job.from, []);
      n := Next(0, 0, buf[tdi], buf[tms], Bit(buf[tdi], 0), Bit(buf[tms], 0));
      buf[tdi] := 0;
      hide Bit, Levels, Apply, Unpack, Samples;
      HalfShiftedStart(job.was, tdi, Out(job));
      assert buf[..] == job.was[tdi := 0];
      MakeReady(buf, job, n, 0);
    }

    method ShiftLoop(buf: array<bv8>, tdi: nat, tms: nat, length: nat, ghost job: Job<D>)
      requires job.was == buf[..] && job.before == trace && job.from == port && job.Fits()
      requires tdi == job.tdi && tms == job.tms && length == job.length
      modifies this, buf
      ensures Finished(buf, job)
    {
      var last := BytesFor(length) - 1;
      var n := Start(buf, tdi, tms, job);
      for i := 0 to length
        invariant Ready(buf, job, n, i)
      {
        n := ShiftBit(buf, tdi, tms, last, n, job, i);
      }
      DoneReady(buf, job, n);
    }

    lemma DoneReady(buf: array<bv8>, job: Job<D>, n: Next)
      requires Ready(buf, job, n, job.length)
      ensures Finished(buf, job)
    {
      BytesForBound(job.length);
      HalfShiftedDone(buf[..], job.was, job.tdi, Out(job), n.byte_, n.bit);
    }
  }
}
