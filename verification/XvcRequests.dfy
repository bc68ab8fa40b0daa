/** What a client sends, and that the receiver carries out exactly that. */
module XvcRequests {
  import opened Bits
  import opened JtagPort
  import opened JtagWaveform
  import opened Numbers
  import opened XvcProtocol

  datatype Request =
    | AskInfo
    | SetPeriod(period: nat)
    | ShiftVectors(length: nat, tms: seq<bv8>, tdi: seq<bv8>)
  {
    predicate WellFormed() {
      match this
      case AskInfo => true
      case SetPeriod(p) => p < WORD
      case ShiftVectors(n, tms, tdi) => n <= MAX_VECTOR_BITS && |tms| == |tdi| == BytesFor(n)
    }

    function Encode(): seq<bv8>
      requires WellFormed()
    {
      match this
      case AskInfo => GETINFO
      case SetPeriod(p) => SETTCK + LeBytes(p)
      case ShiftVectors(n, tms, tdi) => SHIFT + (LeBytes(n) + (tms + tdi))
    }

    /** Carrying the request out: the reply to a period is always the fixed one. */
    function Perform<D>(env: Env<D>, w: World<D>): Outcome<D>
      requires WellFormed()
    {
      match this
      case AskInfo => Send(env, w, INFO)
      case SetPeriod(_) => Send(env, w, LeBytes(CLOCK_PERIOD))
      case ShiftVectors(n, tms, tdi) => PerformShift(env, w, n, tms, tdi)
    }

    /** The reply when nothing goes wrong. */
    function Reply<D>(env: Env<D>, w: World<D>): seq<bv8>
      requires WellFormed()
    {
      match this
      case AskInfo => INFO
      case SetPeriod(_) => LeBytes(CLOCK_PERIOD)
      case ShiftVectors(n, tms, tdi) => if n == 0 then [] else Tdo(env, w.port, n, tms, tdi)
    }
  }

  function EncodeAll(rs: seq<Request>): seq<bv8>
    requires forall r | r in rs :: r.WellFormed()
  {
    if rs == [] then [] else rs[0].Encode() + EncodeAll(rs[1..])
  }

  /** Carries requests out in order until one fails. */
  function PerformAll<D>(env: Env<D>, w: World<D>, rs: seq<Request>): Outcome<D>
    requires forall r | r in rs :: r.WellFormed()
    decreases |rs|
  {
    if rs == [] then Outcome(w, true)
    else
      var o := rs[0].Perform(env, w);
      if o.ok then PerformAll(env, o.world, rs[1..]) else o
  }

  function RepliesTo<D>(env: Env<D>, w: World<D>, rs: seq<Request>): seq<bv8>
    requires forall r | r in rs :: r.WellFormed()
    decreases |rs|
  {
    if rs == [] then []
    else rs[0].Reply(env, w) + RepliesTo(env, rs[0].Perform(env, w).world, rs[1..])
  }

  lemma RunOneName<D>(env: Env<D>, w: World<D>, c: Command, s: seq<bv8>)
    requires c != NotSet
    ensures Run(env, Ref(START, w), Name(c) + s) == Run(env, Enter(env, c, w), s)
  {
    var t := Name(c) + s;
    assert [] + t[..|Name(c)|] == Name(c) && t[|Name(c)|..] == s;
    ScanGot([], t, |Name(c)|, c);
    RunName(env, w, [], t);
  }

  lemma RunOneShift<D>(env: Env<D>, w: World<D>, n: nat, tms: seq<bv8>, tdi: seq<bv8>, s: seq<bv8>)
    requires n <= MAX_VECTOR_BITS && |tms| == |tdi| == BytesFor(n)
    ensures Run(env, Ref(Length([]), w), LeBytes(n) + (tms + tdi) + s)
         == Run(env, Finish(PerformShift(env, w, n, tms, tdi)), s)
  {
    hide Run, PerformShift, LeBytes, LittleEndian;
    var b, v := LeBytes(n), tms + tdi;
    var t := b + v + s;
    RunLength(env, w, [], t);
    assert [] + t[..4] == b && t[4..] == v + s;
    LeRoundTrip(n);
    if n == 0 {
      assert tms == [] && tdi == [] && v + s == s;
    } else {
      var k := 2 * BytesFor(n);
      RunVectors(env, w, n, [], v + s);
      assert [] + (v + s)[..k] == v && (v + s)[k..] == s;
      assert v[..BytesFor(n)] == tms && v[BytesFor(n)..] == tdi;
    }
  }

  lemma RunOneRequest<D>(env: Env<D>, w: World<D>, r: Request, s: seq<bv8>)
    requires r.WellFormed()
    ensures Run(env, Ref(START, w), r.Encode() + s) == Run(env, Finish(r.Perform(env, w)), s)
  {
    hide Run, PerformShift, LeBytes;
    match r
    case AskInfo => RunOneName(env, w, GetInfo, s);
    case SetPeriod(p) =>
      var b := LeBytes(p);
      assert r.Encode() + s == SETTCK + (b + s);
      RunOneName(env, w, SetTck, b + s);
      RunPeriod(env, w, [], b + s);
      assert (b + s)[4..] == s;
    case ShiftVectors(n, tms, tdi) =>
      var b := LeBytes(n) + (tms + tdi);
      assert r.Encode() + s == SHIFT + (b + s);
      RunOneName(env, w, Shift, b + s);
      RunOneShift(env, w, n, tms, tdi, s);
  }

  /** Round trip: receiving the encoding of a list of requests is performing the list, up to
      the first failure; without one the receiver is back at its start. */
  lemma {:induction false} RoundTrip<D>(env: Env<D>, w: World<D>, rs: seq<Request>)
    requires forall r | r in rs :: r.WellFormed()
    ensures Run(env, Ref(START, w), EncodeAll(rs)) == Finish(PerformAll(env, w, rs))
    decreases |rs|
  {
    if rs != [] {
      hide Run, Request.Perform, Request.Encode;
      RunOneRequest(env, w, rs[0], EncodeAll(rs[1..]));
      var o := rs[0].Perform(env, w);
      if o.ok {
        RoundTrip(env, o.world, rs[1..]);
      } else {
        RunRejected(env, o.world, EncodeAll(rs[1..]));
      }
    }
  }

  /** A shift that finds the server disabled, or is asked to make way, or whose reply does not go out:
      the connection is given up, nothing is sent, and nothing that follows has any effect. A shift
      that finds the server disabled does not touch the port; any other one is driven to its end. */
  lemma FailedShift<D>(env: Env<D>, w: World<D>, n: nat, tms: seq<bv8>, tdi: seq<bv8>, s: seq<bv8>)
    requires 0 < n <= MAX_VECTOR_BITS && |tms| == |tdi| == BytesFor(n)
    requires !env.enabled(w.shifts) || env.disableAsked(w.shifts) || !env.sendOk(w.sends)
    ensures var r := Run(env, Ref(START, w), ShiftVectors(n, tms, tdi).Encode() + s);
      && r.parse == Rejected && r.world.sent == w.sent && r.world.shifts == w.shifts + 1
      && (if !env.enabled(w.shifts) then r.world.port == w.port && r.world.trace == w.trace
          else
            var stores := ShiftWrites(env.pins, Unpack(tdi, n), Unpack(tms, n), n);
            r.world.port == ApplyAll(env.board, w.port, stores) && r.world.trace == w.trace + stores)
      && r.world.sends == w.sends + if env.enabled(w.shifts) && !env.disableAsked(w.shifts) then 1 else 0
  {
    var q := ShiftVectors(n, tms, tdi);
    hide Run, Tdo, ShiftWrites, ApplyAll, Unpack;
    RunOneRequest(env, w, q, s);
    RunRejected(env, q.Perform(env, w).world, s);
  }

  /** A shift that is announced as too long is refused before its vectors. */
  lemma LongShift<D>(env: Env<D>, w: World<D>, n: nat, s: seq<bv8>)
    requires MAX_VECTOR_BITS < n < WORD
    ensures Run(env, Ref(START, w), SHIFT + LeBytes(n) + s) == Ref(Rejected, w)
  {
    hide Run, LeBytes, LittleEndian;
    var b := LeBytes(n) + s;
    assert SHIFT + LeBytes(n) + s == SHIFT + b;
    RunOneName(env, w, Shift, b);
    RunLength(env, w, [], b);
    assert [] + b[..4] == LeBytes(n) && b[4..] == s;
    LeRoundTrip(n);
    RunRejected(env, w, s);
  }

  /** A reply that does not go out ends the connection, whatever was asked for. */
  lemma FailedSend<D>(env: Env<D>, w: World<D>, r: Request, s: seq<bv8>)
    requires r.WellFormed() && !env.sendOk(w.sends)
    ensures var e := Run(env, Ref(START, w), r.Encode() + s); e.parse == Rejected && e.world.sent == w.sent
  {
    hide Run, Tdo, ShiftWrites, ApplyAll, Request.Encode, LeBytes;
    RunOneRequest(env, w, r, s);
    RunRejected(env, r.Perform(env, w).world, s);
  }

  /** Bytes that cannot begin a command are refused without any effect. */
  lemma StrayRefused<D>(env: Env<D>, w: World<D>, s: seq<bv8>, n: nat)
    requires n <= |s| && Stray(s[..n])
    ensures Run(env, Ref(START, w), s) == Ref(Rejected, w)
  {
    assert [] + s[..n] == s[..n];
    ScanBad([], s, n);
    RunName(env, w, [], s);
  }

  /** Only a shift of at least one bit needs the server enabled. */
  predicate Shifts(r: Request) { r.ShiftVectors? && r.length > 0 }

  lemma Answered<D>(env: Env<D>, w: World<D>, r: Request)
    requires r.WellFormed() && env.sendOk(w.sends)
    requires Shifts(r) ==> env.enabled(w.shifts) && !env.disableAsked(w.shifts)
    ensures var o := r.Perform(env, w);
      o.ok && o.world.sent == w.sent + r.Reply(env, w) && o.world.sends == w.sends + 1
  {
    hide Tdo, ShiftWrites, LeBytes;
  }

  /** A request that does not shift is answered whatever the state of the server, and touches neither the
      port nor the count of shifts. */
  lemma PlainAnswer<D>(env: Env<D>, w: World<D>, r: Request, s: seq<bv8>)
    requires r.WellFormed() && !Shifts(r)
    ensures Run(env, Ref(START, w), r.Encode() + s) ==
      if !env.sendOk(w.sends) then Ref(Rejected, w.(sends := w.sends + 1))
      else
        var reply := if r.AskInfo? then INFO else if r.SetPeriod? then LeBytes(CLOCK_PERIOD) else [];
        Run(env, Ref(START, w.(sent := w.sent + reply, sends := w.sends + 1)), s)
  {
    hide Run, Request.Encode, LeBytes;
    RunOneRequest(env, w, r, s);
    RunRejected(env, r.Perform(env, w).world, s);
  }

  /** What becomes of one shift request, whatever its length and the conditions. */
  lemma ShiftAnswer<D>(env: Env<D>, w: World<D>, n: nat, tms: seq<bv8>, tdi: seq<bv8>, s: seq<bv8>)
    requires n < WORD && (n <= MAX_VECTOR_BITS ==> |tms| == |tdi| == BytesFor(n))
    ensures var r := Run(env, Ref(START, w), SHIFT + (LeBytes(n) + (tms + tdi)) + s);
      if n > MAX_VECTOR_BITS || (n > 0 && (!env.enabled(w.shifts) || env.disableAsked(w.shifts))) || !env.sendOk(w.sends) then
        && r.parse == Rejected && r.world.sent == w.sent
        && (n > MAX_VECTOR_BITS || n == 0 || !env.enabled(w.shifts) ==> r.world.port == w.port && r.world.trace == w.trace)
      else
        r == Run(env, Ref(START, AfterShift(env, w, n, tms, tdi)), s)
  {
    hide Run, Tdo, ShiftWrites, ApplyAll, Unpack, LeBytes;
    var all, q := SHIFT + (LeBytes(n) + (tms + tdi)) + s, ShiftVectors(n, tms, tdi);
    if n > MAX_VECTOR_BITS {
      assert all == SHIFT + LeBytes(n) + (tms + tdi + s);
      LongShift(env, w, n, tms + tdi + s);
    } else if n == 0 {
      PlainAnswer(env, w, q, s);
      assert w.sent + [] == w.sent;
    } else if !env.enabled(w.shifts) || env.disableAsked(w.shifts) || !env.sendOk(w.sends) {
      FailedShift(env, w, n, tms, tdi, s);
    } else {
      RunOneRequest(env, w, q, s);
    }
  }

  /** The world after a shift that has been answered: a shift of no bits sends nothing. */
  function AfterShift<D>(env: Env<D>, w: World<D>, n: nat, tms: seq<bv8>, tdi: seq<bv8>): World<D>
    requires |tms| == |tdi| == BytesFor(n)
  {
    if n == 0 then w.(sends := w.sends + 1)
    else
      var stores := ShiftWrites(env.pins, Unpack(tdi, n), Unpack(tms, n), n);
      World(ApplyAll(env.board, w.port, stores), w.trace + stores, w.sent + Tdo(env, w.port, n, tms, tdi),
            w.shifts + 1, w.sends + 1)
  }

  /** With a working connection, and an enabled server if there is anything to shift, every request is
      answered, in order. */
  lemma {:induction false} AllAnswered<D>(env: Env<D>, w: World<D>, rs: seq<Request>)
    requires forall r | r in rs :: r.WellFormed()
    requires forall k: nat :: env.sendOk(k)
    requires (forall r | r in rs :: !Shifts(r)) || forall k: nat :: env.enabled(k) && !env.disableAsked(k)
    ensures var o := PerformAll(env, w, rs); o.ok && o.world.sent == w.sent + RepliesTo(env, w, rs)
    decreases |rs|
  {
    if rs != [] {
      hide Request.Perform, Request.Reply;
      var o := rs[0].Perform(env, w);
      Answered(env, w, rs[0]);
      AllAnswered(env, o.world, rs[1..]);
      Assoc(w.sent, rs[0].Reply(env, w), RepliesTo(env, o.world, rs[1..]));
    }
  }

  lemma Assoc(a: seq<bv8>, b: seq<bv8>, c: seq<bv8>)
    ensures (a + b) + c == a + (b + c)
  {
  }

  /** A shift is answered by as many bytes as hold its bits, one bit of TDO per clock. */
  lemma ReplyToShift<D>(env: Env<D>, w: World<D>, n: nat, tms: seq<bv8>, tdi: seq<bv8>, i: nat)
    requires 0 < n && |tms| == |tdi| == BytesFor(n) && i < 8 * BytesFor(n)
    ensures var reply := Tdo(env, w.port, n, tms, tdi);
      && |reply| == BytesFor(n)
      && Bit(reply[i / 8], i % 8) == (i < n && Sample(env.board, env.pins, w.port, Unpack(tdi, n), Unpack(tms, n), i))
  {
    var out := Samples(env.board, env.pins, w.port, Unpack(tdi, n), Unpack(tms, n));
    PackBit(out, i / 8, i % 8);
    assert |Pack(out)| == BytesFor(n) && 8 * (i / 8) + i % 8 == i;
    hide Bit, Pack, Unpack, Sample;
  }

  /** End to end: for every JTAG device on the board, what a client unpacks from the reply to a shift
      is the device's TDO after each rising edge of as many one-bit clocks. */
  lemma ReplyIsClockedTdo<S>(env: Env<S>, tap: Tap<S>, port: Port<S>, n: nat, tms: seq<bv8>, tdi: seq<bv8>)
    requires env.board == AsBoard(tap, env.pins) && env.pins.Distinct()
    requires |tms| == |tdi| == BytesFor(n)
    ensures |Tdo(env, port, n, tms, tdi)| == BytesFor(n)
    ensures var s, i, m := Parked(tap, env.pins, port), Unpack(tdi, n), Unpack(tms, n);
      Unpack(Tdo(env, port, n, tms, tdi), n) == seq(n, k requires 0 <= k < n => ClockedTdo(tap, s, i, m, k))
  {
    hide Bit, Gather, Unpack, ClockedTdo;
    var i, m := Unpack(tdi, n), Unpack(tms, n);
    var out := Samples(env.board, env.pins, port, i, m);
    UnpackPack(out);
    SamplesAreClockedTdo(tap, env.pins, port, i, m);
  }
}
