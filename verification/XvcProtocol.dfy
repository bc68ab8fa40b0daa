/** The XVC 1.0 protocol as a machine that takes one byte at a time. */
module XvcProtocol {
  import opened Bits
  import opened JtagPort
  import opened Numbers

  /** "getinfo:", "settck:" and "shift:" */
  const GETINFO: seq<bv8> := [103, 101, 116, 105, 110, 102, 111, 58]
  const SETTCK: seq<bv8> := [115, 101, 116, 116, 99, 107, 58]
  const SHIFT: seq<bv8> := [115, 104, 105, 102, 116, 58]

  /** "xvcServer_v1.0:1024\n" */
  const INFO: seq<bv8> :=
    [120, 118, 99, 83, 101, 114, 118, 101, 114, 95, 118, 49, 46, 48, 58, 49, 48, 50, 52, 10]

  const CLOCK_PERIOD: nat := 690

  datatype Command = GetInfo | NotSet | SetTck | Shift

  function Name(c: Command): (name: seq<bv8>)
    requires c != NotSet
  {
    match c
    case GetInfo => GETINFO
    case SetTck => SETTCK
    case Shift => SHIFT
  }

  /** A beginning of some command name, but not all of it. */
  predicate Unfinished(p: seq<bv8>)
  {
    p < GETINFO || p < SETTCK || p < SHIFT
  }

  function Value(b: bv8): (n: nat)
    ensures n < 0x100
  {
    b as nat
  }

  /** The byte whose value is `n`. */
  function Byte(n: nat): (b: bv8)
    requires n < 0x100
    ensures Value(b) == n
  {
    if n == 0 then 0 else Byte(n - 1) + 1
  }

  function LittleEndian(b: seq<bv8>): (n: nat)
    requires |b| == 4
    ensures n < WORD
  {
    Value(b[0]) + 0x100 * Value(b[1]) + 0x1_0000 * Value(b[2]) + 0x100_0000 * Value(b[3])
  }

  function LeBytes(n: nat): (b: seq<bv8>)
    requires n < WORD
    ensures |b| == 4
  {
    [Byte(n % 0x100), Byte(n / 0x100 % 0x100), Byte(n / 0x1_0000 % 0x100), Byte(n / 0x100_0000)]
  }

  /** The little-endian coding of a uint32 is undone by the decoding. */
  lemma LeRoundTrip(n: nat)
    requires n < WORD
    ensures LittleEndian(LeBytes(n)) == n
  {
    hide Value, Byte;
    var b := LeBytes(n);
    assert Value(b[0]) == n % 0x100 && Value(b[1]) == n / 0x100 % 0x100;
    assert Value(b[2]) == n / 0x1_0000 % 0x100 && Value(b[3]) == n / 0x100_0000;
    DigitsSum(n);
  }

  /** The bytes of a uint32, the least significant first, as numbers. */
  lemma LeBytesSum(n: nat)
    requires n < WORD
    ensures var b := LeBytes(n);
      b[0] as nat + 0x100 * b[1] as nat + 0x1_0000 * b[2] as nat + 0x100_0000 * b[3] as nat == n
  {
    LeRoundTrip(n);
    hide LeBytes, Byte;
  }

  lemma DigitsSum(n: nat)
    ensures n % 0x100 + 0x100 * (n / 0x100 % 0x100) + 0x1_0000 * (n / 0x1_0000 % 0x100)
            + 0x100_0000 * (n / 0x100_0000) == n
  {
    assert n / 0x1_0000 == n / 0x100 / 0x100 && n / 0x100_0000 == n / 0x1_0000 / 0x100;
  }

  /** What the program cannot control: the board, whether the k-th shift finds the server
      enabled, whether a request to disable it arrives meanwhile, and which sends succeed. */
  datatype Env<!D> = Env(board: Board<D>, pins: Pins,
                         enabled: nat -> bool, disableAsked: nat -> bool, sendOk: nat -> bool)

  /** What the program affects: the port, the stores made to it and the bytes sent. */
  datatype World<D> = World(port: Port<D>, trace: seq<Write>, sent: seq<bv8>, shifts: nat, sends: nat)

  datatype Outcome<D> = Outcome(world: World<D>, ok: bool)

  function Send<D>(env: Env<D>, w: World<D>, data: seq<bv8>): Outcome<D>
  {
    var ok := env.sendOk(w.sends);
    Outcome(w.(sends := w.sends + 1, sent := if ok then w.sent + data else w.sent), ok)
  }

  /** The TDO bytes of a shift of `n` bits. */
  function Tdo<D>(env: Env<D>, port: Port<D>, n: nat, tms: seq<bv8>, tdi: seq<bv8>): seq<bv8>
    requires |tms| == |tdi| == BytesFor(n)
  {
    Pack(Samples(env.board, env.pins, port, Unpack(tdi, n), Unpack(tms, n)))
  }

  /** Drives the bits of a shift and sends the TDO bytes. A shift of no bits needs no port. */
  function PerformShift<D>(env: Env<D>, w: World<D>, n: nat, tms: seq<bv8>, tdi: seq<bv8>): Outcome<D>
    requires |tms| == |tdi| == BytesFor(n)
  {
    if n == 0 then Send(env, w, [])
    else
      var v := w.(shifts := w.shifts + 1);
      if !env.enabled(w.shifts) then Outcome(v, false)
      else
        var ws := ShiftWrites(env.pins, Unpack(tdi, n), Unpack(tms, n), n);
        var u := v.(port := ApplyAll(env.board, w.port, ws), trace := w.trace + ws);
        if env.disableAsked(w.shifts) then Outcome(u, false)
        else Send(env, u, Tdo(env, w.port, n, tms, tdi))
  }

  /** Where the receiver is within the byte stream. */
  datatype Parse =
    | Name_(prefix: seq<bv8>)
    | Period(bytes: seq<bv8>)
    | Length(bytes: seq<bv8>)
    | Vectors(length: nat, bytes: seq<bv8>)
    | Rejected
  {
    predicate Ok() {
      match this
      case Name_(p) => Unfinished(p)
      case Period(b) => |b| < 4
      case Length(b) => |b| < 4
      case Vectors(n, b) => 0 < n <= MAX_VECTOR_BITS && |b| < 2 * BytesFor(n)
      case Rejected => true
    }
  }

  const START: Parse := Name_([])

  datatype Ref<D> = Ref(parse: Parse, world: World<D>)

  /** A command has been carried out: expect the next one, or give up. */
  function Finish<D>(o: Outcome<D>): (r: Ref<D>)
    ensures r.parse.Ok()
  {
    Ref(if o.ok then START else Rejected, o.world)
  }

  /** A command name is complete. */
  function Enter<D>(env: Env<D>, c: Command, w: World<D>): (r: Ref<D>)
    requires c != NotSet
    ensures r.parse.Ok()
  {
    match c
    case GetInfo => Finish(Send(env, w, INFO))
    case SetTck => Ref(Period([]), w)
    case Shift => Ref(Length([]), w)
  }

  /** The length of a shift is complete. */
  function EnterVectors<D>(env: Env<D>, w: World<D>, b: seq<bv8>): (r: Ref<D>)
    requires |b| == 4
    ensures r.parse.Ok()
  {
    var n := LittleEndian(b);
    if n > MAX_VECTOR_BITS then Ref(Rejected, w)
    else if n == 0 then Finish(PerformShift(env, w, 0, [], []))
    else Ref(Vectors(n, []), w)
  }

  /** The reference receiver: one byte. */
  function Feed<D>(env: Env<D>, r: Ref<D>, b: bv8): (r': Ref<D>)
    requires r.parse.Ok()
    ensures r'.parse.Ok()
  {
    match r.parse
    case Name_(q) =>
      var p := q + [b];
      if p == GETINFO then Enter(env, GetInfo, r.world)
      else if p == SETTCK then Enter(env, SetTck, r.world)
      else if p == SHIFT then Enter(env, Shift, r.world)
      else if Unfinished(p) then Ref(Name_(p), r.world)
      else Ref(Rejected, r.world)
    case Period(q) =>
      if |q| < 3 then Ref(Period(q + [b]), r.world) else Finish(Send(env, r.world, LeBytes(CLOCK_PERIOD)))
    case Length(q) =>
      if |q| < 3 then Ref(Length(q + [b]), r.world) else EnterVectors(env, r.world, q + [b])
    case Vectors(n, q) =>
      var p, k := q + [b], BytesFor(n);
      if |p| < 2 * k then Ref(Vectors(n, p), r.world)
      else Finish(PerformShift(env, r.world, n, p[..k], p[k..]))
    case Rejected => r
  }

  /** The reference receiver: a stream of bytes. */
  function Run<D>(env: Env<D>, r: Ref<D>, s: seq<bv8>): (r': Ref<D>)
    requires r.parse.Ok()
    ensures r'.parse.Ok()
    decreases |s|
  {
    if s == [] then r else Run(env, Feed(env, r, s[0]), s[1..])
  }

  lemma RunNothing<D>(env: Env<D>, r: Ref<D>)
    requires r.parse.Ok()
    ensures Run(env, r, []) == r
  {
  }

  lemma {:induction false} RunConcat<D>(env: Env<D>, r: Ref<D>, a: seq<bv8>, b: seq<bv8>)
    requires r.parse.Ok()
    ensures Run(env, r, a + b) == Run(env, Run(env, r, a), b)
    decreases |a|
  {
    hide Feed;
    if a == [] {
      assert a + b == b;
    } else {
      assert (a + b)[0] == a[0] && (a + b)[1..] == a[1..] + b;
      RunConcat(env, Feed(env, r, a[0]), a[1..], b);
    }
  }

  lemma {:induction false} RunRejected<D>(env: Env<D>, w: World<D>, s: seq<bv8>)
    ensures Run(env, Ref(Rejected, w), s) == Ref(Rejected, w)
    decreases |s|
  {
    if s != [] {
      RunRejected(env, w, s[1..]);
    }
  }

  /** What the bytes `s` do to an unfinished command name `q`. */
  datatype Scan = More(prefix: seq<bv8>) | Got(command: Command, rest: seq<bv8>) | Bad

  function ScanName(q: seq<bv8>, s: seq<bv8>): (r: Scan)
    requires Unfinished(q)
    ensures r.More? ==> Unfinished(r.prefix)
    ensures r.Got? ==> r.command != NotSet
    decreases |s|
  {
    if s == [] then More(q)
    else
      var p := q + [s[0]];
      if p == GETINFO then Got(GetInfo, s[1..])
      else if p == SETTCK then Got(SetTck, s[1..])
      else if p == SHIFT then Got(Shift, s[1..])
      else if Unfinished(p) then ScanName(p, s[1..])
      else Bad
  }

  lemma {:induction false} RunName<D>(env: Env<D>, w: World<D>, q: seq<bv8>, s: seq<bv8>)
    requires Unfinished(q)
    ensures Run(env, Ref(Name_(q), w), s) ==
      match ScanName(q, s)
      case More(p) => Ref(Name_(p), w)
      case Got(c, rest) => Run(env, Enter(env, c, w), rest)
      case Bad => Ref(Rejected, w)
    decreases |s|
  {
    if s != [] {
      var p := q + [s[0]];
      if p == GETINFO || p == SETTCK || p == SHIFT {
      } else if Unfinished(p) {
        RunName(env, w, p, s[1..]);
      } else {
        RunRejected(env, w, s[1..]);
      }
    }
  }

  lemma UnfinishedIsNoName(p: seq<bv8>)
    requires Unfinished(p)
    ensures p != GETINFO && p != SETTCK && p != SHIFT
  {
    assert GETINFO[0] == 103 && SETTCK[0] == SHIFT[0] == 115 && SETTCK[1] == 101 && SHIFT[1] == 104;
    if |p| >= 2 {
      assert p[0] == GETINFO[0] || p[1] == SETTCK[1] || p[1] == SHIFT[1];
    }
  }

  lemma BeginningIsUnfinished(p: seq<bv8>, s: seq<bv8>)
    requires Unfinished(p + s)
    ensures Unfinished(p)
  {
    assert p <= p + s;
  }

  /** Bytes that keep a name unfinished are all taken. */
  lemma {:induction false} ScanMore(q: seq<bv8>, s: seq<bv8>)
    requires Unfinished(q) && Unfinished(q + s)
    ensures ScanName(q, s) == More(q + s)
    decreases |s|
  {
    if s == [] {
      assert q + s == q;
    } else {
      var p := q + [s[0]];
      assert q + s == p + s[1..];
      BeginningIsUnfinished(p, s[1..]);
      UnfinishedIsNoName(p);
      ScanMore(p, s[1..]);
    }
  }

  /** A name is recognised as soon as its last byte is there. */
  lemma {:induction false} ScanGot(q: seq<bv8>, s: seq<bv8>, n: nat, c: Command)
    requires Unfinished(q) && n <= |s| && c != NotSet && q + s[..n] == Name(c)
    ensures ScanName(q, s) == Got(c, s[n..])
    decreases n
  {
    assert n > 0 by {
      assert q + s[..0] == q;
      UnfinishedIsNoName(q);
    }
    var p := q + [s[0]];
    assert q + s[..n] == p + s[1..][..n - 1];
    if n > 1 {
      assert p <= Name(c);
      UnfinishedIsNoName(p);
      ScanGot(p, s[1..], n - 1, c);
    } else {
      assert p == Name(c);
    }
  }

  /** Not a beginning of any name, and no name is a proper beginning of it. */
  predicate Stray(w: seq<bv8>)
  {
    && !(w <= GETINFO) && !(w <= SETTCK) && !(w <= SHIFT)
    && !(GETINFO < w) && !(SETTCK < w) && !(SHIFT < w)
  }

  lemma {:induction false} ScanBad(q: seq<bv8>, s: seq<bv8>, n: nat)
    requires Unfinished(q) && n <= |s| && Stray(q + s[..n])
    ensures ScanName(q, s) == Bad
    decreases n
  {
    assert n > 0 by {
      assert q + s[..0] == q;
    }
    var p := q + [s[0]];
    assert q + s[..n] == p + s[1..][..n - 1];
    if Unfinished(p) {
      ScanBad(p, s[1..], n - 1);
    }
  }

  /** Moving the first of the bytes `s` to the end of `b`. */
  lemma Regroup(b: seq<bv8>, s: seq<bv8>, k: nat)
    requires s != [] && k > 0
    ensures b + [s[0]] + s[1..] == b + s
    ensures k <= |s| ==> b + [s[0]] + s[1..][..k - 1] == b + s[..k] && s[1..][k - 1..] == s[k..]
  {
  }

  /** The bytes of a uint32 argument. */
  lemma {:induction false} RunPeriod<D>(env: Env<D>, w: World<D>, b: seq<bv8>, s: seq<bv8>)
    requires |b| < 4
    ensures Run(env, Ref(Period(b), w), s) ==
      var k := 4 - |b|;
      if |s| < k then Ref(Period(b + s), w)
      else Run(env, Finish(Send(env, w, LeBytes(CLOCK_PERIOD))), s[k..])
    decreases |s|
  {
    hide Finish, Send, LeBytes;
    var k := 4 - |b|;
    if s == [] {
      assert b + s == b;
    } else {
      assert Feed(env, Ref(Period(b), w), s[0]) ==
        if k > 1 then Ref(Period(b + [s[0]]), w) else Finish(Send(env, w, LeBytes(CLOCK_PERIOD)));
      hide Feed;
      if k > 1 {
        RunPeriod(env, w, b + [s[0]], s[1..]);
        assert b + [s[0]] + s[1..] == b + s;
      }
    }
  }

  lemma {:induction false} RunLength<D>(env: Env<D>, w: World<D>, b: seq<bv8>, s: seq<bv8>)
    requires |b| < 4
    ensures Run(env, Ref(Length(b), w), s) ==
      var k := 4 - |b|;
      if |s| < k then Ref(Length(b + s), w)
      else Run(env, EnterVectors(env, w, b + s[..k]), s[k..])
    decreases |s|
  {
    hide EnterVectors;
    var k := 4 - |b|;
    if s == [] {
      assert b + s == b;
    } else {
      assert Feed(env, Ref(Length(b), w), s[0]) ==
        if k > 1 then Ref(Length(b + [s[0]]), w) else EnterVectors(env, w, b + [s[0]]);
      hide Feed;
      if k > 1 {
        RunLength(env, w, b + [s[0]], s[1..]);
        assert b + [s[0]] + s[1..] == b + s;
        if |s| >= k {
          assert b + [s[0]] + s[1..][..k - 1] == b + s[..k];
        }
      } else {
        assert s[..1] == [s[0]];
      }
    }
  }

  /** All bytes of a shift's two vectors are there. */
  function Shifted<D>(env: Env<D>, w: World<D>, n: nat, b: seq<bv8>): (r: Ref<D>)
    requires |b| == 2 * BytesFor(n)
    ensures r.parse.Ok()
  {
    Finish(PerformShift(env, w, n, b[..BytesFor(n)], b[BytesFor(n)..]))
  }

  lemma {:induction false} RunVectors<D>(env: Env<D>, w: World<D>, n: nat, b: seq<bv8>, s: seq<bv8>)
    requires Vectors(n, b).Ok()
    ensures Run(env, Ref(Vectors(n, b), w), s) ==
      var k := 2 * BytesFor(n) - |b|;
      if |s| < k then Ref(Vectors(n, b + s), w)
      else Run(env, Shifted(env, w, n, b + s[..k]), s[k..])
    decreases |s|
  {
    hide BytesFor, PerformShift, Shifted;
    var k := 2 * BytesFor(n) - |b|;
    if s == [] {
      assert b + s == b;
    } else {
      FeedVectors(env, w, n, b, s[0]);
      hide Feed;
      if k > 1 {
        RunVectors(env, w, n, b + [s[0]], s[1..]);
        Regroup(b, s, k);
      } else {
        assert s[..1] == [s[0]];
      }
    }
  }

  lemma FeedVectors<D>(env: Env<D>, w: World<D>, n: nat, b: seq<bv8>, x: bv8)
    requires Vectors(n, b).Ok()
    ensures Feed(env, Ref(Vectors(n, b), w), x) ==
      if |b| + 1 < 2 * BytesFor(n) then Ref(Vectors(n, b + [x]), w) else Shifted(env, w, n, b + [x])
  {
    hide BytesFor, PerformShift;
  }

  /** What was sent and stored stays, and the counters do not go back. */
  ghost predicate Grown<D>(from: World<D>, to: World<D>)
  {
    from.sent <= to.sent && from.trace <= to.trace && from.shifts <= to.shifts && from.sends <= to.sends
  }

  /** Every shift on the way found the server enabled and was not asked to make way, and every send
      succeeded. */
  ghost predicate AllFine<D>(env: Env<D>, from: World<D>, to: World<D>)
  {
    && (forall k: nat | from.shifts <= k < to.shifts :: env.enabled(k) && !env.disableAsked(k))
    && (forall k: nat | from.sends <= k < to.sends :: env.sendOk(k))
  }

  lemma AllFineOn<D>(env: Env<D>, a: World<D>, b: World<D>, c: World<D>)
    requires Grown(a, b) && Grown(b, c)
    ensures Grown(a, c) && (AllFine(env, a, b) && AllFine(env, b, c) ==> AllFine(env, a, c))
  {
  }

  lemma FeedFine<D>(env: Env<D>, r: Ref<D>, b: bv8)
    requires r.parse.Ok()
    ensures var x := Feed(env, r, b); Grown(r.world, x.world) && (x.parse != Rejected ==> AllFine(env, r.world, x.world))
  {
    hide LittleEndian, Tdo, ShiftWrites, ApplyAll, LeBytes, BytesFor;
  }

  /** Whatever the bytes and the state that they find: as long as nothing was rejected, every shift that
      was begun found the server enabled and ended without a request to disable it, and every reply
      went out. */
  lemma {:induction false} RunFine<D>(env: Env<D>, r: Ref<D>, s: seq<bv8>)
    requires r.parse.Ok()
    ensures var e := Run(env, r, s); Grown(r.world, e.world) && (e.parse != Rejected ==> AllFine(env, r.world, e.world))
    decreases |s|
  {
    if s != [] {
      hide Feed, Grown, AllFine;
      var x := Feed(env, r, s[0]);
      FeedFine(env, r, s[0]);
      RunFine(env, x, s[1..]);
      AllFineOn(env, r.world, x.world, Run(env, x, s[1..]).world);
      if x.parse == Rejected {
        RunRejected(env, x.world, s[1..]);
      }
    } else {
      assert Run(env, r, s) == r;
    }
  }
}
