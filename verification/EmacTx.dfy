/** The EMAC transmit ring: filled by a task, emptied by the controller, drained by the interrupt
    handler, in any interleaving of their steps. */
module EmacTx {
  import opened EmacRing
  import opened Numbers

  const TX_UNITSIZE: nat := 1518
  const LEN_LIMIT: nat := 0x800

  datatype Option<T> = None | Some(value: T)

  type Callback = nat

  /** What a caller asks to send: its own bytes, or `n` bytes already in the unit buffer (a null
      buffer argument). */
  datatype Payload = Bytes(bytes: seq<bv8>) | InPlace(n: nat) {
    function Size(): nat { if Bytes? then |bytes| else n }
  }

  datatype Request = Request(p: Payload, cb: Option<Callback>)

  datatype Descriptor = Descriptor(used: bool, wrap: bool, len: nat)

  /** Where a call of the write function is. */
  datatype Writer = Idle | Filling(q: Request) | Filled(q: Request) | CallbackSet(q: Request) | HandedOver
                  | Incremented

  /** Where the interrupt handler is. */
  datatype Handler = Quiet | Looking | Notifying | Advancing

  datatype Result = Ok | Busy | Param

  datatype Frame = Frame(bytes: seq<bv8>, cb: Option<Callback>)

  /** The driver's memory, both program counters, the controller's place in the ring and the bytes of
      the frame it is sending, and four histories: requests that were let in, frames handed to the
      controller, frames sent, and callback slots that the handler has dealt with. */
  datatype State = State(
    size: nat, head: nat, tail: nat, dscr: seq<Descriptor>, units: seq<seq<bv8>>, callbacks: seq<Option<Callback>>,
    writer: Writer, handler: Handler,
    hw: nat, sending: seq<bv8>,
    granted: seq<Request>, accepted: seq<Frame>, wire: seq<seq<bv8>>, completed: seq<Option<Callback>>)
  {
    predicate Shaped() {
      && 1 < size == |dscr| == |units| == |callbacks| && head <= size && tail < size && hw < size
      && (head == size ==> writer.Incremented?)
    }
  }

  datatype Step = Begin(q: Request) | Copy | SetCallback | HandOver | IncrementHead | WrapHead
                | SendByte | EndFrame
                | Enter | Look | Notify | AdvanceTail

  /** The start of a write: the two refusals, or the way to the slot at the head. */
  function Check(s: State, p: Payload): (r: Result)
    requires s.Shaped()
  {
    if p.Size() > TX_UNITSIZE then Param
    else if CircSpace(s.head, s.tail, s.size) == 0 then Busy
    else Ok
  }

  function Overwrite(unit: seq<bv8>, bytes: seq<bv8>): (u: seq<bv8>)
    requires |bytes| <= |unit|
    ensures |u| == |unit| && u[..|bytes|] == bytes
  {
    bytes + unit[|bytes|..]
  }

  /** Whether a step can be taken: its process is at that point. */
  predicate Enabled(s: State, a: Step)
    requires s.Shaped()
  {
    match a
    case Begin(_) => s.writer.Idle?
    case Copy => s.writer.Filling? && s.writer.q.p.Size() <= |s.units[s.head]|
    case SetCallback => s.writer.Filled?
    case HandOver => s.writer.CallbackSet? && s.writer.q.p.Size() <= |s.units[s.head]|
    case IncrementHead => s.writer.HandedOver?
    case WrapHead => s.writer.Incremented?
    case SendByte => !s.dscr[s.hw].used && |s.sending| < s.dscr[s.hw].len <= |s.units[s.hw]|
    case EndFrame => !s.dscr[s.hw].used && |s.sending| == s.dscr[s.hw].len && (s.dscr[s.hw].wrap || s.hw + 1 < s.size)
    case Enter => s.handler.Quiet?
    case Look => s.handler.Looking?
    case Notify => s.handler.Notifying?
    case AdvanceTail => s.handler.Advancing?
  }

  function Next(s: State, a: Step): (n: State)
    requires s.Shaped() && Enabled(s, a)
    ensures n.Shaped() && n.size == s.size
  {
    match a
    case Begin(q) => if Check(s, q.p) == Ok then s.(writer := Filling(q), granted := s.granted + [q]) else s
    case Copy =>
      var next := Filled(s.writer.q);
      if s.writer.q.p.Bytes? && s.writer.q.p.Size() > 0 then
        s.(units := s.units[s.head := Overwrite(s.units[s.head], s.writer.q.p.bytes)], writer := next)
      else s.(writer := next)
    case SetCallback =>
      s.(callbacks := s.callbacks[s.head := s.writer.q.cb], writer := CallbackSet(s.writer.q))
    case HandOver =>
      var p := s.writer.q.p;
      var bytes := if p.Bytes? then p.bytes else s.units[s.head][..p.n];
      s.(dscr := s.dscr[s.head := Descriptor(false, s.head == s.size - 1, p.Size() % LEN_LIMIT)],
         accepted := s.accepted + [Frame(bytes, s.callbacks[s.head])], writer := HandedOver)
    case IncrementHead => s.(head := s.head + 1, writer := Incremented)
    case WrapHead => s.(head := Settled(s.head, s.size), writer := Idle)
    case SendByte => s.(sending := s.sending + [s.units[s.hw][|s.sending|]])
    case EndFrame =>
      s.(dscr := s.dscr[s.hw := s.dscr[s.hw].(used := true)], wire := s.wire + [s.sending], sending := [],
         hw := if s.dscr[s.hw].wrap then 0 else s.hw + 1)
    case Enter => if s.head != s.tail then s.(handler := Looking) else s
    case Look => s.(handler := if s.dscr[s.tail].used then Notifying else Quiet)
    case Notify => s.(completed := s.completed + [s.callbacks[s.tail]], handler := Advancing)
    case AdvanceTail =>
      var tail := CircInc(s.tail, s.size);
      s.(tail := tail, handler := if CircCnt(s.head, tail, s.size) != 0 then Looking else Quiet)
  }

  /** After the lists have been set up. */
  ghost predicate Init(s: State)
  {
    && s.Shaped() && s.head == s.tail == s.hw == 0 && s.writer == Idle && s.handler == Quiet
    && (forall i: nat | i < s.size :: s.dscr[i] == Descriptor(true, i == s.size - 1, 0) && |s.units[i]| == TX_UNITSIZE)
    && s.sending == [] && s.granted == [] && s.accepted == [] && s.wire == [] && s.completed == []
  }

  /** A run: every step is taken when it can be. */
  ghost predicate Run(s: State, steps: seq<Step>, t: State)
    requires s.Shaped()
    decreases |steps|
  {
    if steps == [] then s == t
    else Enabled(s, steps[0]) && Run(Next(s, steps[0]), steps[1..], t)
  }

  /** Frames whose descriptor the handler has gone past, and frames the head has gone past. */
  function Drained(s: State): int { |s.completed| - if s.handler.Advancing? then 1 else 0 }
  function Queued(s: State): int { |s.accepted| - (if s.writer.HandedOver? then 1 else 0) - Drained(s) }
  function InFlight(s: State): int { |s.accepted| - Drained(s) }

  /** The slot `k` places after the tail. */
  function Slot(s: State, k: nat): nat
    requires s.Shaped() && k < s.size
  {
    Wrapped(s.tail, k, s.size)
  }

  predicate Entering(w: Writer) { w.Filling? || w.Filled? || w.CallbackSet? }

  /** Counters and pointers. */
  ghost predicate Placed(s: State)
  {
    && s.Shaped()
    && 0 <= Drained(s) <= |s.wire| <= |s.accepted|
    && InFlight(s) <= s.size - 1 && 0 <= Queued(s)
    && (Entering(s.writer) ==> InFlight(s) <= s.size - 2 && s.writer.q.p.Size() <= TX_UNITSIZE)
    && Settled(s.head, s.size) == Slot(s, Queued(s)) && s.hw == Slot(s, |s.wire| - Drained(s))
    && (!s.handler.Quiet? ==> 0 < Queued(s))
    && (s.handler.Notifying? || s.handler.Advancing? ==> Drained(s) < |s.wire|)
  }

  /** The slot `k` places after the tail holds the frame it should. */
  ghost predicate SlotOk(s: State, k: nat)
    requires s.Shaped() && 0 <= Drained(s) && k < s.size
  {
    var i, f := Slot(s, k), Drained(s) + k;
    if f < |s.accepted| then
      && s.callbacks[i] == s.accepted[f].cb
      && (s.dscr[i].used <==> f < |s.wire|)
      && (f >= |s.wire| ==>
           var n := |s.accepted[f].bytes|;
           n <= TX_UNITSIZE && n <= |s.units[i]| && s.dscr[i].len == n && s.units[i][..n] == s.accepted[f].bytes)
    else s.dscr[i].used
  }

  ghost predicate UnitsOk(s: State)
    requires s.Shaped()
  {
    forall i: nat | i < s.size :: |s.units[i]| == TX_UNITSIZE && (s.dscr[i].wrap <==> i == s.size - 1)
  }

  ghost predicate SlotsOk(s: State)
    requires s.Shaped() && 0 <= Drained(s)
  {
    forall k: nat | k < s.size :: SlotOk(s, k)
  }

  lemma SlotAt(s: State, k: nat)
    requires s.Shaped() && 0 <= Drained(s) && SlotsOk(s) && k < s.size
    ensures SlotOk(s, k)
  {
  }

  /** What has been sent, what is being sent, and what has been reported. */
  ghost predicate LogsOk(s: State)
    requires |s.wire| <= |s.accepted|
  {
    && (forall i: nat | i < |s.wire| :: s.wire[i] == s.accepted[i].bytes)
    && (if |s.wire| < |s.accepted| then s.sending <= s.accepted[|s.wire|].bytes else s.sending == [])
    && |s.completed| <= |s.wire|
    && (forall i: nat | i < |s.completed| :: s.completed[i] == s.accepted[i].cb)
  }

  /** What the writer has put into the slot at the head so far. */
  ghost predicate WriterOk(s: State)
    requires s.Shaped()
  {
    && (Entering(s.writer) ==> s.granted != [] && s.granted[|s.granted| - 1] == s.writer.q)
    && (s.writer.CallbackSet? ==> s.callbacks[s.head] == s.writer.q.cb)
    && ((s.writer.Filled? || s.writer.CallbackSet?) && s.writer.q.p.Bytes? && s.writer.q.p.Size() <= |s.units[s.head]| ==>
        s.units[s.head][..s.writer.q.p.Size()] == s.writer.q.p.bytes)
  }

  /** The frame that answers a request: its bytes, or as many as it says, and its callback. */
  predicate Answers(f: Frame, q: Request)
  {
    f.cb == q.cb && |f.bytes| == q.p.Size() && (q.p.Bytes? ==> f.bytes == q.p.bytes)
  }

  ghost predicate GrantsOk(s: State)
  {
    && |s.granted| == |s.accepted| + (if Entering(s.writer) then 1 else 0)
    && forall i: nat | i < |s.accepted| :: Answers(s.accepted[i], s.granted[i])
  }

  ghost predicate Inv(s: State)
  {
    Placed(s) && UnitsOk(s) && SlotsOk(s) && LogsOk(s) && WriterOk(s) && GrantsOk(s)
  }

  lemma InitInv(s: State)
    requires Init(s)
    ensures Inv(s)
  {
  }

  /** The head has been stored past the end and not yet as 0, and everything has been drained: the
      handler's first test takes the ring for full of frames. */
  predicate Gap(s: State) { s.head == s.size && s.tail == 0 }

  /** The handler is not entered in a gap. */
  predicate Timely(s: State, a: Step) { a.Enter? ==> !Gap(s) }

  predicate WriterStep(a: Step) { a.Begin? || a.Copy? || a.SetCallback? || a.HandOver? || a.IncrementHead? || a.WrapHead? }
  predicate ControllerStep(a: Step) { a.SendByte? || a.EndFrame? }
  predicate HandlerStep(a: Step) { !WriterStep(a) && !ControllerStep(a) }

  /** In a reachable state the refusal for want of room is exact. */
  lemma BusyIff(s: State)
    requires Placed(s) && s.writer.Idle?
    ensures CircSpace(s.head, s.tail, s.size) == 0 <==> InFlight(s) == s.size - 1
  {
    hide CircSpace;
    CircTests(s.head, s.tail, s.size);
    BetweenUnique(s.tail, Queued(s), s.size);
  }

  lemma PlacedByWriter(s: State, a: Step)
    requires Placed(s) && Enabled(s, a) && WriterStep(a)
    ensures Placed(Next(s, a))
  {
    hide CircSpace, Wrapped, CircInc;
    if a.Begin? {
      BusyIff(s);
    } else if a.IncrementHead? {
      CircIncWraps(s.tail, Queued(s), s.size);
      SettledIncrement(s.head, s.size);
    }
  }

  /** A frame the controller finds is one that has been accepted and not yet sent. */
  lemma PlacedByController(s: State, a: Step)
    requires Placed(s) && UnitsOk(s) && SlotsOk(s) && Enabled(s, a) && ControllerStep(a)
    ensures |s.wire| < |s.accepted|
    ensures Placed(Next(s, a))
  {
    hide CircSpace, CircCnt;
    assert SlotOk(s, |s.wire| - Drained(s));
  }

  lemma PlacedByHandler(s: State, a: Step)
    requires Placed(s) && SlotsOk(s) && Enabled(s, a) && HandlerStep(a) && Timely(s, a)
    ensures Placed(Next(s, a))
  {
    hide CircCnt, SlotsOk, Wrapped, CircInc;
    FromNext(s.tail, 0, s.size);
    WrappedInjective(s.tail, 0, Queued(s), s.size);
    if a.AdvanceTail? {
      FromNext(s.tail, Queued(s) - 1, s.size);
      FromNext(s.tail, |s.wire| - Drained(s) - 1, s.size);
      CircCntTest(s.head, CircInc(s.tail, s.size), s.size);
      BetweenUnique(CircInc(s.tail, s.size), Queued(s) - 1, s.size);
    } else if a.Look? {
      SlotAt(s, 0);
    }
  }

  lemma PlacedKept(s: State, a: Step)
    requires Inv(s) && Enabled(s, a) && Timely(s, a)
    ensures Placed(Next(s, a))
  {
    hide Placed, Enabled, SlotsOk;
    if WriterStep(a) {
      PlacedByWriter(s, a);
    } else if ControllerStep(a) {
      PlacedByController(s, a);
    } else {
      PlacedByHandler(s, a);
    }
  }

  lemma UnitsKept(s: State, a: Step)
    requires Inv(s) && Enabled(s, a)
    ensures UnitsOk(Next(s, a))
  {
  }

  lemma SlotByWriter(s: State, a: Step, k: nat)
    requires Placed(s) && UnitsOk(s) && WriterOk(s) && Enabled(s, a) && WriterStep(a) && k < s.size && SlotOk(s, k)
    requires Placed(Next(s, a))
    ensures SlotOk(Next(s, a), k)
  {
    hide CircSpace, CircCnt, Wrapped;
    WrappedInjective(s.tail, k, Queued(s), s.size);
    WrappedInjective(s.tail, k, |s.wire| - Drained(s), s.size);
  }

  lemma SlotByController(s: State, a: Step, k: nat)
    requires Placed(s) && Enabled(s, a) && ControllerStep(a) && k < s.size && SlotOk(s, k)
    requires |s.wire| < |s.accepted| && Placed(Next(s, a))
    ensures SlotOk(Next(s, a), k)
  {
    hide CircSpace, CircCnt, Wrapped;
    WrappedInjective(s.tail, k, |s.wire| - Drained(s), s.size);
  }

  lemma SlotByHandler(s: State, a: Step, k: nat)
    requires Placed(s) && SlotsOk(s) && Enabled(s, a) && HandlerStep(a) && k < s.size
    requires Placed(Next(s, a))
    ensures SlotOk(Next(s, a), k)
  {
    hide CircCnt, Wrapped, CircInc, SlotsOk;
    var j := if !a.AdvanceTail? then k else if k + 1 < s.size then k + 1 else 0;
    FromNext(s.tail, k, s.size);
    FromNext(s.tail, 0, s.size);
    SlotAt(s, j);
    assert Slot(Next(s, a), k) == Slot(s, j);
  }

  lemma SlotsKept(s: State, a: Step)
    requires Inv(s) && Enabled(s, a) && Placed(Next(s, a))
    ensures SlotsOk(Next(s, a))
  {
    hide Enabled, Next, SlotOk;
    forall k: nat | k < s.size ensures SlotOk(Next(s, a), k) {
      if WriterStep(a) {
        SlotByWriter(s, a, k);
      } else if ControllerStep(a) {
        PlacedByController(s, a);
        SlotByController(s, a, k);
      } else {
        SlotByHandler(s, a, k);
      }
    }
  }

  lemma LogsByWriter(s: State, a: Step)
    requires Placed(s) && LogsOk(s) && Enabled(s, a) && WriterStep(a)
    ensures |Next(s, a).wire| <= |Next(s, a).accepted| && LogsOk(Next(s, a))
  {
    hide CircSpace, Check, Slot;
  }

  lemma LogsByController(s: State, a: Step)
    requires Placed(s) && LogsOk(s) && Enabled(s, a) && ControllerStep(a)
    requires |s.wire| < |s.accepted| && SlotOk(s, |s.wire| - Drained(s))
    ensures |Next(s, a).wire| <= |Next(s, a).accepted| && LogsOk(Next(s, a))
  {
    hide Wrapped;
  }

  lemma LogsByHandler(s: State, a: Step)
    requires Placed(s) && LogsOk(s) && Enabled(s, a) && HandlerStep(a) && SlotOk(s, 0)
    ensures |Next(s, a).wire| <= |Next(s, a).accepted| && LogsOk(Next(s, a))
  {
    hide CircCnt, CircInc, Wrapped;
    FromNext(s.tail, 0, s.size);
  }

  lemma LogsKept(s: State, a: Step)
    requires Inv(s) && Enabled(s, a)
    ensures |Next(s, a).wire| <= |Next(s, a).accepted| && LogsOk(Next(s, a))
  {
    hide Enabled, Next, LogsOk, SlotsOk, SlotOk;
    if WriterStep(a) {
      LogsByWriter(s, a);
    } else if ControllerStep(a) {
      PlacedByController(s, a);
      SlotAt(s, |s.wire| - Drained(s));
      LogsByController(s, a);
    } else {
      SlotAt(s, 0);
      LogsByHandler(s, a);
    }
  }

  lemma WriterKept(s: State, a: Step)
    requires Inv(s) && Enabled(s, a)
    ensures WriterOk(Next(s, a))
  {
  }

  lemma GrantsKept(s: State, a: Step)
    requires Inv(s) && Enabled(s, a)
    ensures GrantsOk(Next(s, a))
  {
  }

  lemma StepKeepsInv(s: State, a: Step)
    requires Inv(s) && Enabled(s, a) && Timely(s, a)
    ensures Inv(Next(s, a))
  {
    hide Placed, UnitsOk, SlotsOk, LogsOk, WriterOk, GrantsOk, Next, Enabled;
    PlacedKept(s, a);
    UnitsKept(s, a);
    SlotsKept(s, a);
    LogsKept(s, a);
    WriterKept(s, a);
    GrantsKept(s, a);
  }

  /** Every entry of the handler in the run is timely. */
  ghost predicate TimelyRun(s: State, steps: seq<Step>)
    requires s.Shaped()
    decreases |steps|
  {
    steps != [] && Enabled(s, steps[0]) ==> Timely(s, steps[0]) && TimelyRun(Next(s, steps[0]), steps[1..])
  }

  lemma {:induction false} RunKeepsInv(s: State, steps: seq<Step>, t: State)
    requires Inv(s) && Run(s, steps, t) && TimelyRun(s, steps)
    ensures Inv(t)
    decreases |steps|
  {
    if steps != [] {
      StepKeepsInv(s, steps[0]);
      RunKeepsInv(Next(s, steps[0]), steps[1..], t);
    }
  }

  /** Over every interleaving in which the handler is not entered in a gap: frames are sent byte for
      byte in the order of the writes let in, each callback slot is dealt with once, in that order and
      after its frame was sent, and the frames accepted and not drained are those between tail and
      head, and the one whose write has not moved the head yet. */
  lemma ExactlyOnceInOrder(s: State, steps: seq<Step>, t: State)
    requires Init(s) && Run(s, steps, t) && TimelyRun(s, steps)
    ensures |t.completed| <= |t.wire| <= |t.accepted| <= |t.granted| <= |t.accepted| + 1
    ensures forall i: nat | i < |t.wire| :: Answers(Frame(t.wire[i], t.accepted[i].cb), t.granted[i])
    ensures forall i: nat | i < |t.completed| :: t.completed[i] == t.granted[i].cb
    ensures t.Shaped()
    ensures var between := Between(Settled(t.head, t.size), t.tail, t.size) + if t.writer.HandedOver? then 1 else 0;
      between < t.size && |t.accepted| == between + |t.completed| - if t.handler.Advancing? then 1 else 0
  {
    InitInv(s);
    RunKeepsInv(s, steps, t);
    BetweenUnique(t.tail, Queued(t), t.size);
  }

  /** No step of a write changes the buffer, descriptor or callback of a frame in flight. */
  lemma InFlightUntouched(s: State, a: Step, k: nat)
    requires Inv(s) && Enabled(s, a) && WriterStep(a) && k < InFlight(s)
    ensures var i, n := Slot(s, k), Next(s, a);
      n.dscr[i] == s.dscr[i] && n.units[i] == s.units[i] && n.callbacks[i] == s.callbacks[i]
  {
    hide Wrapped, CircSpace, CircInc;
    WrappedInjective(s.tail, k, Queued(s), s.size);
  }

  /** Nothing waits for what cannot happen: a write that was let in can go on, and the controller can
      go on with any frame that was accepted and not yet sent. */
  lemma NothingStuck(s: State)
    requires Inv(s)
    ensures s.writer.Filling? ==> Enabled(s, Copy)
    ensures s.writer.CallbackSet? ==> Enabled(s, HandOver)
    ensures |s.wire| < |s.accepted| ==> Enabled(s, SendByte) || Enabled(s, EndFrame)
  {
    assert SlotOk(s, |s.wire| - Drained(s));
  }

  /** The handler returns only when every frame sent has been dealt with, or the ring is empty but
      for a frame whose write is not finished. */
  lemma HandlerLeavesNothing(s: State, a: Step)
    requires Inv(s) && Enabled(s, a) && HandlerStep(a) && !s.handler.Quiet? && Next(s, a).handler.Quiet?
    ensures var n := Next(s, a); Drained(n) == |n.wire| || (Queued(n) == 0 && n.writer.HandedOver?)
  {
    hide CircCnt;
    FromNext(s.tail, 0, s.size);
    CircCntTest(s.head, CircInc(s.tail, s.size), s.size);
    assert SlotOk(s, 0);
  }

  /** The rest of a write once its callback is in place. */
  function HandedOn(c: State): (t: State)
    requires Inv(c) && c.writer.CallbackSet?
    ensures Inv(t) && t.writer.Idle?
  {
    NothingStuck(c);
    StepKeepsInv(c, HandOver);
    var d := Next(c, HandOver);
    StepKeepsInv(d, IncrementHead);
    var e := Next(d, IncrementHead);
    StepKeepsInv(e, WrapHead);
    Next(e, WrapHead)
  }

  /** A write that nothing interrupts. */
  function Written(s: State, q: Request): (t: State)
    requires Inv(s) && s.writer.Idle?
    ensures Inv(t) && t.writer.Idle?
  {
    StepKeepsInv(s, Begin(q));
    var a := Next(s, Begin(q));
    if Check(s, q.p) != Ok then a
    else
      NothingStuck(a);
      StepKeepsInv(a, Copy);
      var b := Next(a, Copy);
      StepKeepsInv(b, SetCallback);
      HandedOn(Next(b, SetCallback))
  }

  /** The step the handler is at. */
  function HandlerAt(h: Handler): Step
  {
    match h
    case Quiet => Enter
    case Looking => Look
    case Notifying => Notify
    case Advancing => AdvanceTail
  }

  /** The handler runs to its end without interruption. */
  function HandlerRun(s: State): (t: State)
    requires Inv(s)
    ensures Inv(t) && t.handler.Quiet?
    decreases Queued(s), match s.handler case Quiet => 0 case Looking => 3 case Notifying => 2 case Advancing => 1
  {
    if s.handler.Quiet? then s
    else
      StepKeepsInv(s, HandlerAt(s.handler));
      HandlerRun(Next(s, HandlerAt(s.handler)))
  }

  function HandlerCall(s: State): (t: State)
    requires Inv(s) && s.handler.Quiet? && !Gap(s)
    ensures Inv(t) && t.handler.Quiet?
  {
    StepKeepsInv(s, Enter);
    HandlerRun(Next(s, Enter))
  }

  lemma {:induction false} HandlerRunExact(s: State)
    requires Inv(s) && !s.handler.Quiet?
    ensures var t := HandlerRun(s);
      && t == s.(tail := t.tail, completed := t.completed, handler := Quiet)
      && Drained(t) == Drained(s) + Min(|s.wire| - Drained(s), Queued(s))
    decreases Queued(s), match s.handler case Quiet => 0 case Looking => 3 case Notifying => 2 case Advancing => 1
  {
    hide CircCnt, Wrapped, SlotsOk, UnitsOk, LogsOk, WriterOk, GrantsOk;
    var a := HandlerAt(s.handler);
    StepKeepsInv(s, a);
    var n := Next(s, a);
    FromNext(s.tail, 0, s.size);
    CircCntTest(s.head, CircInc(s.tail, s.size), s.size);
    SlotAt(s, 0);
    if n.handler.Quiet? {
      if a.AdvanceTail? {
        BetweenUnique(n.tail, Queued(n), n.size);
      }
    } else {
      HandlerRunExact(n);
    }
  }

  /** One call of the handler deals with exactly the frames sent since the last call, in order (but
      not with a frame whose write has not moved the head yet), and changes nothing else. */
  lemma DrainExact(s: State)
    requires Inv(s) && s.handler.Quiet? && !Gap(s)
    ensures var t, m := HandlerCall(s), Min(|s.wire| - Drained(s), Queued(s));
      && t == s.(tail := t.tail, completed := t.completed)
      && |t.completed| == |s.completed| + m && s.completed <= t.completed
      && forall i: nat | |s.completed| <= i < |t.completed| :: t.completed[i] == s.granted[i].cb
  {
    hide CircCnt, CircSpace, Wrapped, SlotsOk, UnitsOk, WriterOk;
    StepKeepsInv(s, Enter);
    var e, t := Next(s, Enter), HandlerCall(s);
    if e.handler.Quiet? {
      FromNext(s.tail, 0, s.size);
      WrappedInjective(s.tail, 0, Queued(s), s.size);
    } else {
      HandlerRunExact(e);
      assert t == HandlerRun(e);
    }
    assert LogsOk(s) && LogsOk(t);
    assert s.completed == t.completed[..|s.completed|];
  }

  /** One call of the write function: over-long requests and a full ring leave everything as it is;
      otherwise exactly one frame is accepted, and it answers the request. */
  lemma WriteExact(s: State, q: Request)
    requires Inv(s) && s.writer.Idle?
    ensures Check(s, q.p) == Param <==> q.p.Size() > TX_UNITSIZE
    ensures Check(s, q.p) == Busy <==> q.p.Size() <= TX_UNITSIZE && InFlight(s) == s.size - 1
    ensures var t := Written(s, q);
      if Check(s, q.p) == Ok then
        && t.granted == s.granted + [q] && |t.accepted| == |s.accepted| + 1 && s.accepted <= t.accepted
        && Answers(t.accepted[|s.accepted|], q) && InFlight(t) == InFlight(s) + 1
        && t.wire == s.wire && t.completed == s.completed && t.tail == s.tail && t.hw == s.hw
      else t == s
  {
    BusyIff(s);
    var t := Written(s, q);
    if Check(s, q.p) == Ok {
      WrittenLogs(s, q);
      assert GrantsOk(t) && t.granted[|s.accepted|] == q;
    }
  }

  lemma WrittenLogs(s: State, q: Request)
    requires Inv(s) && s.writer.Idle? && Check(s, q.p) == Ok
    ensures var t := Written(s, q);
      && t.granted == s.granted + [q] && |t.accepted| == |s.accepted| + 1 && s.accepted <= t.accepted
      && t.wire == s.wire && t.completed == s.completed && t.tail == s.tail && t.hw == s.hw && t.handler == s.handler
  {
    hide Placed, UnitsOk, SlotsOk, LogsOk, WriterOk, GrantsOk, Check;
  }

  /** What a write leaves in the driver's memory. */
  lemma WrittenMemory(s: State, q: Request)
    requires Inv(s) && s.writer.Idle?
    ensures s.Shaped() && s.head < s.size && (Check(s, q.p) != Ok ==> Written(s, q) == s)
    ensures Check(s, q.p) == Ok ==>
      var t, h, n := Written(s, q), s.head, q.p.Size();
      && t.size == s.size && t.head == Settled(h + 1, s.size) && t.tail == s.tail
      && t.dscr == s.dscr[h := Descriptor(false, h == s.size - 1, n % LEN_LIMIT)]
      && t.callbacks == s.callbacks[h := q.cb]
      && (if q.p.Bytes? && n > 0 then n <= |s.units[h]| && t.units == s.units[h := Overwrite(s.units[h], q.p.bytes)]
          else t.units == s.units)
  {
    hide Placed, UnitsOk, SlotsOk, LogsOk, WriterOk, GrantsOk, CircSpace, Settled;
    HeadInRing(s);
    UnitSizes(s);
  }

  lemma HeadInRing(s: State)
    requires Inv(s) && s.writer.Idle?
    ensures s.Shaped() && s.head < s.size
  {
  }

  lemma UnitSizes(s: State)
    requires Inv(s)
    ensures s.Shaped() && forall i: nat | i < s.size :: |s.units[i]| == TX_UNITSIZE
  {
  }

  /** One round of the handler's loop. */
  function Round(s: State): (t: State)
    requires s.Shaped() && s.handler.Looking?
    ensures t.Shaped()
  {
    if !s.dscr[s.tail].used then s.(handler := Quiet)
    else
      var tail := CircInc(s.tail, s.size);
      s.(completed := s.completed + [s.callbacks[s.tail]], tail := tail,
         handler := if CircCnt(s.head, tail, s.size) != 0 then Looking else Quiet)
  }

  lemma RoundRuns(s: State)
    requires Inv(s) && s.handler.Looking?
    ensures s.Shaped() && Inv(Round(s)) && HandlerRun(s) == HandlerRun(Round(s))
    ensures Round(s).handler.Looking? ==> Queued(Round(s)) < Queued(s)
    ensures 0 <= Queued(s) && s.completed <= Round(s).completed && Round(s).writer == s.writer
  {
    hide CircCnt, CircInc, SlotsOk, UnitsOk, LogsOk, WriterOk, GrantsOk;
    StepKeepsInv(s, Look);
    if s.dscr[s.tail].used {
      var n := Next(s, Look);
      StepKeepsInv(n, Notify);
      var a := Next(n, Notify);
      StepKeepsInv(a, AdvanceTail);
      assert Round(s) == Next(a, AdvanceTail);
      assert HandlerRun(n) == HandlerRun(a);
    } else {
      assert Round(s) == Next(s, Look);
    }
  }

  lemma HandlerEntered(s: State)
    requires Inv(s) && s.handler.Quiet? && !Gap(s)
    ensures s.head != s.tail ==>
      Inv(s.(handler := Looking)) && HandlerCall(s) == HandlerRun(s.(handler := Looking))
    ensures s.head == s.tail ==> HandlerCall(s) == s
  {
    StepKeepsInv(s, Enter);
  }

  lemma NoGapBetweenWrites(s: State)
    requires Inv(s) && s.writer.Idle?
    ensures s.Shaped() && !Gap(s)
  {
  }

  /** At most `n` rounds of the handler's loop. */
  function Rounds(s: State, n: nat): (t: State)
    requires s.Shaped()
    ensures t.Shaped()
    decreases n
  {
    if n == 0 || !s.handler.Looking? then s else Rounds(Round(s), n - 1)
  }

  lemma {:induction false} RoundsKeepInv(s: State, n: nat)
    requires Inv(s)
    ensures Inv(Rounds(s, n)) && Rounds(s, n).accepted == s.accepted
    decreases n
  {
    hide Placed, UnitsOk, SlotsOk, LogsOk, WriterOk, GrantsOk, CircCnt;
    if n > 0 && s.handler.Looking? {
      RoundRuns(s);
      RoundsKeepInv(Round(s), n - 1);
    }
  }

  /** In a gap every slot is free, and everything accepted has been dealt with. */
  lemma GapIsEmpty(s: State)
    requires Inv(s) && s.handler.Quiet? && Gap(s)
    ensures |s.completed| == |s.accepted| && forall i: nat | i < s.size :: s.dscr[i].used
  {
    FromNext(0, 0, s.size);
    WrappedInjective(0, 0, Queued(s), s.size);
    forall i: nat | i < s.size ensures s.dscr[i].used {
      assert SlotOk(s, i);
    }
  }

  /** From slot `k` on, the handler that was entered in a gap goes through all the slots. */
  lemma {:induction false} StrayRounds(s: State, k: nat)
    requires s.Shaped() && s.handler.Looking? && s.head == s.size && s.tail == k < s.size
    requires forall i: nat | i < s.size :: s.dscr[i].used
    ensures var t := Rounds(s, s.size - k); t.handler.Quiet? && t.tail == 0 && |t.completed| == |s.completed| + (s.size - k)
    decreases s.size - k
  {
    CircCntTest(s.size, CircInc(k, s.size), s.size);
    hide CircCnt;
    if k + 1 < s.size {
      StrayRounds(Round(s), k + 1);
    }
  }

  /** A handler that is entered in a gap deals with every slot of the ring once more. */
  lemma GapCallRepeatsAll(s: State)
    requires Inv(s) && s.handler.Quiet? && Gap(s)
    ensures var t := Rounds(Next(s, Enter), s.size); t.handler.Quiet? && |t.completed| == |s.accepted| + s.size
  {
    GapIsEmpty(s);
    StrayRounds(Next(s, Enter), 0);
  }

  /** After any run with timely entries: the next call of the handler deals with no more frames than
      were accepted, exactly when it does not come in a gap. */
  lemma NextCallIff(s: State, steps: seq<Step>, t: State)
    requires Init(s) && Run(s, steps, t) && TimelyRun(s, steps) && t.Shaped() && t.handler.Quiet?
    ensures (forall n: nat :: |Rounds(Next(t, Enter), n).completed| <= |t.accepted|) <==> !Gap(t)
  {
    InitInv(s);
    RunKeepsInv(s, steps, t);
    var e := Next(t, Enter);
    if Gap(t) {
      GapCallRepeatsAll(t);
      assert |Rounds(e, t.size).completed| == |t.accepted| + t.size;
    } else {
      StepKeepsInv(t, Enter);
      forall n: nat ensures |Rounds(e, n).completed| <= |t.accepted| {
        RoundsKeepInv(e, n);
      }
    }
  }

  ghost predicate Reaches(s: State, t: State)
    requires s.Shaped()
  {
    exists steps :: Run(s, steps, t) && TimelyRun(s, steps)
  }

  lemma {:induction false} RunExtended(s: State, steps: seq<Step>, t: State, a: Step)
    requires s.Shaped() && t.Shaped() && Run(s, steps, t) && TimelyRun(s, steps) && Enabled(t, a) && Timely(t, a)
    ensures Run(s, steps + [a], Next(t, a)) && TimelyRun(s, steps + [a])
    decreases |steps|
  {
    hide Next, Enabled, Timely;
    if steps == [] {
      assert ([] + [a])[1..] == [];
      assert Run(Next(s, a), [], Next(s, a));
    } else {
      assert (steps + [a])[1..] == steps[1..] + [a];
      RunExtended(Next(s, steps[0]), steps[1..], t, a);
    }
  }

  lemma Further(s: State, t: State, a: Step)
    requires s.Shaped() && t.Shaped() && Reaches(s, t) && Enabled(t, a) && Timely(t, a)
    ensures Reaches(s, Next(t, a))
  {
    var steps :| Run(s, steps, t) && TimelyRun(s, steps);
    RunExtended(s, steps, t, a);
  }

  /** Nothing going on, and everything at slot `k`. */
  predicate Calm(s: State, k: nat)
  {
    && s.Shaped() && s.head == s.tail == s.hw == k < s.size && s.writer == Idle && s.handler == Quiet && s.sending == []
    && forall i: nat | i < s.size ::
         s.dscr[i].used && (s.dscr[i].wrap <==> i == s.size - 1) && |s.units[i]| == TX_UNITSIZE
  }

  /** A frame of one byte goes into slot `k` and out again, before the head moves. */
  lemma FrameGone(s0: State, s: State, k: nat) returns (t: State)
    requires s0.Shaped() && Calm(s, k) && Reaches(s0, s)
    ensures Reaches(s0, t) && t.Shaped() && t.size == s.size && t.writer == HandedOver && t.handler == Quiet
    ensures t.head == t.tail == k && t.hw == CircInc(k, s.size) && t.sending == []
    ensures forall i: nat | i < t.size ::
      t.dscr[i].used && (t.dscr[i].wrap <==> i == t.size - 1) && |t.units[i]| == TX_UNITSIZE
  {
    hide Reaches;
    var q := Request(Bytes([0]), None);
    CircTests(s.head, s.tail, s.size);
    hide CircSpace;
    Further(s0, s, Begin(q));
    var a := Next(s, Begin(q));
    Further(s0, a, Copy);
    var b := Next(a, Copy);
    Further(s0, b, SetCallback);
    var c := Next(b, SetCallback);
    Further(s0, c, HandOver);
    var d := Next(c, HandOver);
    Further(s0, d, SendByte);
    var e := Next(d, SendByte);
    Further(s0, e, EndFrame);
    t := Next(e, EndFrame);
  }

  /** The handler deals with the one frame that the head has gone past. */
  lemma OneDrained(s0: State, s: State) returns (t: State)
    requires s0.Shaped() && s.Shaped() && Reaches(s0, s) && s.handler == Quiet && s.tail < s.head == s.tail + 1
    requires s.dscr[s.tail].used
    ensures Reaches(s0, t) && t == s.(tail := Settled(s.head, s.size), completed := t.completed)
  {
    hide Reaches;
    CircCntTest(s.head, CircInc(s.tail, s.size), s.size);
    SettledIncrement(s.tail, s.size);
    hide CircCnt, CircInc;
    Further(s0, s, Enter);
    var a := Next(s, Enter);
    Further(s0, a, Look);
    var b := Next(a, Look);
    Further(s0, b, Notify);
    var c := Next(b, Notify);
    Further(s0, c, AdvanceTail);
    t := Next(c, AdvanceTail);
  }

  lemma {:induction false} CalmReached(s: State, k: nat) returns (t: State)
    requires Init(s) && k < s.size
    ensures Calm(t, k) && Reaches(s, t) && t.size == s.size
    decreases k
  {
    if k == 0 {
      t := s;
      assert Run(s, [], s) && TimelyRun(s, []);
    } else {
      hide Reaches;
      var c := CalmReached(s, k - 1);
      var g := FrameGone(s, c, k - 1);
      Further(s, g, IncrementHead);
      var i := Next(g, IncrementHead);
      Further(s, i, WrapHead);
      t := OneDrained(s, Next(i, WrapHead));
    }
  }

  /** For every size of the ring there is a run that ends in a gap: the last slot's frame is sent and
      drained while the head is stored past the end. */
  lemma GapReached(s: State) returns (steps: seq<Step>, t: State)
    requires Init(s)
    ensures Run(s, steps, t) && TimelyRun(s, steps) && t.Shaped() && t.handler.Quiet? && Gap(t)
  {
    var c := CalmReached(s, s.size - 1);
    var g := FrameGone(s, c, s.size - 1);
    Further(s, g, IncrementHead);
    t := OneDrained(s, Next(g, IncrementHead));
    steps :| Run(s, steps, t) && TimelyRun(s, steps);
  }
}
