/** The states of the XVC server as a lock between tasks. Each critical section is one step, and
    so is every other access to a shared variable, pin or cable line. */
module XvcLock {

  datatype ServerState =
    ConfigInProgress | DisableRequested | Disabled | Disabling | Enabled | Enabling | IoInProgress

  datatype PinMode = Input | Output

  /** What the tasks share. `pending` is a history variable: a disable has been recorded during
      I/O and the server has not been through DISABLING since. */
  datatype Shared = Shared(
    state: ServerState,
    tck: PinMode, tdi: PinMode, tms: PinMode, jtagselHigh: bool,
    jtagCable: bool, usbCable: bool,
    pending: bool)
  {
    predicate PinsAre(mode: PinMode) { tck == mode && tdi == mode && tms == mode }
  }

  /** Positions within the update of the pin configuration. */
  datatype Update =
    | CheckState
    | ReadJtag
    | ReadUsb(jtag: bool)
    | TckIn(jtag: bool, usb: bool)
    | TdiIn(jtag: bool, usb: bool)
    | TmsIn(jtag: bool, usb: bool)
    | SelHigh
    | TckOut
    | TdiOut
    | TmsOut
    | SelByCable(jtag: bool, usb: bool)
    | StoreState
    | Done(ok: bool)

  datatype Caller = Direct | FromJtagsel | FromShift

  /** Program counters of a task. */
  datatype Task =
    | Idle(ok: bool)
    | EnableEnter
    | EnableUpdate(u: Update)
    | DisableEnter(caller: Caller)
    | DisableUpdate(u: Update, caller: Caller)
    | JtagselReadJtag
    | JtagselReadUsb
    | JtagselReadState(byJtag: bool)
    | JtagselReadPin(byJtag: bool)
    | JtagselUpdate(u: Update)
    | ShiftEnter(bits: nat)
    | Shifting(bits: nat)

  datatype Op = Enable | Disable | UpdateJtagsel | DoShift(bits: nat)

  function Begin(op: Op): Task
  {
    match op
    case Enable => EnableEnter
    case Disable => DisableEnter(Direct)
    case UpdateJtagsel => JtagselReadJtag
    case DoShift(bits) => if bits == 0 then Idle(true) else ShiftEnter(bits)
  }

  /** One step of the update; `expected` is its argument. */
  function StepUpdate(expected: ServerState, u: Update, s: Shared): (Update, Shared)
  {
    match u
    case CheckState =>
      if s.state != expected then (Done(false), s) else (ReadJtag, s.(state := ConfigInProgress))
    case ReadJtag => (ReadUsb(s.jtagCable), s)
    case ReadUsb(jtag) =>
      if expected == Disabled || expected == Disabling || jtag || s.usbCable then (TckIn(jtag, s.usbCable), s)
      else (AfterInputs(expected, jtag, s.usbCable), s)
    case TckIn(jtag, usb) => (TdiIn(jtag, usb), s.(tck := Input))
    case TdiIn(jtag, usb) => (TmsIn(jtag, usb), s.(tdi := Input))
    case TmsIn(jtag, usb) => (AfterInputs(expected, jtag, usb), s.(tms := Input))
    case SelHigh => (TckOut, s.(jtagselHigh := true))
    case TckOut => (TdiOut, s.(tck := Output))
    case TdiOut => (TmsOut, s.(tdi := Output))
    case TmsOut => (SelByCable(false, false), s.(tms := Output))
    case SelByCable(jtag, usb) =>
      (StoreState, if jtag then s.(jtagselHigh := true) else if usb then s.(jtagselHigh := false) else s)
    case StoreState => (Done(true), s.(state := expected))
    case Done(_) => (u, s)
  }

  /** Past the first conditional: an update that enables gives up when there is a cable. */
  function AfterInputs(expected: ServerState, jtag: bool, usb: bool): Update
  {
    if expected == Enabled || expected == Enabling then if jtag || usb then Done(false) else SelHigh
    else SelByCable(jtag, usb)
  }

  /** What disabling returns to. An interrupted shift reports an error whatever happens. */
  function Return(caller: Caller, ok: bool): Task
  {
    Idle(ok && caller != FromShift)
  }

  /** The next step of a task that is in an operation. */
  function Advance(t: Task, s: Shared): (Task, Shared)
  {
    match t
    case Idle(_) => (t, s)
    case EnableEnter =>
      if s.state == Enabled then (Idle(true), s)
      else if s.state != Disabled then (Idle(false), s)
      else (EnableUpdate(CheckState), s.(state := Enabling))
    case EnableUpdate(Done(ok)) => (Idle(ok), s.(state := if ok then Enabled else Disabled))
    case EnableUpdate(u) =>
      var (u', s') := StepUpdate(Enabling, u, s);
      (EnableUpdate(u'), s')
    case DisableEnter(caller) =>
      if s.state == Disabled then (Return(caller, true), s)
      else if s.state == IoInProgress then (Return(caller, false), s.(state := DisableRequested, pending := true))
      else if s.state != Enabled then (Return(caller, false), s)
      else (DisableUpdate(CheckState, caller), s.(state := Disabling, pending := false))
    case DisableUpdate(Done(_), caller) => (Return(caller, true), s.(state := Disabled))
    case DisableUpdate(u, caller) =>
      var (u', s') := StepUpdate(Disabling, u, s);
      (DisableUpdate(u', caller), s')
    case JtagselReadJtag => (if s.jtagCable then JtagselReadState(true) else JtagselReadUsb, s)
    case JtagselReadUsb => (if s.usbCable then JtagselReadState(false) else Idle(true), s)
    case JtagselReadState(byJtag) =>
      (if s.state != Disabled then DisableEnter(FromJtagsel) else JtagselReadPin(byJtag), s)
    case JtagselReadPin(byJtag) => (if s.jtagselHigh != byJtag then JtagselUpdate(CheckState) else Idle(true), s)
    case JtagselUpdate(Done(_)) => (Idle(true), s)
    case JtagselUpdate(u) =>
      var (u', s') := StepUpdate(Disabled, u, s);
      (JtagselUpdate(u'), s')
    case ShiftEnter(bits) =>
      if s.state != Enabled then (Idle(false), s) else (Shifting(bits), s.(state := IoInProgress))
    case Shifting(bits) =>
      if bits > 0 then (Shifting(bits - 1), s)
      else if s.state == DisableRequested then (DisableEnter(FromShift), s.(state := Enabled))
      else (Idle(true), s.(state := Enabled))
  }

  /** Any number of tasks; only those in `shifters` call the shift operation. */
  datatype Config = Config(tasks: nat, shifters: set<nat>)

  datatype System = System(shared: Shared, tasks: seq<Task>)

  /** One step of somebody; a step that is not possible changes nothing. */
  datatype Action = Start(task: nat, op: Op) | Go(task: nat) | Cables(jtag: bool, usb: bool)

  function Initial(cfg: Config, jtag: bool, usb: bool, selHigh: bool): System
  {
    System(Shared(Disabled, Input, Input, Input, selHigh, jtag, usb, false), seq(cfg.tasks, _ => Idle(true)))
  }

  function Act(cfg: Config, sys: System, a: Action): System
  {
    match a
    case Start(i, op) =>
      if i < |sys.tasks| && sys.tasks[i].Idle? && (op.DoShift? ==> i in cfg.shifters) then
        sys.(tasks := sys.tasks[i := Begin(op)])
      else sys
    case Go(i) =>
      if i < |sys.tasks| then
        var (t, s) := Advance(sys.tasks[i], sys.shared);
        System(s, sys.tasks[i := t])
      else sys
    case Cables(jtag, usb) => sys.(shared := sys.shared.(jtagCable := jtag, usbCable := usb))
  }

  /** Every interleaving is a sequence of actions. */
  function Run(cfg: Config, sys: System, actions: seq<Action>): System
  {
    if actions == [] then sys
    else Act(cfg, Run(cfg, sys, actions[..|actions| - 1]), actions[|actions| - 1])
  }

  /** The task has taken the server out of a resting state and has not put it back. */
  predicate Owns(t: Task)
  {
    match t
    case EnableUpdate(_) => true
    case DisableUpdate(_, _) => true
    case JtagselUpdate(u) => u != CheckState && !u.Done?
    case Shifting(_) => true
    case _ => false
  }

  /** What the owner's position in an update says about the state and the pins. */
  predicate UpdateOk(expected: ServerState, u: Update, s: Shared)
  {
    && s.state == (if u == CheckState || u == Done(true) then expected else ConfigInProgress)
    && (u.ReadUsb? || u.ReadJtag? || u.CheckState? ==> expected != Disabling ==> s.PinsAre(Input))
    && match u
       case CheckState => true
       case ReadJtag => true
       case ReadUsb(_) => true
       case TckIn(jtag, usb) =>
         expected == Enabling ==> (jtag || usb) && s.PinsAre(Input)
       case TdiIn(jtag, usb) =>
         s.tck == Input && (expected == Enabling ==> (jtag || usb) && s.PinsAre(Input))
       case TmsIn(jtag, usb) =>
         s.tck == s.tdi == Input && (expected == Enabling ==> (jtag || usb) && s.PinsAre(Input))
       case SelHigh => expected == Enabling && s.PinsAre(Input)
       case TckOut => expected == Enabling && s.PinsAre(Input) && s.jtagselHigh
       case TdiOut => expected == Enabling && s.tck == Output && s.tdi == s.tms == Input && s.jtagselHigh
       case TmsOut => expected == Enabling && s.tck == s.tdi == Output && s.tms == Input && s.jtagselHigh
       case SelByCable(jtag, usb) =>
         if expected == Enabling then !jtag && !usb && s.PinsAre(Output) && s.jtagselHigh else s.PinsAre(Input)
       case StoreState =>
         if expected == Enabling then s.PinsAre(Output) && s.jtagselHigh else s.PinsAre(Input)
       case Done(true) =>
         if expected == Enabling then s.PinsAre(Output) && s.jtagselHigh else s.PinsAre(Input)
       case Done(false) => expected == Enabling && s.PinsAre(Input)
  }

  /** The shared variables agree with the position of the owner, or of an idle task if there is
      no owner. */
  predicate LockOk(s: Shared, owner: Task)
  {
    match owner
    case EnableUpdate(u) => UpdateOk(Enabling, u, s)
    case DisableUpdate(u, _) => UpdateOk(Disabling, u, s)
    case JtagselUpdate(u) => UpdateOk(Disabled, u, s)
    case Shifting(_) =>
      (s.state == IoInProgress || s.state == DisableRequested) && s.PinsAre(Output) && s.jtagselHigh
    case _ =>
      || (s.state == Disabled && s.PinsAre(Input))
      || (s.state == Enabled && s.PinsAre(Output) && s.jtagselHigh)
  }

  /** Task `o` is the one owner, or `o` is no task and nobody owns. */
  ghost predicate OwnedBy(sys: System, o: int)
  {
    && -1 <= o < |sys.tasks|
    && (forall i: nat | i < |sys.tasks| :: Owns(sys.tasks[i]) <==> i == o)
    && LockOk(sys.shared, if o < 0 then Idle(true) else sys.tasks[o])
  }

  ghost predicate Inv(sys: System)
  {
    exists o :: OwnedBy(sys, o)
  }

  lemma UpdateStep(expected: ServerState, u: Update, s: Shared)
    requires expected == Enabling || expected == Disabling || expected == Disabled
    requires UpdateOk(expected, u, s) && !u.Done?
    ensures var (u', s') := StepUpdate(expected, u, s); UpdateOk(expected, u', s') && s'.pending == s.pending
  {
  }

  /** A step of the owner keeps the agreement, or gives the lock up. */
  lemma OwnerStep(t: Task, s: Shared)
    requires Owns(t) && LockOk(s, t)
    ensures var (t', s') := Advance(t, s); LockOk(s', if Owns(t') then t' else Idle(true))
  {
    match t {
      case EnableUpdate(u) => if !u.Done? { UpdateStep(Enabling, u, s); hide StepUpdate; }
      case DisableUpdate(u, _) => if !u.Done? { UpdateStep(Disabling, u, s); hide StepUpdate; }
      case JtagselUpdate(u) => UpdateStep(Disabled, u, s); hide StepUpdate;
      case Shifting(_) =>
    }
  }

  /** A step of another task leaves the owner's agreement alone; it takes the lock only when
      nobody has it. */
  lemma OtherStep(t: Task, s: Shared, owner: Task)
    requires !Owns(t) && LockOk(s, owner) && (Owns(owner) || owner == Idle(true))
    ensures var (t', s') := Advance(t, s);
      if Owns(t') then !Owns(owner) && LockOk(s', t') else LockOk(s', owner)
  {
  }

  lemma CablesStep(s: Shared, owner: Task, jtag: bool, usb: bool)
    requires LockOk(s, owner)
    ensures LockOk(s.(jtagCable := jtag, usbCable := usb), owner)
  {
  }

  /** Every action of every task or of the environment keeps the invariant. */
  lemma ActKeepsInv(cfg: Config, sys: System, a: Action)
    requires Inv(sys)
    ensures Inv(Act(cfg, sys, a))
  {
    hide LockOk, Advance;
    var o :| OwnedBy(sys, o);
    var sys' := Act(cfg, sys, a);
    match a {
      case Start(i, op) =>
        assert OwnedBy(sys', o);
      case Cables(jtag, usb) =>
        CablesStep(sys.shared, if o < 0 then Idle(true) else sys.tasks[o], jtag, usb);
        assert OwnedBy(sys', o);
      case Go(i) =>
        if i < |sys.tasks| {
          var t := sys.tasks[i];
          var (t', s') := Advance(t, sys.shared);
          if i == o {
            OwnerStep(t, sys.shared);
            assert OwnedBy(sys', if Owns(t') then i else -1);
          } else {
            OtherStep(t, sys.shared, if o < 0 then Idle(true) else sys.tasks[o]);
            assert OwnedBy(sys', if Owns(t') then i else o);
          }
        } else {
          assert OwnedBy(sys', o);
        }
    }
  }

  /** The invariant holds in every state of every interleaving. */
  lemma {:induction false} RunKeepsInv(cfg: Config, sys: System, actions: seq<Action>)
    requires Inv(sys)
    ensures Inv(Run(cfg, sys, actions))
  {
    if actions != [] {
      RunKeepsInv(cfg, sys, actions[..|actions| - 1]);
      ActKeepsInv(cfg, Run(cfg, sys, actions[..|actions| - 1]), actions[|actions| - 1]);
    }
  }

  /** A state that some interleaving reaches from power-up. */
  ghost predicate Reachable(cfg: Config, sys: System)
  {
    exists jtag, usb, selHigh, actions :: sys == Run(cfg, Initial(cfg, jtag, usb, selHigh), actions)
  }

  lemma ReachableInv(cfg: Config, sys: System)
    requires Reachable(cfg, sys)
    ensures Inv(sys)
  {
    var jtag, usb, selHigh, actions :| sys == Run(cfg, Initial(cfg, jtag, usb, selHigh), actions);
    assert OwnedBy(Initial(cfg, jtag, usb, selHigh), -1);
    RunKeepsInv(cfg, Initial(cfg, jtag, usb, selHigh), actions);
  }

  predicate Resting(s: ServerState) { s == Disabled || s == Enabled }

  /** Mutual exclusion: a transitional state has exactly one owning task, a resting state none;
      so once nobody is in an operation the state is DISABLED or ENABLED. */
  lemma OneOwner(cfg: Config, sys: System)
    requires Reachable(cfg, sys)
    ensures Resting(sys.shared.state) <==> forall i: nat | i < |sys.tasks| :: !Owns(sys.tasks[i])
    ensures forall i: nat, j: nat | i < |sys.tasks| && j < |sys.tasks| && Owns(sys.tasks[i]) && Owns(sys.tasks[j]) :: i == j
    ensures (forall t | t in sys.tasks :: t.Idle?) ==> Resting(sys.shared.state)
  {
    ReachableInv(cfg, sys);
    var o :| OwnedBy(sys, o);
    if o < 0 {
    } else {
      assert Owns(sys.tasks[o]) && sys.tasks[o] in sys.tasks;
    }
  }

  /** The states of an owning task: the check in the pin update cannot fail for a task that
      enables or disables, and a disabling update always completes. */
  lemma CheckNeverFails(cfg: Config, sys: System, i: nat)
    requires Reachable(cfg, sys) && i < |sys.tasks|
    ensures sys.tasks[i] == EnableUpdate(CheckState) ==> sys.shared.state == Enabling
    ensures sys.tasks[i].DisableUpdate? ==> sys.tasks[i].u != Done(false)
    ensures sys.tasks[i].DisableUpdate? && sys.tasks[i].u == CheckState ==> sys.shared.state == Disabling
  {
    ReachableInv(cfg, sys);
    var o :| OwnedBy(sys, o);
    assert Owns(sys.tasks[i]) ==> i == o;
  }

  /** While a task shifts, no other task is inside an update of the pins, whose modes and JTAGSEL
      stay as shifting needs them. */
  lemma PinsHeldDuringShift(cfg: Config, sys: System, i: nat)
    requires Reachable(cfg, sys) && i < |sys.tasks| && sys.tasks[i].Shifting?
    ensures sys.shared.PinsAre(Output) && sys.shared.jtagselHigh
    ensures sys.shared.state == IoInProgress || sys.shared.state == DisableRequested
    ensures forall j: nat | j < |sys.tasks| && j != i :: !Owns(sys.tasks[j])
  {
    ReachableInv(cfg, sys);
    var o :| OwnedBy(sys, o);
    assert i == o;
  }

  /** Pins and state agree whatever the cables do and however an operation ends. */
  lemma PinsAgreeWithState(cfg: Config, sys: System)
    requires Reachable(cfg, sys)
    ensures var s := sys.shared;
      && (s.state == Disabled ==> s.PinsAre(Input))
      && (s.state == Enabled || s.state == IoInProgress || s.state == DisableRequested ==>
            s.PinsAre(Output) && s.jtagselHigh)
  {
    ReachableInv(cfg, sys);
    var o :| OwnedBy(sys, o);
    if o >= 0 {
      assert Owns(sys.tasks[o]);
    }
  }

  /** An operation never waits for another task: each of its own steps brings it closer to its
      end, whatever the shared variables are. */
  function StepsLeft(t: Task): nat
  {
    match t
    case Idle(_) => 0
    case EnableEnter => 15
    case EnableUpdate(u) => 1 + UpdateStepsLeft(u)
    case DisableEnter(_) => 15
    case DisableUpdate(u, _) => 1 + UpdateStepsLeft(u)
    case JtagselReadJtag => 18
    case JtagselReadUsb => 17
    case JtagselReadState(_) => 16
    case JtagselReadPin(_) => 15
    case JtagselUpdate(u) => 1 + UpdateStepsLeft(u)
    case ShiftEnter(bits) => bits + 17
    case Shifting(bits) => bits + 16
  }

  function UpdateStepsLeft(u: Update): (n: nat)
    ensures n <= 13
  {
    match u
    case CheckState => 13
    case ReadJtag => 12
    case ReadUsb(_) => 11
    case TckIn(_, _) => 10
    case TdiIn(_, _) => 9
    case TmsIn(_, _) => 8
    case SelHigh => 7
    case TckOut => 6
    case TdiOut => 5
    case TmsOut => 4
    case SelByCable(_, _) => 3
    case StoreState => 2
    case Done(_) => 0
  }

  lemma OperationsEnd(t: Task, s: Shared)
    requires !t.Idle?
    ensures StepsLeft(Advance(t, s).0) < StepsLeft(t)
  {
  }

  /** A task inside a shift, or inside the disabling that a shift has put off. */
  predicate InShift(t: Task)
  {
    t.ShiftEnter? || t.Shifting? || t == DisableEnter(FromShift) || (t.DisableUpdate? && t.caller == FromShift)
  }

  /** The task is bound to report an error. */
  predicate WillFail(t: Task)
  {
    t == Idle(false) || t == DisableEnter(FromShift) || (t.DisableUpdate? && t.caller == FromShift)
  }

  lemma ActKeepsFailing(cfg: Config, sys: System, i: nat, a: Action)
    requires i < |sys.tasks| && WillFail(sys.tasks[i]) && !(a.Start? && a.task == i)
    ensures var sys' := Act(cfg, sys, a); i < |sys'.tasks| && WillFail(sys'.tasks[i])
  {
  }

  /** A shift that finds a recorded request after its last bit ends in an error, whatever the other
      tasks do meanwhile; a shift that finds none ends well at once. */
  lemma {:induction false} InterruptedShiftFails(cfg: Config, sys: System, i: nat, actions: seq<Action>)
    requires i < |sys.tasks| && sys.tasks[i] == Shifting(0)
    requires forall a | a in actions :: !(a.Start? && a.task == i)
    ensures var after := Run(cfg, Act(cfg, sys, Go(i)), actions);
      && i < |after.tasks|
      && (sys.shared.state == DisableRequested ==> WillFail(after.tasks[i]))
      && (sys.shared.state != DisableRequested ==> after.tasks[i] == Idle(true))
  {
    if actions != [] {
      var n := |actions| - 1;
      InterruptedShiftFails(cfg, sys, i, actions[..n]);
      var before := Run(cfg, Act(cfg, sys, Go(i)), actions[..n]);
      if sys.shared.state == DisableRequested {
        ActKeepsFailing(cfg, before, i, actions[n]);
      }
    }
  }

  /** Task `i` is about to begin driving the pins. */
  predicate ShiftStarts(sys: System, i: nat)
    requires i < |sys.tasks|
  {
    sys.tasks[i].ShiftEnter? && sys.shared.state == Enabled
  }

  /** No shift starts between the recording of a request to disable and DISABLING. */
  ghost predicate DefersDisable(cfg: Config)
  {
    forall sys, i: nat | Reachable(cfg, sys) && i < |sys.tasks| && ShiftStarts(sys, i) :: !sys.shared.pending
  }

  predicate OneShifter(cfg: Config)
  {
    forall a, b | a in cfg.shifters && b in cfg.shifters && a < cfg.tasks && b < cfg.tasks :: a == b
  }

  /** With one shifting task `t`, a recorded request is still known: to the state while `t`
      shifts, then to `t`, which disables the server before it does anything else. */
  ghost predicate PendingOk(sys: System, t: nat)
  {
    && (forall i: nat | i < |sys.tasks| && i != t :: !InShift(sys.tasks[i]))
    && (sys.shared.pending ==>
          && t < |sys.tasks|
          && ((sys.tasks[t].Shifting? && sys.shared.state == DisableRequested)
              || (sys.tasks[t] == DisableEnter(FromShift) && sys.shared.state == Enabled)))
  }

  lemma ActKeepsPending(cfg: Config, sys: System, t: nat, a: Action)
    requires Inv(sys) && PendingOk(sys, t) && |sys.tasks| == cfg.tasks
    requires forall b | b in cfg.shifters && b < cfg.tasks :: b == t
    ensures PendingOk(Act(cfg, sys, a), t)
  {
    var o :| OwnedBy(sys, o);
    if a.Go? && a.task < |sys.tasks| {
      var i := a.task;
      if i != t {
        assert Owns(sys.tasks[i]) ==> i == o;
        assert t < |sys.tasks| && sys.tasks[t].Shifting? ==> o == t;
        OtherPending(sys.tasks[i], sys.shared, if t < |sys.tasks| then sys.tasks[t] else Idle(true), o == i);
      } else {
        assert sys.tasks[t].Shifting? ==> o == t;
      }
      hide LockOk, UpdateOk;
    }
  }

  lemma OtherPending(u: Task, s: Shared, shifter: Task, owns: bool)
    requires !InShift(u) && Owns(u) == owns
    requires owns ==> LockOk(s, u) && !shifter.Shifting?
    requires s.pending ==>
      (shifter.Shifting? && s.state == DisableRequested) || (shifter == DisableEnter(FromShift) && s.state == Enabled)
    requires shifter.Shifting? ==> s.state == IoInProgress || s.state == DisableRequested
    requires s.state == IoInProgress ==> shifter.Shifting?
    ensures var (u', s') := Advance(u, s);
      && !InShift(u')
      && (s'.pending ==>
            (shifter.Shifting? && s'.state == DisableRequested) || (shifter == DisableEnter(FromShift) && s'.state == Enabled))
  {
  }

  lemma {:induction false} RunKeepsPending(cfg: Config, sys: System, t: nat, actions: seq<Action>)
    requires Inv(sys) && PendingOk(sys, t) && |sys.tasks| == cfg.tasks
    requires forall b | b in cfg.shifters && b < cfg.tasks :: b == t
    ensures PendingOk(Run(cfg, sys, actions), t) && |Run(cfg, sys, actions).tasks| == cfg.tasks
  {
    if actions != [] {
      var n := |actions| - 1;
      RunKeepsPending(cfg, sys, t, actions[..n]);
      RunKeepsInv(cfg, sys, actions[..n]);
      ActKeepsPending(cfg, Run(cfg, sys, actions[..n]), t, actions[n]);
      hide PendingOk, Inv, Advance;
    }
  }

  lemma ReachablePending(cfg: Config, sys: System) returns (t: nat)
    requires Reachable(cfg, sys) && OneShifter(cfg)
    ensures PendingOk(sys, t) && |sys.tasks| == cfg.tasks
  {
    if b :| b in cfg.shifters && b < cfg.tasks {
      t := b;
    } else {
      t := cfg.tasks;
    }
    var jtag, usb, selHigh, actions :| sys == Run(cfg, Initial(cfg, jtag, usb, selHigh), actions);
    assert OwnedBy(Initial(cfg, jtag, usb, selHigh), -1);
    RunKeepsPending(cfg, Initial(cfg, jtag, usb, selHigh), t, actions);
  }

  /** Once the only shifting task is idle again, no request is left over: the server has been
      through DISABLING since. */
  lemma DisabledBeforeReturn(cfg: Config, sys: System)
    requires Reachable(cfg, sys) && OneShifter(cfg)
    requires forall i: nat | i < |sys.tasks| && i in cfg.shifters :: sys.tasks[i].Idle?
    ensures !sys.shared.pending
  {
    var t := ReachablePending(cfg, sys);
    if sys.shared.pending {
      var jtag, usb, selHigh, actions :| sys == Run(cfg, Initial(cfg, jtag, usb, selHigh), actions);
      ShiftersOnly(cfg, Initial(cfg, jtag, usb, selHigh), actions);
    }
  }

  lemma {:induction false} ShiftersOnly(cfg: Config, sys: System, actions: seq<Action>)
    requires forall i: nat | i < |sys.tasks| && InShift(sys.tasks[i]) :: i in cfg.shifters
    ensures var after := Run(cfg, sys, actions);
      forall i: nat | i < |after.tasks| && InShift(after.tasks[i]) :: i in cfg.shifters
  {
    if actions != [] {
      ShiftersOnly(cfg, sys, actions[..|actions| - 1]);
    }
  }

  lemma Step(cfg: Config, sys: System, a: Action) returns (sys': System)
    requires Reachable(cfg, sys)
    ensures sys' == Act(cfg, sys, a) && Reachable(cfg, sys')
  {
    var jtag, usb, selHigh, actions :| sys == Run(cfg, Initial(cfg, jtag, usb, selHigh), actions);
    sys' := Act(cfg, sys, a);
    assert (actions + [a])[..|actions|] == actions;
    assert sys' == Run(cfg, Initial(cfg, jtag, usb, selHigh), actions + [a]);
  }

  /** `n` steps of a task while nobody else moves. */
  function Solo(t: Task, s: Shared, n: nat): (Task, Shared)
  {
    if n == 0 then (t, s) else var (t', s') := Solo(t, s, n - 1); Advance(t', s')
  }

  lemma {:induction false} SoloSteps(cfg: Config, sys: System, i: nat, n: nat) returns (sys': System)
    requires Reachable(cfg, sys) && i < |sys.tasks|
    ensures Reachable(cfg, sys')
    ensures var (t, s) := Solo(sys.tasks[i], sys.shared, n); sys' == System(s, sys.tasks[i := t])
  {
    hide Advance, Reachable;
    if n == 0 {
      sys' := sys;
      assert sys.tasks[i := sys.tasks[i]] == sys.tasks;
    } else {
      sys' := SoloSteps(cfg, sys, i, n - 1);
      sys' := Step(cfg, sys', Go(i));
    }
  }

  lemma SoloUpdate(s: Shared, n: nat, u: Update, s': Shared, u'': Update, s'': Shared)
    requires Solo(EnableEnter, s, n) == (EnableUpdate(u), s') && !u.Done?
    requires StepUpdate(Enabling, u, s') == (u'', s'')
    ensures Solo(EnableEnter, s, n + 1) == (EnableUpdate(u''), s'')
  {
    hide StepUpdate;
  }

  /** The pins and the state of a server that has just been enabled without a cable. */
  const READY: Shared := Shared(Enabled, Output, Output, Output, true, false, false, false)
  const RESET: Shared := Shared(Disabled, Input, Input, Input, false, false, false, false)

  const CONFIGURING: Shared := RESET.(state := ConfigInProgress, jtagselHigh := true)

  lemma EnableSoloHalf()
    ensures Solo(EnableEnter, RESET, 5) == (EnableUpdate(TckOut), CONFIGURING)
  {
    var s0 := RESET.(state := Enabling);
    assert Solo(EnableEnter, RESET, 1) == (EnableUpdate(CheckState), s0);
    var s1 := RESET.(state := ConfigInProgress);
    hide Solo, Advance;
    SoloUpdate(RESET, 1, CheckState, s0, ReadJtag, s1);
    SoloUpdate(RESET, 2, ReadJtag, s1, ReadUsb(false), s1);
    SoloUpdate(RESET, 3, ReadUsb(false), s1, SelHigh, s1);
    SoloUpdate(RESET, 4, SelHigh, s1, TckOut, CONFIGURING);
  }

  lemma EnableSolo()
    ensures Solo(EnableEnter, RESET, 11) == (Idle(true), READY)
  {
    var s3 := CONFIGURING.(tck := Output);
    var s4 := s3.(tdi := Output);
    var s5 := s4.(tms := Output);
    var s6 := s5.(state := Enabling);
    hide Solo, Advance;
    EnableSoloHalf();
    SoloUpdate(RESET, 5, TckOut, CONFIGURING, TdiOut, s3);
    SoloUpdate(RESET, 6, TdiOut, s3, TmsOut, s4);
    SoloUpdate(RESET, 7, TmsOut, s4, SelByCable(false, false), s5);
    SoloUpdate(RESET, 8, SelByCable(false, false), s5, StoreState, s5);
    SoloUpdate(RESET, 9, StoreState, s5, Done(true), s6);
    EnableEnds(s6);
  }

  lemma EnableEnds(s: Shared)
    ensures Solo(EnableEnter, RESET, 10) == (EnableUpdate(Done(true)), s) ==>
      Solo(EnableEnter, RESET, 11) == (Idle(true), s.(state := Enabled))
  {
    hide StepUpdate;
  }

  lemma ReadyReachable(cfg: Config, a: nat) returns (sys: System)
    requires a < cfg.tasks
    ensures Reachable(cfg, sys) && sys.shared == READY
    ensures |sys.tasks| == cfg.tasks && forall i: nat | i < cfg.tasks :: sys.tasks[i] == Idle(true)
  {
    sys := Initial(cfg, false, false, false);
    assert sys == Run(cfg, sys, []);
    hide Reachable, Solo, Advance;
    sys := Step(cfg, sys, Start(a, Enable));
    EnableSolo();
    sys := SoloSteps(cfg, sys, a, 11);
  }

  /** Two shifting tasks: while `a` shifts, `b` asks for the server to be disabled; between the
      moment `a` puts ENABLED back and its call to disable, `b` can start a shift. */
  lemma SecondShifterSlipsIn(cfg: Config, a: nat, b: nat) returns (sys: System)
    requires a < cfg.tasks && b < cfg.tasks && a != b && a in cfg.shifters && b in cfg.shifters
    ensures Reachable(cfg, sys) && b < |sys.tasks| && ShiftStarts(sys, b) && sys.shared.pending
  {
    hide Reachable;
    sys := ReadyReachable(cfg, a);
    sys := Step(cfg, sys, Start(a, DoShift(1)));
    sys := Step(cfg, sys, Go(a));
    assert sys.tasks[a] == Shifting(1) && sys.tasks[b] == Idle(true) && sys.shared == READY.(state := IoInProgress);
    sys := Step(cfg, sys, Start(b, Disable));
    sys := Step(cfg, sys, Go(b));
    assert sys.tasks[a] == Shifting(1) && sys.tasks[b] == Idle(false);
    assert sys.shared == READY.(state := DisableRequested, pending := true);
    sys := Step(cfg, sys, Go(a));
    sys := Step(cfg, sys, Go(a));
    assert sys.tasks[b] == Idle(false) && sys.shared == READY.(pending := true);
    sys := Step(cfg, sys, Start(b, DoShift(1)));
  }

  /** The deferred disable holds exactly when at most one task shifts. */
  lemma DefersDisableIff(cfg: Config)
    ensures DefersDisable(cfg) <==> OneShifter(cfg)
  {
    if OneShifter(cfg) {
      forall sys, i: nat | Reachable(cfg, sys) && i < |sys.tasks| && ShiftStarts(sys, i)
        ensures !sys.shared.pending
      {
        var t := ReachablePending(cfg, sys);
      }
    } else {
      var a, b :| a in cfg.shifters && b in cfg.shifters && a < cfg.tasks && b < cfg.tasks && a != b;
      var sys := SecondShifterSlipsIn(cfg, a, b);
    }
  }
}
