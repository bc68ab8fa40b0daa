/** What the operations on the XVC server's state make of the cables that they find. */
module XvcCables {
  import opened XvcLock

  /** What a cable line has shown. */
  datatype Line = Unread | Free | Plugged

  function Shows(plugged: bool): Line { if plugged then Plugged else Free }

  /** A task's notes on its current update: JTAGSEL when it began, and the two lines as they were when
      it looked at them. */
  datatype Note = Note(before: bool, jtag: Line, usb: Line)

  /** JTAGSEL as the two readings call for it: high for the JTAG header, which goes first, low for the
      on-board adapter, and otherwise left alone. */
  function Called(n: Note): bool
  {
    if n.jtag == Plugged then true else if n.usb == Plugged then false else n.before
  }

  /** A run with the notes of all tasks. */
  datatype Noted = Noted(sys: System, notes: seq<Note>)

  /** Where a task is in an update. */
  function Place(t: Task): Update
  {
    match t
    case EnableUpdate(u) => u
    case DisableUpdate(u, _) => u
    case JtagselUpdate(u) => u
    case _ => Done(true)
  }

  function TakeNote(t: Task, s: Shared, n: Note): Note
  {
    match Place(t)
    case CheckState => Note(s.jtagselHigh, Unread, Unread)
    case ReadJtag => n.(jtag := Shows(s.jtagCable))
    case ReadUsb(_) => n.(usb := Shows(s.usbCable))
    case _ => n
  }

  function ActNoted(cfg: Config, w: Noted, a: Action): (w': Noted)
    requires |w.notes| == |w.sys.tasks|
    ensures |w'.notes| == |w'.sys.tasks| && w'.sys == Act(cfg, w.sys, a)
  {
    var notes :=
      if a.Go? && a.task < |w.notes| then
        w.notes[a.task := TakeNote(w.sys.tasks[a.task], w.sys.shared, w.notes[a.task])]
      else w.notes;
    Noted(Act(cfg, w.sys, a), notes)
  }

  function RunNoted(cfg: Config, w: Noted, actions: seq<Action>): (w': Noted)
    requires |w.notes| == |w.sys.tasks|
    ensures |w'.notes| == |w'.sys.tasks| && w'.sys == Run(cfg, w.sys, actions)
  {
    if actions == [] then w
    else ActNoted(cfg, RunNoted(cfg, w, actions[..|actions| - 1]), actions[|actions| - 1])
  }

  /** A state and notes that some interleaving reaches from power-up. */
  ghost predicate ReachableNoted(cfg: Config, w: Noted)
  {
    exists jtag, usb, selHigh, actions, notes ::
      && |notes| == |Initial(cfg, jtag, usb, selHigh).tasks|
      && w == RunNoted(cfg, Noted(Initial(cfg, jtag, usb, selHigh), notes), actions)
  }

  /** The notes agree with the place that the update `u` has come to. */
  predicate NoteOk(expected: ServerState, u: Update, n: Note, s: Shared)
  {
    var read, plugged := n.jtag != Unread && n.usb != Unread, n.jtag == Plugged || n.usb == Plugged;
    match u
    case CheckState => true
    case ReadJtag => s.jtagselHigh == n.before
    case ReadUsb(jtag) => n.jtag == Shows(jtag) && s.jtagselHigh == n.before
    case TckIn(jtag, usb) => n == Note(s.jtagselHigh, Shows(jtag), Shows(usb))
    case TdiIn(jtag, usb) => n == Note(s.jtagselHigh, Shows(jtag), Shows(usb))
    case TmsIn(jtag, usb) => n == Note(s.jtagselHigh, Shows(jtag), Shows(usb))
    case SelHigh => expected == Enabling && read && !plugged
    case TckOut => expected == Enabling && read && !plugged
    case TdiOut => expected == Enabling && read && !plugged
    case TmsOut => expected == Enabling && read && !plugged
    case SelByCable(jtag, usb) =>
      if expected == Enabling then read && !plugged else n == Note(s.jtagselHigh, Shows(jtag), Shows(usb))
    case StoreState => if expected == Enabling then read && !plugged else read && s.jtagselHigh == Called(n)
    case Done(ok) =>
      && read && (expected == Enabling ==> (ok <==> !plugged) && (!ok ==> s.jtagselHigh == n.before))
      && (expected != Enabling ==> s.jtagselHigh == Called(n))
  }

  /** The notes of the task that owns the state. */
  predicate OwnerNoteOk(t: Task, n: Note, s: Shared)
  {
    match t
    case EnableUpdate(u) => NoteOk(Enabling, u, n, s)
    case DisableUpdate(u, _) => NoteOk(Disabling, u, n, s)
    case JtagselUpdate(u) => NoteOk(Disabled, u, n, s)
    case _ => true
  }

  ghost predicate NotesOk(w: Noted)
  {
    && |w.notes| == |w.sys.tasks|
    && forall i: nat | i < |w.notes| && Owns(w.sys.tasks[i]) :: OwnerNoteOk(w.sys.tasks[i], w.notes[i], w.sys.shared)
  }

  lemma NoteStep(expected: ServerState, u: Update, n: Note, s: Shared, t: Task)
    requires expected == Enabling || expected == Disabling || expected == Disabled
    requires Place(t) == u && NoteOk(expected, u, n, s) && !u.Done? && (u == CheckState ==> s.state == expected)
    ensures var (u', s') := StepUpdate(expected, u, s); NoteOk(expected, u', TakeNote(t, s, n), s')
  {
  }

  lemma OwnerNoteStep(t: Task, n: Note, s: Shared)
    requires Owns(t) && LockOk(s, t) && OwnerNoteOk(t, n, s)
    ensures var (t', s') := Advance(t, s); Owns(t') ==> OwnerNoteOk(t', TakeNote(t, s, n), s')
  {
    match t {
      case EnableUpdate(u) => if !u.Done? { NoteStep(Enabling, u, n, s, t); hide StepUpdate; }
      case DisableUpdate(u, _) => if !u.Done? { NoteStep(Disabling, u, n, s, t); hide StepUpdate; }
      case JtagselUpdate(u) => NoteStep(Disabled, u, n, s, t); hide StepUpdate;
      case Shifting(_) =>
    }
  }

  /** A task that does not own the state does not move JTAGSEL, and when it takes the state over its
      notes are in order. */
  lemma OtherNoteStep(t: Task, n: Note, s: Shared)
    requires !Owns(t)
    ensures var (t', s') := Advance(t, s);
      s'.jtagselHigh == s.jtagselHigh && (Owns(t') ==> OwnerNoteOk(t', TakeNote(t, s, n), s'))
  {
  }

  lemma NoteOkDependsOnSel(t: Task, n: Note, s: Shared, s': Shared)
    requires OwnerNoteOk(t, n, s) && s'.jtagselHigh == s.jtagselHigh
    ensures OwnerNoteOk(t, n, s')
  {
  }

  lemma ActKeepsNotes(cfg: Config, w: Noted, a: Action)
    requires Inv(w.sys) && NotesOk(w)
    ensures NotesOk(ActNoted(cfg, w, a))
  {
    hide LockOk, Advance, OwnerNoteOk, TakeNote;
    var o :| OwnedBy(w.sys, o);
    var w' := ActNoted(cfg, w, a);
    var s, s' := w.sys.shared, w'.sys.shared;
    forall i: nat | i < |w'.notes| && Owns(w'.sys.tasks[i])
      ensures OwnerNoteOk(w'.sys.tasks[i], w'.notes[i], s')
    {
      if a.Go? && a.task < |w.notes| {
        var t, n := w.sys.tasks[a.task], w.notes[a.task];
        if Owns(t) {
          OwnerNoteStep(t, n, s);
        } else {
          OtherNoteStep(t, n, s);
        }
        if i != a.task && Owns(w.sys.tasks[i]) && !Owns(t) {
          NoteOkDependsOnSel(w.sys.tasks[i], w.notes[i], s, s');
        }
      } else if Owns(w.sys.tasks[i]) {
        NoteOkDependsOnSel(w.sys.tasks[i], w.notes[i], s, s');
      }
    }
  }

  lemma {:induction false} RunKeepsNotes(cfg: Config, w: Noted, actions: seq<Action>)
    requires Inv(w.sys) && NotesOk(w)
    ensures NotesOk(RunNoted(cfg, w, actions)) && Inv(RunNoted(cfg, w, actions).sys)
  {
    RunKeepsInv(cfg, w.sys, actions);
    if actions != [] {
      var n := |actions| - 1;
      RunKeepsNotes(cfg, w, actions[..n]);
      ActKeepsNotes(cfg, RunNoted(cfg, w, actions[..n]), actions[n]);
    }
  }

  lemma ReachableNotesOk(cfg: Config, w: Noted)
    requires ReachableNoted(cfg, w)
    ensures NotesOk(w) && Inv(w.sys)
  {
    var jtag, usb, selHigh, actions, notes :|
      && |notes| == |Initial(cfg, jtag, usb, selHigh).tasks|
      && w == RunNoted(cfg, Noted(Initial(cfg, jtag, usb, selHigh), notes), actions);
    var init := Initial(cfg, jtag, usb, selHigh);
    assert OwnedBy(init, -1);
    RunKeepsNotes(cfg, Noted(init, notes), actions);
  }

  /** Over every interleaving: an enabling task that comes to its end has looked at both lines. If either
      showed a cable it fails, and leaves the server disabled with input pins and JTAGSEL as it was;
      otherwise it succeeds, and leaves it enabled with output pins and JTAGSEL high. */
  lemma EnableByCables(cfg: Config, w: Noted, i: nat)
    requires ReachableNoted(cfg, w) && i < |w.sys.tasks| && i < |w.notes|
    requires w.sys.tasks[i].EnableUpdate? && w.sys.tasks[i].u.Done?
    ensures var n, after := w.notes[i], ActNoted(cfg, w, Go(i)).sys;
      && n.jtag != Unread && n.usb != Unread && i < |after.tasks|
      && (if n.jtag == Plugged || n.usb == Plugged then
            && after.tasks[i] == Idle(false) && after.shared.state == Disabled
            && after.shared.PinsAre(Input) && after.shared.jtagselHigh == n.before
          else
            && after.tasks[i] == Idle(true) && after.shared.state == Enabled
            && after.shared.PinsAre(Output) && after.shared.jtagselHigh)
  {
    ReachableNotesOk(cfg, w);
    var o :| OwnedBy(w.sys, o);
    assert Owns(w.sys.tasks[i]) && o == i;
  }

  /** Over every interleaving: a disabling or a direct update of JTAGSEL that comes to storing the state
      has looked at both lines, and leaves input pins and JTAGSEL as its readings call for it. */
  lemma JtagselByCables(cfg: Config, w: Noted, i: nat)
    requires ReachableNoted(cfg, w) && i < |w.sys.tasks| && i < |w.notes|
    requires w.sys.tasks[i].DisableUpdate? || w.sys.tasks[i].JtagselUpdate?
    requires w.sys.tasks[i].u == StoreState
    ensures var n, after := w.notes[i], ActNoted(cfg, w, Go(i)).sys.shared;
      && n.jtag != Unread && n.usb != Unread && after.PinsAre(Input)
      && after.jtagselHigh == (n.jtag == Plugged || (n.usb != Plugged && n.before))
      && after.state == if w.sys.tasks[i].JtagselUpdate? then Disabled else Disabling
  {
    ReachableNotesOk(cfg, w);
    var o :| OwnedBy(w.sys, o);
    assert Owns(w.sys.tasks[i]) && o == i;
  }

  /** A disabling that comes to its end succeeds, or has interrupted a shift, and leaves the server
      disabled with input pins and JTAGSEL as its readings call for it. */
  lemma DisableByCables(cfg: Config, w: Noted, i: nat)
    requires ReachableNoted(cfg, w) && i < |w.sys.tasks| && i < |w.notes|
    requires w.sys.tasks[i].DisableUpdate? && w.sys.tasks[i].u.Done?
    ensures var n, after := w.notes[i], ActNoted(cfg, w, Go(i)).sys;
      && n.jtag != Unread && n.usb != Unread && i < |after.tasks|
      && after.tasks[i] == Idle(w.sys.tasks[i].caller != FromShift)
      && after.shared.state == Disabled && after.shared.PinsAre(Input)
      && after.shared.jtagselHigh == (n.jtag == Plugged || (n.usb != Plugged && n.before))
  {
    ReachableNotesOk(cfg, w);
    var o :| OwnedBy(w.sys, o);
    assert Owns(w.sys.tasks[i]) && o == i;
  }

  /** A task alone, to the end of its operation. */
  function Finish(t: Task, s: Shared): (r: (bool, Shared))
    decreases StepsLeft(t)
  {
    if t.Idle? then (t.ok, s)
    else
      OperationsEnd(t, s);
      var (t', s') := Advance(t, s);
      Finish(t', s')
  }

  /** An update alone, to its end. */
  function UpdateEnd(expected: ServerState, u: Update, s: Shared): (r: (bool, Shared))
    decreases UpdateStepsLeft(u)
  {
    if u.Done? then (u.ok, s)
    else
      UpdateNearer(expected, u, s);
      var (u', s') := StepUpdate(expected, u, s);
      UpdateEnd(expected, u', s')
  }

  lemma UpdateNearer(expected: ServerState, u: Update, s: Shared)
    requires !u.Done?
    ensures UpdateStepsLeft(StepUpdate(expected, u, s).0) < UpdateStepsLeft(u)
  {
  }

  function Pins(s: Shared, mode: PinMode): Shared { s.(tck := mode, tdi := mode, tms := mode) }

  lemma EndOfInputs(expected: ServerState, jtag: bool, usb: bool, s: Shared)
    ensures UpdateEnd(expected, TckIn(jtag, usb), s) == UpdateEnd(expected, AfterInputs(expected, jtag, usb), Pins(s, Input))
  {
    var a := s.(tck := Input);
    var b := a.(tdi := Input);
    assert UpdateEnd(expected, TdiIn(jtag, usb), a) == UpdateEnd(expected, TmsIn(jtag, usb), b);
  }

  lemma EndOfOutputs(s: Shared)
    ensures UpdateEnd(Enabling, SelHigh, s) == (true, Pins(s, Output).(jtagselHigh := true, state := Enabling))
  {
    var a := s.(jtagselHigh := true);
    var b := a.(tck := Output);
    var c := b.(tdi := Output);
    var d := c.(tms := Output);
    EndOfSel(Enabling, false, false, d);
    assert UpdateEnd(Enabling, TmsOut, c) == UpdateEnd(Enabling, SelByCable(false, false), d);
    assert UpdateEnd(Enabling, TdiOut, b) == UpdateEnd(Enabling, TmsOut, c);
    assert UpdateEnd(Enabling, TckOut, a) == UpdateEnd(Enabling, TdiOut, b);
  }

  lemma EndOfSel(expected: ServerState, jtag: bool, usb: bool, s: Shared)
    ensures UpdateEnd(expected, SelByCable(jtag, usb), s)
         == (true, s.(jtagselHigh := jtag || (!usb && s.jtagselHigh), state := expected))
  {
    var a := s.(jtagselHigh := jtag || (!usb && s.jtagselHigh));
    assert UpdateEnd(expected, StoreState, a) == (true, a.(state := expected));
  }

  /** A whole update, with the cable lines constant. */
  lemma WholeUpdate(expected: ServerState, s: Shared)
    requires s.state == expected && (expected == Enabling || expected == Disabling || expected == Disabled)
    requires expected == Enabling ==> s.PinsAre(Input)
    ensures UpdateEnd(expected, CheckState, s) ==
      if expected != Enabling then
        (true, Pins(s, Input).(jtagselHigh := s.jtagCable || (!s.usbCable && s.jtagselHigh)))
      else if s.jtagCable || s.usbCable then (false, s.(state := ConfigInProgress))
      else (true, Pins(s, Output).(jtagselHigh := true))
  {
    var a, j, u := s.(state := ConfigInProgress), s.jtagCable, s.usbCable;
    assert UpdateEnd(expected, ReadJtag, a) == UpdateEnd(expected, ReadUsb(j), a);
    if expected != Enabling || j || u {
      EndOfInputs(expected, j, u, a);
      if expected == Enabling {
        assert Pins(a, Input) == a;
      } else {
        EndOfSel(expected, j, u, Pins(a, Input));
      }
    } else {
      EndOfOutputs(a);
    }
  }

  lemma {:induction false} FinishEnable(u: Update, s: Shared)
    ensures var (ok, s') := UpdateEnd(Enabling, u, s);
      Finish(EnableUpdate(u), s) == (ok, s'.(state := if ok then Enabled else Disabled))
    decreases UpdateStepsLeft(u)
  {
    if !u.Done? {
      UpdateNearer(Enabling, u, s);
      var (u', s') := StepUpdate(Enabling, u, s);
      FinishEnable(u', s');
      hide StepUpdate;
      assert Advance(EnableUpdate(u), s) == (EnableUpdate(u'), s');
    }
  }

  lemma {:induction false} FinishDisable(u: Update, caller: Caller, s: Shared)
    ensures var (ok, s') := UpdateEnd(Disabling, u, s);
      Finish(DisableUpdate(u, caller), s) == (caller != FromShift, s'.(state := Disabled))
    decreases UpdateStepsLeft(u)
  {
    if !u.Done? {
      UpdateNearer(Disabling, u, s);
      var (u', s') := StepUpdate(Disabling, u, s);
      FinishDisable(u', caller, s');
      hide StepUpdate;
      assert Advance(DisableUpdate(u, caller), s) == (DisableUpdate(u', caller), s');
    }
  }

  lemma {:induction false} FinishJtagsel(u: Update, s: Shared)
    ensures Finish(JtagselUpdate(u), s) == (true, UpdateEnd(Disabled, u, s).1)
    decreases UpdateStepsLeft(u)
  {
    if !u.Done? {
      UpdateNearer(Disabled, u, s);
      var (u', s') := StepUpdate(Disabled, u, s);
      FinishJtagsel(u', s');
      hide StepUpdate;
      assert Advance(JtagselUpdate(u), s) == (JtagselUpdate(u'), s');
    }
  }

  /** Enabling alone, from any state: nothing but a success from DISABLED without a cable changes
      anything. */
  lemma EnableAlone(s: Shared)
    requires s.state == Disabled ==> s.PinsAre(Input)
    ensures Finish(Begin(Enable), s) ==
      if s.state == Enabled then (true, s)
      else if s.state != Disabled || s.jtagCable || s.usbCable then (false, s)
      else (true, s.(state := Enabled, tck := Output, tdi := Output, tms := Output, jtagselHigh := true))
  {
    if s.state == Disabled {
      var e := s.(state := Enabling);
      assert Finish(EnableEnter, s) == Finish(EnableUpdate(CheckState), e);
      WholeUpdate(Enabling, e);
      FinishEnable(CheckState, e);
    }
  }

  /** Disabling alone, from any state. */
  lemma DisableAlone(s: Shared, caller: Caller)
    ensures Finish(DisableEnter(caller), s) ==
      if s.state == Disabled then (caller != FromShift, s)
      else if s.state == IoInProgress then (false, s.(state := DisableRequested, pending := true))
      else if s.state != Enabled then (false, s)
      else (caller != FromShift,
            s.(state := Disabled, tck := Input, tdi := Input, tms := Input, pending := false,
               jtagselHigh := s.jtagCable || (!s.usbCable && s.jtagselHigh)))
  {
    if s.state == Enabled {
      var d := s.(state := Disabling, pending := false);
      assert Finish(DisableEnter(caller), s) == Finish(DisableUpdate(CheckState, caller), d);
      WholeUpdate(Disabling, d);
      FinishDisable(CheckState, caller, d);
    }
  }

  /** The periodic update of JTAGSEL alone: nothing happens without a cable. With one, JTAGSEL of a
      disabled server ends high for the JTAG header and low for the on-board adapter alone; an enabled
      server is disabled with the same JTAGSEL; one that shifts is asked to be. */
  lemma UpdateJtagselAlone(s: Shared)
    requires s.state == Disabled ==> s.PinsAre(Input)
    ensures Finish(Begin(UpdateJtagsel), s).1 ==
      if !s.jtagCable && !s.usbCable then s
      else if s.state == Disabled then s.(jtagselHigh := s.jtagCable)
      else if s.state == Enabled then
        s.(state := Disabled, tck := Input, tdi := Input, tms := Input, pending := false, jtagselHigh := s.jtagCable)
      else if s.state == IoInProgress then s.(state := DisableRequested, pending := true)
      else s
  {
    hide StepUpdate, UpdateEnd;
    if s.jtagCable || s.usbCable {
      assert Finish(JtagselReadJtag, s) == Finish(JtagselReadState(s.jtagCable), s) by {
        if !s.jtagCable {
          assert Finish(JtagselReadUsb, s) == Finish(JtagselReadState(false), s);
        }
      }
      if s.state == Disabled {
        JtagselOfDisabled(s);
      } else {
        assert Finish(JtagselReadState(s.jtagCable), s) == Finish(DisableEnter(FromJtagsel), s);
        DisableAlone(s, FromJtagsel);
      }
    } else {
      assert Finish(JtagselReadUsb, s) == (true, s);
    }
  }

  lemma JtagselOfDisabled(s: Shared)
    requires s.state == Disabled && s.PinsAre(Input) && (s.jtagCable || s.usbCable)
    ensures Finish(JtagselReadState(s.jtagCable), s) == (true, s.(jtagselHigh := s.jtagCable))
  {
    hide StepUpdate, UpdateEnd;
    assert Finish(JtagselReadState(s.jtagCable), s) == Finish(JtagselReadPin(s.jtagCable), s);
    if s.jtagselHigh != s.jtagCable {
      assert Finish(JtagselReadPin(s.jtagCable), s) == Finish(JtagselUpdate(CheckState), s);
      WholeUpdate(Disabled, s);
      FinishJtagsel(CheckState, s);
      assert Pins(s, Input) == s;
    } else {
      assert Finish(JtagselReadPin(s.jtagCable), s) == (true, s);
    }
  }

  /** Shifting alone: it succeeds from ENABLED, and leaves that state, and fails from any other. */
  lemma {:induction false} ShiftAlone(s: Shared, bits: nat)
    ensures Finish(Begin(DoShift(bits)), s) == (bits == 0 || s.state == Enabled, s)
  {
    if bits > 0 && s.state == Enabled {
      var i := s.(state := IoInProgress);
      assert Finish(ShiftEnter(bits), s) == Finish(Shifting(bits), i);
      FinishShifting(i, bits);
    }
  }

  lemma {:induction false} FinishShifting(s: Shared, bits: nat)
    requires s.state == IoInProgress
    ensures Finish(Shifting(bits), s) == (true, s.(state := Enabled))
  {
    if bits > 0 {
      FinishShifting(s, bits - 1);
      assert Finish(Shifting(bits), s) == Finish(Shifting(bits - 1), s);
    } else {
      assert Advance(Shifting(0), s) == (Idle(true), s.(state := Enabled));
    }
  }
}
