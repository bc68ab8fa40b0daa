/** The receiving side of the XVC server: the connection state and the code that consumes
    received data in whatever pieces it arrives. */
module XvcConnection {
  import opened Bits
  import opened JtagPort
  import opened Numbers
  import opened XvcChains
  import opened XvcProtocol
  import opened XvcReception
  import opened XvcRequests

  const BUFFER_SIZE: nat := 2 * MAX_VECTOR_BYTES
  const VECTOR_LENGTH_NOT_SET: nat := 0xFFFF_FFFF

  /** What the functions return; or the network stack has stopped, and nothing is returned any more. */
  datatype Status = Ok | Error | MoreDataNeeded | Stopped

  class Connection<D> {
    const env: Env<D>
    const jtag: Jtag<D>
    const buffer: array<bv8>
    var command: Command
    var bufferLen: nat
    var vectorLen: nat
    /** The reply log, and how many sends and shifts the environment has answered. */
    var sent: seq<bv8>
    var sends: nat
    var shifts: nat

    constructor (env: Env<D>, jtag: Jtag<D>)
      requires jtag.board == env.board && jtag.pins == env.pins
      ensures Valid() && fresh(buffer) && this.env == env && this.jtag == jtag
      ensures Now() == Ref(START, World(jtag.port, jtag.trace, [], 0, 0))
    {
      this.env, this.jtag := env, jtag;
      buffer := new bv8[BUFFER_SIZE];
      sent, sends, shifts := [], 0, 0;
      command, bufferLen, vectorLen := NotSet, 0, VECTOR_LENGTH_NOT_SET;
    }

    /** Prepares the state for a new connection. */
    method Reset()
      requires Wired()
      modifies this`command, this`bufferLen, this`vectorLen
      ensures Valid() && Parsing() == START && TheWorld() == old(TheWorld())
    {
      command, bufferLen, vectorLen := NotSet, 0, VECTOR_LENGTH_NOT_SET;
    }

    ghost predicate Wired()
    {
      buffer.Length == BUFFER_SIZE && jtag.board == env.board && jtag.pins == env.pins
    }

    /** The bytes of an unfinished uint32 are OR-ed into a word that was zeroed first. */
    ghost predicate RestIsZero()
      requires Wired()
      reads this, buffer
    {
      bufferLen > 0 ==> forall i: nat | bufferLen <= i < 4 :: buffer[i] == 0
    }

    ghost predicate Valid()
      reads this, buffer
    {
      && Wired()
      && match command
         case GetInfo => false
         case NotSet =>
           vectorLen == VECTOR_LENGTH_NOT_SET && bufferLen < |GETINFO| && Unfinished(buffer[..bufferLen])
         case SetTck =>
           vectorLen == VECTOR_LENGTH_NOT_SET && bufferLen < 4 && RestIsZero()
         case Shift =>
           if vectorLen == VECTOR_LENGTH_NOT_SET then bufferLen < 4 && RestIsZero()
           else 0 < vectorLen <= MAX_VECTOR_BITS && bufferLen < 2 * BytesFor(vectorLen) <= BUFFER_SIZE
    }

    /** Where the reference receiver is. */
    ghost function Parsing(): (p: Parse)
      requires Valid()
      reads this, buffer
      ensures p.Ok()
    {
      match command
      case NotSet => Name_(buffer[..bufferLen])
      case SetTck => Period(buffer[..bufferLen])
      case Shift =>
        if vectorLen == VECTOR_LENGTH_NOT_SET then Length(buffer[..bufferLen])
        else Vectors(vectorLen, buffer[..bufferLen])
    }

    ghost function TheWorld(): World<D>
      reads this, jtag
    {
      World(jtag.port, jtag.trace, sent, shifts, sends)
    }

    ghost function Now(): (r: Ref<D>)
      requires Valid()
      reads this, buffer, jtag
      ensures r.parse.Ok() && r.parse != Rejected && r.world == TheWorld()
    {
      Ref(Parsing(), TheWorld())
    }

    /** Moves bytes from one piece to the end of the buffer. */
    method Take(piece: seq<bv8>, want: nat) returns (rest: seq<bv8>)
      requires bufferLen + want <= buffer.Length && want <= |piece|
      modifies buffer, this`bufferLen
      ensures bufferLen == old(bufferLen) + want && rest == piece[want..]
      ensures buffer[..bufferLen] == old(buffer[..bufferLen]) + piece[..want]
    {
      forall i | 0 <= i < want {
        buffer[bufferLen + i] := piece[i];
      }
      bufferLen := bufferLen + want;
      rest := piece[want..];
      assert buffer[..bufferLen] == old(buffer[..bufferLen]) + piece[..want];
    }

    /** Copies up to `want` bytes of a chain to the end of the buffer. The chain's first piece is
        shortened by as many; when it has not as many the network stack stops. */
    method TakeAcross(piece: seq<bv8>, later: seq<bv8>, want: nat) returns (stopped: bool, rest: seq<bv8>)
      requires bufferLen + want <= buffer.Length
      modifies buffer, this`bufferLen
      ensures var got := CopyAcross(piece, later, want);
        && bufferLen == old(bufferLen) + |got| && buffer[..bufferLen] == old(buffer[..bufferLen]) + got
        && stopped == (|got| > |piece|) && (!stopped ==> rest == piece[|got|..])
    {
      var chain := piece + later;
      var n := Min(want, |chain|);
      var _ := Take(chain, n);
      stopped := n > |piece|;
      rest := if stopped then piece else piece[n..];
    }

    /** What reading a name has come to. */
    ghost predicate Told(v: Verdict, status: Status, c: Command, rest: seq<bv8>)
      reads this, buffer
    {
      match v
      case Named(d, left) => status == Ok && c == d && rest == left
      case Wanting(kept, left) =>
        status == MoreDataNeeded && bufferLen <= buffer.Length && buffer[..bufferLen] == kept && rest == left
      case Refused => status == Error
      case Stuck => status == Stopped
    }

    /** The rest of a name whose first letters have told which one it must be. */
    method FinishName(piece: seq<bv8>, later: seq<bv8>, c: Command) returns (status: Status, rest: seq<bv8>)
      requires Wired() && c != NotSet && bufferLen <= |Name(c)|
      modifies buffer, this`bufferLen
      ensures Told(FinishAcross(c, old(buffer[..bufferLen]), piece, later), status, c, rest)
    {
      var stopped;
      stopped, rest := TakeAcross(piece, later, |Name(c)| - bufferLen);
      if stopped {
        return Stopped, rest;
      }
      if buffer[..bufferLen] != Name(c)[..bufferLen] {
        return Error, rest;
      }
      if bufferLen == |Name(c)| {
        return Ok, rest;
      }
      return MoreDataNeeded, rest;
    }

    /** Reads a command name from a chain whose first piece is not empty; `later` are the bytes of the
        other pieces. */
    method ReadCommand(piece: seq<bv8>, later: seq<bv8>) returns (status: Status, c: Command, rest: seq<bv8>)
      requires Valid() && command == NotSet && piece != []
      modifies buffer, this`bufferLen
      ensures Told(ReadAcross(old(buffer[..bufferLen]), piece, later), status, c, rest)
    {
      hide FinishAcross, CopyAcross, Unfinished;
      ghost var q := buffer[..bufferLen];
      ghost var got := FirstCopy(q, piece, later);
      rest := piece;
      if bufferLen < SHORTEST_NAME {
        var stopped;
        stopped, rest := TakeAcross(rest, later, SHORTEST_NAME - bufferLen);
        if stopped {
          return Stopped, GetInfo, rest;
        }
      }
      InPiece(q, piece, later);
      NameStart(q, piece, |got|);
      ghost var w := q + got;
      assert buffer[..bufferLen] == w && rest == piece[|got|..];
      assert buffer[0] == w[0] && (bufferLen > 1 ==> buffer[1] == w[1]);
      if buffer[0] == 103 {
        c := GetInfo;
        status, rest := FinishName(rest, later, c);
      } else if buffer[0] == 115 {
        if bufferLen < 2 {
          return MoreDataNeeded, GetInfo, rest;
        }
        if buffer[1] == 101 {
          c := SetTck;
          status, rest := FinishName(rest, later, c);
        } else if buffer[1] == 104 {
          c := Shift;
          status, rest := FinishName(rest, later, c);
        } else {
          return Error, GetInfo, rest;
        }
      } else {
        return Error, GetInfo, rest;
      }
    }

    /** ORs a byte into the word. */
    method OrByte(b: bv8)
      requires bufferLen < buffer.Length && buffer[bufferLen] == 0
      modifies buffer, this`bufferLen
      ensures bufferLen == old(bufferLen) + 1 && buffer[..] == old(buffer[..])[old(bufferLen) := b]
    {
      OrZero(b);
      buffer[bufferLen] := buffer[bufferLen] | b;
      bufferLen := bufferLen + 1;
    }

    /** Reads a little-endian uint32 into the start of the buffer. */
    method ReadUint32(piece: seq<bv8>) returns (status: Status, rest: seq<bv8>)
      requires Wired() && bufferLen < 4 && RestIsZero()
      modifies buffer, this`bufferLen
      ensures var k := 4 - old(bufferLen);
        if |piece| < k then
          && status == MoreDataNeeded && rest == [] && bufferLen == old(bufferLen) + |piece| && RestIsZero()
          && buffer[..bufferLen] == old(buffer[..bufferLen]) + piece
        else
          && status == Ok && rest == piece[k..]
          && bufferLen == 4 && buffer[..4] == old(buffer[..bufferLen]) + piece[..k]
    {
      if bufferLen == 0 {
        buffer[0], buffer[1], buffer[2], buffer[3] := 0, 0, 0, 0;
      }
      ghost var was, n := buffer[..bufferLen], bufferLen;
      rest := piece;
      while rest != [] && bufferLen < 4
        invariant n <= bufferLen <= 4 && bufferLen - n <= |piece| && rest == piece[bufferLen - n..]
        invariant buffer[..bufferLen] == was + piece[..bufferLen - n]
        invariant forall i: nat | bufferLen <= i < 4 :: buffer[i] == 0
      {
        OrByte(rest[0]);
        rest := rest[1..];
      }
      status := if bufferLen == 4 then Ok else MoreDataNeeded;
    }

    /** Reads the TMS and TDI vectors of a shift into the buffer. */
    method ReadVectors(piece: seq<bv8>) returns (status: Status, rest: seq<bv8>)
      requires Wired() && vectorLen <= MAX_VECTOR_BITS && bufferLen <= 2 * BytesFor(vectorLen)
      modifies buffer, this`bufferLen
      ensures var k := 2 * BytesFor(vectorLen) - old(bufferLen);
        if |piece| < k then
          && status == MoreDataNeeded && rest == [] && bufferLen == old(bufferLen) + |piece|
          && buffer[..bufferLen] == old(buffer[..bufferLen]) + piece
        else
          && status == Ok && rest == piece[k..]
          && buffer[..2 * BytesFor(vectorLen)] == old(buffer[..bufferLen]) + piece[..k]
    {
      var remaining := 2 * BytesFor(vectorLen) - bufferLen;
      if |piece| >= remaining {
        rest := Take(piece, remaining);
        return Ok, rest;
      }
      rest := Take(piece, |piece|);
      return MoreDataNeeded, rest;
    }

    /** One answer of the connection to a write. */
    method Write(data: seq<bv8>) returns (ok: bool)
      modifies this`sent, this`sends
      ensures Outcome(TheWorld(), ok) == Send(env, old(TheWorld()), data)
    {
      ok := env.sendOk(sends);
      sends := sends + 1;
      if ok {
        sent := sent + data;
      }
    }

    /** Shifts the vectors in the buffer and sends the TDO bytes that replace TDI. */
    method Shift_() returns (ok: bool)
      requires Wired() && vectorLen <= MAX_VECTOR_BITS
      modifies this`sent, this`sends, this`shifts, buffer, jtag
      ensures var k := BytesFor(vectorLen);
        Outcome(TheWorld(), ok) == PerformShift(env, old(TheWorld()), vectorLen, old(buffer[..k]), old(buffer[k..2 * k]))
    {
      hide Pack, Samples, Unpack, ApplyAll, ShiftWrites;
      var k, n := BytesFor(vectorLen), shifts;
      if vectorLen > 0 {
        shifts := shifts + 1;
      }
      ghost var was := buffer[..];
      ok := jtag.DoShift(buffer, k, 0, vectorLen, env.enabled(n), env.disableAsked(n));
      if ok {
        assert vectorLen > 0 ==> buffer[k..2 * k] == Tdo(env, old(jtag.port), vectorLen, was[..k], was[k..2 * k]);
        ok := Write(buffer[k..2 * k]);
      }
    }

    /** After a step: an error is the reference's rejection; otherwise feeding `piece` and the pieces
        after it to `before` is feeding what is left of them to the state that has been reached. */
    ghost predicate Stepped(before: Ref<D>, piece: seq<bv8>, next: seq<seq<bv8>>, status: Status, rest: seq<bv8>)
      requires before.parse.Ok()
      reads this, buffer, jtag
    {
      if status == Error then ChainRun(env, before, false, piece, next) == Done(Ref(Rejected, TheWorld()))
      else
        && Valid() && status != Stopped
        && ChainRun(env, before, false, piece, next) == ChainRun(env, Now(), false, rest, next)
    }

    /** "getinfo:" has been read. */
    method AnswerInfo(piece: seq<bv8>, ghost next: seq<seq<bv8>>, ghost before: Ref<D>) returns (status: Status)
      requires Wired() && vectorLen == VECTOR_LENGTH_NOT_SET && bufferLen == 0
      requires before == Enter(env, GetInfo, TheWorld())
      modifies this`command, this`sent, this`sends
      ensures Stepped(before, piece, next, status, piece) && status != MoreDataNeeded
    {
      hide ChainRun;
      var ok := Write(INFO);
      if !ok {
        ChainRejected(env, TheWorld(), false, piece, next);
        return Error;
      }
      command := NotSet;
      return Ok;
    }

    /** "settck:" has been read, and perhaps a part of its argument. */
    method AnswerPeriod(piece: seq<bv8>, ghost next: seq<seq<bv8>>) returns (status: Status, rest: seq<bv8>)
      requires Valid() && command == SetTck
      modifies this`command, this`bufferLen, this`sent, this`sends, buffer
      ensures Stepped(old(Now()), piece, next, status, rest)
      ensures |rest| <= |piece| && (piece != [] ==> |rest| < |piece|)
      ensures status == MoreDataNeeded ==> rest == []
      ensures status == Ok ==> command == NotSet && bufferLen == 0
    {
      hide ChainRun, LeBytes;
      ChainPeriod(env, TheWorld(), buffer[..bufferLen], piece, next);
      status, rest := ReadUint32(piece);
      if status == MoreDataNeeded {
        return;
      }
      bufferLen := 0;
      var ok := Write(LeBytes(CLOCK_PERIOD));
      if !ok {
        ChainRejected(env, TheWorld(), false, rest, next);
        return Error, rest;
      }
      command := NotSet;
    }

    /** "shift:" has been read; its length comes first. */
    method ReadShiftLength(piece: seq<bv8>, ghost next: seq<seq<bv8>>) returns (status: Status, rest: seq<bv8>)
      requires Valid() && command == Shift && vectorLen == VECTOR_LENGTH_NOT_SET
      modifies this`bufferLen, this`vectorLen, buffer
      ensures |rest| <= |piece| && (piece != [] ==> |rest| < |piece|)
      ensures status == MoreDataNeeded ==> rest == [] && Stepped(old(Now()), piece, next, status, rest)
      ensures status != MoreDataNeeded ==>
        && status == Ok && bufferLen == 0 && vectorLen < WORD
        && ChainRun(env, old(Now()), false, piece, next) == ChainRun(env, LengthRead(vectorLen), false, rest, next)
    {
      hide ChainRun;
      ChainLength(env, TheWorld(), buffer[..bufferLen], piece, next);
      status, rest := ReadUint32(piece);
      if status == MoreDataNeeded {
        return;
      }
      vectorLen := LittleEndian(buffer[..4]);
      bufferLen := 0;
    }

    /** The reference once it knows the length of a shift. */
    ghost function LengthRead(n: nat): (r: Ref<D>)
      reads this, jtag
      ensures r.parse.Ok()
    {
      if n > MAX_VECTOR_BITS then Ref(Rejected, TheWorld())
      else if n == 0 then Finish(PerformShift(env, TheWorld(), 0, [], []))
      else Ref(Vectors(n, []), TheWorld())
    }

    /** The length of a shift is known: reads the vectors, then shifts. */
    method AnswerShift(piece: seq<bv8>, ghost next: seq<seq<bv8>>, ghost before: Ref<D>)
      returns (status: Status, rest: seq<bv8>)
      requires Wired() && command == Shift && vectorLen <= MAX_VECTOR_BITS
      requires before.parse.Ok()
      requires if vectorLen == 0 then bufferLen == 0 && before == LengthRead(0)
               else Valid() && before == Now()
      modifies this`command, this`bufferLen, this`vectorLen, this`sent, this`sends, this`shifts, buffer, jtag
      ensures Stepped(before, piece, next, status, rest)
      ensures |rest| <= |piece| && (piece != [] && old(vectorLen) > 0 ==> |rest| < |piece|)
      ensures status == MoreDataNeeded ==> rest == []
      ensures status == Ok ==> command == NotSet && bufferLen == 0
    {
      hide ChainRun, PerformShift;
      ghost var w, n, b := TheWorld(), vectorLen, buffer[..bufferLen];
      if n > 0 {
        ChainVectors(env, w, n, b, piece, next);
      }
      status, rest := ReadVectors(piece);
      if status == MoreDataNeeded {
        return;
      }
      ghost var v := buffer[..2 * BytesFor(n)];
      assert v[..BytesFor(n)] == buffer[..BytesFor(n)] && v[BytesFor(n)..] == buffer[BytesFor(n)..2 * BytesFor(n)];
      assert n == 0 ==> BytesFor(n) == 0 && rest == piece && buffer[..0] == [] && buffer[0..0] == [];
      var ok := Shift_();
      if !ok {
        ChainRejected(env, TheWorld(), false, rest, next);
        return Error, rest;
      }
      bufferLen := 0;
      command := NotSet;
      vectorLen := VECTOR_LENGTH_NOT_SET;
    }

    /** "shift:" has been read, and perhaps a part of its length or of its vectors. */
    method AnswerShiftCommand(piece: seq<bv8>, ghost next: seq<seq<bv8>>) returns (status: Status, rest: seq<bv8>)
      requires Valid() && command == Shift
      modifies this`command, this`bufferLen, this`vectorLen, this`sent, this`sends, this`shifts, buffer, jtag
      ensures Stepped(old(Now()), piece, next, status, rest)
      ensures |rest| <= |piece| && (piece != [] ==> |rest| < |piece|)
      ensures status == MoreDataNeeded ==> rest == []
      ensures status == Ok ==> command == NotSet && bufferLen == 0
    {
      hide ChainRun, PerformShift;
      ghost var before, mid := Now(), Now();
      rest := piece;
      if vectorLen == VECTOR_LENGTH_NOT_SET {
        status, rest := ReadShiftLength(rest, next);
        if status == MoreDataNeeded {
          return;
        }
        mid := LengthRead(vectorLen);
      }
      if vectorLen > MAX_VECTOR_BITS {
        ChainRejected(env, TheWorld(), false, rest, next);
        return Error, rest;
      }
      ghost var left := rest;
      status, rest := AnswerShift(rest, next, mid);
      SteppedFrom(before, piece, mid, left, next, status, rest);
    }

    lemma SteppedFrom(before: Ref<D>, piece: seq<bv8>, mid: Ref<D>, left: seq<bv8>, next: seq<seq<bv8>>,
                      status: Status, rest: seq<bv8>)
      requires before.parse.Ok() && mid.parse.Ok()
      requires ChainRun(env, before, false, piece, next) == ChainRun(env, mid, false, left, next)
      requires Stepped(mid, left, next, status, rest)
      ensures Stepped(before, piece, next, status, rest)
    {
    }

    /** The part of a step that reads a name. */
    method StepName(piece: seq<bv8>, later: seq<bv8>, ghost next: seq<seq<bv8>>) returns (status: Status, rest: seq<bv8>)
      requires Valid() && piece != [] && command == NotSet && later == Flatten(next)
      modifies this`command, this`bufferLen, buffer
      ensures TheWorld() == old(TheWorld())
      ensures var e := ChainRun(env, old(Now()), true, piece, next);
        match status
        case Stopped => e == Hung(TheWorld())
        case Error => e == Done(Ref(Rejected, TheWorld()))
        case MoreDataNeeded => rest == [] && Valid() && e == ChainRun(env, Now(), false, [], next)
        case Ok =>
          && command != NotSet && bufferLen == 0 && vectorLen == VECTOR_LENGTH_NOT_SET && |rest| < |piece|
          && e == ChainRun(env, Enter(env, command, TheWorld()), false, rest, next)
    {
      hide ChainRun, Send, Finish, ScanName, ReadAcross, Overruns;
      ghost var q := buffer[..bufferLen];
      ChainName(env, TheWorld(), q, piece, next);
      ReadAcrossExact(q, piece, later);
      GotShortens(q, piece);
      var c;
      status, c, rest := ReadCommand(piece, later);
      if status == Ok {
        command := c;
        bufferLen := 0;
      }
    }

    /** One pass through the loop: consumes a non-empty piece up to the end of a command, or of
        the piece. */
    method Step(piece: seq<bv8>, later: seq<bv8>, ghost next: seq<seq<bv8>>) returns (status: Status, rest: seq<bv8>)
      requires Valid() && piece != [] && later == Flatten(next)
      modifies this`command, this`bufferLen, this`vectorLen, this`sent, this`sends, this`shifts, buffer, jtag
      ensures var e := ChainRun(env, old(Now()), true, piece, next);
        match status
        case Stopped => e == Hung(TheWorld())
        case Error => e == Done(Ref(Rejected, TheWorld()))
        case _ => Valid() && |rest| < |piece| && e == ChainRun(env, Now(), true, rest, next)
    {
      hide ChainRun, Send, Finish, ScanName;
      ghost var before, mid, left := Now(), Now(), piece;
      rest := piece;
      if command == NotSet {
        status, rest := StepName(piece, later, next);
        if status == MoreDataNeeded {
          FreshOrNot(env, Now(), [], next);
        }
        if status != Ok {
          return;
        }
        mid, left := Enter(env, command, TheWorld()), rest;
      } else {
        FreshOrNot(env, before, piece, next);
      }
      match command {
        case GetInfo =>
          status := AnswerInfo(rest, next, mid);
        case SetTck =>
          status, rest := AnswerPeriod(rest, next);
        case Shift =>
          status, rest := AnswerShiftCommand(rest, next);
      }
      if status != Error {
        FreshOrNot(env, Now(), rest, next);
      }
    }

    /** What a reception has come to: verdict, replies, port and state. */
    ghost predicate Ended(e: Ending<D>, status: Status)
      reads this, buffer, jtag
    {
      match e
      case Hung(w) => status == Stopped && TheWorld() == w
      case Done(r) =>
        && status == (if r.parse == Rejected then Error else Ok) && TheWorld() == r.world
        && (status == Ok ==> Valid() && Now() == r)
    }

    /** Handles a received chain of pieces, exactly as far as the one-byte receiver goes. */
    method HandleReceive(chain: seq<seq<bv8>>) returns (status: Status)
      requires Valid()
      modifies this`command, this`bufferLen, this`vectorLen, this`sent, this`sends, this`shifts, buffer, jtag
      ensures Ended(ChainEnd(env, old(Now()), chain), status)
      ensures Grown(old(TheWorld()), TheWorld()) && (status != Error ==> AllFine(env, old(TheWorld()), TheWorld()))
    {
      ghost var e := ChainEnd(env, Now(), chain);
      ChainFine(env, Now(), true, [], chain);
      status := Ok;
      var cur, next := [], chain;
      while cur != [] || next != []
        invariant Valid() && (status == Ok || status == MoreDataNeeded)
        invariant e == ChainRun(env, Now(), true, cur, next)
        decreases |next|, |cur|
      {
        if cur == [] {
          cur, next := next[0], next[1..];
          continue;
        }
        hide ChainRun;
        status, cur := Step(cur, Flatten(next), next);
        if status == Error || status == Stopped {
          return;
        }
      }
      if status == MoreDataNeeded {
        return Ok;
      }
    }

    /** Handles what arrives on a connection until the server is found disabled, the data is rejected
        or nothing more comes. */
    method ReceiveAll(arrivals: seq<seq<seq<bv8>>>, enabledAt: nat -> bool) returns (status: Status, taken: nat)
      requires Valid()
      modifies this`command, this`bufferLen, this`vectorLen, this`sent, this`sends, this`shifts, buffer, jtag
      ensures status != MoreDataNeeded && taken <= |arrivals| && EnabledUpTo(enabledAt, taken)
      ensures taken == |arrivals| || !enabledAt(taken) || status != Ok
      ensures Ended(ReceiveRun(env, old(Now()), arrivals[..taken]), status)
    {
      ghost var before := Now();
      status, taken := Ok, 0;
      OnceMoreEnabled(enabledAt, 0);
      hide EnabledUpTo, ChainEnd;
      while taken < |arrivals| && enabledAt(taken)
        invariant taken <= |arrivals| && status == Ok && Valid() && EnabledUpTo(enabledAt, taken)
        invariant ReceiveRun(env, before, arrivals[..taken]) == Done(Now())
      {
        OnceMoreEnabled(enabledAt, taken);
        OneMoreArrival(env, before, arrivals, taken);
        status := HandleReceive(arrivals[taken]);
        taken := taken + 1;
        if status != Ok {
          break;
        }
      }
    }

    /** Serves one connection and leaves the state ready for the next, unless the network stack stops. */
    method Serve(arrivals: seq<seq<seq<bv8>>>, enabledAt: nat -> bool) returns (stopped: bool, taken: nat)
      requires Valid() && Parsing() == START
      modifies this`command, this`bufferLen, this`vectorLen, this`sent, this`sends, this`shifts, buffer, jtag
      ensures taken <= |arrivals| && EnabledUpTo(enabledAt, taken)
      ensures match ReceiveRun(env, old(Now()), arrivals[..taken])
        case Hung(w) => stopped && TheWorld() == w
        case Done(r) =>
          && !stopped && Valid() && Parsing() == START && TheWorld() == r.world
          && (taken == |arrivals| || !enabledAt(taken) || r.parse == Rejected)
    {
      hide EnabledUpTo, ReceiveRun;
      var status;
      status, taken := ReceiveAll(arrivals, enabledAt);
      stopped := status == Stopped;
      if !stopped {
        Reset();
      }
    }
  }

  /** The server was found enabled before each of the first `n` receptions. */
  ghost predicate EnabledUpTo(enabledAt: nat -> bool, n: nat)
  {
    forall i: nat | i < n :: enabledAt(i)
  }

  lemma OnceMoreEnabled(enabledAt: nat -> bool, n: nat)
    ensures EnabledUpTo(enabledAt, 0)
    ensures EnabledUpTo(enabledAt, n) && enabledAt(n) ==> EnabledUpTo(enabledAt, n + 1)
  {
  }

  lemma OneMoreArrival<D>(env: Env<D>, r: Ref<D>, arrivals: seq<seq<seq<bv8>>>, n: nat)
    requires r.parse.Ok() && n < |arrivals|
    ensures var e := ReceiveRun(env, r, arrivals[..n]);
      ReceiveRun(env, r, arrivals[..n + 1]) == if e.Hung? then e else ChainEnd(env, e.ref, arrivals[n])
  {
    assert arrivals[..n + 1][..n] == arrivals[..n];
  }

  lemma {:induction false} GotShortens(q: seq<bv8>, s: seq<bv8>)
    requires Unfinished(q)
    ensures ScanName(q, s).Got? ==> |ScanName(q, s).rest| < |s|
    decreases |s|
  {
    if s != [] {
      var p := q + [s[0]];
      UnfinishedIsNoName(q);
      if p != GETINFO && p != SETTCK && p != SHIFT && Unfinished(p) {
        GotShortens(p, s[1..]);
      }
    }
  }

  /** Split invariance: two connections in the same state receive the same bytes, cut in two ways into
      receptions and pieces. Each stops exactly where the one-byte receiver does on its pieces; if
      neither stops, they end with the same verdict, having sent and shifted the same, in the same state. */
  method SplitInvariance<D>(a: Connection<D>, b: Connection<D>, cut: seq<seq<seq<bv8>>>, other: seq<seq<seq<bv8>>>)
    returns (one: Status, two: Status)
    requires a.Valid() && b.Valid() && a.env == b.env && a.Now() == b.Now()
    requires {a, a.buffer, a.jtag} !! {b, b.buffer, b.jtag}
    requires Stream(cut) == Stream(other)
    modifies a, a.buffer, a.jtag, b, b.buffer, b.jtag
    ensures one != MoreDataNeeded && two != MoreDataNeeded
    ensures one == Stopped <==> ReceiveRun(a.env, old(a.Now()), cut).Hung?
    ensures two == Stopped <==> ReceiveRun(b.env, old(b.Now()), other).Hung?
    ensures one != Stopped && two != Stopped ==>
      && one == two && a.TheWorld() == b.TheWorld()
      && (one == Ok ==> a.Valid() && b.Valid() && a.Now() == b.Now())
  {
    ghost var env, before := a.env, a.Now();
    one := ReceiveWhole(a, cut);
    two := ReceiveWhole(b, other);
    if one != Stopped && two != Stopped {
      ReceiveRunDone(env, before, cut);
      ReceiveRunDone(env, before, other);
    }
  }

  method ReceiveWhole<D>(a: Connection<D>, arrivals: seq<seq<seq<bv8>>>) returns (status: Status)
    requires a.Valid()
    modifies a, a.buffer, a.jtag
    ensures a.Ended(ReceiveRun(a.env, old(a.Now()), arrivals), status)
  {
    hide ReceiveRun, EnabledUpTo;
    ghost var before := a.Now();
    var n;
    status, n := a.ReceiveAll(arrivals, (i: nat) => true);
    assert arrivals[..|arrivals|] == arrivals;
    if status != Ok {
      EndedForGood(a.env, before, arrivals, n);
    }
  }

  /** Without any condition: received in one buffer each, the same bytes give the same verdict, replies,
      pins and state however they were cut. */
  method SplitInvarianceOfBuffers<D>(a: Connection<D>, b: Connection<D>,
                                     cut: seq<seq<seq<bv8>>>, other: seq<seq<seq<bv8>>>)
    returns (one: Status, two: Status)
    requires a.Valid() && b.Valid() && a.env == b.env && a.Now() == b.Now()
    requires {a, a.buffer, a.jtag} !! {b, b.buffer, b.jtag}
    requires Stream(cut) == Stream(other)
    requires forall i: nat | i < |cut| :: |cut[i]| == 1
    requires forall i: nat | i < |other| :: |other[i]| == 1
    modifies a, a.buffer, a.jtag, b, b.buffer, b.jtag
    ensures (one == Ok || one == Error) && one == two && a.TheWorld() == b.TheWorld()
    ensures one == Ok ==> a.Valid() && b.Valid() && a.Now() == b.Now()
  {
    OnePieceEach(a.env, a.Now(), cut);
    OnePieceEach(b.env, b.Now(), other);
    hide ReceiveRun;
    one, two := SplitInvariance(a, b, cut, other);
  }

  /** One shift request, in whatever pieces, with any bytes after it if it fails. Too long a shift, a
      disabled server, a request to disable it during the shift and a refused reply all end the
      connection, with nothing sent; otherwise the TDO bytes are sent and the next command may come. */
  method ReceiveShift<D>(a: Connection<D>, chain: seq<seq<bv8>>, n: nat, tms: seq<bv8>, tdi: seq<bv8>, s: seq<bv8>)
    returns (status: Status)
    requires a.Valid() && a.Parsing() == START
    requires n < WORD && (n <= MAX_VECTOR_BITS ==> |tms| == |tdi| == BytesFor(n))
    requires Flatten(chain) == SHIFT + (LeBytes(n) + (tms + tdi)) + s
    modifies a, a.buffer, a.jtag
    ensures status == Stopped <==> ChainEnd(a.env, old(a.Now()), chain).Hung?
    ensures |chain| == 1 ==> status != Stopped
    ensures status != Stopped ==>
      var enabled, asked, sent := a.env.enabled(old(a.shifts)), a.env.disableAsked(old(a.shifts)), a.env.sendOk(old(a.sends));
      if n > MAX_VECTOR_BITS || (n > 0 && (!enabled || asked)) || !sent then
        && status == Error && a.sent == old(a.sent)
        && (n > MAX_VECTOR_BITS || n == 0 || !enabled ==> a.jtag.port == old(a.jtag.port) && a.jtag.trace == old(a.jtag.trace))
      else s == [] ==>
        && status == Ok && a.Valid() && a.Parsing() == START
        && a.sent == old(a.sent) + if n == 0 then [] else Tdo(a.env, old(a.jtag.port), n, tms, tdi)
  {
    ghost var env, w := a.env, a.TheWorld();
    if |chain| == 1 {
      OnePiece(env, a.Now(), chain);
    }
    ShiftEnd(env, w, chain, n, tms, tdi, s);
    hide ChainEnd, ChainRun, Run, Tdo, LeBytes, Flatten;
    status := a.HandleReceive(chain);
  }

  /** The receiver on a chain that holds one shift request. */
  lemma ShiftEnd<D>(env: Env<D>, w: World<D>, chain: seq<seq<bv8>>, n: nat, tms: seq<bv8>, tdi: seq<bv8>, s: seq<bv8>)
    requires n < WORD && (n <= MAX_VECTOR_BITS ==> |tms| == |tdi| == BytesFor(n))
    requires Flatten(chain) == SHIFT + (LeBytes(n) + (tms + tdi)) + s
    ensures var e := ChainEnd(env, Ref(START, w), chain);
      e.Done? ==>
        if n > MAX_VECTOR_BITS || (n > 0 && (!env.enabled(w.shifts) || env.disableAsked(w.shifts))) || !env.sendOk(w.sends) then
          && e.ref.parse == Rejected && e.ref.world.sent == w.sent
          && (n > MAX_VECTOR_BITS || n == 0 || !env.enabled(w.shifts) ==>
                e.ref.world.port == w.port && e.ref.world.trace == w.trace)
        else s == [] ==>
          e.ref.parse == START && e.ref.world.sent == w.sent + if n == 0 then [] else Tdo(env, w.port, n, tms, tdi)
  {
    hide ChainRun, Run, Tdo, LeBytes, ShiftWrites, ApplyAll, Unpack;
    if ChainEnd(env, Ref(START, w), chain).Done? {
      ChainRunDone(env, Ref(START, w), true, [], chain);
      assert [] + Flatten(chain) == Flatten(chain);
      ShiftAnswer(env, w, n, tms, tdi, s);
      if n <= MAX_VECTOR_BITS && s == [] {
        var x := Ref(START, AfterShift(env, w, n, tms, tdi));
        RunNothing(env, x);
        assert Run(env, x, s) == x;
        assert n == 0 ==> x.world.sent == w.sent + [];
      }
    }
  }

  lemma OnePiece<D>(env: Env<D>, r: Ref<D>, chain: seq<seq<bv8>>)
    requires r.parse.Ok() && |chain| == 1
    ensures ChainEnd(env, r, chain).Done?
  {
    assert chain[1..] == [];
    LastPieceDone(env, r, true, chain[0]);
  }

  lemma OrZero(b: bv8)
    ensures 0 | b == b
  {
  }
}
