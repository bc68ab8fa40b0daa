/** Master transfers of the two-wire interface: all but the last byte of a read, and all of a write
    but possibly its last byte, go by DMA in pieces. */
module TwiTransfer {
  import opened Numbers

  const MAX_PIECE: nat := 0xFFFF
  const TIMEOUT: nat := 15000

  datatype Rc = Success | InvalidArgument | ReceiveNack | ErrorTimeout | ErrorTimeoutComp

  /** A call has returned, or is still waiting where the events end. */
  datatype Outcome = Returned(rc: Rc) | Waiting

  /** What happens up to one reading of the status register or one wait for an interrupt: so many
      bytes moved by DMA, the status bits that do not follow from the DMA counter, and how a wait
      ends. */
  datatype Event = Event(moves: nat, nack: bool, ready: bool, complete: bool, wait: Rc)

  /** What a transfer does to the bus, in order. */
  datatype Action = Start(stop: bool) | Piece(at: nat, size: nat) | Stop | Direct(at: nat)

  /** The loop that waits for a piece, on the events from `i` on: how it ends, at which event, and how
      many bytes it leaves unmoved. */
  datatype Wait = Over(rc: Rc, end: nat, left: nat) | Blocked

  function PieceWait(script: seq<Event>, i: nat, counter: nat, remaining: nat, rc: Rc): (w: Wait)
    requires i <= |script|
    ensures w.Over? ==> w.left <= counter && i < w.end <= |script| && (w.rc == Success ==> w.left == 0)
    decreases |script| - i
  {
    if i == |script| then Blocked
    else
      var c := counter - Min(script[i].moves, counter);
      if script[i].nack then Over(ReceiveNack, i + 1, c)
      else if c == 0 then Over(rc, i + 1, 0)
      else if i + 1 == |script| then Blocked
      else
        var d := c - Min(script[i + 1].moves, c);
        var r := script[i + 1].wait;
        if r == ErrorTimeout && d != remaining then PieceWait(script, i + 2, d, d, r)
        else if r != Success then Over(r, i + 2, d)
        else PieceWait(script, i + 2, d, remaining, r)
  }

  /** One reading of the status register and, if it does not end the loop, one wait. */
  lemma WaitRound(script: seq<Event>, i: nat, counter: nat, remaining: nat, rc: Rc)
    requires i < |script|
    ensures var c := counter - Min(script[i].moves, counter);
      PieceWait(script, i, counter, remaining, rc) ==
        if script[i].nack then Over(ReceiveNack, i + 1, c)
        else if c == 0 then Over(rc, i + 1, 0)
        else if i + 1 == |script| then Blocked
        else
          var d := c - Min(script[i + 1].moves, c);
          var r := script[i + 1].wait;
          if r == ErrorTimeout && d != remaining then PieceWait(script, i + 2, d, d, r)
          else if r != Success then Over(r, i + 2, d)
          else PieceWait(script, i + 2, d, remaining, r)
  {
  }

  lemma WaitBlocked(script: seq<Event>, counter: nat, remaining: nat, rc: Rc)
    ensures PieceWait(script, |script|, counter, remaining, rc) == Blocked
  {
  }

  /** A piece of which every byte was moved, seen at a reading of the status register without a
      refusal, counts as a success exactly when the wait before that reading did not time out: a
      timeout with progress is forgiven by going on, but not forgotten. */
  lemma {:induction false} FinishedPieceIff(script: seq<Event>, i: nat, counter: nat, remaining: nat, rc: Rc)
    requires i <= |script| && rc in {Success, ErrorTimeout} && PieceWait(script, i, counter, remaining, rc).Over?
    ensures var w := PieceWait(script, i, counter, remaining, rc);
      (w.end - i) % 2 == 1 && !script[w.end - 1].nack ==>
        && w.left == 0
        && (w.rc == Success <==> if w.end == i + 1 then rc == Success else script[w.end - 2].wait == Success)
    decreases |script| - i
  {
    hide PieceWait;
    WaitRound(script, i, counter, remaining, rc);
    var c := counter - Min(script[i].moves, counter);
    if !script[i].nack && c > 0 && i + 1 < |script| {
      var d := c - Min(script[i + 1].moves, c);
      var r := script[i + 1].wait;
      if (r == ErrorTimeout && d != remaining) || r == Success {
        FinishedPieceIff(script, i + 2, d, if r == Success then remaining else d, r);
      }
    }
  }

  /** Two bytes, one of them moved when the wait times out, the other before the next reading: the
      piece is complete and an error is returned. */
  lemma FinishedButFailed()
    ensures var e := Event(0, false, false, false, Success);
      PieceWait([e, e.(moves := 1, wait := ErrorTimeout), e.(moves := 1)], 0, 2, 2, Success) == Over(ErrorTimeout, 3, 0)
  {
    var e := Event(0, false, false, false, Success);
    var s := [e, e.(moves := 1, wait := ErrorTimeout), e.(moves := 1)];
    assert PieceWait(s, 2, 1, 1, ErrorTimeout) == Over(ErrorTimeout, 3, 0);
  }

  function ReadPieces(at: nat, left: nat): (p: seq<Action>)
    ensures forall a | a in p :: a.Piece?
    decreases left
  {
    if left <= 1 then []
    else
      var size := if left > MAX_PIECE then MAX_PIECE else left - 1;
      [Piece(at, size)] + ReadPieces(at + size, left - size)
  }

  function WritePieces(at: nat, left: nat): (p: seq<Action>)
    ensures forall a | a in p :: a.Piece?
    decreases left
  {
    if left <= 1 then []
    else
      var size := Min(left, MAX_PIECE);
      [Piece(at, size)] + WritePieces(at + size, left - size)
  }

  /** How many bytes of a write no piece takes. */
  function WriteLeft(left: nat): (n: nat)
    ensures n <= 1
    decreases left
  {
    if left <= 1 then left else WriteLeft(left - Min(left, MAX_PIECE))
  }

  lemma {:induction false} WriteLeftIs(left: nat)
    requires left > 0
    ensures WriteLeft(left) == if left % MAX_PIECE == 1 then 1 else 0
    decreases left
  {
    if left > MAX_PIECE {
      WriteLeftIs(left - MAX_PIECE);
      assert (left - MAX_PIECE) % MAX_PIECE == left % MAX_PIECE;
    }
  }

  lemma WriteLeftStep(left: nat)
    ensures WriteLeft(left) == if left <= 1 then left else WriteLeft(left - Min(left, MAX_PIECE))
  {
  }

  /** The whole of a successful read. */
  function ReadTrace(n: nat): seq<Action>
    requires n > 0
  {
    [Start(n == 1)] + ReadPieces(0, n) + (if n == 1 then [] else [Stop]) + [Direct(n - 1)]
  }

  function WriteTrace(n: nat): seq<Action>
    requires n > 0
  {
    WritePieces(0, n) + (if n % MAX_PIECE == 1 then [Direct(n - 1)] else []) + [Stop]
  }

  /** The pieces of a read, each by itself: contiguous, of 1 to 65535 bytes, and together everything
      but the last byte. */
  lemma {:induction false} ReadPiecesTile(at: nat, left: nat)
    requires left > 0
    ensures var p := ReadPieces(at, left);
      && MAX_PIECE * (|p| - 1) < left - 1 <= MAX_PIECE * |p|
      && forall i: nat | i < |p| :: p[i] == Piece(at + MAX_PIECE * i, Min(MAX_PIECE, left - 1 - MAX_PIECE * i))
    decreases left
  {
    if left > 1 {
      var size := if left > MAX_PIECE then MAX_PIECE else left - 1;
      var p, q := ReadPieces(at, left), ReadPieces(at + size, left - size);
      ReadPiecesTile(at + size, left - size);
      if left > MAX_PIECE {
        forall i: nat | 0 < i < |p|
          ensures p[i] == Piece(at + MAX_PIECE * i, Min(MAX_PIECE, left - 1 - MAX_PIECE * i))
        {
          assert p[i] == q[i - 1];
        }
      } else {
        assert q == [];
      }
    }
  }

  /** The pieces of a write, and the byte that is left over for the data register, if any. */
  lemma {:induction false} WritePiecesTile(at: nat, left: nat)
    requires left > 0
    ensures var p := WritePieces(at, left);
      var rest := if left % MAX_PIECE == 1 then 1 else 0;
      && MAX_PIECE * (|p| - 1) < left - rest <= MAX_PIECE * |p|
      && forall i: nat | i < |p| :: p[i] == Piece(at + MAX_PIECE * i, Min(MAX_PIECE, left - rest - MAX_PIECE * i))
    decreases left
  {
    if left > 1 {
      var size := Min(left, MAX_PIECE);
      var p, q := WritePieces(at, left), WritePieces(at + size, left - size);
      if left > MAX_PIECE {
        WritePiecesTile(at + size, left - size);
        assert (left - size) % MAX_PIECE == left % MAX_PIECE;
        forall i: nat | 0 < i < |p|
          ensures p[i] == Piece(at + MAX_PIECE * i, Min(MAX_PIECE, left - (if left % MAX_PIECE == 1 then 1 else 0) - MAX_PIECE * i))
        {
          assert p[i] == q[i - 1];
        }
      } else {
        assert q == [];
      }
    }
  }

  /** A beginning of what goes before the end is a beginning of the whole. */
  lemma BeginningOfRead(done: seq<Action>, n: nat)
    requires n > 0 && done <= [Start(n == 1)] + ReadPieces(0, n)
    ensures done <= ReadTrace(n)
  {
    var rest := ([Start(n == 1)] + ReadPieces(0, n))[|done|..];
    assert ReadTrace(n) == done + (rest + (if n == 1 then [] else [Stop]) + [Direct(n - 1)]);
  }

  lemma BeginningOfWrite(done: seq<Action>, n: nat)
    requires n > 0 && done <= WritePieces(0, n)
    ensures done <= WriteTrace(n)
  {
    var rest := WritePieces(0, n)[|done|..];
    assert WriteTrace(n) == done + (rest + (if n % MAX_PIECE == 1 then [Direct(n - 1)] else []) + [Stop]);
  }

  predicate Stops(a: Action) { a == Stop || a == Start(true) }

  /** A read issues its stop condition once, after every piece and before the last byte. */
  lemma ReadStopsOnce(n: nat)
    requires n > 0
    ensures var t := ReadTrace(n);
      var k := |t| - 2;
      && t[0] == Start(n == 1) && t[k + 1] == Direct(n - 1)
      && Stops(t[k]) && forall i: nat | i < |t| && Stops(t[i]) :: i == k
  {
    ReadPiecesTile(0, n);
    assert n == 1 ==> ReadPieces(0, n) == [];
  }

  lemma WriteStopsOnce(n: nat)
    requires n > 0
    ensures var t := WriteTrace(n); Stops(t[|t| - 1]) && forall i: nat | i < |t| && Stops(t[i]) :: i == |t| - 1
  {
    WritePiecesTile(0, n);
  }
}
