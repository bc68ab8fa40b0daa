/** The two-wire transfer functions, driving the DMA controller and the data registers. */
module TwiDevice {
  import opened Numbers
  import opened TwiStatus
  import opened TwiTransfer

  /** A master read into `buffer`. The device at the other end sends `source(0)`, `source(1)`, ...;
      `script` is what happens while the function runs. */
  class Reader {
    const script: seq<Event>
    const source: nat -> bv8
    const buffer: array<bv8>
    var now: nat
    /** Bytes taken off the bus, by DMA or from the data register. */
    var taken: nat
    /** The DMA registers: where the next byte goes and how many are still to come. */
    var pointer: nat
    var counter: nat
    ghost var trace: seq<Action>

    /** Every byte taken is in its place. */
    ghost predicate Valid()
      reads this, buffer
    {
      && now <= |script| && taken + counter <= buffer.Length && (counter > 0 ==> pointer == taken)
      && forall i: nat | i < taken :: buffer[i] == source(i)
    }

    constructor (script: seq<Event>, source: nat -> bv8, buffer: array<bv8>)
      ensures Valid() && this.script == script && this.source == source && this.buffer == buffer
      ensures now == taken == counter == 0 && trace == []
    {
      this.script, this.source, this.buffer := script, source, buffer;
      now, taken, pointer, counter, trace := 0, 0, 0, 0, [];
    }

    /** The next event: DMA moves its bytes. */
    method Happen() returns (e: Event)
      requires Valid() && now < |script|
      modifies this`now, this`taken, this`pointer, this`counter, buffer
      ensures Valid() && e == script[old(now)] && now == old(now) + 1
      ensures var k := Min(e.moves, old(counter)); counter == old(counter) - k && taken == old(taken) + k
      ensures buffer[taken..] == old(buffer[..])[taken..]
    {
      e := script[now];
      now := now + 1;
      var k := Min(e.moves, counter);
      forall i | 0 <= i < k {
        buffer[pointer + i] := source(taken + i);
      }
      pointer, counter, taken := pointer + k, counter - k, taken + k;
    }

    /** One piece by DMA. */
    method ReadPiece(at: nat, size: nat) returns (o: Outcome)
      requires Valid() && taken == at && counter == 0 && 0 < size && at + size <= buffer.Length
      modifies this, buffer
      ensures Valid() && now >= old(now) && counter <= size && at <= taken <= at + size
      ensures trace == old(trace) + [Piece(at, size)]
      ensures match PieceWait(script, old(now), size, size, Success)
        case Blocked => o == Waiting
        case Over(rc, end, left) => o == Returned(rc) && now == end && taken == at + size - left && counter == 0
      ensures buffer[taken..] == old(buffer[..])[taken..]
    {
      hide PieceWait;
      var rc, remaining := Success, size;
      pointer, counter := at, size;
      trace := trace + [Piece(at, size)];
      ghost var w := PieceWait(script, now, size, size, Success);
      ghost var was := buffer[..];
      while true
        invariant Valid() && now >= old(now) && at <= taken && counter == at + size - taken && trace == old(trace) + [Piece(at, size)]
        invariant PieceWait(script, now, counter, remaining, rc) == w
        invariant buffer[taken..] == was[taken..]
        decreases |script| - now
      {
        if now == |script| {
          WaitBlocked(script, counter, remaining, rc);
          return Waiting;
        }
        WaitRound(script, now, counter, remaining, rc);
        var status := Happen();
        assert buffer[taken..] == was[taken..];
        if status.nack {
          rc := ReceiveNack;
          break;
        }
        if counter == 0 {
          break;
        }
        if now == |script| {
          return Waiting;
        }
        var e := Happen();
        assert buffer[taken..] == was[taken..];
        rc := e.wait;
        if rc == ErrorTimeout && counter != remaining {
          remaining := counter;
          continue;
        }
        if rc != Success {
          break;
        }
      }
      counter := 0;
      o := Returned(rc);
    }

    /** Waits for the data register to hold a byte. */
    method AwaitByte() returns (o: Outcome, ghost j: nat)
      requires Valid() && counter == 0
      modifies this`now, this`taken, this`pointer, this`counter, buffer
      ensures Valid() && counter == 0 && taken == old(taken) && buffer[taken..] == old(buffer[taken..])
      ensures Polled(script, old(now), true, j, o) && (o == Returned(Success) ==> now == old(now) + 2 * j + 1)
    {
      var timeout: nat := TIMEOUT;
      j := 0;
      while true
        invariant Valid() && counter == 0 && taken == old(taken) && buffer[taken..] == old(buffer[taken..])
        invariant now == old(now) + 2 * j && timeout + j == TIMEOUT && QuietUpTo(script, old(now), j)
        decreases |script| - now
      {
        if now == |script| {
          return Waiting, j;
        }
        var status := Happen();
        if status.nack {
          return Returned(ReceiveNack), j;
        }
        if timeout == 0 {
          return Returned(ErrorTimeout), j;
        }
        timeout := timeout - 1;
        if status.ready {
          return Returned(Success), j;
        }
        if now == |script| {
          return Waiting, j;
        }
        var e := Happen();
        if e.wait != Success {
          return Returned(e.wait), j;
        }
        assert Quiet(script, old(now), j);
        j := j + 1;
      }
    }

    /** Waits for the end of the transfer. */
    method AwaitComplete() returns (o: Outcome, ghost j: nat)
      requires Valid() && counter == 0
      modifies this`now, this`taken, this`pointer, this`counter, buffer
      ensures Valid() && counter == 0 && taken == old(taken) && buffer[taken..] == old(buffer[taken..])
      ensures Completed(script, old(now), j, o)
    {
      var timeout: nat := TIMEOUT;
      j := 0;
      while true
        invariant Valid() && counter == 0 && taken == old(taken) && buffer[taken..] == old(buffer[taken..])
        invariant now == old(now) + 2 * j && timeout + j == TIMEOUT && UnfinishedUpTo(script, old(now), j)
        decreases |script| - now
      {
        if now == |script| {
          return Waiting, j;
        }
        var status := Happen();
        if status.complete {
          return Returned(Success), j;
        }
        if now == |script| {
          return Waiting, j;
        }
        var e := Happen();
        if e.wait == ErrorTimeout {
          return Returned(ErrorTimeoutComp), j;
        } else if e.wait != Success {
          return Returned(e.wait), j;
        }
        if timeout == 0 {
          return Returned(ErrorTimeoutComp), j;
        }
        timeout := timeout - 1;
        assert Unfinished(script, old(now), j);
        j := j + 1;
      }
    }

    /** The last byte, from the data register, and the end of the transfer. The byte is taken if it shows
        up, whatever becomes of the end. */
    method ReadLast(at: nat) returns (o: Outcome, ghost j: nat, ghost b: Outcome)
      requires Valid() && taken == at < buffer.Length && counter == 0
      modifies this, buffer
      ensures Valid() && Polled(script, old(now), true, j, b) && ReadEnds(script, old(now), o)
      ensures taken == (if b == Returned(Success) then at + 1 else at)
      ensures trace == old(trace) + if b == Returned(Success) then [Direct(at)] else []
      ensures o == Returned(Success) ==> b == o
      ensures buffer[taken..] == old(buffer[..])[taken..]
    {
      hide Polled, Completed;
      ghost var was := buffer[..];
      o, j := AwaitByte();
      b := o;
      if o != Returned(Success) {
        return;
      }
      buffer[at] := source(taken);
      taken := taken + 1;
      trace := trace + [Direct(at)];
      assert buffer[taken..] == was[at..][1..];
      ghost var k;
      o, k := AwaitComplete();
      assert CompletedFrom(script, old(now) + 2 * j + 1, o);
    }

    /** All but the last byte, by DMA. */
    method ReadByDma(n: nat) returns (o: Outcome)
      requires Valid() && 0 < n <= buffer.Length && now == taken == counter == 0
      modifies this, buffer
      ensures Valid() && taken <= n && trace <= old(trace) + ReadPieces(0, n) && buffer[taken..] == old(buffer[..])[taken..]
      ensures if o == Returned(Success) then
          && taken == n - 1 && counter == 0 && trace == old(trace) + ReadPieces(0, n)
          && AfterPieces(script, 0, ReadPieces(0, n)) == Past(now)
        else AfterPieces(script, 0, ReadPieces(0, n)) == Ended(o)
    {
      hide PieceWait;
      var cnt, at: nat := n, 0;
      while cnt > 1
        invariant 0 < cnt && at + cnt == n && Valid() && taken == at && counter == 0
        invariant trace + ReadPieces(at, cnt) == old(trace) + ReadPieces(0, n)
        invariant now <= |script| && AfterPieces(script, now, ReadPieces(at, cnt)) == AfterPieces(script, 0, ReadPieces(0, n))
        invariant buffer[taken..] == old(buffer[..])[taken..]
      {
        var size := if cnt > MAX_PIECE then MAX_PIECE else cnt - 1;
        ghost var before, rest := trace, ReadPieces(at + size, cnt - size);
        assert before + [Piece(at, size)] + rest == before + ReadPieces(at, cnt);
        ghost var kept := buffer[at..];
        o := ReadPiece(at, size);
        assert buffer[taken..] == kept[taken - at..];
        if o != Returned(Success) {
          return;
        }
        at, cnt := at + size, cnt - size;
      }
      assert ReadPieces(at, cnt) == [];
      o := Returned(Success);
    }

    /** The stop condition, if there were pieces, and the last byte. */
    method FinishRead(n: nat) returns (o: Outcome)
      requires Valid() && 0 < n <= buffer.Length && taken == n - 1 && counter == 0
      requires trace == [Start(n == 1)] + ReadPieces(0, n)
      modifies this, buffer
      ensures Valid() && n - 1 <= taken <= n && buffer[taken..] == old(buffer[..])[taken..]
      ensures trace <= ReadTrace(n) && (o == Returned(Success) ==> taken == n && trace == ReadTrace(n))
      ensures ReadEnds(script, old(now), o)
    {
      if n > 1 {
        trace := trace + [Stop];
      }
      assert ReadTrace(n) == trace + [Direct(n - 1)];
      hide ReadEnds, Polled;
      ghost var j, b;
      o, j, b := ReadLast(n - 1);
    }

    /** Reads `n` bytes. */
    method MasterRead(n: nat) returns (o: Outcome)
      requires Valid() && n < WORD && n <= buffer.Length && now == taken == counter == 0 && trace == []
      modifies this, buffer
      ensures n == 0 ==> o == Returned(InvalidArgument) && now == 0 && trace == []
      ensures Valid() && taken <= n && buffer[taken..] == old(buffer[..])[taken..]
      ensures n > 0 ==> trace <= ReadTrace(n)
      ensures o == Returned(Success) ==> n > 0 && taken == n && trace == ReadTrace(n)
      ensures n > 0 ==>
        match AfterPieces(script, 0, ReadPieces(0, n))
        case Ended(p) => o == p
        case Past(i) => ReadEnds(script, i, o)
      ensures n > 0 && AfterPieces(script, 0, ReadPieces(0, n)).Past? ==>
        var i := AfterPieces(script, 0, ReadPieces(0, n)).i;
        && (o == Returned(Success) <==>
              exists j: nat :: j < TIMEOUT && ReadyFirst(script, i, j) && Completes(script, i + 2 * j + 1))
        && forall j: nat | j <= TIMEOUT && NackFirst(script, i, j) :: o == Returned(ReceiveNack)
    {
      if n == 0 {
        return Returned(InvalidArgument);
      }
      hide PieceWait, ReadEnds, ReadyFirst, Completes, NackFirst;
      ghost var was := buffer[..];
      trace := [Start(n == 1)];
      o := ReadByDma(n);
      BeginningOfRead(trace, n);
      if o != Returned(Success) {
        return;
      }
      ghost var i, mid := now, buffer[..];
      o := FinishRead(n);
      SameTail(was, mid, buffer[..], n - 1, taken);
      ReadEndsIff(script, i, o);
    }
  }

  /** What neither of two steps has touched. */
  lemma SameTail(a: seq<bv8>, b: seq<bv8>, c: seq<bv8>, k: nat, m: nat)
    requires |a| == |b| == |c| && k <= m <= |a| && b[k..] == a[k..] && c[m..] == b[m..]
    ensures c[m..] == a[m..]
  {
    assert b[m..] == b[k..][m - k..] && a[m..] == a[k..][m - k..];
  }

  /** A master write of `data`; `sent` is what has gone out on the bus. */
  class Writer {
    const script: seq<Event>
    const data: seq<bv8>
    var now: nat
    var sent: seq<bv8>
    var pointer: nat
    var counter: nat
    ghost var trace: seq<Action>

    /** What has been sent is a beginning of the data. */
    ghost predicate Valid()
      reads this
    {
      && now <= |script| && |sent| + counter <= |data| && (counter > 0 ==> pointer == |sent|)
      && sent == data[..|sent|]
    }

    constructor (script: seq<Event>, data: seq<bv8>)
      ensures Valid() && this.script == script && this.data == data
      ensures now == counter == 0 && sent == [] && trace == []
    {
      this.script, this.data := script, data;
      now, sent, pointer, counter, trace := 0, [], 0, 0, [];
    }

    method Happen() returns (e: Event)
      requires Valid() && now < |script|
      modifies this`now, this`sent, this`pointer, this`counter
      ensures Valid() && e == script[old(now)] && now == old(now) + 1
      ensures var k := Min(e.moves, old(counter)); counter == old(counter) - k && |sent| == old(|sent|) + k
    {
      e := script[now];
      now := now + 1;
      var k := Min(e.moves, counter);
      if k > 0 {
        sent := sent + data[pointer..pointer + k];
      }
      pointer, counter := pointer + k, counter - k;
    }

    method WritePiece(at: nat, size: nat) returns (o: Outcome)
      requires Valid() && |sent| == at && counter == 0 && 0 < size && at + size <= |data|
      modifies this
      ensures Valid() && now >= old(now) && counter <= size && at <= |sent| <= at + size
      ensures trace == old(trace) + [Piece(at, size)]
      ensures match PieceWait(script, old(now), size, size, Success)
        case Blocked => o == Waiting
        case Over(rc, end, left) => o == Returned(rc) && now == end && |sent| == at + size - left && counter == 0
    {
      hide PieceWait;
      var rc, remaining := Success, size;
      pointer, counter := at, size;
      trace := trace + [Piece(at, size)];
      ghost var w := PieceWait(script, now, size, size, Success);
      while true
        invariant Valid() && now >= old(now) && at <= |sent| && counter == at + size - |sent|
        invariant trace == old(trace) + [Piece(at, size)] && PieceWait(script, now, counter, remaining, rc) == w
        decreases |script| - now
      {
        if now == |script| {
          WaitBlocked(script, counter, remaining, rc);
          return Waiting;
        }
        WaitRound(script, now, counter, remaining, rc);
        var status := Happen();
        if status.nack {
          rc := ReceiveNack;
          break;
        }
        if counter == 0 {
          break;
        }
        if now == |script| {
          return Waiting;
        }
        var e := Happen();
        rc := e.wait;
        if rc == ErrorTimeout && counter != remaining {
          remaining := counter;
          continue;
        }
        if rc != Success {
          break;
        }
      }
      counter := 0;
      o := Returned(rc);
    }

    /** Waits until the data register can take a byte. */
    method AwaitReady() returns (o: Outcome, ghost j: nat)
      requires Valid() && counter == 0
      modifies this`now, this`sent, this`pointer, this`counter
      ensures Valid() && counter == 0 && sent == old(sent)
      ensures Polled(script, old(now), false, j, o) && (o == Returned(Success) ==> now == old(now) + 2 * j + 1)
    {
      j := 0;
      while true
        invariant Valid() && counter == 0 && sent == old(sent)
        invariant now == old(now) + 2 * j && QuietUpTo(script, old(now), j)
        decreases |script| - now
      {
        if now == |script| {
          return Waiting, j;
        }
        var status := Happen();
        if status.nack {
          return Returned(ReceiveNack), j;
        }
        if status.ready {
          return Returned(Success), j;
        }
        if now == |script| {
          return Waiting, j;
        }
        var e := Happen();
        if e.wait != Success {
          return Returned(e.wait), j;
        }
        assert Quiet(script, old(now), j);
        j := j + 1;
      }
    }

    method AwaitComplete() returns (o: Outcome, ghost j: nat)
      requires Valid() && counter == 0
      modifies this`now, this`sent, this`pointer, this`counter
      ensures Valid() && counter == 0 && sent == old(sent)
      ensures Drained(script, old(now), j, o)
    {
      var timeout: nat := TIMEOUT;
      j := 0;
      while true
        invariant Valid() && counter == 0 && sent == old(sent)
        invariant now == old(now) + j && timeout + j == TIMEOUT && forall k: nat | k < j :: Draining(script, old(now), k)
        decreases |script| - now
      {
        if now == |script| {
          return Waiting, j;
        }
        var status := Happen();
        if status.complete {
          return Returned(Success), j;
        }
        if timeout == 0 {
          return Returned(ErrorTimeoutComp), j;
        }
        timeout := timeout - 1;
        j := j + 1;
      }
    }

    /** The data register gets free, and the transfer ends. */
    method EndWrite() returns (o: Outcome)
      requires Valid() && counter == 0
      modifies this
      ensures Valid() && sent == old(sent) && StopEnds(script, old(now), o)
      ensures trace == old(trace) || trace == old(trace) + [Stop]
      ensures o == Returned(Success) ==> trace == old(trace) + [Stop]
    {
      hide Polled, Drained;
      ghost var j, k;
      o, j := AwaitReady();
      if o != Returned(Success) {
        return o;
      }
      trace := trace + [Stop];
      o, k := AwaitComplete();
      assert DrainedFrom(script, old(now) + 2 * j + 1, o);
    }

    /** The byte that is left over, if any, and the end of the transfer. */
    method WriteLast(cnt: nat) returns (o: Outcome)
      requires Valid() && counter == 0 && cnt <= 1 && |sent| + cnt == |data|
      modifies this
      ensures var direct := if cnt == 1 then [Direct(|data| - 1)] else [];
        Valid() && trace <= old(trace) + direct + [Stop]
        && (o == Returned(Success) ==> sent == data && trace == old(trace) + direct + [Stop])
      ensures WriteEnds(script, old(now), cnt == 1, o)
    {
      hide Polled, StopEnds;
      if cnt > 0 {
        ghost var j;
        o, j := AwaitReady();
        if o != Returned(Success) {
          return o;
        }
        sent := sent + [data[|sent|]];
        trace := trace + [Direct(|data| - 1)];
      }
      o := EndWrite();
    }

    /** All but the byte that may be left over, by DMA. */
    method WriteByDma() returns (o: Outcome, cnt: nat)
      requires Valid() && data != [] && now == counter == 0 && sent == [] && trace == []
      modifies this
      ensures Valid() && trace <= WritePieces(0, |data|)
      ensures if o == Returned(Success) then
          && cnt == (if |data| % MAX_PIECE == 1 then 1 else 0) && |sent| + cnt == |data| && counter == 0
          && trace == WritePieces(0, |data|) && AfterPieces(script, 0, WritePieces(0, |data|)) == Past(now)
        else AfterPieces(script, 0, WritePieces(0, |data|)) == Ended(o)
    {
      hide PieceWait, WriteLeft;
      WriteLeftStep(|data|);
      cnt := |data|;
      var at: nat := 0;
      while cnt > 1
        invariant at + cnt == |data| && Valid() && |sent| == at && counter == 0
        invariant trace + WritePieces(at, cnt) == WritePieces(0, |data|)
        invariant WriteLeft(cnt) == WriteLeft(|data|) && (cnt <= 1 ==> WriteLeft(cnt) == cnt)
        invariant now <= |script| && AfterPieces(script, now, WritePieces(at, cnt)) == AfterPieces(script, 0, WritePieces(0, |data|))
        decreases cnt
      {
        var size := if cnt > MAX_PIECE then MAX_PIECE else cnt;
        ghost var before, rest := trace, WritePieces(at + size, cnt - size);
        assert before + [Piece(at, size)] + rest == before + WritePieces(at, cnt);
        WriteLeftStep(cnt);
        o := WritePiece(at, size);
        if o != Returned(Success) {
          return;
        }
        at, cnt := at + size, cnt - size;
        WriteLeftStep(cnt);
      }
      assert WritePieces(at, cnt) == [];
      WriteLeftIs(|data|);
      o := Returned(Success);
    }

    /** Writes all of the data. */
    method MasterWrite() returns (o: Outcome)
      requires Valid() && |data| < WORD && now == counter == 0 && sent == [] && trace == []
      modifies this
      ensures data == [] ==> o == Returned(InvalidArgument) && now == 0 && trace == []
      ensures Valid() && (data != [] ==> trace <= WriteTrace(|data|))
      ensures o == Returned(Success) ==> data != [] && sent == data && trace == WriteTrace(|data|)
      ensures data != [] ==>
        match AfterPieces(script, 0, WritePieces(0, |data|))
        case Ended(p) => o == p
        case Past(i) => WriteEnds(script, i, |data| % MAX_PIECE == 1, o)
      ensures data != [] && AfterPieces(script, 0, WritePieces(0, |data|)).Past? ==>
        var i := AfterPieces(script, 0, WritePieces(0, |data|)).i;
        && (o == Returned(Success) <==>
              if |data| % MAX_PIECE == 1 then exists j: nat :: ReadyFirst(script, i, j) && StopSucceeds(script, i + 2 * j + 1)
              else StopSucceeds(script, i))
        && forall j: nat | NackFirst(script, i, j) :: o == Returned(ReceiveNack)
    {
      if data == [] {
        return Returned(InvalidArgument);
      }
      hide PieceWait, WriteTrace, WriteEnds, ReadyFirst, StopSucceeds, NackFirst;
      var cnt;
      o, cnt := WriteByDma();
      if o != Returned(Success) {
        BeginningOfWrite(trace, |data|);
        return;
      }
      ghost var i := now;
      o := WriteLast(cnt);
      WriteEndsIff(script, i, cnt == 1, o);
    }
  }
}
