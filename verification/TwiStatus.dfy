/** How the waiting loops of the two-wire transfers end, told from the events alone. An even number of
    events after the first one of a loop it reads the status register, after an odd number it waits. */
module TwiStatus {
  import opened Numbers
  import opened TwiTransfer

  /** Bytes that the `n` events from `i` on would move. */
  function Moved(script: seq<Event>, i: nat, n: nat): nat
    requires i + n <= |script|
    decreases n
  {
    if n == 0 then 0 else script[i].moves + Moved(script, i + 1, n - 1)
  }

  /** What is left of `counter` bytes after `n` events. */
  function Left(script: seq<Event>, i: nat, counter: nat, n: nat): nat
    requires i + n <= |script|
  {
    counter - Min(counter, Moved(script, i, n))
  }

  /** What was left at the last of the first `j` waits that timed out. */
  function LastTimeout(script: seq<Event>, i: nat, counter: nat, remaining: nat, j: nat): nat
    requires i + 2 * j <= |script|
  {
    if j == 0 then remaining
    else if script[i + 2 * j - 1].wait == ErrorTimeout then Left(script, i, counter, 2 * j)
    else LastTimeout(script, i, counter, remaining, j - 1)
  }

  /** The piece goes on after reading and wait `j`: not refused, not all moved, and either woken up or
      timed out with some progress since the last time-out. */
  predicate PieceGoesOn(script: seq<Event>, i: nat, counter: nat, remaining: nat, j: nat)
  {
    && i + 2 * j + 1 < |script| && !script[i + 2 * j].nack && Left(script, i, counter, 2 * j + 1) > 0
    && var r := script[i + 2 * j + 1].wait;
       || r == Success
       || (r == ErrorTimeout && Left(script, i, counter, 2 * j + 2) != LastTimeout(script, i, counter, remaining, j))
  }

  lemma NextRound(script: seq<Event>, i: nat, counter: nat, n: nat)
    requires i + 2 + n <= |script|
    ensures Left(script, i, counter, n + 2) == Left(script, i + 2, Left(script, i, counter, 2), n)
  {
    assert Moved(script, i, n + 2) == script[i].moves + script[i + 1].moves + Moved(script, i + 2, n);
    assert Moved(script, i, 2) == script[i].moves + script[i + 1].moves + Moved(script, i + 2, 0);
  }

  lemma {:induction false} NextTimeout(script: seq<Event>, i: nat, counter: nat, remaining: nat, j: nat)
    requires i + 2 + 2 * j <= |script|
    ensures var d := Left(script, i, counter, 2);
      LastTimeout(script, i, counter, remaining, j + 1)
        == LastTimeout(script, i + 2, d, if script[i + 1].wait == ErrorTimeout then d else remaining, j)
  {
    hide Left;
    if j == 0 {
      assert LastTimeout(script, i, counter, remaining, 0) == remaining;
    } else {
      NextTimeout(script, i, counter, remaining, j - 1);
      NextRound(script, i, counter, 2 * j);
    }
  }

  lemma NextGoesOn(script: seq<Event>, i: nat, counter: nat, remaining: nat, j: nat)
    requires i + 2 <= |script|
    ensures var d := Left(script, i, counter, 2);
      var left := if script[i + 1].wait == ErrorTimeout then d else remaining;
      PieceGoesOn(script, i, counter, remaining, j + 1) == PieceGoesOn(script, i + 2, d, left, j)
  {
    hide Left, LastTimeout;
    if i + 2 * j + 3 < |script| {
      NextRound(script, i, counter, 2 * j + 1);
      NextRound(script, i, counter, 2 * j + 2);
      NextTimeout(script, i, counter, remaining, j);
    }
  }

  /** How a piece ends that goes on for `j` rounds: refused, with the last wait's result once everything
      has moved, or with the result of a wait that failed or timed out without progress. */
  predicate PieceEndsAt(script: seq<Event>, i: nat, counter: nat, remaining: nat, rc: Rc, j: nat, w: Wait)
  {
    var k := i + 2 * j;
    if k >= |script| then k == |script| && w == Blocked
    else if script[k].nack then w == Over(ReceiveNack, k + 1, Left(script, i, counter, 2 * j + 1))
    else if Left(script, i, counter, 2 * j + 1) == 0 then w == Over(if j == 0 then rc else script[k - 1].wait, k + 1, 0)
    else if k + 1 == |script| then w == Blocked
    else
      var r := script[k + 1].wait;
      && w == Over(r, k + 2, Left(script, i, counter, 2 * j + 2)) && r != Success
      && (r == ErrorTimeout ==> w.left == LastTimeout(script, i, counter, remaining, j))
  }

  lemma OneEvent(script: seq<Event>, i: nat, counter: nat)
    requires i < |script|
    ensures Left(script, i, counter, 1) == counter - Min(script[i].moves, counter)
    ensures i + 1 < |script| ==>
      var c := Left(script, i, counter, 1); Left(script, i, counter, 2) == c - Min(script[i + 1].moves, c)
  {
    assert Moved(script, i, 1) == script[i].moves + Moved(script, i + 1, 0);
    if i + 1 < |script| {
      assert Moved(script, i, 2) == script[i].moves + Moved(script, i + 1, 1);
      assert Moved(script, i + 1, 1) == script[i + 1].moves + Moved(script, i + 2, 0);
    }
  }

  lemma FirstEndsAt(script: seq<Event>, i: nat, counter: nat, remaining: nat, rc: Rc)
    requires i <= |script| && !PieceGoesOn(script, i, counter, remaining, 0)
    ensures PieceEndsAt(script, i, counter, remaining, rc, 0, PieceWait(script, i, counter, remaining, rc))
  {
    assert LastTimeout(script, i, counter, remaining, 0) == remaining;
    if i == |script| {
      WaitBlocked(script, counter, remaining, rc);
    } else {
      WaitRound(script, i, counter, remaining, rc);
      OneEvent(script, i, counter);
    }
    hide PieceWait, Left, LastTimeout;
  }

  lemma FirstGoesOn(script: seq<Event>, i: nat, counter: nat, remaining: nat, rc: Rc)
    requires PieceGoesOn(script, i, counter, remaining, 0)
    ensures var d, r := Left(script, i, counter, 2), script[i + 1].wait;
      PieceWait(script, i, counter, remaining, rc)
        == PieceWait(script, i + 2, d, if r == ErrorTimeout then d else remaining, r)
  {
    WaitRound(script, i, counter, remaining, rc);
    OneEvent(script, i, counter);
    hide PieceWait, Left;
  }

  /** The waiting loop of a piece, round by round. */
  lemma {:induction false} PieceEnds(script: seq<Event>, i: nat, counter: nat, remaining: nat, rc: Rc) returns (j: nat)
    requires i <= |script|
    ensures forall k: nat | k < j :: PieceGoesOn(script, i, counter, remaining, k)
    ensures PieceEndsAt(script, i, counter, remaining, rc, j, PieceWait(script, i, counter, remaining, rc))
    decreases |script| - i
  {
    hide PieceWait, Left, LastTimeout, PieceEndsAt;
    if !PieceGoesOn(script, i, counter, remaining, 0) {
      FirstEndsAt(script, i, counter, remaining, rc);
      return 0;
    }
    FirstGoesOn(script, i, counter, remaining, rc);
    var d, r := Left(script, i, counter, 2), script[i + 1].wait;
    var left := if r == ErrorTimeout then d else remaining;
    var n := PieceEnds(script, i + 2, d, left, r);
    NextEndsAt(script, i, counter, remaining, rc, n, PieceWait(script, i + 2, d, left, r));
    hide PieceGoesOn;
    forall k: nat | k < n + 1 ensures PieceGoesOn(script, i, counter, remaining, k) {
      if k > 0 {
        NextGoesOn(script, i, counter, remaining, k - 1);
      }
    }
    j := n + 1;
  }

  lemma NextEndsAt(script: seq<Event>, i: nat, counter: nat, remaining: nat, rc: Rc, j: nat, w: Wait)
    requires i + 2 <= |script|
    requires var d, r := Left(script, i, counter, 2), script[i + 1].wait;
      PieceEndsAt(script, i + 2, d, if r == ErrorTimeout then d else remaining, r, j, w)
    ensures PieceEndsAt(script, i, counter, remaining, rc, j + 1, w)
  {
    hide Left, LastTimeout;
    if i + 2 * j + 2 < |script| {
      NextRound(script, i, counter, 2 * j + 1);
      if i + 2 * j + 3 < |script| {
        NextRound(script, i, counter, 2 * j + 2);
        NextTimeout(script, i, counter, remaining, j);
      }
    }
  }

  /** Where a transfer is after its pieces, or how it has ended before. */
  datatype Progress = Past(i: nat) | Ended(o: Outcome)

  function AfterPieces(script: seq<Event>, i: nat, pieces: seq<Action>): (p: Progress)
    requires i <= |script| && forall a | a in pieces :: a.Piece?
    ensures p.Past? ==> i <= p.i <= |script|
    decreases |pieces|
  {
    if pieces == [] then Past(i)
    else
      match PieceWait(script, i, pieces[0].size, pieces[0].size, Success)
      case Blocked => Ended(Waiting)
      case Over(rc, end, _) => if rc == Success then AfterPieces(script, end, pieces[1..]) else Ended(Returned(rc))
  }

  /** The first `m` pieces succeed, each from where the one before it ended, the first from `starts[0]`. */
  ghost predicate PiecesDone(script: seq<Event>, starts: seq<nat>, pieces: seq<Action>, m: nat)
    requires forall a | a in pieces :: a.Piece?
  {
    && m <= |pieces| && |starts| == m + 1 && (forall k: nat | k <= m :: starts[k] <= |script|)
    && forall k: nat | k < m ::
         PieceWait(script, starts[k], pieces[k].size, pieces[k].size, Success) == Over(Success, starts[k + 1], 0)
  }

  /** A transfer is past its pieces when all of them have succeeded; otherwise it has ended as the first
      piece that has not. */
  lemma {:induction false} PiecesEnd(script: seq<Event>, i: nat, pieces: seq<Action>) returns (starts: seq<nat>)
    requires i <= |script| && forall a | a in pieces :: a.Piece?
    ensures |starts| > 0 && starts[0] == i && PiecesDone(script, starts, pieces, |starts| - 1)
    ensures var m := |starts| - 1;
      match AfterPieces(script, i, pieces)
      case Past(e) => m == |pieces| && e == starts[m]
      case Ended(o) =>
        && m < |pieces|
        && match PieceWait(script, starts[m], pieces[m].size, pieces[m].size, Success)
           case Blocked => o == Waiting
           case Over(rc, _, _) => rc != Success && o == Returned(rc)
    decreases |pieces|
  {
    hide PieceWait;
    if pieces == [] {
      return [i];
    }
    var w := PieceWait(script, i, pieces[0].size, pieces[0].size, Success);
    if w.Blocked? || w.rc != Success {
      return [i];
    }
    var rest := PiecesEnd(script, w.end, pieces[1..]);
    starts := [i] + rest;
    forall k: nat | k < |starts| - 1
      ensures PieceWait(script, starts[k], pieces[k].size, pieces[k].size, Success) == Over(Success, starts[k + 1], 0)
    {
      if k > 0 {
        assert pieces[k] == pieces[1..][k - 1] && starts[k] == rest[k - 1] && starts[k + 1] == rest[k];
      }
    }
    assert |rest| - 1 < |pieces| - 1 ==> pieces[|rest|] == pieces[1..][|rest| - 1];
  }

  /** Reading and wait `j` show neither a refusal nor a free or full data register, and no failure. */
  predicate Quiet(script: seq<Event>, i: nat, j: nat)
  {
    && i + 2 * j + 1 < |script|
    && !script[i + 2 * j].nack && !script[i + 2 * j].ready && script[i + 2 * j + 1].wait == Success
  }

  ghost predicate QuietUpTo(script: seq<Event>, i: nat, j: nat)
  {
    i + 2 * j <= |script| && forall k: nat | k < j :: Quiet(script, i, k)
  }

  /** How the wait for the data register ends after `j` quiet rounds. A read allows a limited number of
      readings, a write any number. */
  ghost predicate Polled(script: seq<Event>, i: nat, limited: bool, j: nat, o: Outcome)
  {
    && QuietUpTo(script, i, j) && (limited ==> j <= TIMEOUT)
    && var k := i + 2 * j;
       if k == |script| then o == Waiting
       else if script[k].nack then o == Returned(ReceiveNack)
       else if limited && j == TIMEOUT then o == Returned(ErrorTimeout)
       else if script[k].ready then o == Returned(Success)
       else if k + 1 == |script| then o == Waiting
       else script[k + 1].wait != Success && o == Returned(script[k + 1].wait)
  }

  /** Reading and wait `j` show a transfer that is not complete, and no failure. */
  predicate Unfinished(script: seq<Event>, i: nat, j: nat)
  {
    i + 2 * j + 1 < |script| && !script[i + 2 * j].complete && script[i + 2 * j + 1].wait == Success
  }

  ghost predicate UnfinishedUpTo(script: seq<Event>, i: nat, j: nat)
  {
    i + 2 * j <= |script| && forall k: nat | k < j :: Unfinished(script, i, k)
  }

  /** How a read's wait for the end of the transfer ends. */
  ghost predicate Completed(script: seq<Event>, i: nat, j: nat, o: Outcome)
  {
    && UnfinishedUpTo(script, i, j) && j <= TIMEOUT
    && var k := i + 2 * j;
       if k == |script| then o == Waiting
       else if script[k].complete then o == Returned(Success)
       else if k + 1 == |script| then o == Waiting
       else if script[k + 1].wait == ErrorTimeout then o == Returned(ErrorTimeoutComp)
       else if script[k + 1].wait != Success then o == Returned(script[k + 1].wait)
       else j == TIMEOUT && o == Returned(ErrorTimeoutComp)
  }

  predicate Draining(script: seq<Event>, i: nat, j: nat) { i + j < |script| && !script[i + j].complete }

  /** How a write's ends, which only reads. */
  ghost predicate Drained(script: seq<Event>, i: nat, j: nat, o: Outcome)
  {
    && j <= TIMEOUT && i + j <= |script| && (forall k: nat | k < j :: Draining(script, i, k))
    && if i + j == |script| then o == Waiting
       else if script[i + j].complete then o == Returned(Success)
       else j == TIMEOUT && o == Returned(ErrorTimeoutComp)
  }

  lemma PolledOnce(script: seq<Event>, i: nat, limited: bool, j: nat, o: Outcome, k: nat, p: Outcome)
    requires Polled(script, i, limited, j, o) && Polled(script, i, limited, k, p)
    ensures j == k && o == p
  {
    assert j < k ==> Quiet(script, i, j);
    assert k < j ==> Quiet(script, i, k);
  }

  lemma CompletedOnce(script: seq<Event>, i: nat, j: nat, o: Outcome, k: nat, p: Outcome)
    requires Completed(script, i, j, o) && Completed(script, i, k, p)
    ensures j == k && o == p
  {
    assert j < k ==> Unfinished(script, i, j);
    assert k < j ==> Unfinished(script, i, k);
  }

  lemma DrainedOnce(script: seq<Event>, i: nat, j: nat, o: Outcome, k: nat, p: Outcome)
    requires Drained(script, i, j, o) && Drained(script, i, k, p)
    ensures j == k && o == p
  {
    assert j < k ==> Draining(script, i, j);
    assert k < j ==> Draining(script, i, k);
  }

  /** The end of a read after its pieces: the last byte, then the end of the transfer. */
  ghost predicate ReadEnds(script: seq<Event>, i: nat, o: Outcome)
  {
    exists j: nat, b :: Polled(script, i, true, j, b) &&
      if b == Returned(Success) then CompletedFrom(script, i + 2 * j + 1, o) else o == b
  }

  ghost predicate CompletedFrom(script: seq<Event>, i: nat, o: Outcome) { exists j: nat :: Completed(script, i, j, o) }

  /** The end of a write once all bytes are in the data register: it gets free, and the transfer ends. */
  ghost predicate StopEnds(script: seq<Event>, i: nat, o: Outcome)
  {
    exists j: nat, b :: Polled(script, i, false, j, b) &&
      if b == Returned(Success) then DrainedFrom(script, i + 2 * j + 1, o) else o == b
  }

  ghost predicate DrainedFrom(script: seq<Event>, i: nat, o: Outcome) { exists j: nat :: Drained(script, i, j, o) }

  /** The end of a write after its pieces, with or without a last byte for the data register. */
  ghost predicate WriteEnds(script: seq<Event>, i: nat, direct: bool, o: Outcome)
  {
    if direct then
      exists j: nat, b :: Polled(script, i, false, j, b) &&
        if b == Returned(Success) then StopEnds(script, i + 2 * j + 1, o) else o == b
    else StopEnds(script, i, o)
  }

  /** The first reading from `i` on with NACK or RXRDY/TXRDY is the one after `j` quiet rounds, and it has
      no NACK. */
  ghost predicate ReadyFirst(script: seq<Event>, i: nat, j: nat)
  {
    QuietUpTo(script, i, j) && i + 2 * j < |script| && script[i + 2 * j].ready && !script[i + 2 * j].nack
  }

  ghost predicate NackFirst(script: seq<Event>, i: nat, j: nat)
  {
    QuietUpTo(script, i, j) && i + 2 * j < |script| && script[i + 2 * j].nack
  }

  /** The wait for the end that begins at `i` sees TXCOMP in time, with no failed wait before it. */
  ghost predicate Completes(script: seq<Event>, i: nat)
  {
    exists j: nat :: UnfinishedUpTo(script, i, j) && j <= TIMEOUT && i + 2 * j < |script| && script[i + 2 * j].complete
  }

  /** One of as many readings from `i` on as are allowed sees TXCOMP. */
  ghost predicate Drains(script: seq<Event>, i: nat)
  {
    exists k: nat :: i <= k <= i + TIMEOUT && k < |script| && script[k].complete
  }

  lemma CompletedIff(script: seq<Event>, i: nat, o: Outcome)
    requires CompletedFrom(script, i, o)
    ensures o == Returned(Success) <==> Completes(script, i)
    ensures forall p :: CompletedFrom(script, i, p) ==> p == o
  {
    var j: nat :| Completed(script, i, j, o);
    if k: nat :| UnfinishedUpTo(script, i, k) && k <= TIMEOUT && i + 2 * k < |script| && script[i + 2 * k].complete {
      assert Completed(script, i, k, Returned(Success));
      CompletedOnce(script, i, j, o, k, Returned(Success));
    }
    forall p | CompletedFrom(script, i, p) ensures p == o {
      var k: nat :| Completed(script, i, k, p);
      CompletedOnce(script, i, j, o, k, p);
    }
  }

  /** A read's end is determined by the events. It succeeds exactly when a byte shows up without a refusal
      and then the transfer completes, both in time and without a failed wait; a refusal in time is
      reported. */
  lemma ReadEndsIff(script: seq<Event>, i: nat, o: Outcome)
    requires ReadEnds(script, i, o)
    ensures o == Returned(Success)
       <==> exists j: nat :: j < TIMEOUT && ReadyFirst(script, i, j) && Completes(script, i + 2 * j + 1)
    ensures forall j: nat | j <= TIMEOUT && NackFirst(script, i, j) :: o == Returned(ReceiveNack)
    ensures forall p :: ReadEnds(script, i, p) ==> p == o
  {
    hide Completed, Completes, Quiet;
    var j: nat, b :| Polled(script, i, true, j, b) &&
      if b == Returned(Success) then CompletedFrom(script, i + 2 * j + 1, o) else o == b;
    if b == Returned(Success) {
      CompletedIff(script, i + 2 * j + 1, o);
    }
    forall p | ReadEnds(script, i, p) ensures p == o {
      var k: nat, c :| Polled(script, i, true, k, c) &&
        if c == Returned(Success) then CompletedFrom(script, i + 2 * k + 1, p) else p == c;
      PolledOnce(script, i, true, j, b, k, c);
    }
    if k: nat :| k < TIMEOUT && ReadyFirst(script, i, k) && Completes(script, i + 2 * k + 1) {
      assert Polled(script, i, true, k, Returned(Success));
      PolledOnce(script, i, true, j, b, k, Returned(Success));
    }
    forall k: nat | k <= TIMEOUT && NackFirst(script, i, k) ensures o == Returned(ReceiveNack) {
      assert Polled(script, i, true, k, Returned(ReceiveNack));
      PolledOnce(script, i, true, j, b, k, Returned(ReceiveNack));
    }
    if o == Returned(Success) {
      assert ReadyFirst(script, i, j);
    }
  }

  /** The data register gets free without a refusal, and then the transfer completes in time. */
  ghost predicate StopSucceeds(script: seq<Event>, i: nat)
  {
    exists j: nat :: ReadyFirst(script, i, j) && Drains(script, i + 2 * j + 1)
  }

  lemma DrainedIff(script: seq<Event>, i: nat, o: Outcome)
    requires DrainedFrom(script, i, o)
    ensures o == Returned(Success) <==> Drains(script, i)
    ensures forall p :: DrainedFrom(script, i, p) ==> p == o
  {
    var j: nat :| Drained(script, i, j, o);
    forall p | DrainedFrom(script, i, p) ensures p == o {
      var k: nat :| Drained(script, i, k, p);
      DrainedOnce(script, i, j, o, k, p);
    }
    if k: nat :| i <= k <= i + TIMEOUT && k < |script| && script[k].complete {
      assert k < i + j ==> Draining(script, i, k - i);
    }
    if o == Returned(Success) {
      assert script[i + j].complete;
    }
  }

  /** The same for the last two waits of a write, which no number of readings limits. */
  lemma StopEndsIff(script: seq<Event>, i: nat, o: Outcome)
    requires StopEnds(script, i, o)
    ensures o == Returned(Success) <==> StopSucceeds(script, i)
    ensures forall j: nat | NackFirst(script, i, j) :: o == Returned(ReceiveNack)
    ensures forall p :: StopEnds(script, i, p) ==> p == o
  {
    hide Drained, Drains, Quiet;
    var j: nat, b :| Polled(script, i, false, j, b) &&
      if b == Returned(Success) then DrainedFrom(script, i + 2 * j + 1, o) else o == b;
    if b == Returned(Success) {
      DrainedIff(script, i + 2 * j + 1, o);
    }
    forall p | StopEnds(script, i, p) ensures p == o {
      var k: nat, c :| Polled(script, i, false, k, c) &&
        if c == Returned(Success) then DrainedFrom(script, i + 2 * k + 1, p) else p == c;
      PolledOnce(script, i, false, j, b, k, c);
    }
    if k: nat :| ReadyFirst(script, i, k) && Drains(script, i + 2 * k + 1) {
      assert Polled(script, i, false, k, Returned(Success));
      PolledOnce(script, i, false, j, b, k, Returned(Success));
    }
    forall k: nat | NackFirst(script, i, k) ensures o == Returned(ReceiveNack) {
      assert Polled(script, i, false, k, Returned(ReceiveNack));
      PolledOnce(script, i, false, j, b, k, Returned(ReceiveNack));
    }
    if o == Returned(Success) {
      assert ReadyFirst(script, i, j);
    }
  }

  /** A write's end: with a byte left over, the data register must take it first. */
  lemma WriteEndsIff(script: seq<Event>, i: nat, direct: bool, o: Outcome)
    requires WriteEnds(script, i, direct, o)
    ensures o == Returned(Success) <==>
      if direct then exists j: nat :: ReadyFirst(script, i, j) && StopSucceeds(script, i + 2 * j + 1)
      else StopSucceeds(script, i)
    ensures forall j: nat | NackFirst(script, i, j) :: o == Returned(ReceiveNack)
    ensures forall p :: WriteEnds(script, i, direct, p) ==> p == o
  {
    hide StopEnds, StopSucceeds, Quiet;
    if !direct {
      StopEndsIff(script, i, o);
      return;
    }
    var j: nat, b :| Polled(script, i, false, j, b) &&
      if b == Returned(Success) then StopEnds(script, i + 2 * j + 1, o) else o == b;
    if b == Returned(Success) {
      StopEndsIff(script, i + 2 * j + 1, o);
    }
    forall p | WriteEnds(script, i, direct, p) ensures p == o {
      var k: nat, c :| Polled(script, i, false, k, c) &&
        if c == Returned(Success) then StopEnds(script, i + 2 * k + 1, p) else p == c;
      PolledOnce(script, i, false, j, b, k, c);
    }
    if k: nat :| ReadyFirst(script, i, k) && StopSucceeds(script, i + 2 * k + 1) {
      assert Polled(script, i, false, k, Returned(Success));
      PolledOnce(script, i, false, j, b, k, Returned(Success));
    }
    forall k: nat | NackFirst(script, i, k) ensures o == Returned(ReceiveNack) {
      assert Polled(script, i, false, k, Returned(ReceiveNack));
      PolledOnce(script, i, false, j, b, k, Returned(ReceiveNack));
    }
    if o == Returned(Success) {
      assert ReadyFirst(script, i, j);
    }
  }
}
