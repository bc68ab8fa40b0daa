/** The one-byte receiver on received chains of pieces: where it is in the stream, and where the network
    stack stops. */
module XvcReception {
  import opened Bits
  import opened XvcChains
  import opened XvcProtocol

  /** The bytes of a chain of pieces. */
  function Flatten(pieces: seq<seq<bv8>>): seq<bv8>
  {
    if pieces == [] then [] else pieces[0] + Flatten(pieces[1..])
  }

  /** All bytes of a sequence of received chains. */
  function Stream(chains: seq<seq<seq<bv8>>>): seq<bv8>
  {
    if chains == [] then [] else Stream(chains[..|chains| - 1]) + Flatten(chains[|chains| - 1])
  }

  /** A chain has been received, or the network stack has stopped on it. */
  datatype Ending<D> = Done(ref: Ref<D>) | Hung(world: World<D>)

  /** A command name is about to be read: the last command is over, or a piece begins. */
  predicate Reading(p: Parse, begins: bool)
  {
    p.Name_? && (begins || p.prefix == [])
  }

  /** The one-byte receiver on the rest `cur` of a piece and the pieces after it. It stops where a name
      is about to be read and the copy is longer than the rest of the piece. */
  function ChainRun<D>(env: Env<D>, r: Ref<D>, begins: bool, cur: seq<bv8>, next: seq<seq<bv8>>): (e: Ending<D>)
    requires r.parse.Ok()
    ensures e.Done? ==> e.ref.parse.Ok()
    decreases |next|, |cur|
  {
    if cur == [] then if next == [] then Done(r) else ChainRun(env, r, true, next[0], next[1..])
    else if Reading(r.parse, begins) && Overruns(r.parse.prefix, cur, Flatten(next)) then Hung(r.world)
    else ChainRun(env, Feed(env, r, cur[0]), false, cur[1..], next)
  }

  function ChainEnd<D>(env: Env<D>, r: Ref<D>, chain: seq<seq<bv8>>): (e: Ending<D>)
    requires r.parse.Ok()
    ensures e.Done? ==> e.ref.parse.Ok()
  {
    ChainRun(env, r, true, [], chain)
  }

  /** Where it does not stop it has received the bytes, however they are cut. */
  lemma {:induction false} ChainRunDone<D>(env: Env<D>, r: Ref<D>, begins: bool, cur: seq<bv8>, next: seq<seq<bv8>>)
    requires r.parse.Ok() && ChainRun(env, r, begins, cur, next).Done?
    ensures ChainRun(env, r, begins, cur, next).ref == Run(env, r, cur + Flatten(next))
    decreases |next|, |cur|
  {
    hide Feed;
    var all := cur + Flatten(next);
    if cur == [] {
      assert all == Flatten(next);
      if next != [] {
        ChainRunDone(env, r, true, next[0], next[1..]);
      }
    } else {
      ChainRunDone(env, Feed(env, r, cur[0]), false, cur[1..], next);
      assert all[0] == cur[0] && all[1..] == cur[1..] + Flatten(next);
    }
  }

  /** Byte `i` of piece `k` of the chain is where a name is about to be read, with too little of it left
      in the piece. */
  ghost predicate StopsAt<D>(env: Env<D>, r: Ref<D>, begins: bool, chain: seq<seq<bv8>>, k: nat, i: nat)
    requires r.parse.Ok() && k < |chain| && i < |chain[k]|
  {
    var p := Run(env, r, Flatten(chain[..k]) + chain[k][..i]).parse;
    Reading(p, i == 0 && (k > 0 || begins)) && Overruns(p.prefix, chain[k][i..], Flatten(chain[k + 1..]))
  }

  ghost predicate Stops<D>(env: Env<D>, r: Ref<D>, begins: bool, chain: seq<seq<bv8>>)
    requires r.parse.Ok()
  {
    exists k: nat, i: nat :: k < |chain| && i < |chain[k]| && StopsAt(env, r, begins, chain, k, i)
  }

  lemma StopsAtNextByte<D>(env: Env<D>, r: Ref<D>, begins: bool, cur: seq<bv8>, next: seq<seq<bv8>>, k: nat, i: nat)
    requires r.parse.Ok() && cur != [] && k <= |next| && i < |([cur] + next)[k]| && (k > 0 || i > 0)
    ensures var j := if k == 0 then i - 1 else i;
      var rest := [cur[1..]] + next;
      j < |rest[k]| && (StopsAt(env, r, begins, [cur] + next, k, i) <==> StopsAt(env, Feed(env, r, cur[0]), false, rest, k, j))
  {
    hide Feed;
    var chain, rest := [cur] + next, [cur[1..]] + next;
    var j := if k == 0 then i - 1 else i;
    var a, b := Flatten(chain[..k]) + chain[k][..i], Flatten(rest[..k]) + rest[k][..j];
    assert chain[k + 1..] == rest[k + 1..];
    if k == 0 {
      assert a == cur[..i] && b == cur[1..][..i - 1];
      assert a[0] == cur[0] && a[1..] == b;
    } else {
      assert chain[..k] == [cur] + next[..k - 1] && rest[..k] == [cur[1..]] + next[..k - 1];
      assert chain[..k][1..] == next[..k - 1] && rest[..k][1..] == next[..k - 1];
      assert a[0] == cur[0] && a[1..] == b;
    }
  }

  lemma StopsAtNextPiece<D>(env: Env<D>, r: Ref<D>, begins: bool, next: seq<seq<bv8>>, k: nat, i: nat)
    requires r.parse.Ok() && k < |next| && i < |next[k]|
    ensures StopsAt(env, r, begins, [[]] + next, k + 1, i) <==> StopsAt(env, r, true, next, k, i)
  {
    var chain := [[]] + next;
    assert chain[..k + 1] == [[]] + next[..k] && ([[]] + next[..k])[1..] == next[..k];
    assert Flatten(chain[..k + 1]) == Flatten(next[..k]);
    assert chain[k + 2..] == next[k + 1..];
  }

  /** The network stack stops on a chain exactly when there is such a place in it. */
  lemma {:induction false} HungIff<D>(env: Env<D>, r: Ref<D>, begins: bool, cur: seq<bv8>, next: seq<seq<bv8>>)
    requires r.parse.Ok()
    ensures ChainRun(env, r, begins, cur, next).Hung? <==> Stops(env, r, begins, [cur] + next)
    decreases |next|, |cur|
  {
    hide Feed, StopsAt, Overruns;
    var chain := [cur] + next;
    if cur == [] {
      if next != [] {
        HungIff(env, r, true, next[0], next[1..]);
        assert [next[0]] + next[1..] == next;
        if k: nat, i: nat :| k < |chain| && i < |chain[k]| && StopsAt(env, r, begins, chain, k, i) {
          StopsAtNextPiece(env, r, begins, next, k - 1, i);
        }
        if k: nat, i: nat :| k < |next| && i < |next[k]| && StopsAt(env, r, true, next, k, i) {
          StopsAtNextPiece(env, r, begins, next, k, i);
          assert chain[k + 1] == next[k];
        }
      }
    } else {
      HungIff(env, Feed(env, r, cur[0]), false, cur[1..], next);
      FirstByte(env, r, begins, cur, next);
      var rest := [cur[1..]] + next;
      if k: nat, i: nat :| k < |chain| && i < |chain[k]| && StopsAt(env, r, begins, chain, k, i) {
        if k > 0 || i > 0 {
          StopsAtNextByte(env, r, begins, cur, next, k, i);
        }
      }
      if k: nat, j: nat :| k < |rest| && j < |rest[k]| && StopsAt(env, Feed(env, r, cur[0]), false, rest, k, j) {
        var i := if k == 0 then j + 1 else j;
        assert i < |chain[k]|;
        StopsAtNextByte(env, r, begins, cur, next, k, i);
      }
    }
  }

  /** The exact condition for a chain that has been received. */
  lemma ChainStopsIff<D>(env: Env<D>, r: Ref<D>, chain: seq<seq<bv8>>)
    requires r.parse.Ok()
    ensures ChainEnd(env, r, chain).Hung? <==> Stops(env, r, true, chain)
  {
    if chain != [] {
      HungIff(env, r, true, chain[0], chain[1..]);
      assert [chain[0]] + chain[1..] == chain;
    }
  }

  lemma FirstByte<D>(env: Env<D>, r: Ref<D>, begins: bool, cur: seq<bv8>, next: seq<seq<bv8>>)
    requires r.parse.Ok() && cur != []
    ensures StopsAt(env, r, begins, [cur] + next, 0, 0)
       <==> Reading(r.parse, begins) && Overruns(r.parse.prefix, cur, Flatten(next))
  {
    var chain := [cur] + next;
    assert Flatten(chain[..0]) + chain[0][..0] == [] && chain[0][0..] == cur && chain[1..] == next;
  }

  /** The last piece of a chain stops nothing. */
  lemma {:induction false} LastPieceDone<D>(env: Env<D>, r: Ref<D>, begins: bool, cur: seq<bv8>)
    requires r.parse.Ok()
    ensures ChainRun(env, r, begins, cur, []) == Done(Run(env, r, cur))
    decreases |cur|
  {
    hide Feed;
    if cur != [] {
      LastPieceDone(env, Feed(env, r, cur[0]), false, cur[1..]);
    }
  }

  /** Nothing but an unfinished name depends on whether a piece begins. */
  lemma FreshOrNot<D>(env: Env<D>, r: Ref<D>, cur: seq<bv8>, next: seq<seq<bv8>>)
    requires r.parse.Ok() && (cur == [] || !r.parse.Name_? || r.parse.prefix == [])
    ensures ChainRun(env, r, true, cur, next) == ChainRun(env, r, false, cur, next)
  {
  }

  lemma {:induction false} ChainRejected<D>(env: Env<D>, w: World<D>, begins: bool, s: seq<bv8>, next: seq<seq<bv8>>)
    ensures ChainRun(env, Ref(Rejected, w), begins, s, next) == Done(Ref(Rejected, w))
    decreases |next|, |s|
  {
    if s != [] {
      ChainRejected(env, w, false, s[1..], next);
    } else if next != [] {
      ChainRejected(env, w, true, next[0], next[1..]);
    }
  }

  /** The same for chains, wherever the network stack stops: no shift and no reply has failed unless the
      connection has been given up. */
  lemma {:induction false} ChainFine<D>(env: Env<D>, r: Ref<D>, begins: bool, cur: seq<bv8>, next: seq<seq<bv8>>)
    requires r.parse.Ok()
    ensures match ChainRun(env, r, begins, cur, next)
      case Hung(w) => Grown(r.world, w) && AllFine(env, r.world, w)
      case Done(x) => Grown(r.world, x.world) && (x.parse != Rejected ==> AllFine(env, r.world, x.world))
    decreases |next|, |cur|
  {
    hide Feed, Overruns;
    if cur == [] {
      if next != [] {
        ChainFine(env, r, true, next[0], next[1..]);
      }
    } else if !(Reading(r.parse, begins) && Overruns(r.parse.prefix, cur, Flatten(next))) {
      var x := Feed(env, r, cur[0]);
      FeedFine(env, r, cur[0]);
      ChainFine(env, x, false, cur[1..], next);
      if x.parse == Rejected {
        ChainRejected(env, x.world, false, cur[1..], next);
      }
    }
  }

  /** Where a scan for a name leads. */
  function AfterScan<D>(env: Env<D>, w: World<D>, scan: Scan, next: seq<seq<bv8>>): Ending<D>
    requires (scan.More? ==> Unfinished(scan.prefix)) && (scan.Got? ==> scan.command != NotSet)
  {
    match scan
    case More(u) => ChainRun(env, Ref(Name_(u), w), false, [], next)
    case Got(c, rest) => ChainRun(env, Enter(env, c, w), false, rest, next)
    case Bad => Done(Ref(Rejected, w))
  }

  /** What becomes of a name that has been begun in this piece. */
  lemma {:induction false} ChainNameOn<D>(env: Env<D>, w: World<D>, q: seq<bv8>, s: seq<bv8>, next: seq<seq<bv8>>)
    requires Unfinished(q) && q != []
    ensures ChainRun(env, Ref(Name_(q), w), false, s, next) ==
      AfterScan(env, w, ScanName(q, s), next)
    decreases |s|
  {
    hide Enter, Overruns;
    if s != [] {
      var p := q + [s[0]];
      if p == GETINFO || p == SETTCK || p == SHIFT {
      } else if Unfinished(p) {
        ChainNameOn(env, w, p, s[1..], next);
      } else {
        ChainRejected(env, w, false, s[1..], next);
      }
    }
  }

  /** What becomes of a name that is read from the rest of a piece, if that has enough bytes. */
  lemma ChainName<D>(env: Env<D>, w: World<D>, q: seq<bv8>, s: seq<bv8>, next: seq<seq<bv8>>)
    requires Unfinished(q) && s != []
    ensures ChainRun(env, Ref(Name_(q), w), true, s, next) ==
      if Overruns(q, s, Flatten(next)) then Hung(w)
      else AfterScan(env, w, ScanName(q, s), next)
  {
    hide Enter, Overruns;
    var p := q + [s[0]];
    if p == GETINFO || p == SETTCK || p == SHIFT {
    } else if Unfinished(p) {
      ChainNameOn(env, w, p, s[1..], next);
    } else {
      ChainRejected(env, w, false, s[1..], next);
    }
  }

  /** One byte where no name is about to be read. */
  lemma ChainByte<D>(env: Env<D>, r: Ref<D>, s: seq<bv8>, next: seq<seq<bv8>>)
    requires r.parse.Ok() && s != [] && !r.parse.Name_?
    ensures ChainRun(env, r, false, s, next) == ChainRun(env, Feed(env, r, s[0]), false, s[1..], next)
  {
  }

  lemma {:induction false} ChainPeriod<D>(env: Env<D>, w: World<D>, b: seq<bv8>, s: seq<bv8>, next: seq<seq<bv8>>)
    requires |b| < 4
    ensures ChainRun(env, Ref(Period(b), w), false, s, next) ==
      var k := 4 - |b|;
      if |s| < k then ChainRun(env, Ref(Period(b + s), w), false, [], next)
      else ChainRun(env, Finish(Send(env, w, LeBytes(CLOCK_PERIOD))), false, s[k..], next)
    decreases |s|
  {
    hide ChainRun, Finish, Send, LeBytes;
    var k := 4 - |b|;
    if s == [] {
      assert b + s == b;
    } else {
      ChainByte(env, Ref(Period(b), w), s, next);
      assert Feed(env, Ref(Period(b), w), s[0]) ==
        if k > 1 then Ref(Period(b + [s[0]]), w) else Finish(Send(env, w, LeBytes(CLOCK_PERIOD)));
      hide Feed;
      if k > 1 {
        ChainPeriod(env, w, b + [s[0]], s[1..], next);
        Regroup(b, s, k);
      }
    }
  }

  lemma {:induction false} ChainLength<D>(env: Env<D>, w: World<D>, b: seq<bv8>, s: seq<bv8>, next: seq<seq<bv8>>)
    requires |b| < 4
    ensures ChainRun(env, Ref(Length(b), w), false, s, next) ==
      var k := 4 - |b|;
      if |s| < k then ChainRun(env, Ref(Length(b + s), w), false, [], next)
      else ChainRun(env, EnterVectors(env, w, b + s[..k]), false, s[k..], next)
    decreases |s|
  {
    hide ChainRun, EnterVectors;
    var k := 4 - |b|;
    if s == [] {
      assert b + s == b;
    } else {
      ChainByte(env, Ref(Length(b), w), s, next);
      assert Feed(env, Ref(Length(b), w), s[0]) ==
        if k > 1 then Ref(Length(b + [s[0]]), w) else EnterVectors(env, w, b + [s[0]]);
      hide Feed;
      if k > 1 {
        ChainLength(env, w, b + [s[0]], s[1..], next);
        Regroup(b, s, k);
      } else {
        assert s[..1] == [s[0]];
      }
    }
  }

  lemma {:induction false} ChainVectors<D>(env: Env<D>, w: World<D>, n: nat, b: seq<bv8>, s: seq<bv8>, next: seq<seq<bv8>>)
    requires Vectors(n, b).Ok()
    ensures ChainRun(env, Ref(Vectors(n, b), w), false, s, next) ==
      var k := 2 * BytesFor(n) - |b|;
      if |s| < k then ChainRun(env, Ref(Vectors(n, b + s), w), false, [], next)
      else ChainRun(env, Shifted(env, w, n, b + s[..k]), false, s[k..], next)
    decreases |s|
  {
    hide ChainRun, BytesFor, PerformShift;
    var k := 2 * BytesFor(n) - |b|;
    if s == [] {
      assert b + s == b;
    } else {
      ChainByte(env, Ref(Vectors(n, b), w), s, next);
      if k > 1 {
        ChainVectors(env, w, n, b + [s[0]], s[1..], next);
        Regroup(b, s, k);
      } else {
        assert s[..1] == [s[0]];
      }
    }
  }

  /** Receptions one after the other. */
  function ReceiveRun<D>(env: Env<D>, r: Ref<D>, arrivals: seq<seq<seq<bv8>>>): (e: Ending<D>)
    requires r.parse.Ok()
    ensures e.Done? ==> e.ref.parse.Ok()
  {
    if arrivals == [] then Done(r)
    else
      var n := |arrivals| - 1;
      match ReceiveRun(env, r, arrivals[..n])
      case Hung(w) => Hung(w)
      case Done(x) => ChainEnd(env, x, arrivals[n])
  }

  lemma {:induction false} ReceiveRunDone<D>(env: Env<D>, r: Ref<D>, arrivals: seq<seq<seq<bv8>>>)
    requires r.parse.Ok() && ReceiveRun(env, r, arrivals).Done?
    ensures ReceiveRun(env, r, arrivals).ref == Run(env, r, Stream(arrivals))
  {
    hide ChainRun;
    if arrivals == [] {
      RunNothing(env, r);
    } else {
      var n := |arrivals| - 1;
      ReceiveRunDone(env, r, arrivals[..n]);
      var x := ReceiveRun(env, r, arrivals[..n]).ref;
      ChainRunDone(env, x, true, [], arrivals[n]);
      assert [] + Flatten(arrivals[n]) == Flatten(arrivals[n]);
      RunConcat(env, r, Stream(arrivals[..n]), Flatten(arrivals[n]));
    }
  }

  /** Receptions of one piece each stop nothing. */
  lemma {:induction false} OnePieceEach<D>(env: Env<D>, r: Ref<D>, arrivals: seq<seq<seq<bv8>>>)
    requires r.parse.Ok() && forall i: nat | i < |arrivals| :: |arrivals[i]| <= 1
    ensures ReceiveRun(env, r, arrivals).Done?
  {
    if arrivals != [] {
      var n := |arrivals| - 1;
      OnePieceEach(env, r, arrivals[..n]);
      var x, chain := ReceiveRun(env, r, arrivals[..n]).ref, arrivals[n];
      if chain != [] {
        assert chain[1..] == [];
        LastPieceDone(env, x, true, chain[0]);
      }
    }
  }

  /** Once it has stopped, or the data has been rejected, nothing changes any more. */
  lemma {:induction false} EndedForGood<D>(env: Env<D>, r: Ref<D>, arrivals: seq<seq<seq<bv8>>>, n: nat)
    requires r.parse.Ok() && n <= |arrivals|
    requires var e := ReceiveRun(env, r, arrivals[..n]); e.Hung? || e.ref.parse == Rejected
    ensures ReceiveRun(env, r, arrivals) == ReceiveRun(env, r, arrivals[..n])
    decreases |arrivals|
  {
    hide ChainRun;
    if n == |arrivals| {
      assert arrivals[..n] == arrivals;
    } else {
      var m := |arrivals| - 1;
      assert arrivals[..m][..n] == arrivals[..n];
      EndedForGood(env, r, arrivals[..m], n);
      var e := ReceiveRun(env, r, arrivals[..m]);
      if e.Done? {
        ChainRejected(env, e.ref.world, true, [], arrivals[m]);
      }
    }
  }
}
