/** Reading a command name from a received chain of pieces. The bytes are copied from as many pieces as
    it takes, and then the first piece is to be shortened by as many. If it has not as many, that is
    an error in the network stack, on which it stops for good. */
module XvcChains {
  import opened Numbers
  import opened XvcProtocol

  const SHORTEST_NAME: nat := 6

  /** The first letters are those of no name. */
  predicate NoName(w: seq<bv8>)
    requires w != []
  {
    w[0] != GETINFO[0] && (w[0] == SETTCK[0] ==> |w| > 1 && w[1] != SETTCK[1] && w[1] != SHIFT[1])
  }

  /** What the first bytes of a name tell, once the shortest name's worth has been read. */
  lemma NameStart(q: seq<bv8>, all: seq<bv8>, n: nat)
    requires Unfinished(q) && all != [] && n <= |all|
    requires if |q| < SHORTEST_NAME then n == SHORTEST_NAME - |q| || (n == |all| && |q| + n < SHORTEST_NAME) else n == 0
    ensures var w := q + all[..n];
      && 0 < |w| < |GETINFO|
      && (w[0] == SETTCK[0] && |w| > 1 && w[1] == SETTCK[1] ==> |w| < |SETTCK|)
      && (w[0] == SHIFT[0] && |w| > 1 && w[1] == SHIFT[1] ==> |w| <= |SHIFT| && (n == 0 ==> |w| < |SHIFT|))
      && (w == [SETTCK[0]] ==> n == |all| && ScanName(q, all) == More(w))
      && (NoName(w) ==> ScanName(q, all) == Bad)
  {
    var w := q + all[..n];
    assert GETINFO[0] == 103 && SETTCK[0] == SHIFT[0] == 115 && SETTCK[1] == 101 && SHIFT[1] == 104;
    if w == [SETTCK[0]] {
      assert all[..n] == all;
      ScanMore(q, all);
    }
    if NoName(w) {
      assert Stray(w);
      ScanBad(q, all, n);
    }
  }

  /** A word that starts like name `c` but differs from it starts no name and holds none. */
  lemma MismatchIsStray(w: seq<bv8>, c: Command)
    requires c != NotSet && 0 < |w| <= |Name(c)| && w[0] == Name(c)[0] && w != Name(c)[..|w|]
    requires c != GetInfo ==> |w| > 1 && w[1] == Name(c)[1]
    ensures Stray(w)
  {
    assert GETINFO[0] == 103 && SETTCK[0] == SHIFT[0] == 115 && SETTCK[1] == 101 && SHIFT[1] == 104;
  }

  /** The verdict on a name whose first `n` new bytes agree with name `c` in its first letters. */
  lemma NameVerdict(q: seq<bv8>, all: seq<bv8>, n: nat, m: nat, c: Command)
    requires Unfinished(q) && c != NotSet && n <= m <= |all|
    requires var w := q + all[..n]; 0 < |w| && w[0] == Name(c)[0] && (c != GetInfo ==> |w| > 1 && w[1] == Name(c)[1])
    requires |q| + m <= |Name(c)| && (|q| + m < |Name(c)| ==> m == |all|)
    ensures var w := q + all[..m];
      ScanName(q, all) == if w != Name(c)[..|w|] then Bad else if w == Name(c) then Got(c, all[m..]) else More(w)
  {
    var w := q + all[..m];
    assert q + all[..n] <= w;
    if w != Name(c)[..|w|] {
      MismatchIsStray(w, c);
      ScanBad(q, all, m);
    } else if |w| == |Name(c)| {
      ScanGot(q, all, m, c);
    } else {
      assert all[..m] == all;
      ScanMore(q, all);
    }
  }

  /** Up to `want` bytes copied from a chain of the piece `p` and the later bytes `r`. */
  function CopyAcross(p: seq<bv8>, r: seq<bv8>, want: nat): (got: seq<bv8>)
    ensures |got| == Min(want, |p| + |r|)
  {
    (p + r)[..Min(want, |p| + |r|)]
  }

  /** A name, the bytes kept of one, or an error, with what is left of the first piece; or a copy was
      longer than the piece, and the network stack has stopped. */
  datatype Verdict =
    Named(command: Command, left: seq<bv8>) | Wanting(kept: seq<bv8>, left: seq<bv8>) | Refused | Stuck

  /** The word that is there, compared with name `c`. */
  function Compared(c: Command, u: seq<bv8>, left: seq<bv8>): Verdict
    requires c != NotSet && |u| <= |Name(c)|
  {
    if u != Name(c)[..|u|] then Refused else if |u| == |Name(c)| then Named(c, left) else Wanting(u, left)
  }

  function FinishAcross(c: Command, w: seq<bv8>, p: seq<bv8>, r: seq<bv8>): Verdict
    requires c != NotSet && |w| <= |Name(c)|
  {
    var got := CopyAcross(p, r, |Name(c)| - |w|);
    if |got| > |p| then Stuck else Compared(c, w + got, p[|got|..])
  }

  /** The copy that is made when less than the shortest name is there. */
  function FirstCopy(q: seq<bv8>, p: seq<bv8>, r: seq<bv8>): (got: seq<bv8>)
    ensures |got| <= |p + r| && got == (p + r)[..|got|]
  {
    if |q| < SHORTEST_NAME then CopyAcross(p, r, SHORTEST_NAME - |q|) else []
  }

  /** Reading a command name, as the code does it. */
  function ReadAcross(q: seq<bv8>, p: seq<bv8>, r: seq<bv8>): Verdict
    requires Unfinished(q) && p != []
  {
    var got := FirstCopy(q, p, r);
    if |got| > |p| then Stuck
    else
      var w, left := q + got, p[|got|..];
      InPiece(q, p, r);
      NameStart(q, p, |got|);
      if w[0] == 103 then FinishAcross(GetInfo, w, left, r)
      else if w[0] == 115 then
        if |w| < 2 then Wanting(w, left)
        else if w[1] == 101 then FinishAcross(SetTck, w, left, r)
        else if w[1] == 104 then FinishAcross(Shift, w, left, r)
        else Refused
      else Refused
  }

  /** A first copy that is not longer than the piece. */
  lemma InPiece(q: seq<bv8>, p: seq<bv8>, r: seq<bv8>)
    requires |FirstCopy(q, p, r)| <= |p|
    ensures var n := |FirstCopy(q, p, r)|;
      && FirstCopy(q, p, r) == p[..n]
      && (if |q| < SHORTEST_NAME then n == SHORTEST_NAME - |q| || (n == |p| && |q| + n < SHORTEST_NAME && r == []) else n == 0)
  {
  }

  /** How many bytes of a name are asked for, from what is there of it. */
  function Need(w: seq<bv8>): nat
  {
    if |w| > 0 && w[0] == 103 then |GETINFO|
    else if |w| > 1 && w[0] == 115 && w[1] == 101 then |SETTCK|
    else SHORTEST_NAME
  }

  /** Fewer bytes than are asked for are there at the end of a piece that is not the last. */
  predicate Overruns(q: seq<bv8>, p: seq<bv8>, r: seq<bv8>)
  {
    r != [] && |q + p| < Need(q + p)
  }

  /** What reading a name from the first piece alone comes to. */
  function Alone(s: Scan): Verdict
  {
    match s
    case More(u) => Wanting(u, [])
    case Got(c, rest) => Named(c, rest)
    case Bad => Refused
  }

  /** The name that the first letters announce. */
  predicate Announces(w: seq<bv8>, c: Command)
  {
    c != NotSet && 0 < |w| <= |Name(c)| && w[0] == Name(c)[0] && (c != GetInfo ==> |w| > 1 && w[1] == Name(c)[1])
  }

  lemma NeedsName(w: seq<bv8>, c: Command, v: seq<bv8>)
    requires Announces(w, c) && w <= v && |w| >= SHORTEST_NAME
    ensures Need(v) == |Name(c)|
  {
    assert GETINFO[0] == 103 && SETTCK[0] == SHIFT[0] == 115 && SETTCK[1] == 101 && SHIFT[1] == 104;
  }

  /** The second copy, when the first `i` of the bytes `v` have been read. */
  lemma SecondCopy(v: seq<bv8>, i: nat, r: seq<bv8>, c: Command)
    requires i <= |v| && Announces(v[..i], c) && (r != [] ==> i >= SHORTEST_NAME)
    ensures var k := Min(|Name(c)|, |v|);
      FinishAcross(c, v[..i], v[i..], r) == if r != [] && |v| < Need(v) then Stuck else Compared(c, v[..k], v[k..])
  {
    if r != [] {
      NeedsName(v[..i], c, v);
    }
    hide Need, Name, Compared;
    var got, k := CopyAcross(v[i..], r, |Name(c)| - i), Min(|Name(c)|, |v|);
    if |got| <= |v| - i {
      assert |got| == k - i;
      assert got == v[i..k];
      assert v[..i] + got == v[..k] && v[i..][|got|..] == v[k..];
    }
  }

  lemma SecondFits(q: seq<bv8>, p: seq<bv8>, n: nat, c: Command)
    requires Unfinished(q) && n <= |p| && Announces((q + p)[..|q| + n], c)
    ensures var v := q + p;
      var k := Min(|Name(c)|, |v|);
      Alone(ScanName(q, p)) == Compared(c, v[..k], v[k..])
  {
    hide ScanName, Unfinished, Name;
    var v := q + p;
    var k := Min(|Name(c)|, |v|);
    var m: nat := k - |q|;
    assert q + p[..n] == v[..|q| + n];
    assert q + p[..m] == v[..k] && p[m..] == v[k..];
    NameVerdict(q, p, n, m, c);
  }

  /** Exactly when the network stack stops in the reading of a name; and otherwise the name is read from
      the first piece, as the one-byte receiver would read it, whatever follows. */
  lemma ReadAcrossExact(q: seq<bv8>, p: seq<bv8>, r: seq<bv8>)
    requires Unfinished(q) && p != []
    ensures ReadAcross(q, p, r) == if Overruns(q, p, r) then Stuck else Alone(ScanName(q, p))
  {
    hide ScanName, FinishAcross, Unfinished, Compared;
    var n := |FirstCopy(q, p, r)|;
    if n <= |p| {
      InPiece(q, p, r);
      NameStart(q, p, n);
      var w := q + p[..n];
      assert w <= q + p;
      if w[0] == 103 || (w[0] == 115 && |w| > 1 && (w[1] == 101 || w[1] == 104)) {
        var c := if w[0] == 103 then GetInfo else if w[1] == 101 then SetTck else Shift;
        assert w == (q + p)[..|q| + n] && p[n..] == (q + p)[|q| + n..];
        SecondCopy(q + p, |q| + n, r, c);
        SecondFits(q, p, n, c);
      } else if |w| > 1 || w[0] != 115 {
        assert NoName(w);
      }
    }
  }

  /** A command name that is cut between two pieces, at any place, stops the network stack. */
  lemma EveryCutStops(q: seq<bv8>, p: seq<bv8>, r: seq<bv8>)
    requires Unfinished(q) && p != [] && Unfinished(q + p) && r != []
    ensures ReadAcross(q, p, r) == Stuck
  {
    ReadAcrossExact(q, p, r);
    hide ScanName, ReadAcross;
    assert GETINFO[0] == 103 && SETTCK[0] == SHIFT[0] == 115 && SETTCK[1] == 101 && SHIFT[1] == 104;
    var v := q + p;
    assert v[0] == GETINFO[0] || v[0] == SETTCK[0];
    assert v < GETINFO || v < SETTCK || v < SHIFT;
  }
}
