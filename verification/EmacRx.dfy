/** The EMAC receive ring: reassembling frames from 128-byte descriptors. */
module EmacRx {
  import opened EmacRing
  import opened Numbers

  const RX_UNITSIZE: nat := 128

  datatype Status = Ok | RxNull | SizeTooSmall | Param

  /** A receive descriptor: ownership, wrap mark and buffer address; start of frame, end of frame
      and frame length as the controller writes them. */
  datatype Descriptor = Descriptor(owned: bool, wrap: bool, addr: nat, sof: bool, eof: bool, len: nat)

  /** The ring as seen from index `r`. */
  function View(d: seq<Descriptor>, r: nat): (v: seq<Descriptor>)
    requires r < |d|
    ensures |v| == |d|
  {
    d[r..] + d[..r]
  }

  /** Descriptors `0..b` of a view handed back to the controller. */
  function Released(v: seq<Descriptor>, b: nat): (w: seq<Descriptor>)
    requires b <= |v|
    ensures |w| == |v|
  {
    seq(|v|, k requires 0 <= k < |v| => if k < b then v[k].(owned := false) else v[k])
  }

  /** What a pass over the ring finds: no frame, with the first `base` descriptors released; or a
      frame, copied from the buffers of `chunks`, measured by `last`, with `next` released. */
  datatype Found = Nothing(base: nat) | Frame(chunks: seq<nat>, last: nat, next: nat)

  /** The pass itself: at `t`, with everything before `b` released. When a frame starts while an
      earlier one is open, the descriptor looked at from then on in this round is the last one
      discarded, not the one that starts the frame. */
  function Scan(v: seq<Descriptor>, t: nat, b: nat, open: bool, chunks: seq<nat>): (f: Found)
    requires b <= t <= |v| && (!open ==> b == t)
    decreases |v| - t
  {
    if t == |v| || !v[t].owned then Nothing(b)
    else
      var start := v[t].sof;
      var p := if start && b < t then t - 1 else t;
      var b1, c1 := if start then t else b, if start then [] else chunks;
      if open || start then
        if t + 1 - b1 == |v| then Nothing(|v|)
        else if v[p].eof then Frame(c1 + [p], p, t + 1)
        else Scan(v, t + 1, b1, true, c1 + [p])
      else Scan(v, t + 1, t + 1, false, [])
  }

  function Whole(v: seq<Descriptor>): Found { Scan(v, 0, 0, false, []) }

  /** The contents of the buffers of `chunks`, one after the other. */
  function Gathered(mem: seq<bv8>, v: seq<Descriptor>, chunks: seq<nat>): (g: seq<bv8>)
    requires forall c | c in chunks :: c < |v| && v[c].addr + RX_UNITSIZE <= |mem|
    ensures |g| == RX_UNITSIZE * |chunks|
  {
    if chunks == [] then []
    else
      var n := |chunks| - 1;
      assert chunks[n] in chunks && forall c | c in chunks[..n] :: c in chunks;
      Gathered(mem, v, chunks[..n]) + mem[v[chunks[n]].addr..v[chunks[n]].addr + RX_UNITSIZE]
  }

  predicate InMemory(mem: seq<bv8>, v: seq<Descriptor>)
  {
    forall k: nat | k < |v| :: v[k].addr + RX_UNITSIZE <= |mem|
  }

  lemma {:induction false} ScanBounds(v: seq<Descriptor>, t: nat, b: nat, open: bool, chunks: seq<nat>)
    requires b <= t <= |v| && (!open ==> b == t) && forall c | c in chunks :: c < |v|
    ensures match Scan(v, t, b, open, chunks)
      case Nothing(base) => b <= base <= |v|
      case Frame(c, last, next) => t < next <= |v| && last < |v| && c != [] && forall k | k in c :: k < |v|
    decreases |v| - t
  {
    if t < |v| && v[t].owned {
      var start := v[t].sof;
      var p := if start && b < t then t - 1 else t;
      var b1, c1 := if start then t else b, if start then [] else chunks;
      if open || start {
        if t + 1 - b1 != |v| && !v[p].eof {
          ScanBounds(v, t + 1, b1, true, c1 + [p]);
        }
      } else {
        ScanBounds(v, t + 1, t + 1, false, []);
      }
    }
  }

  /** What a read yields, for a caller's capacity `cap`. */
  datatype Outcome = Outcome(status: Status, size: nat, bytes: seq<bv8>, released: nat)

  function ReadOutcome(v: seq<Descriptor>, mem: seq<bv8>, cap: nat): (o: Outcome)
    requires InMemory(mem, v)
    ensures o.released <= |v| && |o.bytes| <= cap
  {
    ScanBounds(v, 0, 0, false, []);
    match Whole(v)
    case Nothing(base) => Outcome(RxNull, 0, [], base)
    case Frame(c, last, next) =>
      var g := Gathered(mem, v, c);
      var bytes := g[..Min(cap, |g|)];
      Outcome(if |bytes| < v[last].len then SizeTooSmall else Ok, v[last].len, bytes, next)
  }

  /** An independent notion: descriptors `s..e` hold a complete frame, all filled up to its end. */
  predicate Complete(v: seq<Descriptor>, s: nat, e: nat)
  {
    && s <= e < |v| && v[s].sof && v[e].eof
    && (forall k: nat | k <= e :: v[k].owned)
    && (forall k: nat | s < k <= e :: !v[k].sof)
    && (forall k: nat | s <= k < e :: !v[k].eof)
  }

  ghost predicate First(v: seq<Descriptor>, s: nat, e: nat)
  {
    Complete(v, s, e) && forall s': nat, e': nat | Complete(v, s', e') :: e <= e'
  }

  function Span(s: nat, e: nat): (c: seq<nat>)
    requires s <= e + 1
  {
    seq(e + 1 - s, i requires 0 <= i => s + i)
  }

  /** Leading descriptors that start no frame are skipped. */
  lemma {:induction false} ScanSkips(v: seq<Descriptor>, t: nat, s: nat)
    requires t <= s <= |v|
    requires forall k: nat | t <= k < s :: v[k].owned && !v[k].sof
    ensures Scan(v, t, t, false, []) == Scan(v, s, s, false, [])
    decreases s - t
  {
    if t < s {
      ScanSkips(v, t + 1, s);
    }
  }

  /** Inside a frame that started at `s`, descriptors are gathered one by one. */
  lemma {:induction false} ScanGathers(v: seq<Descriptor>, s: nat, t: nat, e: nat, c: seq<nat>)
    requires s < t <= e <= |v| && e - s < |v|
    requires forall k: nat | t <= k < e :: v[k].owned && !v[k].sof && !v[k].eof
    ensures Scan(v, t, s, true, c) == Scan(v, e, s, true, c + seq(e - t, i requires 0 <= i => t + i))
    decreases e - t
  {
    if t == e {
      assert c + seq(e - t, i requires 0 <= i => t + i) == c;
    } else {
      ScanGathers(v, s, t + 1, e, c + [t]);
      assert c + [t] + seq(e - t - 1, i requires 0 <= i => t + 1 + i) == c + seq(e - t, i requires 0 <= i => t + i);
    }
  }

  /** The frame between `s` and `e` when nothing before `s` starts one. */
  lemma CleanFrameFound(v: seq<Descriptor>, s: nat, e: nat)
    requires Complete(v, s, e) && e + 1 - s < |v|
    requires forall k: nat | k < s :: !v[k].sof
    ensures Whole(v) == Frame(Span(s, e), e, e + 1)
  {
    ScanSkips(v, 0, s);
    assert [] + [s] == [s];
    assert Span(s, e) == [s] + seq(e - s, i requires 0 <= i => s + 1 + i);
    if s < e {
      ScanGathers(v, s, s + 1, e, [s]);
      assert [s] + seq(e - s - 1, i requires 0 <= i => s + 1 + i) + [e] == Span(s, e);
    } else {
      assert [] + [s] == Span(s, e);
    }
  }

  /** A frame that fills the whole ring is dropped. */
  lemma FullRingDropped(v: seq<Descriptor>, e: nat)
    requires |v| > 1 && Complete(v, 0, e) && e + 1 == |v|
    ensures Whole(v) == Nothing(|v|)
  {
    assert [] + [0] == [0];
    ScanGathers(v, 0, 1, e, [0]);
  }

  /** Before the first complete frame, no descriptor after a frame start ends a frame. */
  lemma NoEndBefore(v: seq<Descriptor>, s: nat, e: nat, f: nat, j: nat)
    requires First(v, s, e) && f <= j < s && v[f].sof
    ensures !v[j].eof
    decreases j
  {
    if v[j].eof {
      if k: nat :| f <= k < j && v[k].eof {
        NoEndBefore(v, s, e, f, k);
      } else {
        var b := LastStart(v, f, j);
        assert Complete(v, b, j);
      }
    }
  }

  lemma LastStart(v: seq<Descriptor>, f: nat, j: nat) returns (b: nat)
    requires f <= j < |v| && v[f].sof
    ensures f <= b <= j && v[b].sof && forall k: nat | b < k <= j :: !v[k].sof
    decreases j - f
  {
    if k: nat :| f < k <= j && v[k].sof {
      b := LastStart(v, k, j);
    } else {
      b := f;
    }
  }

  /** A pass that has a frame open before `s` reaches `s` with it open. */
  lemma {:induction false} ReachesStart(v: seq<Descriptor>, s: nat, e: nat, t: nat, b: nat, c: seq<nat>)
    requires First(v, s, e) && b < t <= s
    requires forall k: nat | b <= k < s :: !v[k].eof
    ensures exists b': nat, c' :: b' < s && Scan(v, t, b, true, c) == Scan(v, s, b', true, c')
    decreases s - t
  {
    if t == s {
      assert Scan(v, t, b, true, c) == Scan(v, s, b, true, c);
    } else {
      var p := if v[t].sof then t - 1 else t;
      var b1, c1 := if v[t].sof then t else b, if v[t].sof then [] else c;
      ReachesStart(v, s, e, t + 1, b1, c1 + [p]);
    }
  }

  /** A start inside an open frame spoils what follows: the frame is missed, or its first buffer
      is not its own, or more than the frame is released. */
  lemma RestartSpoils(v: seq<Descriptor>, s: nat, e: nat, b: nat, c: seq<nat>)
    requires Complete(v, s, e) && b < s && !v[s - 1].eof
    ensures Scan(v, s, b, true, c) != Frame(Span(s, e), e, e + 1)
  {
    if s < e {
      ScanGathers(v, s, s + 1, e, [s - 1]);
      assert [] + [s - 1] == [s - 1];
      var d := [s - 1] + seq(e - s - 1, i requires 0 <= i => s + 1 + i) + [e];
      assert d[0] == s - 1 && Span(s, e)[0] == s;
    } else {
      assert [] + [s - 1] == [s - 1];
      ScanBounds(v, s + 1, s, true, [s - 1]);
    }
  }

  /** When the first complete frame is delivered: exactly when it starts no later than the first
      frame start in the ring and does not fill the ring. Otherwise other buffers are copied, other
      descriptors are released, or nothing is found. */
  lemma DeliveredIff(v: seq<Descriptor>, s: nat, e: nat)
    requires |v| > 1 && First(v, s, e)
    ensures Whole(v) == Frame(Span(s, e), e, e + 1)
       <==> (forall k: nat | k < s :: !v[k].sof) && e + 1 - s < |v|
  {
    if f: nat :| f < s && v[f].sof {
      var first := FirstStart(v, f);
      forall j: nat | first <= j < s ensures !v[j].eof {
        NoEndBefore(v, s, e, first, j);
      }
      ScanSkips(v, 0, first);
      assert Whole(v) == Scan(v, first, first, false, []);
      assert Scan(v, first, first, false, []) == Scan(v, first + 1, first, true, [first]) by {
        assert [] + [first] == [first];
      }
      ReachesStart(v, s, e, first + 1, first, [first]);
      var b: nat, c :| b < s && Scan(v, first + 1, first, true, [first]) == Scan(v, s, b, true, c);
      RestartSpoils(v, s, e, b, c);
    } else if e + 1 - s < |v| {
      CleanFrameFound(v, s, e);
    } else {
      FullRingDropped(v, e);
    }
  }

  lemma FirstStart(v: seq<Descriptor>, f: nat) returns (first: nat)
    requires f < |v| && v[f].sof
    ensures first <= f && v[first].sof && forall k: nat | k < first :: !v[k].sof
  {
    if k: nat :| k < f && v[k].sof {
      first := FirstStart(v, k);
    } else {
      first := f;
    }
  }

  /** The bytes of the frame between `s` and `e`. */
  function FrameBytes(mem: seq<bv8>, v: seq<Descriptor>, s: nat, e: nat): seq<bv8>
    requires s <= e < |v| && InMemory(mem, v) && v[e].len <= RX_UNITSIZE * (e + 1 - s)
  {
    Gathered(mem, v, Span(s, e))[..v[e].len]
  }

  lemma {:induction false} GatheredAt(mem: seq<bv8>, v: seq<Descriptor>, chunks: seq<nat>, i: nat, j: nat)
    requires forall c | c in chunks :: c < |v| && v[c].addr + RX_UNITSIZE <= |mem|
    requires i < |chunks| && j < RX_UNITSIZE
    ensures chunks[i] < |v| && v[chunks[i]].addr + j < |mem| && RX_UNITSIZE * i + j < |Gathered(mem, v, chunks)|
    ensures Gathered(mem, v, chunks)[RX_UNITSIZE * i + j] == mem[v[chunks[i]].addr + j]
  {
    var n := |chunks| - 1;
    assert chunks[i] in chunks && forall c | c in chunks[..n] :: c in chunks;
    if i < n {
      GatheredAt(mem, v, chunks[..n], i, j);
    }
  }

  /** Where byte `k` of a frame lies: its descriptors' buffers follow each other, 128 bytes each. */
  lemma FrameByte(mem: seq<bv8>, v: seq<Descriptor>, s: nat, e: nat, k: nat)
    requires s <= e < |v| && InMemory(mem, v) && k < v[e].len <= RX_UNITSIZE * (e + 1 - s)
    ensures |FrameBytes(mem, v, s, e)| == v[e].len
    ensures s + k / RX_UNITSIZE <= e && FrameBytes(mem, v, s, e)[k] == mem[v[s + k / RX_UNITSIZE].addr + k % RX_UNITSIZE]
  {
    GatheredAt(mem, v, Span(s, e), k / RX_UNITSIZE, k % RX_UNITSIZE);
  }

  /** A delivered frame whose length fits its descriptors: success exactly when the caller's buffer
      holds it, and then its bytes are there; otherwise what was copied is a beginning of it. */
  lemma DeliveredBytes(v: seq<Descriptor>, mem: seq<bv8>, cap: nat, s: nat, e: nat)
    requires InMemory(mem, v) && First(v, s, e) && e + 1 - s < |v|
    requires forall k: nat | k < s :: !v[k].sof
    requires v[e].len <= RX_UNITSIZE * (e + 1 - s)
    ensures var o, frame := ReadOutcome(v, mem, cap), FrameBytes(mem, v, s, e);
      && o.size == |frame| && o.released == e + 1 && |o.bytes| <= cap
      && (o.status == Ok <==> |frame| <= cap) && (o.status == SizeTooSmall <==> cap < |frame|)
      && (if |frame| <= cap then |frame| <= |o.bytes| && o.bytes[..|frame|] == frame else o.bytes == frame[..cap])
  {
    CleanFrameFound(v, s, e);
  }

  /** Without a complete frame only leading fragments and frames that were broken off by another start
      are released; the descriptors of the frame that is still being received stay. (A frame that has
      taken the whole ring without ending is given up.) Here `m` descriptors are filled, `g` is the
      last of them to start a frame, if any does, and no started frame has an end. */
  lemma IncompleteKept(v: seq<Descriptor>, m: nat, g: nat)
    requires |v| > 1 && g <= m <= |v| && (m < |v| ==> !v[m].owned)
    requires forall k: nat | k < m :: v[k].owned
    requires g < m ==> v[g].sof
    requires forall k: nat | (if g < m then g < k else 0 <= k) && k < m :: !v[k].sof
    requires forall j: nat, k: nat | j <= k < m && v[j].sof :: !v[k].eof
    ensures Whole(v) == Nothing(if g == 0 && m == |v| then |v| else g)
  {
    if g < m {
      var f := FirstStart(v, g);
      ScanSkips(v, 0, f);
      assert [] + [f] == [f];
      ScanOpen(v, f + 1, f, m, g, [f]);
    } else {
      ScanSkips(v, 0, m);
    }
  }

  /** A frame open since `b` that does not end: the last start is what stays. */
  lemma {:induction false} ScanOpen(v: seq<Descriptor>, t: nat, b: nat, m: nat, g: nat, c: seq<nat>)
    requires |v| > 1 && b < t <= m <= |v| && b <= g < m && (m < |v| ==> !v[m].owned) && (t == |v| ==> b > 0)
    requires forall k: nat | t <= k < m :: v[k].owned
    requires forall k: nat | b <= k < m :: !v[k].eof
    requires if t <= g then v[g].sof else g == b
    requires forall k: nat | t <= k < m && g < k :: !v[k].sof
    ensures Scan(v, t, b, true, c) == Nothing(if g == 0 && m == |v| then |v| else g)
    decreases |v| - t
  {
    if t < m {
      var p, b1, c1 := if v[t].sof then t - 1 else t, if v[t].sof then t else b, if v[t].sof then [] else c;
      if t + 1 - b1 < |v| {
        ScanOpen(v, t + 1, b1, m, g, c1 + [p]);
      }
    }
  }

  function Less(k: nat, b: nat): nat { if b <= k then k - b else 0 }

  function Minus(c: seq<nat>, b: nat): (d: seq<nat>)
  {
    seq(|c|, i requires 0 <= i < |c| => Less(c[i], b))
  }

  lemma MinusMore(c: seq<nat>, p: nat, b: nat)
    requires b <= p
    ensures Minus(c + [p], b) == Minus(c, b) + [p - b]
  {
  }

  lemma MinusNone(b: nat)
    ensures Minus([], b) == []
  {
  }

  /** A pass over the ring seen from `b` further on finds the same frame. */
  lemma {:induction false} ScanShifted(w: seq<Descriptor>, x: seq<Descriptor>, b: nat, t: nat, base: nat, open: bool, c: seq<nat>)
    requires b <= base <= t <= |w| == |x| && (!open ==> base == t)
    requires forall k: nat | b <= k < |w| :: x[k - b] == w[k]
    requires forall k | k in c :: b <= k
    requires Scan(w, t, base, open, c).Frame?
    ensures var f := Scan(w, t, base, open, c);
      && b <= f.last && b <= f.next && (forall k | k in f.chunks :: b <= k)
      && Scan(x, t - b, base - b, open, Minus(c, b)) == Frame(Minus(f.chunks, b), f.last - b, f.next - b)
    decreases |w| - t
  {
    hide Minus;
    var start := w[t].sof;
    assert x[t - b] == w[t];
    var p := if start && base < t then t - 1 else t;
    var b1, c1 := if start then t else base, if start then [] else c;
    if open || start {
      assert x[p - b] == w[p];
      MinusMore(c1, p, b);
      MinusNone(b);
      if !w[p].eof {
        ScanShifted(w, x, b, t + 1, b1, true, c1 + [p]);
      }
    } else {
      MinusNone(b);
      ScanShifted(w, x, b, t + 1, t + 1, false, []);
    }
  }

  lemma {:induction false} ReleasedWereOwned(v: seq<Descriptor>, t: nat, b: nat, open: bool, c: seq<nat>, base: nat)
    requires b <= t <= |v| && (!open ==> b == t) && Scan(v, t, b, open, c) == Nothing(base)
    requires forall k: nat | k < t :: v[k].owned
    ensures forall k: nat | k < base && k < |v| :: v[k].owned
    decreases |v| - t
  {
    if t < |v| && v[t].owned {
      var start := v[t].sof;
      var p := if start && b < t then t - 1 else t;
      var b1, c1 := if start then t else b, if start then [] else c;
      if open || start {
        if t + 1 - b1 != |v| {
          ReleasedWereOwned(v, t + 1, b1, true, c1 + [p], base);
        }
      } else {
        ReleasedWereOwned(v, t + 1, t + 1, false, [], base);
      }
    }
  }

  /** Resumption. An early pass over `v` found nothing and released `b` fragments, none of which
      starts a frame. Later the controller has filled more descriptors: `w` is the ring without that
      early pass, `x` the ring after it, seen from its new index; they agree from `b` on, whatever
      has been received into the released descriptors. A frame found in `w` is found in `x`. */
  lemma ResumedFrame(v: seq<Descriptor>, w: seq<Descriptor>, x: seq<Descriptor>, b: nat)
    requires |v| == |w| == |x| && Whole(v) == Nothing(b) && b < |v|
    requires forall k: nat | k < b :: !v[k].sof
    requires forall k: nat | k < |v| && v[k].owned :: w[k] == v[k]
    requires forall k: nat | b <= k < |v| :: x[k - b] == w[k]
    requires Whole(w).Frame?
    ensures var f := Whole(w);
      && b <= f.last && b <= f.next && (forall k | k in f.chunks :: b <= k)
      && Whole(x) == Frame(Minus(f.chunks, b), f.last - b, f.next - b)
  {
    ReleasedWereOwned(v, 0, 0, false, [], b);
    ScanSkips(w, 0, b);
    ScanShifted(w, x, b, b, b, false, []);
    assert Minus([], b) == [];
  }

  /** Two memories agree on the buffer of a descriptor. */
  predicate SameUnit(mem: seq<bv8>, other: seq<bv8>, d: Descriptor)
    requires d.addr + RX_UNITSIZE <= |mem| && d.addr + RX_UNITSIZE <= |other|
  {
    mem[d.addr..d.addr + RX_UNITSIZE] == other[d.addr..d.addr + RX_UNITSIZE]
  }

  lemma {:induction false} GatheredShifted(late: seq<bv8>, early: seq<bv8>, w: seq<Descriptor>, x: seq<Descriptor>,
                                           b: nat, c: seq<nat>)
    requires |w| == |x| && InMemory(late, w) && InMemory(early, x)
    requires forall k: nat | b <= k < |w| :: x[k - b] == w[k] && SameUnit(late, early, w[k])
    requires forall k | k in c :: b <= k < |w|
    ensures (forall k | k in Minus(c, b) :: k < |x|) && Gathered(early, x, Minus(c, b)) == Gathered(late, w, c)
  {
    forall k | k in Minus(c, b) ensures k < |x| {
      var i: nat :| i < |c| && k == Minus(c, b)[i];
      assert c[i] in c;
    }
    if c != [] {
      var n := |c| - 1;
      assert c[n] in c && forall k | k in c[..n] :: k in c;
      assert Minus(c, b)[..n] == Minus(c[..n], b);
      GatheredShifted(late, early, w, x, b, c[..n]);
      assert x[c[n] - b] == w[c[n]] && SameUnit(late, early, w[c[n]]);
    }
  }

  lemma ViewMoved(d: seq<Descriptor>, r: nat, b: nat, k: nat)
    requires r < |d| && b <= k < |d|
    ensures View(d, Wrapped(r, b, |d|))[k - b] == View(d, r)[k]
  {
  }

  /** The same for rings and their contents: a read that follows an early, fruitless one delivers
      what a single late read would have delivered, and leaves the index at the same place. The two
      histories may differ in what the controller has put since into the descriptors that the early
      read released, and into their buffers. */
  lemma LateReadDeliversSame(d: seq<Descriptor>, late: seq<Descriptor>, early: seq<Descriptor>, r: nat, b: nat,
                             lateMem: seq<bv8>, earlyMem: seq<bv8>, cap: nat)
    requires r < |d| == |late| == |early| && b < |d|
    requires InMemory(lateMem, View(late, r)) && InMemory(earlyMem, View(early, Wrapped(r, b, |d|)))
    requires Whole(View(d, r)) == Nothing(b)
    requires forall k: nat | k < b :: !View(d, r)[k].sof
    requires forall k: nat | k < |d| && View(d, r)[k].owned :: View(late, r)[k] == View(d, r)[k]
    requires forall k: nat | b <= k < |d| :: View(early, r)[k] == View(late, r)[k]
    requires forall k: nat | b <= k < |d| ::
      var a := View(late, r)[k].addr;
      a + RX_UNITSIZE <= |earlyMem| && lateMem[a..a + RX_UNITSIZE] == earlyMem[a..a + RX_UNITSIZE]
    requires Whole(View(late, r)).Frame?
    ensures var one, two := ReadOutcome(View(late, r), lateMem, cap), ReadOutcome(View(early, Wrapped(r, b, |d|)), earlyMem, cap);
      && one.status == two.status && one.size == two.size && one.bytes == two.bytes
      && b <= one.released && two.released == one.released - b
      && Wrapped(Wrapped(r, b, |d|), two.released, |d|) == Wrapped(r, one.released, |d|)
  {
    hide Scan, ReadOutcome;
    var w, x := View(late, r), View(early, Wrapped(r, b, |d|));
    forall k: nat | b <= k < |d| ensures x[k - b] == w[k] && SameUnit(lateMem, earlyMem, w[k]) {
      ViewMoved(early, r, b, k);
    }
    hide View;
    ResumedFrame(View(d, r), w, x, b);
    SameOutcome(w, x, b, lateMem, earlyMem, cap);
  }

  lemma SameOutcome(w: seq<Descriptor>, x: seq<Descriptor>, b: nat, late: seq<bv8>, early: seq<bv8>, cap: nat)
    requires |w| == |x| && InMemory(late, w) && InMemory(early, x) && Whole(w).Frame?
    requires forall k: nat | b <= k < |w| :: x[k - b] == w[k] && SameUnit(late, early, w[k])
    requires var f := Whole(w);
      && b <= f.last && b <= f.next && (forall k | k in f.chunks :: b <= k)
      && Whole(x) == Frame(Minus(f.chunks, b), f.last - b, f.next - b)
    ensures var one, two := ReadOutcome(w, late, cap), ReadOutcome(x, early, cap);
      && one.status == two.status && one.size == two.size && one.bytes == two.bytes
      && b <= one.released && two.released == one.released - b
  {
    hide Scan, Gathered;
    ScanBounds(w, 0, 0, false, []);
    var f := Whole(w);
    GatheredShifted(late, early, w, x, b, f.chunks);
    assert x[f.last - b] == w[f.last];
  }
}
