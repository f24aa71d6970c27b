/** TurboSHAKE128 as a mathematical function, over an arbitrary permutation of the 1600-bit state. */
module Sponge {
  import opened Bytes
  import opened Word64
  import opened Prime
  import F = Field64

  const RATE: nat := 168
  const LANES: nat := 21

  type State = s: seq<u64> | |s| == 25 witness seq(25, _ => 0)

  /** Bitwise exclusive or of two k-bit numbers. */
  function Xor(x: nat, y: nat, k: nat): (r: nat)
    ensures r < Pow2(k)
  {
    if k == 0 then 0 else (x + y) % 2 + 2 * Xor(x / 2, y / 2, k - 1)
  }

  predicate Bit(x: nat, i: nat) { x / Pow2(i) % 2 == 1 }

  lemma BitShift(x: nat, i: nat)
    requires i > 0
    ensures Bit(x, i) == Bit(x / 2, i - 1)
  {
    DivDiv(x, Pow2(i - 1));
  }

  lemma XorHalves(x: nat, y: nat, k: nat)
    requires k > 0
    ensures Xor(x, y, k) % 2 == (x + y) % 2 && Xor(x, y, k) / 2 == Xor(x / 2, y / 2, k - 1)
  {}

  /** Bit by bit, exclusive or: set exactly where the two numbers differ. */
  lemma {:induction false} XorBits(x: nat, y: nat, k: nat, i: nat)
    requires i < k
    ensures Bit(Xor(x, y, k), i) <==> Bit(x, i) != Bit(y, i)
  {
    hide Xor, Bit;
    XorHalves(x, y, k);
    if i == 0 {
      LowBits(x, y, Xor(x, y, k));
    } else {
      XorBits(x / 2, y / 2, k - 1, i - 1);
      BitShift(x, i);
      BitShift(y, i);
      BitShift(Xor(x, y, k), i);
    }
  }

  lemma LowBits(x: nat, y: nat, z: nat)
    requires z % 2 == (x + y) % 2
    ensures Bit(z, 0) <==> Bit(x, 0) != Bit(y, 0)
  {
    LowBit(x);
    LowBit(y);
    LowBit(z);
    hide Bit;
  }

  lemma LowBit(x: nat)
    ensures Bit(x, 0) == (x % 2 == 1)
  {
    assert Pow2(0) == 1 && x / 1 == x;
  }

  /** Exclusive or with the same number twice undoes itself, and zero is neutral. */
  lemma {:induction false} XorInvolution(x: nat, y: nat, k: nat)
    requires x < Pow2(k)
    ensures Xor(Xor(x, y, k), y, k) == x
  {
    if k > 0 {
      assert x / 2 < Pow2(k - 1);
      hide Xor, Pow2;
      XorHalves(x, y, k);
      XorHalves(Xor(x, y, k), y, k);
      XorInvolution(x / 2, y / 2, k - 1);
      Parity(x, y, Xor(x, y, k));
    }
  }

  lemma Parity(x: nat, y: nat, z: nat)
    requires z % 2 == (x + y) % 2
    ensures (z + y) % 2 == x % 2
  {}

  lemma {:induction false} XorZero(y: nat, k: nat)
    requires y < Pow2(k)
    ensures Xor(0, y, k) == y
  {
    if k > 0 { XorZero(y / 2, k - 1); }
  }

  lemma {:induction false} XorTop(x: nat, k: nat)
    requires x < Pow2(k)
    ensures Xor(x, Pow2(k), k + 1) == x + Pow2(k)
  {
    if k == 0 {
      assert Xor(0, 1, 1) == 1;
    } else {
      var h := Pow2(k - 1);
      XorTop(x / 2, k - 1);
      XorEven(x, h, k);
    }
  }

  lemma XorEven(x: nat, h: nat, k: nat)
    ensures Xor(x, 2 * h, k + 1) == x % 2 + 2 * Xor(x / 2, h, k)
  {
    hide Pow2;
    assert (2 * h) / 2 == h && (x + 2 * h) % 2 == x % 2;
  }

  function XorByte(x: byte, y: byte): byte {
    assert Pow2(8) == 256;
    Xor(x, y, 8)
  }

  function XorLane(x: u64, y: u64): u64 {
    F.P64();
    Xor(x, y, 64)
  }

  lemma XorHighBit(d: byte)
    requires d < 0x80
    ensures XorByte(d, 0x80) == d + 0x80
  {
    hide Xor;
    assert Pow2(7) == 0x80;
    XorTop(d, 7);
  }

  // ---------- the sponge ----------

  function Lane(block: seq<byte>, i: nat): u64
    requires |block| == RATE && i < LANES
  {
    Limits();
    FromLE(block[8 * i..8 * i + 8])
  }

  /** A block exclusive-ored into the first lanes of the state. */
  function Mixed(st: State, block: seq<byte>): State
    requires |block| == RATE
  {
    seq(25, i requires 0 <= i < 25 => if i < LANES then XorLane(st[i], Lane(block, i)) else st[i])
  }

  /** The little-endian bytes of the first k lanes. */
  function LaneBytes(st: State, k: nat): (b: seq<byte>)
    requires k <= LANES
    ensures |b| == 8 * k
  {
    if k == 0 then [] else LaneBytes(st, k - 1) + ToLE(st[k - 1], 8)
  }

  function Output(st: State): (b: seq<byte>)
    ensures |b| == RATE
  {
    LaneBytes(st, LANES)
  }

  lemma LaneRoundTrip(block: seq<byte>, i: nat)
    requires |block| == RATE && i < LANES
    ensures ToLE(Lane(block, i), 8) == block[8 * i..8 * i + 8]
  {
    hide ToLE, FromLE;
    LECanonical(block[8 * i..8 * i + 8]);
  }

  /** Mixing the same block in twice undoes itself, and the lanes past the rate are never touched. */
  lemma MixedTwice(st: State, block: seq<byte>)
    requires |block| == RATE
    ensures Mixed(Mixed(st, block), block) == st
    ensures forall i :: LANES <= i < 25 ==> Mixed(st, block)[i] == st[i]
  {
    hide Lane, Xor;
    var twice := Mixed(Mixed(st, block), block);
    F.P64();
    forall i | 0 <= i < 25 ensures twice[i] == st[i] {
      if i < LANES { XorInvolution(st[i], Lane(block, i), 64); }
    }
  }

  /** Different blocks mix to different states. */
  lemma MixedInjective(st: State, b: seq<byte>, c: seq<byte>)
    requires |b| == |c| == RATE && Mixed(st, b) == Mixed(st, c)
    ensures b == c
  {
    hide Mixed, Lane;
    forall j | 0 <= j < RATE ensures b[j] == c[j] {
      var i := j / 8;
      LaneSame(st, b, c, i);
      assert b[8 * i..8 * i + 8][j % 8] == b[j] && c[8 * i..8 * i + 8][j % 8] == c[j];
    }
  }

  lemma LaneSame(st: State, b: seq<byte>, c: seq<byte>, i: nat)
    requires |b| == |c| == RATE && Mixed(st, b) == Mixed(st, c) && i < LANES
    ensures b[8 * i..8 * i + 8] == c[8 * i..8 * i + 8]
  {
    hide Lane, Xor;
    F.P64();
    assert Mixed(st, b)[i] == Mixed(st, c)[i];
    XorDifferent(st[i], Lane(b, i), Lane(c, i), 64);
    LaneRoundTrip(b, i);
    LaneRoundTrip(c, i);
  }

  lemma {:induction false} XorCommutes(x: nat, y: nat, k: nat)
    ensures Xor(x, y, k) == Xor(y, x, k)
  {
    if k > 0 { XorCommutes(x / 2, y / 2, k - 1); }
  }

  lemma XorDifferent(x: nat, y: nat, z: nat, k: nat)
    requires y < Pow2(k) && z < Pow2(k) && Xor(x, y, k) == Xor(x, z, k)
    ensures y == z
  {
    hide Xor, Pow2;
    XorCommutes(x, y, k);
    XorCommutes(x, z, k);
    XorInvolution(y, x, k);
    XorInvolution(z, x, k);
  }

  /** Mixed into the zero state, a block reads back unchanged: the lanes are in order, low byte first. */
  lemma MixedReadsBack(st: State, block: seq<byte>)
    requires |block| == RATE && forall i :: 0 <= i < 25 ==> st[i] == 0
    ensures Output(Mixed(st, block)) == block
  {
    hide Mixed;
    LanesReadBack(st, block, LANES);
    assert block[..8 * LANES] == block;
  }

  lemma {:induction false} LanesReadBack(st: State, block: seq<byte>, k: nat)
    requires |block| == RATE && k <= LANES && forall i :: 0 <= i < 25 ==> st[i] == 0
    ensures LaneBytes(Mixed(st, block), k) == block[..8 * k]
  {
    hide ToLE, Lane, Xor;
    if k > 0 {
      LanesReadBack(st, block, k - 1);
      F.P64();
      XorZero(Lane(block, k - 1), 64);
      LaneRoundTrip(block, k - 1);
      assert block[..8 * k] == block[..8 * (k - 1)] + block[8 * (k - 1)..8 * k];
    }
  }

  const ZERO: State := seq(25, _ => 0)

  /** The state after absorbing whole blocks. */
  function Absorbed(perm: State -> State, m: seq<byte>): State
    requires |m| % RATE == 0
    decreases |m|
  {
    if |m| == 0 then ZERO
    else perm(Mixed(Absorbed(perm, m[..|m| - RATE]), m[|m| - RATE..]))
  }

  function ZeroBytes(n: nat): (r: seq<byte>)
    ensures |r| == n && forall i :: 0 <= i < n ==> r[i] == 0
  {
    seq(n, _ => 0)
  }

  /** The final block: the leftover bytes, the domain byte, zeros, and the closing bit in the last byte. */
  function LastBlock(tail: seq<byte>, d: byte): (b: seq<byte>)
    requires |tail| < RATE
    ensures |b| == RATE
  {
    if |tail| == RATE - 1 then tail + [XorByte(d, 0x80)]
    else tail + [d] + ZeroBytes(RATE - 2 - |tail|) + [0x80]
  }

  function Whole(n: nat): (r: nat)
    ensures r <= n < r + RATE && r % RATE == 0
  {
    n / RATE * RATE
  }

  function Padded(m: seq<byte>, d: byte): (p: seq<byte>)
    ensures |p| % RATE == 0
  {
    m[..Whole(|m|)] + LastBlock(m[Whole(|m|)..], d)
  }

  function Permuted(perm: State -> State, st: State, k: nat): State {
    if k == 0 then st else perm(Permuted(perm, st, k - 1))
  }

  /** Byte j of the unbounded output stream TurboSHAKE128(m, d, .). */
  function StreamByte(perm: State -> State, m: seq<byte>, d: byte, j: nat): byte {
    Output(Permuted(perm, Absorbed(perm, Padded(m, d)), j / RATE))[j % RATE]
  }

  /** Bytes from..to of the output stream. */
  function Stream(perm: State -> State, m: seq<byte>, d: byte, from: nat, to: nat): (s: seq<byte>)
    requires from <= to
    ensures |s| == to - from
  {
    seq<byte>(to - from, i requires 0 <= i => StreamByte(perm, m, d, from + i))
  }

  /** Absorbing from zero, block by block: mix, then permute. */
  lemma AbsorbBlocks(perm: State -> State, m: seq<byte>, block: seq<byte>)
    requires |m| % RATE == 0 && |block| == RATE
    ensures Absorbed(perm, m + block) == perm(Mixed(Absorbed(perm, m), block))
    ensures Absorbed(perm, []) == seq(25, _ => 0)
  {
    hide Mixed;
    var all := m + block;
    assert all[..|all| - RATE] == m && all[|all| - RATE..] == block;
  }

  /** Squeezing, block by block: the k-th output block reads the state permuted k times more. */
  lemma SqueezeBlocks(perm: State -> State, m: seq<byte>, d: byte, states: seq<State>, k: nat)
    requires k < |states| && states[0] == Absorbed(perm, Padded(m, d))
    requires forall i :: 0 <= i < k ==> states[i + 1] == perm(states[i])
    ensures Stream(perm, m, d, RATE * k, RATE * (k + 1)) == Output(states[k])
  {
    hide Output, Absorbed, Padded;
    StatesPermuted(perm, states, k);
    var s := Stream(perm, m, d, RATE * k, RATE * (k + 1));
    forall j | 0 <= j < RATE ensures s[j] == Output(states[k])[j] {
      assert s[j] == StreamByte(perm, m, d, RATE * k + j);
      assert (RATE * k + j) / RATE == k && (RATE * k + j) % RATE == j;
    }
  }

  lemma {:induction false} StatesPermuted(perm: State -> State, states: seq<State>, k: nat)
    requires k < |states| && forall i :: 0 <= i < k ==> states[i + 1] == perm(states[i])
    ensures states[k] == Permuted(perm, states[0], k)
  {
    if k > 0 { StatesPermuted(perm, states, k - 1); }
  }

  lemma StreamSplit(perm: State -> State, m: seq<byte>, d: byte, a: nat, b: nat, c: nat)
    requires a <= b <= c
    ensures Stream(perm, m, d, a, c) == Stream(perm, m, d, a, b) + Stream(perm, m, d, b, c)
  {}

  // ---------- padding is injective ----------

  lemma PaddedLength(m: seq<byte>, d: byte)
    ensures |Padded(m, d)| == Whole(|m|) + RATE
  {}

  lemma PaddedShape(m: seq<byte>, d: byte)
    requires 0x01 <= d <= 0x7F
    ensures var p := Padded(m, d);
      && |m| < |p| && p[..|m|] == m
      && (|m| == |p| - 1 ==> p[|m|] == d + 0x80)
      && (|m| < |p| - 1 ==> p[|m|] == d && p[|p| - 1] == 0x80)
      && forall i :: |m| < i < |p| - 1 ==> p[i] == 0
  {
    XorHighBit(d);
    PaddedLength(m, d);
    var w := Whole(|m|);
    var tail := m[w..];
    var p := Padded(m, d);
    assert m == m[..w] + tail;
    forall i | w <= i < |p| ensures p[i] == LastBlock(tail, d)[i - w] { }
  }

  /** Different (message, domain byte) pairs absorb different block sequences. */
  lemma PaddedInjective(m1: seq<byte>, d1: byte, m2: seq<byte>, d2: byte)
    requires 0x01 <= d1 <= 0x7F && 0x01 <= d2 <= 0x7F
    requires Padded(m1, d1) == Padded(m2, d2)
    ensures m1 == m2 && d1 == d2
  {
    hide Padded;
    var p := Padded(m1, d1);
    PaddedShape(m1, d1);
    PaddedShape(m2, d2);
    if |m1| != |m2| {
      assert false;
    }
  }
}

/** The incremental sponge object: buffered absorbing with Write, then squeezing with Read. */
module Turboshake {
  import opened Bytes
  import opened Word64
  import opened Sponge
  import F = Field64

  class TurboShake128 {
    const perm: State -> State
    const d: byte
    const buf: array<byte>
    var a: State
    var n: nat  // bytes buffered while absorbing, read offset while squeezing
    var squeezing: bool
    ghost var msg: seq<byte>  // everything written
    ghost var whole: nat      // length of the absorbed blocks of msg
    ghost var count: nat      // bytes read
    ghost var blocks: nat     // permutations since squeezing began

    ghost predicate Valid()
      reads this, buf
    {
      && buf.Length == RATE
      && (!squeezing ==>
        && n < RATE && count == 0
        && whole % RATE == 0 && |msg| == whole + n
        && buf[..n] == msg[whole..]
        && a == Absorbed(perm, msg[..whole]))
      && (squeezing ==>
        && n <= RATE && count == blocks * RATE + n
        && a == Permuted(perm, Absorbed(perm, Padded(msg, d)), blocks)
        && buf[..] == Output(a))
    }

    constructor (perm: State -> State, d: byte)
      requires 0x01 <= d <= 0x7F
      ensures Valid() && fresh(buf)
      ensures !squeezing && msg == [] && count == 0 && this.perm == perm && this.d == d
    {
      this.perm := perm;
      this.d := d;
      a := ZERO;
      buf := new byte[RATE](_ => 0);
      n := 0;
      squeezing := false;
      msg := [];
      whole := 0;
      count := 0;
      blocks := 0;
    }

    /** Mixes the full buffer into the state and permutes. */
    method AbsorbBuf()
      requires buf.Length == RATE
      modifies this`a
      ensures a == perm(Mixed(old(a), buf[..]))
    {
      hide XorLane, FromLE;
      Limits();
      for i := 0 to LANES
        invariant forall j :: 0 <= j < i ==> a[j] == XorLane(old(a)[j], Lane(buf[..], j))
        invariant forall j :: i <= j < 25 ==> a[j] == old(a)[j]
      {
        assert buf[..][8 * i..8 * i + 8] == buf[8 * i..8 * i + 8];
        a := a[i := XorLane(a[i], FromLE(buf[8 * i..8 * i + 8]))];
      }
      assert a == Mixed(old(a), buf[..]);
      a := perm(a);
    }

    /** Serialises the first lanes into the buffer. */
    method FillBuf()
      requires buf.Length == RATE
      modifies buf
      ensures buf[..] == Output(a)
    {
      hide ToLE;
      for i := 0 to LANES
        invariant buf[..8 * i] == LaneBytes(a, i)
      {
        var bytes := ToLE(a[i], 8);
        ghost var done := buf[..8 * i];
        forall j | 0 <= j < 8 { buf[8 * i + j] := bytes[j]; }
        assert buf[..8 * i] == done;
        assert buf[..8 * (i + 1)] == done + bytes;
      }
      assert buf[..] == buf[..8 * LANES];
    }

    /** Copies as much of rest as fits after the buffered bytes. */
    method Fill(rest: seq<byte>) returns (c: nat)
      requires Valid() && !squeezing && |rest| > 0
      modifies this`n, this`msg, buf
      ensures 0 < c <= |rest| && msg == old(msg) + rest[..c]
      ensures n <= RATE && if n < RATE then Valid() else Full()
    {
      hide Mixed, Absorbed, Padded, Permuted, Output;
      c := if |rest| < RATE - n then |rest| else RATE - n;
      ghost var tail := msg[whole..];
      CopyIn(rest, c);
      assert (msg + rest[..c])[whole..] == tail + rest[..c];
      assert (msg + rest[..c])[..whole] == msg[..whole];
      msg := msg + rest[..c];
      n := n + c;
    }

    /** Copies c bytes in behind the buffered ones. */
    method CopyIn(rest: seq<byte>, c: nat)
      requires n + c <= buf.Length && c <= |rest|
      modifies buf
      ensures buf[..n + c] == old(buf[..n]) + rest[..c]
    {
      forall j | 0 <= j < c { buf[n + j] := rest[j]; }
    }

    /** Between Fill and Flush: the buffer holds a whole block. */
    ghost predicate Full()
      reads this, buf
    {
      && buf.Length == RATE && !squeezing && n == RATE && count == 0
      && whole % RATE == 0 && |msg| == whole + n && buf[..n] == msg[whole..]
      && a == Absorbed(perm, msg[..whole])
    }

    /** Absorbs a buffer that has become full. */
    method Flush()
      requires Full()
      modifies this`a, this`n, this`whole
      ensures Valid()
    {
      hide Mixed, Absorbed, Padded, Permuted, Output;
      assert buf[..] == buf[..RATE];
      AbsorbStep(perm, msg);
      AbsorbBuf();
      n := 0;
      whole := whole + RATE;
      assert msg[..whole] == msg && msg[whole..] == [];
    }

    method Write(p: seq<byte>)
      requires Valid() && !squeezing
      modifies this, buf
      ensures Valid() && !squeezing && msg == old(msg) + p && count == old(count)
    {
      hide Valid, Full;
      var rest := p;
      assert msg == msg + p[..0];
      while |rest| > 0
        invariant Valid() && !squeezing && count == old(count)
        invariant |rest| <= |p| && rest == p[|p| - |rest|..] && msg == old(msg) + p[..|p| - |rest|]
        decreases |rest|
      {
        var c := Fill(rest);
        ghost var done := |p| - |rest|;
        assert p[..done + c] == p[..done] + rest[..c];
        rest := rest[c..];
        if n == RATE {
          Flush();
        }
      }
      assert p[..|p|] == p;
    }

    /** Closes the message: domain byte, final bit, last block, first output block. */
    method Pad()
      requires Valid() && !squeezing
      modifies this, buf
      ensures Valid() && squeezing && n == 0 && msg == old(msg) && count == 0
    {
      hide Mixed, Absorbed, Output, XorByte;
      ghost var tail := buf[..n];
      buf[n] := d;
      forall i | n + 1 <= i < RATE { buf[i] := 0; }
      buf[RATE - 1] := XorByte(buf[RATE - 1], 0x80);
      XorHighBit(0);
      assert buf[..n] == tail;
      assert buf[..] == LastBlock(tail, d);
      WholeIs(|msg|, whole, n);
      assert Padded(msg, d) == msg[..whole] + buf[..];
      AbsorbStep(perm, Padded(msg, d));
      AbsorbBuf();
      FillBuf();
      n := 0;
      squeezing := true;
      blocks := 0;
    }

    /** Permutes and serialises the next output block. */
    method NextBlock()
      requires Valid() && squeezing && n == RATE
      modifies this`a, this`n, this`blocks, buf
      ensures Valid() && squeezing && n == 0 && blocks == old(blocks) + 1
    {
      hide Absorbed, Padded, Output;
      a := perm(a);
      FillBuf();
      n := 0;
      blocks := blocks + 1;
    }

    /** Copies from the current block into p at off. */
    method CopyOut(p: array<byte>, off: nat) returns (c: nat)
      requires Valid() && squeezing && p != buf && off < p.Length && n < RATE
      modifies this`n, this`count, p
      ensures Valid() && 0 < c && off + c <= p.Length && count == old(count) + c
      ensures p[..off] == old(p[..off]) && p[off..off + c] == Stream(perm, msg, d, old(count), count)
    {
      hide Absorbed, Padded, Output, Stream, Permuted;
      c := if p.Length - off < RATE - n then p.Length - off else RATE - n;
      BlockRange(n, n + c);
      forall j | 0 <= j < c { p[off + j] := buf[n + j]; }
      assert p[off..off + c] == buf[n..n + c];
      n := n + c;
      count := count + c;
    }

    /** Fills p with the next bytes of the output stream. */
    method Read(p: array<byte>)
      requires Valid() && p != buf
      modifies this, buf, p
      ensures Valid() && squeezing && msg == old(msg) && count == old(count) + p.Length
      ensures p[..] == Stream(perm, msg, d, old(count), count)
    {
      hide Absorbed, Padded, Output, StreamByte, Permuted;
      if !squeezing {
        Pad();
      }
      ghost var start := count;
      var off := 0;
      while off < p.Length
        invariant Valid() && squeezing && msg == old(msg)
        invariant off <= p.Length && count == start + off
        invariant p[..off] == Stream(perm, msg, d, start, count)
        decreases p.Length - off
      {
        if n == RATE {
          NextBlock();
        }
        ghost var before := count;
        var c := CopyOut(p, off);
        StreamSplit(perm, msg, d, start, before, count);
        assert p[..off + c] == p[..off] + p[off..off + c];
        off := off + c;
      }
      assert p[..] == p[..off];
    }

    lemma BlockRange(lo: nat, hi: nat)
      requires Valid() && squeezing && lo <= hi <= RATE
      ensures buf[lo..hi] == Stream(perm, msg, d, blocks * RATE + lo, blocks * RATE + hi)
    {
      hide Absorbed, Padded, Output;
      var s := Stream(perm, msg, d, blocks * RATE + lo, blocks * RATE + hi);
      forall i | 0 <= i < hi - lo ensures buf[lo..hi][i] == s[i] {
        var j := lo + i;
        assert (blocks * RATE + j) / RATE == blocks && (blocks * RATE + j) % RATE == j;
        assert blocks * RATE + lo + i == blocks * RATE + j;
        assert s[i] == StreamByte(perm, msg, d, blocks * RATE + j);
        assert buf[j] == buf[..][j];
      }
    }
  }

  lemma WholeIs(len: nat, whole: nat, n: nat)
    requires len == whole + n && whole % RATE == 0 && n < RATE
    ensures Whole(len) == whole
  {}

  lemma AbsorbStep(perm: State -> State, m: seq<byte>)
    requires |m| > 0 && |m| % RATE == 0
    ensures |m| >= RATE
    ensures Absorbed(perm, m) == perm(Mixed(Absorbed(perm, m[..|m| - RATE]), m[|m| - RATE..]))
  {}

  /** Refuses a domain separation byte outside [0x01, 0x7F]. */
  method New128(perm: State -> State, d: byte) returns (r: F.Result<TurboShake128>)
    ensures r.Ok? <==> 0x01 <= d <= 0x7F
    ensures r.Ok? ==> var s := r.value;
      fresh(s) && fresh(s.buf) && s.Valid() && !s.squeezing && s.msg == [] && s.count == 0 && s.perm == perm && s.d == d
  {
    if d < 0x01 || d > 0x7F { return F.Err("domain separation byte out of range [0x01, 0x7F]"); }
    var s := new TurboShake128(perm, d);
    r := F.Ok(s);
  }

  /** One-shot TurboSHAKE128(m, d, outLen). */
  method Sum128(perm: State -> State, m: seq<byte>, d: byte, outLen: nat) returns (r: F.Result<seq<byte>>)
    ensures r.Ok? <==> 0x01 <= d <= 0x7F
    ensures r.Ok? ==> r.value == Stream(perm, m, d, 0, outLen)
  {
    hide Stream;
    var s := New128(perm, d);
    if s.Err? { return F.Err(s.reason); }
    var sponge := s.value;
    sponge.Write(m);
    assert [] + m == m;
    var buf := new byte[outLen];
    sponge.Read(buf);
    r := F.Ok(buf[..]);
  }
}
