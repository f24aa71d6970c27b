/** XofTurboShake128: input framing, domain separation, and rejection-sampled field vectors. */
module XofFormat {
  import opened Bytes

  const VERSION: byte := 18

  const USAGE_MEAS_SHARE: nat := 1
  const USAGE_PROOF_SHARE: nat := 2
  const USAGE_PROVE_RANDOMNESS: nat := 4
  const USAGE_QUERY_RANDOMNESS: nat := 5

  /** VERSION || algo_class || algo (4 bytes BE) || usage (2 bytes BE). */
  function FormatDST(algoClass: byte, algo: nat, usage: nat): (r: seq<byte>)
    ensures |r| == 8
  {
    [VERSION, algoClass] + ToBE(algo, 4) + ToBE(usage, 2)
  }

  function DomainSeparationTag(usage: nat, algo: nat, ctx: seq<byte>): (r: seq<byte>)
    ensures |r| == 8 + |ctx|
  {
    FormatDST(0, algo, usage) + ctx
  }

  /** le16(len(dst)) || dst || le8(len(seed)) || seed || binder. */
  function XofInput(seed: seq<byte>, dst: seq<byte>, binder: seq<byte>): seq<byte>
    requires |seed| <= 255
  {
    ToLE(|dst|, 2) + dst + [|seed|] + seed + binder
  }

  /** The tag, byte by byte, for the usages and the algorithm in use here. */
  lemma TagBytes(usage: nat, algo: nat, ctx: seq<byte>)
    requires usage < 256 && algo < 256
    ensures DomainSeparationTag(usage, algo, ctx) == [18, 0, 0, 0, 0, algo, 0, usage] + ctx
  {
    hide ToBE;
    Wide(algo, 4);
    Wide(usage, 2);
  }

  lemma Wide(x: nat, k: nat)
    requires x < 256 && k >= 1
    ensures ToBE(x, k) == seq<byte>(k - 1, _ => 0) + [x]
  {
    NoBytes(k - 1);
    assert x / 256 == 0 && x % 256 == x;
  }

  lemma {:induction false} NoBytes(k: nat)
    ensures ToBE(0, k) == seq<byte>(k, _ => 0)
  {
    if k > 0 { NoBytes(k - 1); }
  }

  /** The absorbed string: two length bytes low first, the tag, one length byte, the seed, the binder. */
  lemma InputBytes(seed: seq<byte>, dst: seq<byte>, binder: seq<byte>)
    requires |seed| <= 255 && |dst| <= 65535
    ensures XofInput(seed, dst, binder) == [|dst| % 256, |dst| / 256] + dst + [|seed|] + seed + binder
  {
    LEDigits(|dst|, 2, 0);
    LEDigits(|dst|, 2, 1);
    assert Limit(0) == 1 && Limit(1) == 256;
    assert ToLE(|dst|, 2) == [|dst| % 256, |dst| / 256];
  }

  lemma TagInjective(u1: nat, a1: nat, c1: seq<byte>, u2: nat, a2: nat, c2: seq<byte>)
    requires u1 < 0x1_0000 && u2 < 0x1_0000 && a1 < 0x1_0000_0000 && a2 < 0x1_0000_0000
    requires DomainSeparationTag(u1, a1, c1) == DomainSeparationTag(u2, a2, c2)
    ensures u1 == u2 && a1 == a2 && c1 == c2
  {
    hide ToBE, FromBE, Limit;
    var t1, t2 := DomainSeparationTag(u1, a1, c1), DomainSeparationTag(u2, a2, c2);
    Limits();
    assert t1[2..6] == ToBE(a1, 4) && t2[2..6] == ToBE(a2, 4);
    assert t1[6..8] == ToBE(u1, 2) && t2[6..8] == ToBE(u2, 2);
    assert t1[8..] == c1 && t2[8..] == c2;
    BERoundTrip(a1, 4);
    BERoundTrip(a2, 4);
    BERoundTrip(u1, 2);
    BERoundTrip(u2, 2);
  }

  /** The absorbed string determines seed, domain separation tag and binder. */
  lemma InputInjective(s1: seq<byte>, d1: seq<byte>, b1: seq<byte>, s2: seq<byte>, d2: seq<byte>, b2: seq<byte>)
    requires |s1| <= 255 && |s2| <= 255 && |d1| <= 65535 && |d2| <= 65535
    requires XofInput(s1, d1, b1) == XofInput(s2, d2, b2)
    ensures s1 == s2 && d1 == d2 && b1 == b2
  {
    hide ToLE, FromLE, Limit;
    var x, y := XofInput(s1, d1, b1), XofInput(s2, d2, b2);
    Limits();
    assert x[..2] == ToLE(|d1|, 2) && y[..2] == ToLE(|d2|, 2);
    LERoundTrip(|d1|, 2);
    LERoundTrip(|d2|, 2);
    var n := |d1|;
    assert x[2..2 + n] == d1 && y[2..2 + n] == d2;
    assert x[2 + n] == |s1| && y[2 + n] == |s2|;
    var l := |s1|;
    assert x[3 + n..3 + n + l] == s1 && y[3 + n..3 + n + l] == s2;
    assert x[3 + n + l..] == b1 && y[3 + n + l..] == b2;
  }

  /** Different usages, contexts, seeds or binders never absorb the same string. */
  lemma UsageSeparation(u1: nat, c1: seq<byte>, s1: seq<byte>, b1: seq<byte>, u2: nat, c2: seq<byte>, s2: seq<byte>,
      b2: seq<byte>)
    requires u1 < 0x1_0000 && u2 < 0x1_0000
    requires |s1| <= 255 && |s2| <= 255 && |c1| <= 65527 && |c2| <= 65527
    requires XofInput(s1, DomainSeparationTag(u1, 1, c1), b1) == XofInput(s2, DomainSeparationTag(u2, 1, c2), b2)
    ensures u1 == u2 && c1 == c2 && s1 == s2 && b1 == b2
  {
    hide XofInput, DomainSeparationTag;
    InputInjective(s1, DomainSeparationTag(u1, 1, c1), b1, s2, DomainSeparationTag(u2, 1, c2), b2);
    TagInjective(u1, 1, c1, u2, 1, c2);
  }
}

module Xof {
  import opened Bytes
  import opened Sponge
  import opened Turboshake
  import opened XofFormat
  import Fp
  import F = Field64

  type Elt = Fp.Elt

  /** The little-endian word at byte offset off of the stream. */
  function Word(perm: State -> State, m: seq<byte>, off: nat): nat {
    FromLE(Stream(perm, m, 0x01, off, off + 8))
  }

  /** A word is eight bytes of the stream for domain byte 1, the low byte first. */
  lemma WordReads(perm: State -> State, m: seq<byte>, off: nat)
    ensures ToLE(Word(perm, m, off), 8) == Stream(perm, m, 1, off, off + 8)
  {
    hide ToLE, FromLE, Stream;
    LECanonical(Stream(perm, m, 1, off, off + 8));
  }

  /** The words below the modulus among the k words from offset off, in stream order. */
  function Accepted(perm: State -> State, m: seq<byte>, off: nat, k: nat): (r: seq<Elt>)
    ensures |r| <= k
  {
    if k == 0 then []
    else
      var w := Word(perm, m, off + 8 * (k - 1));
      Accepted(perm, m, off, k - 1) + if w < Fp.P then [w] else []
  }

  lemma NoneAccepted(perm: State -> State, m: seq<byte>, off: nat)
    ensures Accepted(perm, m, off, 0) == []
  {}

  /** Word by word: a word below the modulus is kept, any other is skipped. */
  lemma AcceptedNext(perm: State -> State, m: seq<byte>, off: nat, k: nat)
    ensures Accepted(perm, m, off, 0) == []
    ensures Accepted(perm, m, off, k + 1) ==
      Accepted(perm, m, off, k) + if Word(perm, m, off + 8 * k) < Fp.P then [Word(perm, m, off + 8 * k)] else []
  {
    hide Word;
  }

  lemma {:induction false} AcceptedSplit(perm: State -> State, m: seq<byte>, off: nat, j: nat, k: nat)
    ensures Accepted(perm, m, off, j + k) == Accepted(perm, m, off, j) + Accepted(perm, m, off + 8 * j, k)
  {
    hide Word;
    if k > 0 {
      AcceptedSplit(perm, m, off, j, k - 1);
      assert off + 8 * (j + k - 1) == off + 8 * j + 8 * (k - 1);
    }
  }

  /** `used` is the least number of words from off that hold `length` accepted ones. */
  ghost predicate Draws(perm: State -> State, m: seq<byte>, off: nat, length: nat, used: nat) {
    |Accepted(perm, m, off, used)| == length && (used > 0 ==> |Accepted(perm, m, off, used - 1)| < length)
  }

  /** A draw of a elements followed by a draw of b elements is one draw of a + b elements. */
  lemma DrawsCompose(perm: State -> State, m: seq<byte>, off: nat, a: nat, b: nat, u: nat, v: nat)
    requires Draws(perm, m, off, a, u) && Draws(perm, m, off + 8 * u, b, v)
    ensures Draws(perm, m, off, a + b, u + v)
    ensures Accepted(perm, m, off, u + v) == Accepted(perm, m, off, u) + Accepted(perm, m, off + 8 * u, v)
  {
    hide Accepted;
    AcceptedSplit(perm, m, off, u, v);
    if v > 0 { AcceptedSplit(perm, m, off, u, v - 1); }
  }

  /** What a draw returns is the first `length` accepted words of any long enough stretch. */
  lemma DrawsFirst(perm: State -> State, m: seq<byte>, off: nat, length: nat, used: nat, k: nat)
    requires Draws(perm, m, off, length, used) && |Accepted(perm, m, off, k)| >= length
    ensures used <= k && Accepted(perm, m, off, used) == Accepted(perm, m, off, k)[..length]
  {
    hide Accepted;
    if used <= k {
      AcceptedSplit(perm, m, off, used, k - used);
    } else {
      AcceptedSplit(perm, m, off, k, used - 1 - k);
      assert false;
    }
  }

  class Xof {
    const ts: TurboShake128

    ghost predicate Valid()
      reads this, ts, ts.buf
    {
      ts.Valid() && ts.d == 0x01
    }

    constructor (perm: State -> State, seed: seq<byte>, dst: seq<byte>, binder: seq<byte>)
      requires |seed| <= 255 && |dst| <= 65535
      ensures Valid() && fresh(ts) && fresh(ts.buf)
      ensures ts.perm == perm && ts.count == 0 && ts.msg == XofInput(seed, dst, binder)
    {
      hide TurboShake128.Valid, ToLE;
      var t := new TurboShake128(perm, 0x01);
      t.Write(ToLE(|dst|, 2));
      t.Write(dst);
      t.Write([|seed|]);
      t.Write(seed);
      t.Write(binder);
      ts := t;
      assert t.msg == XofInput(seed, dst, binder);
    }

    /** The next n bytes of the stream. */
    method Next(n: nat) returns (out: seq<byte>)
      requires Valid()
      modifies ts, ts.buf
      ensures Valid() && ts.msg == old(ts.msg) && ts.count == old(ts.count) + n
      ensures out == Stream(ts.perm, ts.msg, 0x01, old(ts.count), ts.count)
    {
      hide Stream;
      var buf := new byte[n];
      ts.Read(buf);
      out := buf[..];
    }

    /** Eight bytes of the stream, read little-endian. */
    method NextWord() returns (v: nat)
      requires Valid()
      modifies ts, ts.buf
      ensures Valid() && ts.msg == old(ts.msg) && ts.count == old(ts.count) + 8
      ensures v == Word(ts.perm, ts.msg, old(ts.count))
    {
      hide Stream, FromLE;
      var b := Next(8);
      v := FromLE(b);
    }

    /** Rejection sampling; the stream must hold enough accepted words within the next `limit` ones. */
    method NextVecField64(length: nat, ghost limit: nat) returns (out: seq<Elt>, ghost used: nat)
      requires Valid() && |Accepted(ts.perm, ts.msg, ts.count, limit)| >= length
      modifies ts, ts.buf
      ensures Valid() && ts.msg == old(ts.msg) && ts.count == old(ts.count) + 8 * used
      ensures Draws(ts.perm, ts.msg, old(ts.count), length, used)
      ensures out == Accepted(ts.perm, ts.msg, old(ts.count), used)
    {
      hide Accepted, Word, TurboShake128.Valid;
      out := [];
      used := 0;
      NoneAccepted(ts.perm, ts.msg, ts.count);
      ghost var start := ts.count;
      while |out| < length
        invariant Valid() && ts.msg == old(ts.msg) && ts.count == start + 8 * used
        invariant used <= limit && out == Accepted(ts.perm, ts.msg, start, used)
        invariant |out| <= length && (used > 0 ==> |Accepted(ts.perm, ts.msg, start, used - 1)| < length)
        decreases limit - used
      {
        AcceptedNext(ts.perm, ts.msg, start, used);
        var v := NextWord();
        if v < F.MODULUS {
          out := out + [v];
        }
        used := used + 1;
      }
    }
  }

  /** Refuses a seed or a tag that does not fit its length prefix. */
  method New(perm: State -> State, seed: seq<byte>, dst: seq<byte>, binder: seq<byte>) returns (r: F.Result<Xof>)
    ensures r.Ok? <==> |seed| <= 255 && |dst| <= 65535
    ensures r.Ok? ==> var x := r.value;
      fresh(x) && fresh(x.ts) && fresh(x.ts.buf) && x.Valid() && x.ts.perm == perm && x.ts.count == 0
        && x.ts.msg == XofInput(seed, dst, binder)
  {
    hide XofInput;
    if |seed| > 255 { return F.Err("seed longer than 255 bytes"); }
    if |dst| > 65535 { return F.Err("dst longer than 65535 bytes"); }
    var x := new Xof(perm, seed, dst, binder);
    r := F.Ok(x);
  }

  /** One-shot seed derivation: the first 32 bytes of the stream. */
  method DeriveSeed(perm: State -> State, seed: seq<byte>, dst: seq<byte>, binder: seq<byte>)
    returns (r: F.Result<seq<byte>>)
    ensures r.Ok? <==> |seed| <= 255 && |dst| <= 65535
    ensures r.Ok? ==> r.value == Stream(perm, XofInput(seed, dst, binder), 0x01, 0, 32)
  {
    hide XofInput, Stream;
    var x := New(perm, seed, dst, binder);
    if x.Err? { return F.Err(x.reason); }
    var out := x.value.Next(32);
    r := F.Ok(out);
  }

  /** One-shot vector expansion. */
  method ExpandIntoVecField64(perm: State -> State, seed: seq<byte>, dst: seq<byte>, binder: seq<byte>, length: nat,
      ghost limit: nat)
    returns (r: F.Result<seq<Elt>>)
    requires |seed| <= 255 && |dst| <= 65535 ==> |Accepted(perm, XofInput(seed, dst, binder), 0, limit)| >= length
    ensures r.Ok? <==> |seed| <= 255 && |dst| <= 65535
    ensures r.Ok? ==> r.value == Accepted(perm, XofInput(seed, dst, binder), 0, limit)[..length]
  {
    hide Accepted, XofInput;
    var x := New(perm, seed, dst, binder);
    if x.Err? { return F.Err(x.reason); }
    var out, used := x.value.NextVecField64(length, limit);
    DrawsFirst(perm, XofInput(seed, dst, binder), 0, length, used, limit);
    r := F.Ok(out);
  }
}
