/** Byte strings and fixed-width integer encodings. */
module Bytes {
  import Word64

  type byte = x: int | 0 <= x < 256

  function Limit(k: nat): (r: nat)
    ensures r > 0
  {
    if k == 0 then 1 else 256 * Limit(k - 1)
  }

  /** The k-byte little-endian encoding of x. */
  function ToLE(x: nat, k: nat): (b: seq<byte>)
    ensures |b| == k
  {
    if k == 0 then [] else [x % 256] + ToLE(x / 256, k - 1)
  }

  function FromLE(b: seq<byte>): (x: nat)
    ensures x < Limit(|b|)
  {
    if |b| == 0 then 0 else b[0] + 256 * FromLE(b[1..])
  }

  /** The k-byte big-endian encoding of x. */
  function ToBE(x: nat, k: nat): (b: seq<byte>)
    ensures |b| == k
  {
    if k == 0 then [] else ToBE(x / 256, k - 1) + [x % 256]
  }

  function FromBE(b: seq<byte>): (x: nat)
    ensures x < Limit(|b|)
  {
    if |b| == 0 then 0 else 256 * FromBE(b[..|b| - 1]) + b[|b| - 1]
  }

  lemma {:induction false} LERoundTrip(x: nat, k: nat)
    requires x < Limit(k)
    ensures FromLE(ToLE(x, k)) == x
  {
    if k > 0 {
      LERoundTrip(x / 256, k - 1);
      assert ToLE(x, k)[1..] == ToLE(x / 256, k - 1);
    }
  }

  lemma {:induction false} LECanonical(b: seq<byte>)
    ensures ToLE(FromLE(b), |b|) == b
  {
    hide Limit;
    if |b| > 0 {
      LECanonical(b[1..]);
      LowByte(b[0], FromLE(b[1..]));
    }
  }

  lemma LowByte(low: byte, high: nat)
    ensures (low + 256 * high) % 256 == low && (low + 256 * high) / 256 == high
  {}

  lemma {:induction false} BERoundTrip(x: nat, k: nat)
    requires x < Limit(k)
    ensures FromBE(ToBE(x, k)) == x
  {
    if k > 0 {
      BERoundTrip(x / 256, k - 1);
      assert ToBE(x, k)[..k - 1] == ToBE(x / 256, k - 1);
    }
  }

  lemma {:induction false} BECanonical(b: seq<byte>)
    ensures ToBE(FromBE(b), |b|) == b
  {
    if |b| > 0 {
      BECanonical(b[..|b| - 1]);
      assert b == b[..|b| - 1] + [b[|b| - 1]];
    }
  }

  /** Byte i of the little-endian encoding is the i-th base-256 digit. */
  lemma {:induction false} LEDigits(x: nat, k: nat, i: nat)
    requires i < k
    ensures ToLE(x, k)[i] == x / Limit(i) % 256
  {
    if i > 0 {
      LEDigits(x / 256, k - 1, i - 1);
      DigitShift(x, Limit(i - 1));
    }
  }

  /** The big-endian encoding is the little-endian one backwards. */
  lemma {:induction false} BEDigits(x: nat, k: nat, i: nat)
    requires i < k
    ensures ToBE(x, k)[k - 1 - i] == x / Limit(i) % 256
  {
    if i > 0 {
      BEDigits(x / 256, k - 1, i - 1);
      DigitShift(x, Limit(i - 1));
    }
  }

  lemma DigitShift(x: nat, m: nat)
    requires m > 0
    ensures x / 256 / m == x / (256 * m)
  {
    var q, r := x / 256 / m, x / 256 % m;
    assert x / 256 == q * m + r;
    assert x == q * (256 * m) + (256 * r + x % 256);
    Word64.DivUnique(x, q, 256 * r + x % 256, 256 * m);
  }

  lemma Limits()
    ensures Limit(1) == 0x100 && Limit(2) == 0x1_0000 && Limit(4) == 0x1_0000_0000
    ensures Limit(8) == 0x1_0000_0000_0000_0000
  {
    assert Limit(3) == 0x100_0000;
    assert Limit(5) == 0x100_0000_0000;
    assert Limit(6) == 0x1_0000_0000_0000;
    assert Limit(7) == 0x100_0000_0000_0000;
  }
}

/** Vectors of field elements: element-wise arithmetic and the canonical little-endian encoding. */
module FieldVec {
  import opened Bytes
  import opened Poly
  import opened Word64
  import Fp
  import F = Field64

  type Elt = Fp.Elt
  const ENCODED_SIZE: nat := 8

  method VecAdd(a: seq<Elt>, b: seq<Elt>) returns (r: F.Result<seq<Elt>>)
    ensures r.Ok? <==> |a| == |b|
    ensures r.Ok? ==> r.value == VAdd(a, b)
  {
    hide Fp.Add, F.Add;
    if |a| != |b| { return F.Err("vec_add length mismatch"); }
    var out := new Elt[|a|];
    for i := 0 to |a|
      invariant forall j :: 0 <= j < i ==> out[j] == Fp.Add(a[j], b[j])
    {
      out[i] := F.Add(a[i], b[i]);
    }
    assert out[..] == VAdd(a, b);
    r := F.Ok(out[..]);
  }

  method VecSub(a: seq<Elt>, b: seq<Elt>) returns (r: F.Result<seq<Elt>>)
    ensures r.Ok? <==> |a| == |b|
    ensures r.Ok? ==> r.value == VSub(a, b)
  {
    hide Fp.Sub, F.Sub;
    if |a| != |b| { return F.Err("vec_sub length mismatch"); }
    var out := new Elt[|a|];
    for i := 0 to |a|
      invariant forall j :: 0 <= j < i ==> out[j] == Fp.Sub(a[j], b[j])
    {
      out[i] := F.Sub(a[i], b[i]);
    }
    assert out[..] == VSub(a, b);
    r := F.Ok(out[..]);
  }

  function Encode(a: Elt): (b: seq<byte>)
    ensures |b| == ENCODED_SIZE
  {
    ToLE(a, ENCODED_SIZE)
  }

  /** Accepts only canonical encodings. */
  function Decode(b: seq<byte>): (r: F.Result<Elt>)
  {
    if |b| != ENCODED_SIZE then F.Err("length")
    else if FromLE(b) >= F.MODULUS then F.Err("non-canonical")
    else F.Ok(FromLE(b))
  }

  function Encoding(v: seq<Elt>): (b: seq<byte>)
    ensures |b| == ENCODED_SIZE * |v|
  {
    if |v| == 0 then [] else Encoding(v[..|v| - 1]) + Encode(v[|v| - 1])
  }

  method EncodeVec(v: seq<Elt>) returns (out: seq<byte>)
    ensures out == Encoding(v)
  {
    out := [];
    for i := 0 to |v|
      invariant out == Encoding(v[..i])
    {
      assert v[..i + 1][..i] == v[..i];
      out := out + Encode(v[i]);
    }
    assert v[..|v|] == v;
  }

  lemma DecodeEncode(a: Elt)
    ensures Decode(Encode(a)) == F.Ok(a)
  {
    hide ToLE, FromLE, Limit;
    Limits();
    LERoundTrip(a, ENCODED_SIZE);
  }

  /** Accepts exactly the encodings of vectors, and inverts them. */
  method DecodeVec(b: seq<byte>) returns (r: F.Result<seq<Elt>>)
    ensures r.Ok? ==> Encoding(r.value) == b
    ensures r.Err? ==> forall v :: Encoding(v) != b
  {
    hide ToLE, FromLE, Limit;
    if |b| % ENCODED_SIZE != 0 { return F.Err("length"); }
    var out: seq<Elt> := [];
    for i := 0 to |b| / ENCODED_SIZE
      invariant |out| == i && Encoding(out) == b[..ENCODED_SIZE * i]
    {
      var off := ENCODED_SIZE * i;
      var chunk := b[off..off + ENCODED_SIZE];
      var e := Decode(chunk);
      if e.Err? {
        forall v | Encoding(v) == b ensures false {
          EncodingSlice(v, i);
          DecodeEncode(v[i]);
        }
        return F.Err(e.reason);
      }
      LECanonical(chunk);
      assert (out + [e.value])[..i] == out;
      out := out + [e.value];
      assert b[..off + ENCODED_SIZE] == b[..off] + chunk;
    }
    assert b[..|b|] == b;
    r := F.Ok(out);
  }

  lemma {:induction false} EncodingSlice(v: seq<Elt>, i: nat)
    requires i < |v|
    ensures Encoding(v)[ENCODED_SIZE * i..ENCODED_SIZE * i + ENCODED_SIZE] == Encode(v[i])
  {
    hide Encode;
    var init := Encoding(v[..|v| - 1]);
    var lo, hi := ENCODED_SIZE * i, ENCODED_SIZE * i + ENCODED_SIZE;
    if i < |v| - 1 {
      EncodingSlice(v[..|v| - 1], i);
      assert Encoding(v)[lo..hi] == init[lo..hi];
    } else {
      assert Encoding(v)[lo..hi] == Encode(v[i]);
    }
  }

  /** Encoding one vector after another is encoding their concatenation. */
  lemma {:induction false} EncodingConcat(v: seq<Elt>, w: seq<Elt>)
    ensures Encoding(v + w) == Encoding(v) + Encoding(w)
  {
    hide Encode;
    if |w| == 0 {
      assert v + w == v;
    } else {
      EncodingConcat(v, w[..|w| - 1]);
      assert (v + w)[..|v + w| - 1] == v + w[..|w| - 1];
    }
  }

  /** Distinct vectors have distinct encodings. */
  lemma EncodingInjective(v: seq<Elt>, w: seq<Elt>)
    requires Encoding(v) == Encoding(w)
    ensures v == w
  {
    hide Encode, Decode, Encoding;
    forall i | 0 <= i < |v| ensures v[i] == w[i] {
      EncodingSlice(v, i);
      EncodingSlice(w, i);
      DecodeEncode(v[i]);
      DecodeEncode(w[i]);
    }
  }
}
