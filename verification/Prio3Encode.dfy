/** Serialization of Prio3Count shares: little-endian field vectors for the Leader, a bare seed for a Helper. */
module Prio3Encode {
  import opened Bytes
  import opened Flp
  import opened Prio3
  import FieldVec
  import Fp
  import F = Field64

  type Elt = Fp.Elt

  /** What an input share is on the wire. */
  function InputShareBytes(share: InputShare): seq<byte> {
    if share.aggID == 0 then FieldVec.Encoding(share.measShare) + FieldVec.Encoding(share.proofsShare)
    else share.seed
  }

  method EncodeInputShare(share: InputShare) returns (b: seq<byte>)
    ensures b == InputShareBytes(share)
    ensures share.aggID == 0 ==> b == FieldVec.Encoding(share.measShare + share.proofsShare)
    ensures share.aggID != 0 ==> b == share.seed
  {
    FieldVec.EncodingConcat(share.measShare, share.proofsShare);
    if share.aggID == 0 {
      var out := FieldVec.EncodeVec(share.measShare);
      var proofs := FieldVec.EncodeVec(share.proofsShare);
      return out + proofs;
    }
    b := share.seed;
  }

  /** A share aggregator aggID can hold: the Leader's vectors or a Helper's seed, and nothing else. */
  predicate Holds(c: Count, aggID: byte, share: InputShare) {
    && aggID as int < c.shares && share.aggID == aggID
    && if aggID == 0 then |share.measShare| == 1 && |share.proofsShare| == PROOF_LEN && share.seed == []
       else |share.seed| == SEED_SIZE && share.measShare == [] && share.proofsShare == []
  }

  /** Accepts exactly the encodings of shares aggID can hold, and returns the share encoded. */
  method DecodeInputShare(c: Count, aggID: byte, b: seq<byte>) returns (r: F.Result<InputShare>)
    ensures r.Ok? ==> Holds(c, aggID, r.value) && InputShareBytes(r.value) == b
    ensures r.Err? ==> forall share :: Holds(c, aggID, share) ==> InputShareBytes(share) != b
  {
    hide FieldVec.Encoding;
    if aggID as int >= c.shares { return F.Err("invalid aggregator id"); }
    if aggID == 0 {
      var measLen, proofsLen := FieldVec.ENCODED_SIZE, PROOF_LEN * FieldVec.ENCODED_SIZE;
      if |b| != measLen + proofsLen { return F.Err("incorrect share size"); }
      var meas := FieldVec.DecodeVec(b[..measLen]);
      if meas.Err? {
        NoLeaderShare(c, b, b[..measLen]);
        return F.Err(meas.reason);
      }
      var proofs := FieldVec.DecodeVec(b[measLen..]);
      if proofs.Err? {
        NoLeaderShare(c, b, b[measLen..]);
        return F.Err(proofs.reason);
      }
      assert b == b[..measLen] + b[measLen..];
      return F.Ok(InputShare(0, meas.value, proofs.value, []));
    }
    if |b| != SEED_SIZE { return F.Err("incorrect share size"); }
    r := F.Ok(InputShare(aggID, [], [], b));
  }

  lemma NoLeaderShare(c: Count, b: seq<byte>, part: seq<byte>)
    requires |b| >= FieldVec.ENCODED_SIZE && (part == b[..FieldVec.ENCODED_SIZE] || part == b[FieldVec.ENCODED_SIZE..])
    requires forall v :: FieldVec.Encoding(v) != part
    ensures forall share :: Holds(c, 0, share) ==> InputShareBytes(share) != b
  {
    hide FieldVec.Encoding;
    forall share | Holds(c, 0, share) ensures InputShareBytes(share) != b {
      var n, meas, proofs := FieldVec.ENCODED_SIZE, FieldVec.Encoding(share.measShare),
        FieldVec.Encoding(share.proofsShare);
      assert (meas + proofs)[..n] == meas && (meas + proofs)[n..] == proofs;
      assert meas != part && proofs != part;
    }
  }

  /** Distinct shares of one aggregator have distinct encodings. */
  lemma InputShareInjective(c: Count, aggID: byte, x: InputShare, y: InputShare)
    requires Holds(c, aggID, x) && Holds(c, aggID, y) && InputShareBytes(x) == InputShareBytes(y)
    ensures x == y
  {
    hide FieldVec.Encoding;
    if aggID == 0 {
      var n := FieldVec.ENCODED_SIZE;
      assert InputShareBytes(x)[..n] == FieldVec.Encoding(x.measShare);
      assert InputShareBytes(y)[..n] == FieldVec.Encoding(y.measShare);
      assert InputShareBytes(x)[n..] == FieldVec.Encoding(x.proofsShare);
      assert InputShareBytes(y)[n..] == FieldVec.Encoding(y.proofsShare);
      FieldVec.EncodingInjective(x.measShare, y.measShare);
      FieldVec.EncodingInjective(x.proofsShare, y.proofsShare);
    }
  }

  /** Accepts exactly the encodings of verifier shares. */
  method DecodeVerifierShare(b: seq<byte>) returns (r: F.Result<seq<Elt>>)
    ensures r.Ok? ==> |r.value| == VERIFIER_LEN && FieldVec.Encoding(r.value) == b
    ensures r.Err? ==> forall v :: |v| == VERIFIER_LEN ==> FieldVec.Encoding(v) != b
  {
    hide FieldVec.Encoding;
    if |b| != VERIFIER_LEN * FieldVec.ENCODED_SIZE { return F.Err("incorrect share size"); }
    r := FieldVec.DecodeVec(b);
  }
}
