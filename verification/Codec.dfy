/** The codecs as the program runs them: a cursor that advances over the input, and a builder that grows the output.
    Each decoder is proved to read what the message's Get describes, each encoder to append what its Put describes. */
module Codec {
  import opened Bytes
  import opened Wire
  import opened Messages

  /** The outcome of reading a T off a cursor: what want says, and the cursor left at want's tail. */
  ghost predicate Reads<T>(want: Parsed<T>, got: Option<T>, rest: seq<byte>) {
    if want.None? then got.None? else got.Some? && want.value == (got.value, rest)
  }

  class Cursor {
    var rest: seq<byte>

    constructor (b: seq<byte>)
      ensures rest == b
    {
      rest := b;
    }

    /** A big-endian integer of k bytes, most significant byte first. */
    method ReadUint(k: nat) returns (r: Option<nat>)
      modifies this
      ensures Reads(GetUint(k, old(rest)), r, rest)
    {
      if |rest| < k { return None; }
      var v: nat := 0;
      for i := 0 to k
        invariant rest == old(rest) && v == FromBE(rest[..i])
      {
        assert rest[..i + 1][..i] == rest[..i];
        v := 256 * v + rest[i];
      }
      rest := rest[k..];
      r := Some(v);
    }

    method CopyBytes(n: nat) returns (r: Option<seq<byte>>)
      modifies this
      ensures Reads(GetFixed(n, old(rest)), r, rest)
    {
      if |rest| < n { return None; }
      r := Some(rest[..n]);
      rest := rest[n..];
    }

    /** Opaque bytes behind a k-byte length. */
    method ReadLengthPrefixed(k: nat) returns (r: Option<seq<byte>>)
      modifies this
      ensures Reads(GetOpaque(k, old(rest)), r, rest)
    {
      var n := ReadUint(k);
      if n.None? { return None; }
      r := CopyBytes(n.value);
    }
  }

  // ---------- decoding ----------

  method ReadExtension(c: Cursor) returns (r: Option<Extension>)
    modifies c
    ensures Reads(Extension.Get(old(c.rest)), r, c.rest)
  {
    hide GetUint, GetOpaque;
    var kind := c.ReadUint(2);
    if kind.None? { return None; }
    var data := c.ReadLengthPrefixed(2);
    if data.None? { return None; }
    r := Some(Extension(kind.value, data.value));
  }

  lemma NextExtension(b: seq<byte>)
    requires |b| > 0
    ensures var e := Extension.Get(b);
      if e.None? then GetExtensions(b).None?
      else var es := GetExtensions(e.value.1);
        if es.None? then GetExtensions(b).None? else GetExtensions(b) == Some([e.value.0] + es.value)
  {
    hide Extension.Get;
  }

  /** A loop over the length-prefixed vector, one extension at a time until it is empty. */
  method ReadExtensionVec(c: Cursor) returns (r: Option<seq<Extension>>)
    modifies c
    ensures Reads(GetExtensionVec(old(c.rest)), r, c.rest)
  {
    hide GetOpaque, GetExtensions, Extension.Get;
    var body := c.ReadLengthPrefixed(2);
    if body.None? { return None; }
    var vec := new Cursor(body.value);
    var out: seq<Extension> := [];
    assert forall es: seq<Extension> :: out + es == es;
    while vec.rest != []
      invariant fresh(vec) && c.rest == GetOpaque(2, old(c.rest)).value.1
      invariant var more := GetExtensions(vec.rest);
        GetExtensions(body.value) == if more.None? then None else Some(out + more.value)
      decreases |vec.rest|
    {
      NextExtension(vec.rest);
      var e := ReadExtension(vec);
      if e.None? { return None; }
      assert forall es: seq<Extension> :: out + ([e.value] + es) == (out + [e.value]) + es;
      out := out + [e.value];
    }
    NoExtensions();
    assert out + [] == out;
    r := Some(out);
  }

  lemma NoExtensions()
    ensures GetExtensions([]) == Some([])
  {}

  method ReadCiphertext(c: Cursor) returns (r: Option<HpkeCiphertext>)
    modifies c
    ensures Reads(HpkeCiphertext.Get(old(c.rest)), r, c.rest)
  {
    hide GetUint, GetOpaque;
    var cfg := c.ReadUint(1);
    if cfg.None? { return None; }
    var enc := c.ReadLengthPrefixed(2);
    if enc.None? { return None; }
    var payload := c.ReadLengthPrefixed(4);
    if payload.None? { return None; }
    if |enc.value| == 0 || |payload.value| == 0 { return None; }
    r := Some(HpkeCiphertext(cfg.value, enc.value, payload.value));
  }

  method ReadMetadata(c: Cursor) returns (r: Option<ReportMetadata>)
    modifies c
    ensures Reads(ReportMetadata.Get(old(c.rest)), r, c.rest)
  {
    hide GetUint, GetExtensionVec;
    var id := c.CopyBytes(16);
    if id.None? { return None; }
    var time := c.ReadUint(8);
    if time.None? { return None; }
    var es := ReadExtensionVec(c);
    if es.None? { return None; }
    r := Some(ReportMetadata(id.value, time.value, es.value));
  }

  method ReadVerifyInit(c: Cursor) returns (r: Option<VerifyInit>)
    modifies c
    ensures Reads(VerifyInit.Get(old(c.rest)), r, c.rest)
  {
    hide GetOpaque, ReportMetadata.Get, HpkeCiphertext.Get;
    var metadata := ReadMetadata(c);
    if metadata.None? { return None; }
    var pub := c.ReadLengthPrefixed(4);
    if pub.None? { return None; }
    var ct := ReadCiphertext(c);
    if ct.None? { return None; }
    var payload := c.ReadLengthPrefixed(4);
    if payload.None? || |payload.value| == 0 { return None; }
    r := Some(VerifyInit(ReportShare(metadata.value, pub.value, ct.value), payload.value));
  }

  lemma NextInit(b: seq<byte>)
    requires |b| > 0
    ensures var v := VerifyInit.Get(b);
      if v.None? then GetInits(b).None?
      else var vs := GetInits(v.value.1);
        if vs.None? then GetInits(b).None? else GetInits(b) == Some([v.value.0] + vs.value)
  {
    hide VerifyInit.Get;
  }

  lemma NoInits()
    ensures GetInits([]) == Some([])
  {}

  /** Reads reports to the end of the cursor. */
  method ReadInits(c: Cursor) returns (r: Option<seq<VerifyInit>>)
    modifies c
    ensures r == GetInits(old(c.rest))
    ensures r.Some? ==> c.rest == []
  {
    hide VerifyInit.Get, GetInits;
    var out: seq<VerifyInit> := [];
    assert forall vs: seq<VerifyInit> :: out + vs == vs;
    while c.rest != []
      invariant var more := GetInits(c.rest);
        GetInits(old(c.rest)) == if more.None? then None else Some(out + more.value)
      decreases |c.rest|
    {
      NextInit(c.rest);
      var v := ReadVerifyInit(c);
      if v.None? { return None; }
      assert forall vs: seq<VerifyInit> :: out + ([v.value] + vs) == (out + [v.value]) + vs;
      out := out + [v.value];
    }
    NoInits();
    assert out + [] == out;
    r := Some(out);
  }

  /** The whole request, in the variant's shape, with nothing left over. */
  method UnmarshalInitReq(v: Variant, b: seq<byte>) returns (r: Option<InitReq>)
    ensures r == InitReq.Parse(v, b)
  {
    hide GetUint, GetOpaque, GetExtensionVec, GetInits;
    var c := new Cursor(b);
    if v.Janus? {
      var aggParam := c.ReadLengthPrefixed(4);
      if aggParam.None? { return None; }
      var mode := c.ReadUint(1);
      if mode.None? { return None; }
      var config := c.ReadLengthPrefixed(2);
      if config.None? { return None; }
      var body := c.ReadLengthPrefixed(4);
      if body.None? { return None; }
      var vinits := new Cursor(body.value);
      var inits := ReadInits(vinits);
      if inits.None? || c.rest != [] { return None; }
      return Some(InitReq(0, aggParam.value, [], mode.value, config.value, inits.value));
    }
    var keyID := c.ReadUint(1);
    if keyID.None? { return None; }
    var aggParam := c.ReadLengthPrefixed(4);
    if aggParam.None? { return None; }
    var es := ReadExtensionVec(c);
    if es.None? { return None; }
    var inits := ReadInits(c);
    if inits.None? { return None; }
    r := Some(InitReq(keyID.value, aggParam.value, es.value, 0, [], inits.value));
  }

  method ReadVerifyResp(c: Cursor, v: Variant) returns (r: Option<VerifyResp>)
    modifies c
    ensures Reads(VerifyResp.Get(v, old(c.rest)), r, c.rest)
  {
    hide GetUint, GetOpaque, ErrorFromWire;
    var id := c.CopyBytes(16);
    if id.None? { return None; }
    var kind := c.ReadUint(1);
    if kind.None? { return None; }
    if kind.value == RESP_CONTINUE {
      var payload := c.ReadLengthPrefixed(4);
      if payload.None? || |payload.value| == 0 { return None; }
      return Some(VerifyResp(id.value, kind.value, payload.value, Reserved));
    } else if kind.value == RESP_FINISH {
      return Some(VerifyResp(id.value, kind.value, [], Reserved));
    } else if kind.value == RESP_REJECT {
      var code := c.ReadUint(1);
      if code.None? { return None; }
      var e := ErrorFromWire(code.value, v);
      if e.None? { return None; }
      return Some(VerifyResp(id.value, kind.value, [], e.value));
    }
    r := None;
  }

  lemma NextResp(v: Variant, b: seq<byte>)
    requires |b| > 0
    ensures var x := VerifyResp.Get(v, b);
      if x.None? then GetResps(v, b).None?
      else var xs := GetResps(v, x.value.1);
        if xs.None? then GetResps(v, b).None? else GetResps(v, b) == Some([x.value.0] + xs.value)
  {
    hide VerifyResp.Get;
  }

  lemma NoResps(v: Variant)
    ensures GetResps(v, []) == Some([])
  {}

  method ReadResps(c: Cursor, v: Variant) returns (r: Option<seq<VerifyResp>>)
    modifies c
    ensures r == GetResps(v, old(c.rest))
    ensures r.Some? ==> c.rest == []
  {
    hide VerifyResp.Get, GetResps;
    var out: seq<VerifyResp> := [];
    assert forall xs: seq<VerifyResp> :: out + xs == xs;
    while c.rest != []
      invariant var more := GetResps(v, c.rest);
        GetResps(v, old(c.rest)) == if more.None? then None else Some(out + more.value)
      decreases |c.rest|
    {
      NextResp(v, c.rest);
      var x := ReadVerifyResp(c, v);
      if x.None? { return None; }
      assert forall xs: seq<VerifyResp> :: out + ([x.value] + xs) == (out + [x.value]) + xs;
      out := out + [x.value];
    }
    NoResps(v);
    assert out + [] == out;
    r := Some(out);
  }

  method UnmarshalJobResp(v: Variant, b: seq<byte>) returns (r: Option<JobResp>)
    ensures r == JobResp.Parse(v, b)
  {
    hide GetOpaque, GetResps;
    var c := new Cursor(b);
    if v.Janus? {
      var body := c.ReadLengthPrefixed(4);
      if body.None? { return None; }
      var vresps := new Cursor(body.value);
      var rs := ReadResps(vresps, v);
      if rs.None? || c.rest != [] { return None; }
      return Some(JobResp(rs.value));
    }
    var rs := ReadResps(c, v);
    if rs.None? { return None; }
    r := Some(JobResp(rs.value));
  }

  method UnmarshalPingPong(b: seq<byte>) returns (r: Option<PingPong>)
    ensures r == PingPong.Parse(b)
  {
    hide GetUint, GetOpaque;
    var c := new Cursor(b);
    var kind := c.ReadUint(1);
    if kind.None? || kind.value > PING_PONG_FINISH { return None; }
    var first := c.ReadLengthPrefixed(4);
    if first.None? { return None; }
    if kind.value == PING_PONG_CONTINUE {
      var second := c.ReadLengthPrefixed(4);
      if second.None? || c.rest != [] { return None; }
      return Some(PingPong(kind.value, first.value, second.value));
    }
    if c.rest != [] { return None; }
    r := Some(if kind.value == PING_PONG_INITIALIZE then PingPong(kind.value, [], first.value)
              else PingPong(kind.value, first.value, []));
  }

  method UnmarshalPlaintext(b: seq<byte>) returns (r: Option<PlaintextInputShare>)
    ensures r == PlaintextInputShare.Parse(b)
  {
    hide GetOpaque, GetExtensionVec;
    var c := new Cursor(b);
    var es := ReadExtensionVec(c);
    if es.None? { return None; }
    var payload := c.ReadLengthPrefixed(4);
    if payload.None? || |payload.value| == 0 || c.rest != [] { return None; }
    r := Some(PlaintextInputShare(es.value, payload.value));
  }

  method ReadTaskConfig(c: Cursor, v: Variant) returns (r: Option<TaskConfig>)
    modifies c
    ensures Reads(TaskConfig.Get(v, old(c.rest)), r, c.rest)
  {
    hide GetUint, GetOpaque, GetExtensionVec;
    var info := c.ReadLengthPrefixed(1);
    if info.None? || (|info.value| == 0 && !v.Draft19Values()) { return None; }
    var leader := c.ReadLengthPrefixed(2);
    if leader.None? || |leader.value| == 0 { return None; }
    var helper := c.ReadLengthPrefixed(2);
    if helper.None? || |helper.value| == 0 { return None; }
    var precision := c.ReadUint(8);
    if precision.None? { return None; }
    var size := c.ReadUint(8);
    if size.None? { return None; }
    var mode := c.ReadUint(1);
    if mode.None? { return None; }
    var config := c.ReadLengthPrefixed(2);
    if config.None? { return None; }
    var kind := c.ReadUint(4);
    if kind.None? { return None; }
    var vdaf := c.ReadLengthPrefixed(2);
    if vdaf.None? { return None; }
    var es := ReadExtensionVec(c);
    if es.None? { return None; }
    r := Some(TaskConfig(info.value, leader.value, helper.value, precision.value, size.value, mode.value, config.value,
                         kind.value, vdaf.value, es.value));
  }

  // ---------- encoding ----------

  /** Grows the output; a length that overflows its prefix makes the whole build fail. */
  class Builder {
    var out: seq<byte>
    var failed: bool

    constructor ()
      ensures out == [] && !failed
    {
      out := [];
      failed := false;
    }

    method AddUint(x: nat, k: nat)
      modifies this
      ensures failed == old(failed)
      ensures forall tail :: old(out) + PutUint(x, k, tail) == out + tail
    {
      hide ToBE;
      out := out + ToBE(x, k);
      forall tail ensures old(out) + PutUint(x, k, tail) == out + tail {}
    }

    method AddBytes(s: seq<byte>)
      modifies this
      ensures failed == old(failed) && out == old(out) + s
      ensures forall tail :: old(out) + (s + tail) == out + tail
    {
      out := out + s;
      forall tail ensures old(out) + (s + tail) == out + tail {}
    }

    method AddLengthPrefixed(s: seq<byte>, k: nat)
      modifies this
      ensures failed == (old(failed) || |s| >= Limit(k))
      ensures forall tail :: old(out) + PutOpaque(s, k, tail) == out + tail
    {
      hide PutUint, Limit;
      if |s| >= Limit(k) { failed := true; }
      AddUint(|s|, k);
      ghost var mid := out;
      AddBytes(s);
      forall tail ensures old(out) + PutOpaque(s, k, tail) == out + tail {
        assert mid + (s + tail) == out + tail;
      }
    }
  }

  lemma PutExtensionsSplit(es: seq<Extension>, i: nat)
    requires i < |es|
    ensures PutExtensions(es[i..]) == es[i].Put(PutExtensions(es[i + 1..]))
  {
    hide Extension.Put;
    assert es[i..][0] == es[i] && es[i..][1..] == es[i + 1..];
  }

  method AddExtension(b: Builder, e: Extension)
    modifies b
    ensures b.failed == (old(b.failed) || |e.data| >= Limit(2))
    ensures forall tail :: old(b.out) + e.Put(tail) == b.out + tail
  {
    hide PutUint, PutOpaque, Limit;
    b.AddUint(e.kind, 2);
    ghost var mid := b.out;
    b.AddLengthPrefixed(e.data, 2);
    forall tail ensures old(b.out) + e.Put(tail) == b.out + tail {
      assert mid + PutOpaque(e.data, 2, tail) == b.out + tail;
    }
  }

  method AddExtensionVec(b: Builder, es: seq<Extension>)
    modifies b
    ensures !b.failed <==> !old(b.failed) && ExtensionsMarshal(es)
    ensures !b.failed ==> forall tail :: old(b.out) + PutExtensionVec(es, tail) == b.out + tail
  {
    hide PutExtensions, PutOpaque, Extension.Put, Limit;
    var child := new Builder();
    assert es[0..] == es;
    for i := 0 to |es|
      invariant fresh(child) && b.failed == old(b.failed) && b.out == old(b.out)
      invariant !child.failed <==> forall j :: 0 <= j < i ==> |es[j].data| < Limit(2)
      invariant child.out + PutExtensions(es[i..]) == PutExtensions(es)
    {
      PutExtensionsSplit(es, i);
      AddExtension(child, es[i]);
    }
    NothingPut();
    assert es[|es|..] == [] && child.out + [] == child.out;
    b.AddLengthPrefixed(child.out, 2);
    if child.failed { b.failed := true; }
  }

  lemma NothingPut()
    ensures PutExtensions([]) == [] && PutInits([]) == []
  {}

  method AddMetadata(b: Builder, m: ReportMetadata)
    modifies b
    ensures !b.failed <==> !old(b.failed) && m.Marshals()
    ensures !b.failed ==> forall tail :: old(b.out) + m.Put(tail) == b.out + tail
  {
    hide PutUint, PutExtensionVec, ExtensionsMarshal;
    b.AddBytes(m.reportID);
    ghost var b1 := b.out;
    b.AddUint(m.time, 8);
    ghost var b2 := b.out;
    AddExtensionVec(b, m.publicExtensions);
    forall tail | !b.failed ensures old(b.out) + m.Put(tail) == b.out + tail {
      var t2 := PutExtensionVec(m.publicExtensions, tail);
      assert b1 + PutUint(m.time, 8, t2) == b2 + t2;
    }
  }

  method AddCiphertext(b: Builder, h: HpkeCiphertext)
    modifies b
    ensures !b.failed <==> !old(b.failed) && h.Marshals()
    ensures !b.failed ==> forall tail :: old(b.out) + h.Put(tail) == b.out + tail
  {
    hide PutUint, PutOpaque, Limit;
    b.AddUint(h.configID, 1);
    ghost var b1 := b.out;
    b.AddLengthPrefixed(h.enc, 2);
    ghost var b2 := b.out;
    b.AddLengthPrefixed(h.payload, 4);
    forall tail ensures old(b.out) + h.Put(tail) == b.out + tail {
      var t2 := PutOpaque(h.payload, 4, tail);
      assert b1 + PutOpaque(h.enc, 2, t2) == b2 + t2;
    }
  }

  method AddVerifyInit(b: Builder, v: VerifyInit)
    modifies b
    ensures !b.failed <==> !old(b.failed) && v.Marshals()
    ensures !b.failed ==> forall tail :: old(b.out) + v.Put(tail) == b.out + tail
  {
    hide PutOpaque, Limit, ReportMetadata.Put, HpkeCiphertext.Put, ReportMetadata.Marshals, HpkeCiphertext.Marshals;
    AddMetadata(b, v.share.metadata);
    ghost var b1 := b.out;
    b.AddLengthPrefixed(v.share.publicShare, 4);
    ghost var b2 := b.out;
    AddCiphertext(b, v.share.encrypted);
    ghost var b3 := b.out;
    b.AddLengthPrefixed(v.payload, 4);
    forall tail | !b.failed ensures old(b.out) + v.Put(tail) == b.out + tail {
      var t3 := PutOpaque(v.payload, 4, tail);
      var t2 := v.share.encrypted.Put(t3);
      assert b1 + PutOpaque(v.share.publicShare, 4, t2) == b2 + t2;
      assert b2 + t2 == b3 + t3;
    }
  }

  lemma PutInitsSplit(vs: seq<VerifyInit>, i: nat)
    requires i < |vs|
    ensures PutInits(vs[i..]) == vs[i].Put(PutInits(vs[i + 1..]))
  {
    hide VerifyInit.Put;
    assert vs[i..][0] == vs[i] && vs[i..][1..] == vs[i + 1..];
  }

  method AddInits(b: Builder, vs: seq<VerifyInit>)
    modifies b
    ensures !b.failed <==> !old(b.failed) && forall v :: v in vs ==> v.Marshals()
    ensures !b.failed ==> b.out == old(b.out) + PutInits(vs)
  {
    hide PutInits, VerifyInit.Put, VerifyInit.Marshals;
    assert vs[0..] == vs && vs[..|vs|] == vs;
    for i := 0 to |vs|
      invariant !b.failed <==> !old(b.failed) && forall v :: v in vs[..i] ==> v.Marshals()
      invariant !b.failed ==> b.out + PutInits(vs[i..]) == old(b.out) + PutInits(vs)
    {
      PutInitsSplit(vs, i);
      AddVerifyInit(b, vs[i]);
      assert vs[..i + 1] == vs[..i] + [vs[i]];
    }
    NothingPut();
    assert vs[|vs|..] == [] && b.out + [] == b.out;
  }

  lemma FromNothing(put: seq<byte>, out: seq<byte>)
    requires [] + put == out
    ensures put == out
  {
    assert [] + put == put;
  }

  /** A build from nothing, finished with nothing more to come. */
  lemma Whole(put: seq<byte>, out: seq<byte>)
    requires [] + put == out + []
    ensures put == out
  {
    assert [] + put == put && out + [] == out;
  }

  /** The partial batch selector only Janus requests carry. */
  method AddSelector(b: Builder, req: InitReq)
    modifies b
    ensures b.failed == (old(b.failed) || |req.batchConfig| >= Limit(2))
    ensures forall tail :: old(b.out) + PutUint(req.batchMode, 1, PutOpaque(req.batchConfig, 2, tail)) == b.out + tail
  {
    hide PutUint, PutOpaque, Limit;
    b.AddUint(req.batchMode, 1);
    ghost var mid := b.out;
    b.AddLengthPrefixed(req.batchConfig, 2);
    forall tail ensures old(b.out) + PutUint(req.batchMode, 1, PutOpaque(req.batchConfig, 2, tail)) == b.out + tail {
      assert mid + PutOpaque(req.batchConfig, 2, tail) == b.out + tail;
    }
  }

  /** Janus wraps the reports in a length prefix of their own. */
  method AddJanusInits(b: Builder, vs: seq<VerifyInit>)
    modifies b
    ensures !b.failed <==> !old(b.failed) && (forall v :: v in vs ==> v.Marshals()) && |PutInits(vs)| < Limit(4)
    ensures !b.failed ==> b.out == old(b.out) + PutOpaque(PutInits(vs), 4, [])
  {
    hide PutOpaque, PutInits, Limit, VerifyInit.Marshals;
    var child := new Builder();
    AddInits(child, vs);
    if child.failed {
      b.failed := true;
      return;
    }
    assert child.out == PutInits(vs);
    b.AddLengthPrefixed(child.out, 4);
    assert b.out + [] == b.out;
  }

  method AddJanusInitReq(b: Builder, req: InitReq)
    requires b.out == [] && !b.failed
    modifies b
    ensures !b.failed <==> req.Marshals(Janus)
    ensures !b.failed ==> b.out == req.Bytes(Janus)
  {
    hide PutUint, PutOpaque, PutExtensionVec, ExtensionsMarshal, PutInits, Limit, VerifyInit.Marshals;
    b.AddLengthPrefixed(req.aggParam, 4);
    ghost var b1 := b.out;
    AddSelector(b, req);
    ghost var b2 := b.out;
    AddJanusInits(b, req.inits);
    if !b.failed {
      ghost var t2 := PutOpaque(PutInits(req.inits), 4, []);
      ghost var t1 := PutUint(req.batchMode, 1, PutOpaque(req.batchConfig, 2, t2));
      assert b1 + t1 == b2 + t2;
      assert PutOpaque(req.aggParam, 4, t1) == b.out by { FromNothing(PutOpaque(req.aggParam, 4, t1), b.out); }
    }
  }

  /** The published drafts let the reports run to the end of the message. */
  method AddDraftInitReq(b: Builder, req: InitReq, v: Variant)
    requires b.out == [] && !b.failed && !v.Janus?
    modifies b
    ensures !b.failed <==> req.Marshals(v)
    ensures !b.failed ==> b.out == req.Bytes(v)
  {
    hide PutUint, PutOpaque, PutExtensionVec, ExtensionsMarshal, PutInits, Limit, VerifyInit.Marshals;
    b.AddUint(req.keyID, 1);
    ghost var b1 := b.out;
    b.AddLengthPrefixed(req.aggParam, 4);
    ghost var b2 := b.out;
    AddExtensionVec(b, req.extensions);
    ghost var b3 := b.out;
    AddInits(b, req.inits);
    if !b.failed {
      ghost var t3 := PutInits(req.inits);
      ghost var t2 := PutExtensionVec(req.extensions, t3);
      ghost var t1 := PutOpaque(req.aggParam, 4, t2);
      assert b1 + t1 == b2 + t2;
      assert b2 + t2 == b.out;
      assert PutUint(req.keyID, 1, t1) == b.out by { FromNothing(PutUint(req.keyID, 1, t1), b.out); }
    }
  }

  lemma WellFormedMarshals(v: Variant, req: InitReq)
    ensures req.WellFormed(v) ==> req.Marshals(v)
  {
    hide PutInits, PutExtensions, Limit;
  }

  /** Marshals the request unless a length overflows its prefix; every well-formed request marshals. */
  method MarshalInitReq(v: Variant, req: InitReq) returns (r: Option<seq<byte>>)
    ensures r.Some? <==> req.Marshals(v)
    ensures req.WellFormed(v) ==> r.Some?
    ensures r.Some? ==> r.value == req.Bytes(v)
  {
    hide InitReq.Marshals, InitReq.Bytes, InitReq.WellFormed;
    WellFormedMarshals(v, req);
    var b := new Builder();
    if v.Janus? { AddJanusInitReq(b, req); } else { AddDraftInitReq(b, req, v); }
    if b.failed { return None; }
    r := Some(b.out);
  }

  method AddRespBody(b: Builder, v: Variant, x: VerifyResp)
    modifies b
    ensures !b.failed <==> !old(b.failed) && x.Encodes(v) && x.Fits()
    ensures !b.failed ==> forall tail :: old(b.out) + x.PutBody(v, tail) == b.out + tail
  {
    hide PutUint, PutOpaque, Limit, ErrorToWire;
    if x.kind == RESP_CONTINUE {
      b.AddLengthPrefixed(x.payload, 4);
    } else if x.kind == RESP_REJECT {
      var code := ErrorToWire(x.error, v);
      if code.None? {
        b.failed := true;
        return;
      }
      b.AddUint(code.value, 1);
    }
  }

  method AddVerifyResp(b: Builder, v: Variant, x: VerifyResp)
    modifies b
    ensures !b.failed <==> !old(b.failed) && x.Encodes(v) && x.Fits()
    ensures !b.failed ==> forall tail :: old(b.out) + x.Put(v, tail) == b.out + tail
  {
    hide PutUint, VerifyResp.PutBody, VerifyResp.Encodes, VerifyResp.Fits;
    b.AddBytes(x.reportID);
    ghost var b1 := b.out;
    b.AddUint(x.kind, 1);
    ghost var b2 := b.out;
    AddRespBody(b, v, x);
    forall tail | !b.failed ensures old(b.out) + x.Put(v, tail) == b.out + tail {
      var t := x.PutBody(v, tail);
      assert b1 + PutUint(x.kind, 1, t) == b2 + t;
    }
  }

  lemma PutRespsSplit(v: Variant, rs: seq<VerifyResp>, i: nat)
    requires i < |rs| && AllEncode(v, rs)
    ensures PutResps(v, rs[i..]) == rs[i].Put(v, PutResps(v, rs[i + 1..])) && PutResps(v, rs[|rs|..]) == []
  {
    hide VerifyResp.Put;
    assert rs[i..][0] == rs[i] && rs[i..][1..] == rs[i + 1..];
  }

  method AddResps(b: Builder, v: Variant, rs: seq<VerifyResp>)
    modifies b
    ensures !b.failed <==> !old(b.failed) && AllEncode(v, rs) && forall x :: x in rs ==> x.Fits()
    ensures !b.failed ==> b.out == old(b.out) + PutResps(v, rs)
  {
    hide VerifyResp.Put, VerifyResp.Encodes, VerifyResp.Fits;
    assert rs[..0] == [] && rs[..|rs|] == rs;
    for i := 0 to |rs|
      invariant !b.failed <==> !old(b.failed) && AllEncode(v, rs[..i]) && forall x :: x in rs[..i] ==> x.Fits()
      invariant !b.failed && AllEncode(v, rs) ==> b.out + PutResps(v, rs[i..]) == old(b.out) + PutResps(v, rs)
    {
      if AllEncode(v, rs) { PutRespsSplit(v, rs, i); }
      AddVerifyResp(b, v, rs[i]);
      assert rs[..i + 1] == rs[..i] + [rs[i]];
    }
  }

  /** Marshals the response, unless an error has no code point in the variant or a length overflows its prefix. */
  method MarshalJobResp(v: Variant, x: JobResp) returns (r: Option<seq<byte>>)
    ensures r.Some? <==> x.Marshals(v)
    ensures r.Some? ==> r.value == x.Bytes(v)
  {
    hide PutOpaque, PutResps, Limit, VerifyResp.Fits, VerifyResp.Encodes;
    var b := new Builder();
    if v.Janus? {
      var child := new Builder();
      AddResps(child, v, x.resps);
      b.AddLengthPrefixed(child.out, 4);
      if b.failed || child.failed { return None; }
      assert child.out == PutResps(v, x.resps);
      Whole(PutOpaque(child.out, 4, []), b.out);
      return Some(b.out);
    }
    AddResps(b, v, x.resps);
    if b.failed { return None; }
    r := Some(b.out);
  }

  method MarshalPingPong(m: PingPong) returns (r: Option<seq<byte>>)
    ensures r.Some? <==> m.Marshals()
    ensures r.Some? ==> r.value == m.Bytes()
  {
    hide PutUint, PutOpaque, Limit;
    if m.kind > PING_PONG_FINISH { return None; }
    var b := new Builder();
    b.AddUint(m.kind, 1);
    ghost var b1 := b.out;
    if m.kind == PING_PONG_INITIALIZE {
      b.AddLengthPrefixed(m.share, 4);
      Whole(PutUint(m.kind, 1, PutOpaque(m.share, 4, [])), b.out);
    } else if m.kind == PING_PONG_CONTINUE {
      b.AddLengthPrefixed(m.message, 4);
      ghost var t := PutOpaque(m.share, 4, []);
      assert b1 + PutOpaque(m.message, 4, t) == b.out + t;
      b.AddLengthPrefixed(m.share, 4);
      Whole(PutUint(m.kind, 1, PutOpaque(m.message, 4, t)), b.out);
    } else {
      b.AddLengthPrefixed(m.message, 4);
      Whole(PutUint(m.kind, 1, PutOpaque(m.message, 4, [])), b.out);
    }
    if b.failed { return None; }
    r := Some(b.out);
  }

  /** Refuses a task_info the variant forbids. */
  method AddTaskConfig(b: Builder, v: Variant, t: TaskConfig)
    modifies b
    ensures !b.failed <==> !old(b.failed) && t.Marshals(v)
    ensures !b.failed ==> forall tail :: old(b.out) + t.Put(tail) == b.out + tail
  {
    hide PutUint, PutOpaque, PutExtensionVec, ExtensionsMarshal, Limit;
    Limits();
    if |t.taskInfo| == 0 && !v.Draft19Values() {
      b.failed := true;
      return;
    }
    if |t.taskInfo| > 255 {
      b.failed := true;
      return;
    }
    b.AddLengthPrefixed(t.taskInfo, 1);
    ghost var b1 := b.out;
    b.AddLengthPrefixed(t.leader, 2);
    ghost var b2 := b.out;
    b.AddLengthPrefixed(t.helper, 2);
    AddLimits(b, t);
    ghost var b4 := b.out;
    AddVdaf(b, t);
    forall tail | !b.failed ensures old(b.out) + t.Put(tail) == b.out + tail {
      var t4 := t.PutVdaf(tail);
      var t3 := t.PutLimits(t4);
      var t2 := PutOpaque(t.helper, 2, t3);
      assert b1 + PutOpaque(t.leader, 2, t2) == b2 + t2;
      assert b4 + t4 == b.out + tail;
    }
  }

  method AddLimits(b: Builder, t: TaskConfig)
    modifies b
    ensures b.failed == (old(b.failed) || |t.batchConfig| >= Limit(2))
    ensures forall tail :: old(b.out) + t.PutLimits(tail) == b.out + tail
  {
    hide PutUint, PutOpaque, Limit;
    b.AddUint(t.timePrecision, 8);
    ghost var b1 := b.out;
    b.AddUint(t.minBatchSize, 8);
    ghost var b2 := b.out;
    b.AddUint(t.batchMode, 1);
    ghost var b3 := b.out;
    b.AddLengthPrefixed(t.batchConfig, 2);
    forall tail ensures old(b.out) + t.PutLimits(tail) == b.out + tail {
      var t3 := PutOpaque(t.batchConfig, 2, tail);
      var t2 := PutUint(t.batchMode, 1, t3);
      assert b1 + PutUint(t.minBatchSize, 8, t2) == b2 + t2;
      assert b2 + t2 == b3 + t3;
    }
  }

  method AddVdaf(b: Builder, t: TaskConfig)
    modifies b
    ensures !b.failed <==> !old(b.failed) && |t.vdafConfig| < Limit(2) && ExtensionsMarshal(t.extensions)
    ensures !b.failed ==> forall tail :: old(b.out) + t.PutVdaf(tail) == b.out + tail
  {
    hide PutUint, PutOpaque, PutExtensionVec, ExtensionsMarshal, Limit;
    b.AddUint(t.vdafType, 4);
    ghost var b1 := b.out;
    b.AddLengthPrefixed(t.vdafConfig, 2);
    ghost var b2 := b.out;
    AddExtensionVec(b, t.extensions);
    forall tail | !b.failed ensures old(b.out) + t.PutVdaf(tail) == b.out + tail {
      var t2 := PutExtensionVec(t.extensions, tail);
      assert b1 + PutOpaque(t.vdafConfig, 2, t2) == b2 + t2;
    }
  }

  /** The associated data, without the task configuration in the Janus dialect. */
  method MarshalAad(v: Variant, aad: InputShareAad) returns (r: Option<seq<byte>>)
    ensures r.Some? <==> aad.Marshals(v)
    ensures r.Some? ==> r.value == aad.Bytes(v)
  {
    hide PutOpaque, Limit, TaskConfig.Put, ReportMetadata.Put, TaskConfig.Marshals, ReportMetadata.Marshals;
    var b := new Builder();
    b.AddBytes(aad.taskID);
    ghost var b1 := b.out;
    if !v.Janus? { AddTaskConfig(b, v, aad.config); }
    ghost var b2 := b.out;
    AddMetadata(b, aad.metadata);
    ghost var b3 := b.out;
    b.AddLengthPrefixed(aad.publicShare, 4);
    if b.failed { return None; }
    ghost var t3 := PutOpaque(aad.publicShare, 4, []);
    ghost var t2 := aad.metadata.Put(t3);
    assert b3 + t3 == b.out + [];
    assert b2 + t2 == b3 + t3;
    assert !v.Janus? ==> b1 + aad.config.Put(t2) == b2 + t2;
    assert aad.taskID == b1;
    assert b.out + [] == b.out;
    r := Some(b.out);
  }

  method UnmarshalReport(b: seq<byte>) returns (r: Option<Report>)
    ensures r == Report.Parse(b)
  {
    hide GetOpaque, ReportMetadata.Get, HpkeCiphertext.Get;
    var c := new Cursor(b);
    var metadata := ReadMetadata(c);
    if metadata.None? { return None; }
    var pub := c.ReadLengthPrefixed(4);
    if pub.None? { return None; }
    var leader := ReadCiphertext(c);
    if leader.None? { return None; }
    var helper := ReadCiphertext(c);
    if helper.None? || c.rest != [] { return None; }
    r := Some(Report(metadata.value, pub.value, leader.value, helper.value));
  }

  method UnmarshalAad(v: Variant, b: seq<byte>) returns (r: Option<InputShareAad>)
    ensures r == InputShareAad.Parse(v, b)
  {
    hide GetOpaque, ReportMetadata.Get, TaskConfig.Get;
    var c := new Cursor(b);
    var id := c.CopyBytes(32);
    if id.None? { return None; }
    var config := InputShareAad.NO_CONFIG;
    if !v.Janus? {
      var read := ReadTaskConfig(c, v);
      if read.None? { return None; }
      config := read.value;
    }
    var metadata := ReadMetadata(c);
    if metadata.None? { return None; }
    var pub := c.ReadLengthPrefixed(4);
    if pub.None? || c.rest != [] { return None; }
    r := Some(InputShareAad(id.value, config, metadata.value, pub.value));
  }
}
