/** The messages byte by byte: field order, widths and length prefixes, spelled out flat. */
module Layout {
  import opened Bytes
  import opened Wire
  import opened Messages

  /** Opaque bytes behind a k-byte big-endian length. */
  function Prefixed(s: seq<byte>, k: nat): seq<byte> { ToBE(|s|, k) + s }

  /** The draft-18 error registry, each error at its code point. */
  function Codes18(): seq<ReportError> {
    [Reserved, BatchCollected, ReportReplayed, ReportDropped, HpkeUnknownConfigID, HpkeDecryptError, VdafVerifyError,
     TaskExpired, InvalidMessage, ReportTooEarly, TaskNotStarted, OutdatedConfig]
  }

  /** The registry of draft-19 and draft-20. */
  function Codes19(): seq<ReportError> {
    [Reserved, BatchCollected, ReportReplayed, ReportDropped, HpkeUnknownConfigID, HpkeDecryptError, VdafVerifyError,
     InvalidMessage, ReportTooEarly, UnknownVerificationKeyID, UnsupportedExtension]
  }

  /** Draft-18 and Janus number errors by the one list, draft-19 and draft-20 by the other. */
  lemma ErrorCodes(e: ReportError, v: Variant, b: nat)
    ensures var codes := if v.Draft18? || v.Janus? then Codes18() else Codes19();
      ErrorToWire(e, v) == Some(b) <==> b < |codes| && codes[b] == e
  {}

  lemma OpaqueLayout(s: seq<byte>, k: nat, tail: seq<byte>)
    ensures PutOpaque(s, k, tail) == Prefixed(s, k) + tail
  {
    hide ToBE;
  }

  lemma ExtensionLayout(e: Extension, tail: seq<byte>)
    ensures e.Put(tail) == ToBE(e.kind, 2) + Prefixed(e.data, 2) + tail
  {
    hide ToBE;
  }

  /** Extensions end to end behind a two-byte length. */
  lemma ExtensionVecLayout(es: seq<Extension>, tail: seq<byte>)
    ensures PutExtensionVec(es, tail) == Prefixed(PutExtensions(es), 2) + tail
    ensures PutExtensions([]) == []
    ensures |es| > 0 ==>
      PutExtensions(es) == ToBE(es[0].kind, 2) + Prefixed(es[0].data, 2) + PutExtensions(es[1..])
  {
    hide ToBE, Prefixed, PutOpaque, Extension.Put;
    OpaqueLayout(PutExtensions(es), 2, tail);
    if |es| > 0 { ExtensionLayout(es[0], PutExtensions(es[1..])); }
  }

  lemma CiphertextLayout(h: HpkeCiphertext, tail: seq<byte>)
    ensures h.Put(tail) == ToBE(h.configID, 1) + Prefixed(h.enc, 2) + Prefixed(h.payload, 4) + tail
  {
    hide ToBE, Prefixed, PutOpaque;
    OpaqueLayout(h.payload, 4, tail);
    OpaqueLayout(h.enc, 2, Prefixed(h.payload, 4) + tail);
  }

  lemma MetadataLayout(m: ReportMetadata, tail: seq<byte>)
    ensures m.Put(tail) == m.reportID + ToBE(m.time, 8) + Prefixed(PutExtensions(m.publicExtensions), 2) + tail
  {
    hide ToBE, Prefixed, PutExtensionVec, PutExtensions;
    ExtensionVecLayout(m.publicExtensions, tail);
  }

  function MetadataBytes(m: ReportMetadata): seq<byte> { m.Put([]) }

  function CiphertextBytes(h: HpkeCiphertext): seq<byte> { h.Put([]) }

  /** A field laid out in front of a tail is the field followed by the tail. */
  lemma FieldsSplit(m: ReportMetadata, h: HpkeCiphertext, tail: seq<byte>)
    ensures m.Put(tail) == MetadataBytes(m) + tail && h.Put(tail) == CiphertextBytes(h) + tail
  {
    hide ToBE, Prefixed, ReportMetadata.Put, HpkeCiphertext.Put, PutExtensions;
    MetadataLayout(m, tail);
    MetadataLayout(m, []);
    CiphertextLayout(h, tail);
    CiphertextLayout(h, []);
  }

  lemma ReportLayout(r: Report)
    ensures r.Bytes() ==
      MetadataBytes(r.metadata) + Prefixed(r.publicShare, 4) + CiphertextBytes(r.leader) + CiphertextBytes(r.helper)
  {
    hide Prefixed, PutOpaque, ReportMetadata.Put, HpkeCiphertext.Put;
    var t1 := r.leader.Put(r.helper.Put([]));
    FieldsSplit(r.metadata, r.leader, PutOpaque(r.publicShare, 4, t1));
    OpaqueLayout(r.publicShare, 4, t1);
    FieldsSplit(r.metadata, r.leader, r.helper.Put([]));
  }

  /** One report's initialization: metadata, public share, the Helper's ciphertext, the Leader's payload. */
  lemma VerifyInitLayout(vi: VerifyInit, tail: seq<byte>)
    ensures vi.Put(tail) == MetadataBytes(vi.share.metadata) + Prefixed(vi.share.publicShare, 4)
      + CiphertextBytes(vi.share.encrypted) + Prefixed(vi.payload, 4) + tail
  {
    hide Prefixed, PutOpaque, ReportMetadata.Put, HpkeCiphertext.Put;
    var t2 := PutOpaque(vi.payload, 4, tail);
    var t1 := vi.share.encrypted.Put(t2);
    FieldsSplit(vi.share.metadata, vi.share.encrypted, PutOpaque(vi.share.publicShare, 4, t1));
    OpaqueLayout(vi.share.publicShare, 4, t1);
    FieldsSplit(vi.share.metadata, vi.share.encrypted, t2);
    OpaqueLayout(vi.payload, 4, tail);
  }

  /** The request: the drafts name a key and carry extensions, Janus a partial batch selector and one more length. */
  lemma InitReqLayout(req: InitReq, v: Variant)
    ensures req.Bytes(v) ==
      if v.Janus? then
        Prefixed(req.aggParam, 4) + ToBE(req.batchMode, 1) + Prefixed(req.batchConfig, 2)
          + Prefixed(PutInits(req.inits), 4)
      else
        ToBE(req.keyID, 1) + Prefixed(req.aggParam, 4) + Prefixed(PutExtensions(req.extensions), 2)
          + PutInits(req.inits)
    ensures PutInits([]) == []
    ensures |req.inits| > 0 ==> PutInits(req.inits) == req.inits[0].Put(PutInits(req.inits[1..]))
  {
    hide ToBE, Prefixed, PutOpaque, PutExtensionVec, PutExtensions, VerifyInit.Put;
    var inits := PutInits(req.inits);
    if v.Janus? {
      var t3 := PutOpaque(inits, 4, []);
      var t2 := PutOpaque(req.batchConfig, 2, t3);
      OpaqueLayout(inits, 4, []);
      OpaqueLayout(req.batchConfig, 2, t3);
      OpaqueLayout(req.aggParam, 4, PutUint(req.batchMode, 1, t2));
    } else {
      ExtensionVecLayout(req.extensions, inits);
      OpaqueLayout(req.aggParam, 4, PutExtensionVec(req.extensions, inits));
    }
  }

  /** One report's answer: 0 continues with a payload, 1 finishes, 2 rejects with a code point. */
  lemma VerifyRespLayout(r: VerifyResp, v: Variant, tail: seq<byte>)
    requires r.Encodes(v)
    ensures r.kind == 0 ==> r.Put(v, tail) == r.reportID + [0] + Prefixed(r.payload, 4) + tail
    ensures r.kind == 1 ==> r.Put(v, tail) == r.reportID + [1] + tail
    ensures r.kind == 2 ==> r.Put(v, tail) == r.reportID + [2, ErrorToWire(r.error, v).value] + tail
  {
    hide ToBE, Prefixed, PutOpaque, ErrorToWire;
    OneByte(r.kind);
    if r.kind == 0 { OpaqueLayout(r.payload, 4, tail); }
    if r.kind == 2 { OneByte(ErrorToWire(r.error, v).value); }
  }

  lemma OneByte(x: nat)
    ensures x < 256 ==> ToBE(x, 1) == [x]
  {
    assert ToBE(x, 0) == [];
  }

  lemma JobRespLayout(resp: JobResp, v: Variant)
    requires AllEncode(v, resp.resps)
    ensures resp.Bytes(v) == if v.Janus? then Prefixed(PutResps(v, resp.resps), 4) else PutResps(v, resp.resps)
    ensures |resp.resps| == 0 ==> PutResps(v, resp.resps) == []
    ensures |resp.resps| > 0 ==> PutResps(v, resp.resps) == resp.resps[0].Put(v, PutResps(v, resp.resps[1..]))
  {
    hide Prefixed, PutOpaque, VerifyResp.Put;
    OpaqueLayout(PutResps(v, resp.resps), 4, []);
  }

  /** 0 initializes with a share, 1 continues with a message and a share, 2 finishes with a message. */
  lemma PingPongLayout(m: PingPong)
    ensures m.kind == 0 ==> m.Bytes() == [0] + Prefixed(m.share, 4)
    ensures m.kind == 1 ==> m.Bytes() == [1] + Prefixed(m.message, 4) + Prefixed(m.share, 4)
    ensures m.kind == 2 ==> m.Bytes() == [2] + Prefixed(m.message, 4)
  {
    hide Prefixed, PutOpaque;
    OneByte(m.kind);
    OpaqueLayout(m.share, 4, []);
    OpaqueLayout(m.message, 4, []);
    OpaqueLayout(m.message, 4, PutOpaque(m.share, 4, []));
  }

  lemma PlaintextLayout(p: PlaintextInputShare)
    ensures p.Bytes() == Prefixed(PutExtensions(p.privateExtensions), 2) + Prefixed(p.payload, 4)
  {
    hide Prefixed, PutOpaque, PutExtensionVec, PutExtensions;
    OpaqueLayout(p.payload, 4, []);
    ExtensionVecLayout(p.privateExtensions, PutOpaque(p.payload, 4, []));
  }

  lemma TaskConfigLayout(t: TaskConfig, tail: seq<byte>)
    ensures t.Put(tail) == Prefixed(t.taskInfo, 1) + Prefixed(t.leader, 2) + Prefixed(t.helper, 2)
      + ToBE(t.timePrecision, 8) + ToBE(t.minBatchSize, 8) + ToBE(t.batchMode, 1) + Prefixed(t.batchConfig, 2)
      + ToBE(t.vdafType, 4) + Prefixed(t.vdafConfig, 2) + Prefixed(PutExtensions(t.extensions), 2) + tail
  {
    hide ToBE, Prefixed, PutOpaque, PutExtensionVec, PutExtensions;
    var t3 := PutExtensionVec(t.extensions, tail);
    ExtensionVecLayout(t.extensions, tail);
    OpaqueLayout(t.vdafConfig, 2, t3);
    var t2 := t.PutVdaf(tail);
    assert t2 == ToBE(t.vdafType, 4) + Prefixed(t.vdafConfig, 2) + Prefixed(PutExtensions(t.extensions), 2) + tail;
    OpaqueLayout(t.batchConfig, 2, t2);
    var t1 := t.PutLimits(t2);
    assert t1 ==
      ToBE(t.timePrecision, 8) + ToBE(t.minBatchSize, 8) + ToBE(t.batchMode, 1) + Prefixed(t.batchConfig, 2) + t2;
    EndpointsLayout(t, t1);
  }

  lemma EndpointsLayout(t: TaskConfig, rest: seq<byte>)
    ensures PutOpaque(t.taskInfo, 1, PutOpaque(t.leader, 2, PutOpaque(t.helper, 2, rest))) ==
      Prefixed(t.taskInfo, 1) + Prefixed(t.leader, 2) + Prefixed(t.helper, 2) + rest
  {
    hide Prefixed, PutOpaque;
    OpaqueLayout(t.helper, 2, rest);
    OpaqueLayout(t.leader, 2, PutOpaque(t.helper, 2, rest));
    OpaqueLayout(t.taskInfo, 1, PutOpaque(t.leader, 2, PutOpaque(t.helper, 2, rest)));
  }

  /** Janus leaves the task configuration out of the associated data. */
  lemma AadLayout(aad: InputShareAad, v: Variant)
    ensures aad.Bytes(v) == aad.taskID + (if v.Janus? then [] else aad.config.Put([]))
      + MetadataBytes(aad.metadata) + Prefixed(aad.publicShare, 4)
  {
    hide Prefixed, PutOpaque, ReportMetadata.Put, TaskConfig.Put;
    var h := HpkeCiphertext(0, [], []);
    var t1 := PutOpaque(aad.publicShare, 4, []);
    OpaqueLayout(aad.publicShare, 4, []);
    FieldsSplit(aad.metadata, h, t1);
    ConfigSplit(aad.config, aad.metadata.Put(t1));
  }

  lemma ConfigSplit(t: TaskConfig, tail: seq<byte>)
    ensures t.Put(tail) == t.Put([]) + tail
  {
    hide ToBE, Prefixed, TaskConfig.Put, PutExtensions;
    TaskConfigLayout(t, tail);
    TaskConfigLayout(t, []);
  }
}
