/** The aggregation messages: Put encodes a value in front of a tail, Get decodes one and returns the tail. */
module Messages {
  import opened Bytes
  import opened Wire

  type ReportID = s: seq<byte> | |s| == 16 witness seq(16, _ => 0)
  type TaskID = s: seq<byte> | |s| == 32 witness seq(32, _ => 0)

  // ---------- typed opaque data: report, task and aggregation-job extensions ----------

  datatype Extension = Extension(kind: nat, data: seq<byte>) {
    predicate WellFormed() { kind < Limit(2) && |data| < Limit(2) }

    function Put(tail: seq<byte>): seq<byte> { PutUint(kind, 2, PutOpaque(data, 2, tail)) }

    static function Get(b: seq<byte>): (r: Parsed<Extension>)
      ensures r.Some? ==> |r.value.1| < |b|
    {
      var (kind, b1) :- GetUint(2, b);
      var (data, b2) :- GetOpaque(2, b1);
      Some((Extension(kind, data), b2))
    }

    lemma Trip(tail: seq<byte>)
      requires WellFormed()
      ensures Get(Put(tail)) == Some((this, tail))
    {
      hide PutUint, PutOpaque, GetUint, GetOpaque, Limit;
      UintTrip(kind, 2, PutOpaque(data, 2, tail));
      OpaqueTrip(data, 2, tail);
    }

    static lemma Canon(b: seq<byte>)
      requires Get(b).Some?
      ensures var (e, tail) := Get(b).value; e.WellFormed() && b == e.Put(tail)
    {
      hide PutUint, PutOpaque, GetUint, GetOpaque, Limit;
      UintCanon(2, b);
      OpaqueCanon(2, GetUint(2, b).value.1);
    }
  }

  /** Extensions laid end to end. */
  function PutExtensions(es: seq<Extension>): seq<byte> {
    if |es| == 0 then [] else es[0].Put(PutExtensions(es[1..]))
  }

  function GetExtensions(b: seq<byte>): Option<seq<Extension>>
    decreases |b|
  {
    if |b| == 0 then Some([]) else
      var (e, b1) :- Extension.Get(b);
      var es :- GetExtensions(b1);
      Some([e] + es)
  }

  predicate ExtensionsFit(es: seq<Extension>) {
    (forall e :: e in es ==> e.WellFormed()) && |PutExtensions(es)| < Limit(2)
  }

  /** Every length fits its prefix, whatever the kinds. */
  predicate ExtensionsMarshal(es: seq<Extension>) {
    (forall e :: e in es ==> |e.data| < Limit(2)) && |PutExtensions(es)| < Limit(2)
  }

  lemma {:induction false} ExtensionsTrip(es: seq<Extension>)
    requires forall e :: e in es ==> e.WellFormed()
    ensures GetExtensions(PutExtensions(es)) == Some(es)
  {
    if |es| > 0 {
      ExtensionsTrip(es[1..]);
      es[0].Trip(PutExtensions(es[1..]));
      assert [es[0]] + es[1..] == es;
    }
  }

  lemma {:induction false} ExtensionsCanon(b: seq<byte>)
    requires GetExtensions(b).Some?
    ensures var es := GetExtensions(b).value; (forall e :: e in es ==> e.WellFormed()) && b == PutExtensions(es)
    decreases |b|
  {
    if |b| > 0 {
      Extension.Canon(b);
      ExtensionsCanon(Extension.Get(b).value.1);
    }
  }

  /** A length-prefixed extension vector. */
  function PutExtensionVec(es: seq<Extension>, tail: seq<byte>): seq<byte> { PutOpaque(PutExtensions(es), 2, tail) }

  function GetExtensionVec(b: seq<byte>): (r: Parsed<seq<Extension>>)
    ensures r.Some? ==> |r.value.1| < |b|
  {
    var (body, b1) :- GetOpaque(2, b);
    var es :- GetExtensions(body);
    Some((es, b1))
  }

  lemma ExtensionVecTrip(es: seq<Extension>, tail: seq<byte>)
    requires ExtensionsFit(es)
    ensures GetExtensionVec(PutExtensionVec(es, tail)) == Some((es, tail))
  {
    hide PutOpaque, GetOpaque, GetExtensions, PutExtensions, Limit;
    OpaqueTrip(PutExtensions(es), 2, tail);
    ExtensionsTrip(es);
  }

  lemma ExtensionVecCanon(b: seq<byte>)
    requires GetExtensionVec(b).Some?
    ensures var (es, tail) := GetExtensionVec(b).value; ExtensionsFit(es) && b == PutExtensionVec(es, tail)
  {
    hide PutOpaque, GetOpaque, GetExtensions, PutExtensions, Limit;
    OpaqueCanon(2, b);
    ExtensionsCanon(GetOpaque(2, b).value.0);
  }

  // ---------- reports ----------

  datatype HpkeCiphertext = HpkeCiphertext(configID: nat, enc: seq<byte>, payload: seq<byte>) {
    predicate WellFormed() { configID < Limit(1) && 0 < |enc| < Limit(2) && 0 < |payload| < Limit(4) }

    predicate Marshals() { |enc| < Limit(2) && |payload| < Limit(4) }

    function Put(tail: seq<byte>): seq<byte> { PutUint(configID, 1, PutOpaque(enc, 2, PutOpaque(payload, 4, tail))) }

    static function Get(b: seq<byte>): (r: Parsed<HpkeCiphertext>)
      ensures r.Some? ==> |r.value.1| < |b|
    {
      var (cfg, b1) :- GetUint(1, b);
      var (enc, b2) :- GetOpaque(2, b1);
      var (payload, b3) :- GetOpaque(4, b2);
      if |enc| == 0 || |payload| == 0 then None else Some((HpkeCiphertext(cfg, enc, payload), b3))
    }

    lemma Trip(tail: seq<byte>)
      requires WellFormed()
      ensures Get(Put(tail)) == Some((this, tail))
    {
      hide PutUint, PutOpaque, GetUint, GetOpaque, Limit;
      UintTrip(configID, 1, PutOpaque(enc, 2, PutOpaque(payload, 4, tail)));
      OpaqueTrip(enc, 2, PutOpaque(payload, 4, tail));
      OpaqueTrip(payload, 4, tail);
    }

    static lemma Canon(b: seq<byte>)
      requires Get(b).Some?
      ensures var (c, tail) := Get(b).value; c.WellFormed() && b == c.Put(tail)
    {
      hide PutUint, PutOpaque, GetUint, GetOpaque, Limit;
      UintCanon(1, b);
      var b1 := GetUint(1, b).value.1;
      OpaqueCanon(2, b1);
      OpaqueCanon(4, GetOpaque(2, b1).value.1);
    }
  }

  datatype ReportMetadata = ReportMetadata(reportID: ReportID, time: nat, publicExtensions: seq<Extension>) {
    predicate WellFormed() { time < Limit(8) && ExtensionsFit(publicExtensions) }

    predicate Marshals() { ExtensionsMarshal(publicExtensions) }

    function Put(tail: seq<byte>): seq<byte> { reportID + PutUint(time, 8, PutExtensionVec(publicExtensions, tail)) }

    static function Get(b: seq<byte>): (r: Parsed<ReportMetadata>)
      ensures r.Some? ==> |r.value.1| < |b|
    {
      var (id, b1) :- GetFixed(16, b);
      var (time, b2) :- GetUint(8, b1);
      var (es, b3) :- GetExtensionVec(b2);
      Some((ReportMetadata(id, time, es), b3))
    }

    lemma Trip(tail: seq<byte>)
      requires WellFormed()
      ensures Get(Put(tail)) == Some((this, tail))
    {
      hide PutUint, GetUint, Limit, PutExtensionVec, GetExtensionVec;
      var b := Put(tail);
      assert b[..16] == reportID && b[16..] == PutUint(time, 8, PutExtensionVec(publicExtensions, tail));
      UintTrip(time, 8, PutExtensionVec(publicExtensions, tail));
      ExtensionVecTrip(publicExtensions, tail);
    }

    static lemma Canon(b: seq<byte>)
      requires Get(b).Some?
      ensures var (m, tail) := Get(b).value; m.WellFormed() && b == m.Put(tail)
    {
      hide PutUint, GetUint, Limit, PutExtensionVec, GetExtensionVec;
      UintCanon(8, b[16..]);
      ExtensionVecCanon(GetUint(8, b[16..]).value.1);
      assert b == b[..16] + b[16..];
    }
  }

  datatype ReportShare = ReportShare(metadata: ReportMetadata, publicShare: seq<byte>, encrypted: HpkeCiphertext) {
    predicate WellFormed() { metadata.WellFormed() && |publicShare| < Limit(4) && encrypted.WellFormed() }

    function Put(tail: seq<byte>): seq<byte> { metadata.Put(PutOpaque(publicShare, 4, encrypted.Put(tail))) }

    static function Get(b: seq<byte>): (r: Parsed<ReportShare>)
      ensures r.Some? ==> |r.value.1| < |b|
    {
      var (m, b1) :- ReportMetadata.Get(b);
      var (pub, b2) :- GetOpaque(4, b1);
      var (ct, b3) :- HpkeCiphertext.Get(b2);
      Some((ReportShare(m, pub, ct), b3))
    }

    lemma Trip(tail: seq<byte>)
      requires WellFormed()
      ensures Get(Put(tail)) == Some((this, tail))
    {
      hide PutOpaque, GetOpaque, Limit, ReportMetadata.Get, HpkeCiphertext.Get;
      metadata.Trip(PutOpaque(publicShare, 4, encrypted.Put(tail)));
      OpaqueTrip(publicShare, 4, encrypted.Put(tail));
      encrypted.Trip(tail);
    }

    static lemma Canon(b: seq<byte>)
      requires Get(b).Some?
      ensures var (s, tail) := Get(b).value; s.WellFormed() && b == s.Put(tail)
    {
      hide PutOpaque, GetOpaque, Limit, ReportMetadata.Get, HpkeCiphertext.Get;
      ReportMetadata.Canon(b);
      var b1 := ReportMetadata.Get(b).value.1;
      OpaqueCanon(4, b1);
      HpkeCiphertext.Canon(GetOpaque(4, b1).value.1);
    }
  }

  /** What a Client uploads: one sealed input share for each aggregator. */
  datatype Report = Report(metadata: ReportMetadata, publicShare: seq<byte>, leader: HpkeCiphertext,
    helper: HpkeCiphertext) {
    predicate WellFormed() {
      metadata.WellFormed() && |publicShare| < Limit(4) && leader.WellFormed() && helper.WellFormed()
    }

    function Bytes(): seq<byte> { metadata.Put(PutOpaque(publicShare, 4, leader.Put(helper.Put([])))) }

    static function Parse(b: seq<byte>): Option<Report> {
      var (m, b1) :- ReportMetadata.Get(b);
      var (pub, b2) :- GetOpaque(4, b1);
      var (l, b3) :- HpkeCiphertext.Get(b2);
      var (h, b4) :- HpkeCiphertext.Get(b3);
      if b4 != [] then None else Some(Report(m, pub, l, h))
    }

    lemma Trip()
      requires WellFormed()
      ensures Parse(Bytes()) == Some(this)
    {
      hide PutOpaque, GetOpaque, Limit, ReportMetadata.Get, HpkeCiphertext.Get;
      metadata.Trip(PutOpaque(publicShare, 4, leader.Put(helper.Put([]))));
      OpaqueTrip(publicShare, 4, leader.Put(helper.Put([])));
      leader.Trip(helper.Put([]));
      helper.Trip([]);
    }

    static lemma Canon(b: seq<byte>)
      requires Parse(b).Some?
      ensures var r := Parse(b).value; r.WellFormed() && b == r.Bytes()
    {
      hide PutOpaque, GetOpaque, Limit, ReportMetadata.Get, HpkeCiphertext.Get;
      ReportMetadata.Canon(b);
      var b1 := ReportMetadata.Get(b).value.1;
      OpaqueCanon(4, b1);
      var b2 := GetOpaque(4, b1).value.1;
      HpkeCiphertext.Canon(b2);
      HpkeCiphertext.Canon(HpkeCiphertext.Get(b2).value.1);
    }
  }

  datatype VerifyInit = VerifyInit(share: ReportShare, payload: seq<byte>) {
    predicate WellFormed() { share.WellFormed() && 0 < |payload| < Limit(4) }

    predicate Marshals() {
      && share.metadata.Marshals() && |share.publicShare| < Limit(4) && share.encrypted.Marshals()
      && |payload| < Limit(4)
    }

    function Put(tail: seq<byte>): seq<byte> { share.Put(PutOpaque(payload, 4, tail)) }

    static function Get(b: seq<byte>): (r: Parsed<VerifyInit>)
      ensures r.Some? ==> |r.value.1| < |b|
    {
      var (share, b1) :- ReportShare.Get(b);
      var (payload, b2) :- GetOpaque(4, b1);
      if |payload| == 0 then None else Some((VerifyInit(share, payload), b2))
    }

    lemma Trip(tail: seq<byte>)
      requires WellFormed()
      ensures Get(Put(tail)) == Some((this, tail))
    {
      hide PutOpaque, GetOpaque, Limit, ReportShare.Get;
      share.Trip(PutOpaque(payload, 4, tail));
      OpaqueTrip(payload, 4, tail);
    }

    static lemma Canon(b: seq<byte>)
      requires Get(b).Some?
      ensures var (v, tail) := Get(b).value; v.WellFormed() && b == v.Put(tail)
    {
      hide PutOpaque, GetOpaque, Limit, ReportShare.Get;
      ReportShare.Canon(b);
      OpaqueCanon(4, ReportShare.Get(b).value.1);
    }
  }

  function PutInits(vs: seq<VerifyInit>): seq<byte> { if |vs| == 0 then [] else vs[0].Put(PutInits(vs[1..])) }

  function GetInits(b: seq<byte>): Option<seq<VerifyInit>>
    decreases |b|
  {
    if |b| == 0 then Some([]) else
      var (v, b1) :- VerifyInit.Get(b);
      var vs :- GetInits(b1);
      Some([v] + vs)
  }

  lemma {:induction false} InitsTrip(vs: seq<VerifyInit>)
    requires forall v :: v in vs ==> v.WellFormed()
    ensures GetInits(PutInits(vs)) == Some(vs)
  {
    hide VerifyInit.Get, VerifyInit.Put, VerifyInit.WellFormed;
    if |vs| > 0 {
      InitsTrip(vs[1..]);
      vs[0].Trip(PutInits(vs[1..]));
      assert [vs[0]] + vs[1..] == vs;
    }
  }

  lemma {:induction false} InitsCanon(b: seq<byte>)
    requires GetInits(b).Some?
    ensures var vs := GetInits(b).value; (forall v :: v in vs ==> v.WellFormed()) && b == PutInits(vs)
    decreases |b|
  {
    hide VerifyInit.Get;
    if |b| > 0 {
      VerifyInit.Canon(b);
      InitsCanon(VerifyInit.Get(b).value.1);
    }
  }

  // ---------- the initialization request ----------

  /** The fields a variant does not carry are empty. */
  datatype InitReq = InitReq(
    keyID: nat, aggParam: seq<byte>, extensions: seq<Extension>,
    batchMode: nat, batchConfig: seq<byte>, inits: seq<VerifyInit>)
  {
    predicate WellFormed(v: Variant) {
      && |aggParam| < Limit(4) && (forall i :: i in inits ==> i.WellFormed())
      && if v.Janus? then
           keyID == 0 && extensions == [] && batchMode < Limit(1) && |batchConfig| < Limit(2)
             && |PutInits(inits)| < Limit(4)
         else
           keyID < Limit(1) && ExtensionsFit(extensions) && batchMode == 0 && batchConfig == []
    }

    /** Whether marshalling succeeds at all. */
    predicate Marshals(v: Variant) {
      && |aggParam| < Limit(4) && (forall i :: i in inits ==> i.Marshals())
      && if v.Janus? then |batchConfig| < Limit(2) && |PutInits(inits)| < Limit(4) else ExtensionsMarshal(extensions)
    }

    /** The Janus dialect prefixes the report vector with its length; the drafts let it run to the end. */
    function Bytes(v: Variant): seq<byte> {
      if v.Janus? then
        PutOpaque(aggParam, 4, PutUint(batchMode, 1, PutOpaque(batchConfig, 2, PutOpaque(PutInits(inits), 4, []))))
      else
        PutUint(keyID, 1, PutOpaque(aggParam, 4, PutExtensionVec(extensions, PutInits(inits))))
    }

    static function Parse(v: Variant, b: seq<byte>): Option<InitReq> {
      if v.Janus? then
        var (aggParam, b1) :- GetOpaque(4, b);
        var (mode, b2) :- GetUint(1, b1);
        var (config, b3) :- GetOpaque(2, b2);
        var (body, b4) :- GetOpaque(4, b3);
        var inits :- GetInits(body);
        if b4 != [] then None else Some(InitReq(0, aggParam, [], mode, config, inits))
      else
        var (keyID, b1) :- GetUint(1, b);
        var (aggParam, b2) :- GetOpaque(4, b1);
        var (es, b3) :- GetExtensionVec(b2);
        var inits :- GetInits(b3);
        Some(InitReq(keyID, aggParam, es, 0, [], inits))
    }

    lemma Trip(v: Variant)
      requires WellFormed(v)
      ensures Parse(v, Bytes(v)) == Some(this)
    {
      hide PutUint, GetUint, PutOpaque, GetOpaque, Limit, PutExtensionVec, GetExtensionVec, GetInits, PutInits;
      InitsTrip(inits);
      if v.Janus? {
        var t3 := PutOpaque(PutInits(inits), 4, []);
        var t2 := PutOpaque(batchConfig, 2, t3);
        OpaqueTrip(aggParam, 4, PutUint(batchMode, 1, t2));
        UintTrip(batchMode, 1, t2);
        OpaqueTrip(batchConfig, 2, t3);
        OpaqueTrip(PutInits(inits), 4, []);
      } else {
        var t2 := PutExtensionVec(extensions, PutInits(inits));
        UintTrip(keyID, 1, PutOpaque(aggParam, 4, t2));
        OpaqueTrip(aggParam, 4, t2);
        ExtensionVecTrip(extensions, PutInits(inits));
      }
    }

    static lemma Canon(v: Variant, b: seq<byte>)
      requires Parse(v, b).Some?
      ensures var r := Parse(v, b).value; r.WellFormed(v) && b == r.Bytes(v)
    {
      hide PutUint, GetUint, PutOpaque, GetOpaque, Limit, PutExtensionVec, GetExtensionVec, GetInits, PutInits;
      if v.Janus? {
        OpaqueCanon(4, b);
        var b1 := GetOpaque(4, b).value.1;
        UintCanon(1, b1);
        var b2 := GetUint(1, b1).value.1;
        OpaqueCanon(2, b2);
        var b3 := GetOpaque(2, b2).value.1;
        OpaqueCanon(4, b3);
        InitsCanon(GetOpaque(4, b3).value.0);
      } else {
        UintCanon(1, b);
        var b1 := GetUint(1, b).value.1;
        OpaqueCanon(4, b1);
        var b2 := GetOpaque(4, b1).value.1;
        ExtensionVecCanon(b2);
        InitsCanon(GetExtensionVec(b2).value.1);
      }
    }
  }

  // ---------- the response ----------

  const RESP_CONTINUE: nat := 0
  const RESP_FINISH: nat := 1
  const RESP_REJECT: nat := 2

  /** A payload only when continuing, an error only when rejecting. */
  datatype VerifyResp = VerifyResp(reportID: ReportID, kind: nat, payload: seq<byte>, error: ReportError) {
    predicate WellFormed(v: Variant) {
      && kind <= RESP_REJECT
      && (if kind == RESP_CONTINUE then 0 < |payload| < Limit(4) else payload == [])
      && (if kind == RESP_REJECT then Encodes(v) else error == Reserved)
    }

    /** The variant has a code point for the error. */
    predicate Encodes(v: Variant) { kind == RESP_REJECT ==> ErrorToWire(error, v).Some? }

    /** The payload fits its length prefix. */
    predicate Fits() { kind == RESP_CONTINUE ==> |payload| < Limit(4) }

    function Put(v: Variant, tail: seq<byte>): seq<byte>
      requires Encodes(v)
    {
      reportID + PutUint(kind, 1, PutBody(v, tail))
    }

    function PutBody(v: Variant, tail: seq<byte>): seq<byte>
      requires Encodes(v)
    {
      if kind == RESP_CONTINUE then PutOpaque(payload, 4, tail)
      else if kind == RESP_REJECT then PutUint(ErrorToWire(error, v).value, 1, tail)
      else tail
    }

    static function Get(v: Variant, b: seq<byte>): (r: Parsed<VerifyResp>)
      ensures r.Some? ==> |r.value.1| < |b|
    {
      var (id, b1) :- GetFixed(16, b);
      var (kind, b2) :- GetUint(1, b1);
      if kind == RESP_CONTINUE then
        var (payload, b3) :- GetOpaque(4, b2);
        if |payload| == 0 then None else Some((VerifyResp(id, kind, payload, Reserved), b3))
      else if kind == RESP_FINISH then Some((VerifyResp(id, kind, [], Reserved), b2))
      else if kind == RESP_REJECT then
        var (code, b3) :- GetUint(1, b2);
        var error :- ErrorFromWire(code, v);
        Some((VerifyResp(id, kind, [], error), b3))
      else None
    }

    lemma Trip(v: Variant, tail: seq<byte>)
      requires WellFormed(v)
      ensures Get(v, Put(v, tail)) == Some((this, tail))
    {
      hide PutUint, GetUint, PutOpaque, GetOpaque, Limit, ErrorToWire, ErrorFromWire;
      var b := Put(v, tail);
      assert b[..16] == reportID;
      Limits();
      if kind == RESP_CONTINUE {
        assert b[16..] == PutUint(kind, 1, PutOpaque(payload, 4, tail));
        UintTrip(kind, 1, PutOpaque(payload, 4, tail));
        OpaqueTrip(payload, 4, tail);
      } else if kind == RESP_REJECT {
        var code := ErrorToWire(error, v).value;
        assert b[16..] == PutUint(kind, 1, PutUint(code, 1, tail));
        UintTrip(kind, 1, PutUint(code, 1, tail));
        UintTrip(code, 1, tail);
        RegistryBijective(v, error, code);
      } else {
        assert b[16..] == PutUint(kind, 1, tail);
        UintTrip(kind, 1, tail);
      }
    }

    static lemma Canon(v: Variant, b: seq<byte>)
      requires Get(v, b).Some?
      ensures var (r, tail) := Get(v, b).value; r.WellFormed(v) && b == r.Put(v, tail)
    {
      hide PutUint, GetUint, PutOpaque, GetOpaque, Limit, ErrorToWire, ErrorFromWire;
      assert b == b[..16] + b[16..];
      UintCanon(1, b[16..]);
      var (kind, b2) := GetUint(1, b[16..]).value;
      if kind == RESP_CONTINUE {
        OpaqueCanon(4, b2);
      } else if kind == RESP_REJECT {
        UintCanon(1, b2);
        var code := GetUint(1, b2).value.0;
        RegistryBijective(v, ErrorFromWire(code, v).value, code);
      }
    }
  }

  predicate AllEncode(v: Variant, rs: seq<VerifyResp>) { forall r :: r in rs ==> r.Encodes(v) }

  function PutResps(v: Variant, rs: seq<VerifyResp>): seq<byte>
    requires AllEncode(v, rs)
  {
    if |rs| == 0 then [] else rs[0].Put(v, PutResps(v, rs[1..]))
  }

  function GetResps(v: Variant, b: seq<byte>): Option<seq<VerifyResp>>
    decreases |b|
  {
    if |b| == 0 then Some([]) else
      var (r, b1) :- VerifyResp.Get(v, b);
      var rs :- GetResps(v, b1);
      Some([r] + rs)
  }

  lemma {:induction false} RespsTrip(v: Variant, rs: seq<VerifyResp>)
    requires forall r :: r in rs ==> r.WellFormed(v)
    ensures AllEncode(v, rs) && GetResps(v, PutResps(v, rs)) == Some(rs)
  {
    hide VerifyResp.Get;
    if |rs| > 0 {
      RespsTrip(v, rs[1..]);
      rs[0].Trip(v, PutResps(v, rs[1..]));
      assert [rs[0]] + rs[1..] == rs;
    }
  }

  lemma {:induction false} RespsCanon(v: Variant, b: seq<byte>)
    requires GetResps(v, b).Some?
    ensures var rs := GetResps(v, b).value;
      (forall r :: r in rs ==> r.WellFormed(v)) && AllEncode(v, rs) && b == PutResps(v, rs)
    decreases |b|
  {
    hide VerifyResp.Get;
    if |b| > 0 {
      VerifyResp.Canon(v, b);
      var (r, b1) := VerifyResp.Get(v, b).value;
      RespsCanon(v, b1);
      var rs := GetResps(v, b1).value;
      assert ([r] + rs)[1..] == rs;
    }
  }

  datatype JobResp = JobResp(resps: seq<VerifyResp>) {
    predicate WellFormed(v: Variant) {
      && (forall r :: r in resps ==> r.WellFormed(v))
      && (v.Janus? ==> AllEncode(v, resps) && |PutResps(v, resps)| < Limit(4))
    }

    /** Whether marshalling succeeds at all. */
    predicate Marshals(v: Variant) {
      && AllEncode(v, resps) && (forall r :: r in resps ==> r.Fits())
      && (v.Janus? ==> |PutResps(v, resps)| < Limit(4))
    }

    function Bytes(v: Variant): seq<byte>
      requires AllEncode(v, resps)
    {
      if v.Janus? then PutOpaque(PutResps(v, resps), 4, []) else PutResps(v, resps)
    }

    static function Parse(v: Variant, b: seq<byte>): Option<JobResp> {
      if v.Janus? then
        var (body, tail) :- GetOpaque(4, b);
        var rs :- GetResps(v, body);
        if tail != [] then None else Some(JobResp(rs))
      else
        var rs :- GetResps(v, b);
        Some(JobResp(rs))
    }

    lemma Trip(v: Variant)
      requires WellFormed(v)
      ensures Marshals(v) && Parse(v, Bytes(v)) == Some(this)
    {
      hide PutOpaque, GetOpaque, PutResps, GetResps, Limit;
      RespsTrip(v, resps);
      if v.Janus? { OpaqueTrip(PutResps(v, resps), 4, []); }
    }

    static lemma Canon(v: Variant, b: seq<byte>)
      requires Parse(v, b).Some?
      ensures var r := Parse(v, b).value; r.WellFormed(v) && AllEncode(v, r.resps) && b == r.Bytes(v)
    {
      hide PutOpaque, GetOpaque, PutResps, GetResps, Limit;
      if v.Janus? {
        OpaqueCanon(4, b);
        RespsCanon(v, GetOpaque(4, b).value.0);
      } else {
        RespsCanon(v, b);
      }
    }
  }

  // ---------- ping-pong framing ----------

  const PING_PONG_INITIALIZE: nat := 0
  const PING_PONG_CONTINUE: nat := 1
  const PING_PONG_FINISH: nat := 2

  /** Only continue messages carry both fields. */
  datatype PingPong = PingPong(kind: nat, message: seq<byte>, share: seq<byte>) {
    predicate WellFormed() {
      && kind <= PING_PONG_FINISH && |message| < Limit(4) && |share| < Limit(4)
      && (kind == PING_PONG_INITIALIZE ==> message == []) && (kind == PING_PONG_FINISH ==> share == [])
    }

    /** Whether marshalling succeeds at all: a known kind, and the fields it carries fit their prefixes. */
    predicate Marshals() {
      && kind <= PING_PONG_FINISH && (kind != PING_PONG_INITIALIZE ==> |message| < Limit(4))
      && (kind != PING_PONG_FINISH ==> |share| < Limit(4))
    }

    function Bytes(): seq<byte> {
      PutUint(kind, 1,
        if kind == PING_PONG_INITIALIZE then PutOpaque(share, 4, [])
        else if kind == PING_PONG_CONTINUE then PutOpaque(message, 4, PutOpaque(share, 4, []))
        else PutOpaque(message, 4, []))
    }

    static function Parse(b: seq<byte>): Option<PingPong> {
      var (kind, b1) :- GetUint(1, b);
      if kind > PING_PONG_FINISH then None else
        var (first, b2) :- GetOpaque(4, b1);
        if kind == PING_PONG_CONTINUE then
          var (second, b3) :- GetOpaque(4, b2);
          if b3 != [] then None else Some(PingPong(kind, first, second))
        else if b2 != [] then None
        else Some(if kind == PING_PONG_INITIALIZE then PingPong(kind, [], first) else PingPong(kind, first, []))
    }

    lemma Trip()
      requires WellFormed()
      ensures Parse(Bytes()) == Some(this)
    {
      hide PutUint, GetUint, PutOpaque, GetOpaque, Limit;
      Limits();
      UintTrip(kind, 1,
        if kind == PING_PONG_INITIALIZE then PutOpaque(share, 4, [])
        else if kind == PING_PONG_CONTINUE then PutOpaque(message, 4, PutOpaque(share, 4, []))
        else PutOpaque(message, 4, []));
      OpaqueTrip(message, 4, PutOpaque(share, 4, []));
      OpaqueTrip(message, 4, []);
      OpaqueTrip(share, 4, []);
    }

    static lemma Canon(b: seq<byte>)
      requires Parse(b).Some?
      ensures var m := Parse(b).value; m.WellFormed() && b == m.Bytes()
    {
      hide PutUint, GetUint, PutOpaque, GetOpaque, Limit;
      Limits();
      UintCanon(1, b);
      var (kind, b1) := GetUint(1, b).value;
      OpaqueCanon(4, b1);
      if kind == PING_PONG_CONTINUE { OpaqueCanon(4, GetOpaque(4, b1).value.1); }
    }
  }

  // ---------- the decrypted input share ----------

  datatype PlaintextInputShare = PlaintextInputShare(privateExtensions: seq<Extension>, payload: seq<byte>) {
    predicate WellFormed() { ExtensionsFit(privateExtensions) && 0 < |payload| < Limit(4) }

    function Bytes(): seq<byte> { PutExtensionVec(privateExtensions, PutOpaque(payload, 4, [])) }

    static function Parse(b: seq<byte>): Option<PlaintextInputShare> {
      var (es, b1) :- GetExtensionVec(b);
      var (payload, b2) :- GetOpaque(4, b1);
      if |payload| == 0 || b2 != [] then None else Some(PlaintextInputShare(es, payload))
    }

    lemma Trip()
      requires WellFormed()
      ensures Parse(Bytes()) == Some(this)
    {
      hide PutOpaque, GetOpaque, Limit, PutExtensionVec, GetExtensionVec;
      ExtensionVecTrip(privateExtensions, PutOpaque(payload, 4, []));
      OpaqueTrip(payload, 4, []);
    }

    static lemma Canon(b: seq<byte>)
      requires Parse(b).Some?
      ensures var p := Parse(b).value; p.WellFormed() && b == p.Bytes()
    {
      hide PutOpaque, GetOpaque, Limit, PutExtensionVec, GetExtensionVec;
      ExtensionVecCanon(b);
      OpaqueCanon(4, GetExtensionVec(b).value.1);
    }
  }

  // ---------- task configuration and the input-share AAD ----------

  datatype TaskConfig = TaskConfig(
    taskInfo: seq<byte>, leader: seq<byte>, helper: seq<byte>, timePrecision: nat, minBatchSize: nat,
    batchMode: nat, batchConfig: seq<byte>, vdafType: nat, vdafConfig: seq<byte>, extensions: seq<Extension>)
  {
    /** draft-18 and Janus demand a non-empty task_info; draft-19 and draft-20 do not. */
    predicate InfoFits(v: Variant) { |taskInfo| <= 255 && (|taskInfo| == 0 ==> v.Draft19Values()) }

    predicate WellFormed(v: Variant) {
      && InfoFits(v) && 0 < |leader| < Limit(2) && 0 < |helper| < Limit(2)
      && timePrecision < Limit(8) && minBatchSize < Limit(8) && batchMode < Limit(1) && |batchConfig| < Limit(2)
      && vdafType < Limit(4) && |vdafConfig| < Limit(2) && ExtensionsFit(extensions)
    }

    /** Whether marshalling succeeds at all. */
    predicate Marshals(v: Variant) {
      && InfoFits(v) && |leader| < Limit(2) && |helper| < Limit(2) && |batchConfig| < Limit(2)
      && |vdafConfig| < Limit(2) && ExtensionsMarshal(extensions)
    }

    function PutVdaf(tail: seq<byte>): seq<byte> {
      PutUint(vdafType, 4, PutOpaque(vdafConfig, 2, PutExtensionVec(extensions, tail)))
    }

    function PutLimits(tail: seq<byte>): seq<byte> {
      PutUint(timePrecision, 8, PutUint(minBatchSize, 8, PutUint(batchMode, 1, PutOpaque(batchConfig, 2, tail))))
    }

    function Put(tail: seq<byte>): seq<byte> {
      PutOpaque(taskInfo, 1, PutOpaque(leader, 2, PutOpaque(helper, 2, PutLimits(PutVdaf(tail)))))
    }

    static function GetLimits(b: seq<byte>): (r: Parsed<(nat, nat, nat, seq<byte>)>)
      ensures r.Some? ==> |r.value.1| < |b|
    {
      var (precision, b1) :- GetUint(8, b);
      var (size, b2) :- GetUint(8, b1);
      var (mode, b3) :- GetUint(1, b2);
      var (config, b4) :- GetOpaque(2, b3);
      Some(((precision, size, mode, config), b4))
    }

    static function GetVdaf(b: seq<byte>): (r: Parsed<(nat, seq<byte>, seq<Extension>)>)
      ensures r.Some? ==> |r.value.1| < |b|
    {
      var (kind, b1) :- GetUint(4, b);
      var (config, b2) :- GetOpaque(2, b1);
      var (es, b3) :- GetExtensionVec(b2);
      Some(((kind, config, es), b3))
    }

    static function Get(v: Variant, b: seq<byte>): (r: Parsed<TaskConfig>)
      ensures r.Some? ==> |r.value.1| < |b|
    {
      var (info, b1) :- GetOpaque(1, b);
      if |info| == 0 && !v.Draft19Values() then None else
        var (leader, b2) :- GetOpaque(2, b1);
        var (helper, b3) :- GetOpaque(2, b2);
        if |leader| == 0 || |helper| == 0 then None else
          var (l, b4) :- GetLimits(b3);
          var (f, b5) :- GetVdaf(b4);
          Some((TaskConfig(info, leader, helper, l.0, l.1, l.2, l.3, f.0, f.1, f.2), b5))
    }

    lemma Trip(v: Variant, tail: seq<byte>)
      requires WellFormed(v)
      ensures Get(v, Put(tail)) == Some((this, tail))
    {
      hide PutUint, GetUint, PutOpaque, GetOpaque, Limit, PutExtensionVec, GetExtensionVec;
      Limits();
      var t := PutVdaf(tail);
      OpaqueTrip(taskInfo, 1, PutOpaque(leader, 2, PutOpaque(helper, 2, PutLimits(t))));
      OpaqueTrip(leader, 2, PutOpaque(helper, 2, PutLimits(t)));
      OpaqueTrip(helper, 2, PutLimits(t));
      var t3 := PutOpaque(batchConfig, 2, t);
      UintTrip(timePrecision, 8, PutUint(minBatchSize, 8, PutUint(batchMode, 1, t3)));
      UintTrip(minBatchSize, 8, PutUint(batchMode, 1, t3));
      UintTrip(batchMode, 1, t3);
      OpaqueTrip(batchConfig, 2, t);
      UintTrip(vdafType, 4, PutOpaque(vdafConfig, 2, PutExtensionVec(extensions, tail)));
      OpaqueTrip(vdafConfig, 2, PutExtensionVec(extensions, tail));
      ExtensionVecTrip(extensions, tail);
    }

    static lemma Canon(v: Variant, b: seq<byte>)
      requires Get(v, b).Some?
      ensures var (t, tail) := Get(v, b).value; t.WellFormed(v) && b == t.Put(tail)
    {
      hide PutUint, GetUint, PutOpaque, GetOpaque, Limit, PutExtensionVec, GetExtensionVec;
      Limits();
      OpaqueCanon(1, b);
      var b1 := GetOpaque(1, b).value.1;
      OpaqueCanon(2, b1);
      var b2 := GetOpaque(2, b1).value.1;
      OpaqueCanon(2, b2);
      var b3 := GetOpaque(2, b2).value.1;
      UintCanon(8, b3);
      var b4 := GetUint(8, b3).value.1;
      UintCanon(8, b4);
      var b5 := GetUint(8, b4).value.1;
      UintCanon(1, b5);
      var b6 := GetUint(1, b5).value.1;
      OpaqueCanon(2, b6);
      var b7 := GetOpaque(2, b6).value.1;
      UintCanon(4, b7);
      var b8 := GetUint(4, b7).value.1;
      OpaqueCanon(2, b8);
      ExtensionVecCanon(GetOpaque(2, b8).value.1);
    }
  }

  /** The associated data an input share is sealed under; Janus leaves the task configuration out. */
  datatype InputShareAad = InputShareAad(taskID: TaskID, config: TaskConfig, metadata: ReportMetadata,
    publicShare: seq<byte>) {
    /** Whether marshalling succeeds at all: the variant permits the task_info and every length fits its prefix. */
    predicate Marshals(v: Variant) {
      (v.Janus? || config.Marshals(v)) && metadata.Marshals() && |publicShare| < Limit(4)
    }

    predicate WellFormed(v: Variant) {
      (v.Janus? || config.WellFormed(v)) && metadata.WellFormed() && |publicShare| < Limit(4)
    }

    function Bytes(v: Variant): seq<byte> {
      var rest := metadata.Put(PutOpaque(publicShare, 4, []));
      taskID + if v.Janus? then rest else config.Put(rest)
    }

    /** Janus carries no task configuration; the receiver's is left blank. */
    static const NO_CONFIG: TaskConfig := TaskConfig([], [], [], 0, 0, 0, [], 0, [], [])

    static function Parse(v: Variant, b: seq<byte>): Option<InputShareAad> {
      var (id, b1) :- GetFixed(32, b);
      var (config, b2) :- if v.Janus? then Some((NO_CONFIG, b1)) else TaskConfig.Get(v, b1);
      var (m, b3) :- ReportMetadata.Get(b2);
      var (pub, b4) :- GetOpaque(4, b3);
      if b4 != [] then None else Some(InputShareAad(id, config, m, pub))
    }

    lemma Trip(v: Variant)
      requires WellFormed(v) && (v.Janus? ==> config == NO_CONFIG)
      ensures Parse(v, Bytes(v)) == Some(this)
    {
      hide PutOpaque, GetOpaque, Limit, TaskConfig.Get, ReportMetadata.Get;
      var p := PutOpaque(publicShare, 4, []);
      var m := metadata.Put(p);
      assert Bytes(v)[..32] == taskID && Bytes(v)[32..] == if v.Janus? then m else config.Put(m);
      if !v.Janus? { config.Trip(v, m); }
      metadata.Trip(p);
      OpaqueTrip(publicShare, 4, []);
    }

    static lemma Canon(v: Variant, b: seq<byte>)
      requires Parse(v, b).Some?
      ensures var r := Parse(v, b).value; r.WellFormed(v) && b == r.Bytes(v)
    {
      hide PutOpaque, GetOpaque, Limit, TaskConfig.Get, ReportMetadata.Get;
      assert b == b[..32] + b[32..];
      var b2 := b[32..];
      if !v.Janus? {
        TaskConfig.Canon(v, b2);
        b2 := TaskConfig.Get(v, b2).value.1;
      }
      ReportMetadata.Canon(b2);
      OpaqueCanon(4, ReportMetadata.Get(b2).value.1);
    }

    /** Within one variant, the associated data determines every field it binds. */
    static lemma Injective(v: Variant, x: InputShareAad, y: InputShareAad)
      requires x.WellFormed(v) && y.WellFormed(v) && x.Bytes(v) == y.Bytes(v)
      ensures x.taskID == y.taskID && x.metadata == y.metadata && x.publicShare == y.publicShare
      ensures !v.Janus? ==> x.config == y.config
    {
      hide PutOpaque, GetOpaque, Limit, TaskConfig.Get, ReportMetadata.Get;
      var px, py := PutOpaque(x.publicShare, 4, []), PutOpaque(y.publicShare, 4, []);
      var mx, my := x.metadata.Put(px), y.metadata.Put(py);
      assert x.Bytes(v)[..32] == x.taskID && y.Bytes(v)[..32] == y.taskID;
      if v.Janus? {
        assert x.Bytes(v)[32..] == mx && y.Bytes(v)[32..] == my;
      } else {
        assert x.Bytes(v)[32..] == x.config.Put(mx) && y.Bytes(v)[32..] == y.config.Put(my);
        x.config.Trip(v, mx);
        y.config.Trip(v, my);
      }
      x.metadata.Trip(px);
      y.metadata.Trip(py);
      OpaqueTrip(x.publicShare, 4, []);
      OpaqueTrip(y.publicShare, 4, []);
    }
  }
}
