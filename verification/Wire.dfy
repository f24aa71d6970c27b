/** The DAP wire format in the presentation language of RFC 8446, section 3: what each message encodes to,
    and the one way a byte string decodes. */
module Wire {
  import opened Bytes

  datatype Option<+T> = None | Some(value: T) {
    predicate IsFailure() { None? }
    function PropagateFailure<U>(): Option<U>
      requires None?
    {
      None
    }
    function Extract(): T
      requires Some?
    {
      value
    }
  }

  type Parsed<T> = Option<(T, seq<byte>)>

  // ---------- primitives: Put* prepend an encoding to a tail, Get* split one off ----------

  function PutUint(x: nat, k: nat, tail: seq<byte>): seq<byte> { ToBE(x, k) + tail }

  function GetUint(k: nat, b: seq<byte>): (r: Parsed<nat>)
    ensures r.Some? ==> r.value.0 < Limit(k) && |r.value.1| + k == |b|
  {
    if |b| < k then None else Some((FromBE(b[..k]), b[k..]))
  }

  function PutOpaque(s: seq<byte>, k: nat, tail: seq<byte>): seq<byte> { PutUint(|s|, k, s + tail) }

  function GetOpaque(k: nat, b: seq<byte>): (r: Parsed<seq<byte>>)
    ensures r.Some? ==> |r.value.1| + |r.value.0| + k == |b|
  {
    var (n, rest) :- GetUint(k, b);
    if |rest| < n then None else Some((rest[..n], rest[n..]))
  }

  function GetFixed(n: nat, b: seq<byte>): (r: Parsed<seq<byte>>)
    ensures r.Some? ==> |r.value.0| == n && |r.value.1| + n == |b|
  {
    if |b| < n then None else Some((b[..n], b[n..]))
  }

  lemma UintTrip(x: nat, k: nat, tail: seq<byte>)
    requires x < Limit(k)
    ensures GetUint(k, PutUint(x, k, tail)) == Some((x, tail))
  {
    hide ToBE, FromBE, Limit;
    var b := PutUint(x, k, tail);
    assert b[..k] == ToBE(x, k) && b[k..] == tail;
    BERoundTrip(x, k);
  }

  lemma UintCanon(k: nat, b: seq<byte>)
    requires GetUint(k, b).Some?
    ensures var (x, tail) := GetUint(k, b).value; b == PutUint(x, k, tail)
  {
    hide ToBE, FromBE, Limit;
    BECanonical(b[..k]);
  }

  lemma OpaqueTrip(s: seq<byte>, k: nat, tail: seq<byte>)
    requires |s| < Limit(k)
    ensures GetOpaque(k, PutOpaque(s, k, tail)) == Some((s, tail))
  {
    hide PutUint, GetUint, Limit;
    UintTrip(|s|, k, s + tail);
  }

  lemma OpaqueCanon(k: nat, b: seq<byte>)
    requires GetOpaque(k, b).Some?
    ensures var (s, tail) := GetOpaque(k, b).value; |s| < Limit(k) && b == PutOpaque(s, k, tail)
  {
    hide PutUint, GetUint, Limit;
    UintCanon(k, b);
    var (n, rest) := GetUint(k, b).value;
    assert rest == rest[..n] + rest[n..];
  }

  // ---------- variants and registries ----------

  datatype Variant = Draft18 | Janus | Draft19 | Draft20 {
    /** Whether the version-bound values introduced by draft-19 apply. */
    predicate Draft19Values() { Draft19? || Draft20? }
  }

  datatype ReportError =
    | Reserved | BatchCollected | ReportReplayed | ReportDropped | HpkeUnknownConfigID | HpkeDecryptError
    | VdafVerifyError | TaskExpired | InvalidMessage | ReportTooEarly | TaskNotStarted | OutdatedConfig
    | UnknownVerificationKeyID | UnsupportedExtension

  function Registry18(e: ReportError): Option<nat> {
    match e
    case Reserved => Some(0)
    case BatchCollected => Some(1)
    case ReportReplayed => Some(2)
    case ReportDropped => Some(3)
    case HpkeUnknownConfigID => Some(4)
    case HpkeDecryptError => Some(5)
    case VdafVerifyError => Some(6)
    case TaskExpired => Some(7)
    case InvalidMessage => Some(8)
    case ReportTooEarly => Some(9)
    case TaskNotStarted => Some(10)
    case OutdatedConfig => Some(11)
    case _ => None
  }

  function Registry19(e: ReportError): Option<nat> {
    match e
    case Reserved => Some(0)
    case BatchCollected => Some(1)
    case ReportReplayed => Some(2)
    case ReportDropped => Some(3)
    case HpkeUnknownConfigID => Some(4)
    case HpkeDecryptError => Some(5)
    case VdafVerifyError => Some(6)
    case InvalidMessage => Some(7)
    case ReportTooEarly => Some(8)
    case UnknownVerificationKeyID => Some(9)
    case UnsupportedExtension => Some(10)
    case _ => None
  }

  /** The code point of e in the variant's registry, if it has one. */
  function ErrorToWire(e: ReportError, v: Variant): (b: Option<nat>)
    ensures b.Some? ==> b.value < 12
  {
    if v.Draft19Values() then Registry19(e) else Registry18(e)
  }

  const ALL_ERRORS: seq<ReportError> :=
    [Reserved, BatchCollected, ReportReplayed, ReportDropped, HpkeUnknownConfigID, HpkeDecryptError, VdafVerifyError,
     TaskExpired, InvalidMessage, ReportTooEarly, TaskNotStarted, OutdatedConfig, UnknownVerificationKeyID,
     UnsupportedExtension]

  /** Searches the variant's registry for the error with code point b. */
  function ErrorFromWire(b: nat, v: Variant): Option<ReportError> { Search(b, v, |ALL_ERRORS|) }

  function Search(b: nat, v: Variant, k: nat): Option<ReportError>
    requires k <= |ALL_ERRORS|
  {
    if k == 0 then None
    else if ErrorToWire(ALL_ERRORS[k - 1], v) == Some(b) then Some(ALL_ERRORS[k - 1])
    else Search(b, v, k - 1)
  }

  lemma {:induction false} SearchFinds(b: nat, v: Variant, k: nat)
    requires k <= |ALL_ERRORS|
    ensures Search(b, v, k).Some? ==> ErrorToWire(Search(b, v, k).value, v) == Some(b)
    ensures Search(b, v, k).None? ==> forall i :: 0 <= i < k ==> ErrorToWire(ALL_ERRORS[i], v) != Some(b)
  {
    hide ErrorToWire, ALL_ERRORS;
    if k > 0 { SearchFinds(b, v, k - 1); }
  }

  lemma Listed(e: ReportError) returns (i: nat)
    ensures i < |ALL_ERRORS| && ALL_ERRORS[i] == e
  {
    match e
    case Reserved => i := 0;
    case BatchCollected => i := 1;
    case ReportReplayed => i := 2;
    case ReportDropped => i := 3;
    case HpkeUnknownConfigID => i := 4;
    case HpkeDecryptError => i := 5;
    case VdafVerifyError => i := 6;
    case TaskExpired => i := 7;
    case InvalidMessage => i := 8;
    case ReportTooEarly => i := 9;
    case TaskNotStarted => i := 10;
    case OutdatedConfig => i := 11;
    case UnknownVerificationKeyID => i := 12;
    case UnsupportedExtension => i := 13;
  }

  lemma CodesDistinct(e: ReportError, f: ReportError, v: Variant)
    requires ErrorToWire(e, v).Some? && ErrorToWire(e, v) == ErrorToWire(f, v)
    ensures e == f
  {}

  /** In every variant, decoding a code point inverts encoding an error, both ways. */
  lemma RegistryBijective(v: Variant, e: ReportError, b: nat)
    ensures ErrorToWire(e, v) == Some(b) <==> ErrorFromWire(b, v) == Some(e)
  {
    hide ErrorToWire, ALL_ERRORS;
    SearchFinds(b, v, |ALL_ERRORS|);
    var i := Listed(e);
    if ErrorToWire(e, v) == Some(b) { CodesDistinct(e, ErrorFromWire(b, v).value, v); }
  }
}
