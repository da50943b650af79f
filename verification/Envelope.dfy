/**
  The response envelope: what the server's `RpcResponse.Encode` puts on the wire and
  what the client's `parseResponse` makes of it. This is where a response frame turns
  into the id and the outcome that `Transport` passes around.
 */
module Envelope {
  import opened Bytes
  import opened Cbor
  import opened CborDecode
  import opened CborRoundTrip
  import opened KeyOrder
  import opened Records
  import opened Errors
  import opened Retry
  import opened Transport
  import Utf8

  const TAG_ENCODED_CBOR: u64 := 24
  const SERVICE_ERROR := "ServiceError"

  /** Octets as a Go string. */
  function AsString(b: bytes): (s: string)
    ensures |s| == |b| && forall i :: 0 <= i < |b| ==> s[i] as int == b[i]
  {
    seq(|b|, i requires 0 <= i < |b| => b[i] as char)
  }

  // ----- The client -----

  datatype ServiceError = ServiceError(code: u64, message: bytes)

  function AsU64(v: Value): Option<u64> {
    match v
    case Uint(n) => Some(n)
    case Int(x) => if x < 0 then None else Some(x)
    case _ => None
  }

  function DecServiceError(v: Value): Option<ServiceError> {
    var codeV :- MapGet(v, Ascii("code"));
    var code :- AsU64(codeV);
    var messageV :- MapGet(v, Ascii("message"));
    var message :- AsText(messageV);
    Some(ServiceError(code, message))
  }

  /** `int64(code)`. */
  function Signed(code: u64): i64 { if code > MAX_INT64 then code - 0x1_0000_0000_0000_0000 else code }

  /** A code keeps its 64 bits: only the upper half of the range turns negative. */
  lemma SignedKeepsBits(code: u64)
    ensures (Signed(code) - code) % 0x1_0000_0000_0000_0000 == 0
    ensures code < 0x8000_0000_0000_0000 ==> Signed(code) == code
  {
  }

  /** The ServiceError arm of a reply. */
  ghost function ServiceArm(widen: Widen, data: bytes): Outcome {
    var v := Decode(widen, data);
    var se := if v.Some? then DecServiceError(v.value) else None;
    if se.Some? then Failed(Client(Signed(se.value.code), AsString(se.value.message), None))
    else Failed(Client(0, "", Some(Plain("undecodable ServiceError payload"))))
  }

  function ParsedId(v: Value): nat {
    var f := MapGet(v, Ascii("id"));
    var i := if f.Some? then AsI64(f.value) else None;
    if i.Some? && i.value >= 0 then i.value else 0
  }

  function ParsedStatus(v: Value): i64 {
    var f := MapGet(v, Ascii("status"));
    var i := if f.Some? then AsI64(f.value) else None;
    if i.Some? then i.value else 0
  }

  /** A text field, or "". */
  function ParsedText(v: Value, key: bytes): bytes {
    var f := MapGet(v, key);
    if f.Some? && f.value.Text? then f.value.text else []
  }

  ghost function ParsedPayload(widen: Widen, v: Value): Outcome {
    var f := MapGet(v, Ascii("payload"));
    if f.None? then Reply([])
    else
      var p := if f.value.Tag? then f.value.inner else f.value;
      if !p.Bytes? then Failed(Client(0, "", Some(Context("response payload is not a tag-24 byte string", Plain("")))))
      else if ParsedText(v, Ascii("variant")) == Ascii(SERVICE_ERROR) then ServiceArm(widen, p.data)
      else Reply(p.data)
  }

  /** `parseResponse`. The wording of decode errors is not modelled. */
  ghost function ParseResponse(widen: Widen, frame: bytes): (nat, Outcome) {
    var d := Decode(widen, frame);
    if d.None? then (0, Failed(Client(0, "", Some(Context("decode response envelope", Plain(""))))))
    else
      var v := d.value;
      var status := ParsedStatus(v);
      (ParsedId(v),
       if status != 0 then Failed(Client(0, "", Some(Status(status, AsString(ParsedText(v, Ascii("error")))))))
       else ParsedPayload(widen, v))
  }

  /** Whatever bytes arrive, the client makes one of the outcomes of `FromServer` of them. */
  lemma ParsedIsClassified(widen: Widen, frame: bytes)
    ensures FromServer(ParseResponse(widen, frame).1)
  {
    hide Decode, MapGet, Ascii, ParsedText, DecServiceError;
    var d := Decode(widen, frame);
    if d.Some? && ParsedStatus(d.value) != 0 {
      assert ParseResponse(widen, frame).1.err ==
             Client(0, "", Some(Status(ParsedStatus(d.value), AsString(ParsedText(d.value, Ascii("error"))))));
    }
  }

  // ----- The server -----

  datatype Response = Response(
    id: Option<u64>, status: i64, variant: Option<bytes>, error: Option<bytes>, payload: bytes)

  /** The envelope's fields in the order that sorting by encoded key puts them. */
  function ResponseFields(r: Response): seq<Field> {
    [Field(Ascii("v"), Some(Uint(1))),
     Field(Ascii("id"), if r.id.Some? then Some(Uint(r.id.value)) else None),
     Field(Ascii("error"), OptText(r.error)),
     Field(Ascii("status"), Some(Int(r.status))),
     Field(Ascii("payload"), Some(Tag(TAG_ENCODED_CBOR, Bytes(r.payload)))),
     Field(Ascii("variant"), OptText(r.variant))]
  }

  ghost function EncodeResponse(r: Response): bytes
    requires ResponseFits(r)
  {
    Fitting(r);
    Encode(Map(Present(ResponseFields(r))))
  }

  predicate ResponseFits(r: Response) {
    && |r.payload| <= MAX_INT64
    && (r.variant.Some? ==> |r.variant.value| <= MAX_INT64)
    && (r.error.Some? ==> |r.error.value| <= MAX_INT64)
  }

  ghost predicate ResponseIsUtf8(r: Response) {
    (r.variant.Some? ==> Utf8.WellFormed(r.variant.value)) && (r.error.Some? ==> Utf8.WellFormed(r.error.value))
  }

  lemma SoundDeeper(f: Field)
    requires Sound(f, 0)
    ensures Sound(f, 1)
  {
  }

  lemma UintField(name: string, n: u64)
    requires IsAscii(name)
    ensures var f := Field(Ascii(name), Some(Uint(n))); Sound(f, 0) && Readable(f)
  {
    AsciiKey(name);
  }

  lemma PayloadField(b: bytes)
    requires |b| <= MAX_INT64
    ensures var f := Field(Ascii("payload"), Some(Tag(TAG_ENCODED_CBOR, Bytes(b)))); Sound(f, 1) && Readable(f)
  {
    AsciiKey("payload");
    assert Depth(Bytes(b)) == 0;
  }

  lemma ResponseSound(r: Response)
    requires ResponseFits(r)
    ensures forall f :: f in ResponseFields(r) ==> Sound(f, 1)
    ensures (forall f :: f in ResponseFields(r) ==> Readable(f)) <==> ResponseIsUtf8(r)
  {
    hide Utf8.WellFormed, Sound, Readable, Ascii;
    var fs := ResponseFields(r);
    UintField("v", 1);
    if r.id.Some? {
      UintField("id", r.id.value);
    } else {
      AbsentField("id");
    }
    OptTextField("error", r.error);
    IntField("status", r.status);
    PayloadField(r.payload);
    OptTextField("variant", r.variant);
    SoundDeeper(fs[0]);
    SoundDeeper(fs[1]);
    SoundDeeper(fs[2]);
    SoundDeeper(fs[3]);
    SoundDeeper(fs[5]);
    assert fs[2] in fs && fs[5] in fs;
  }

  lemma Fitting(r: Response)
    requires ResponseFits(r)
    ensures Fits(Map(Present(ResponseFields(r))))
  {
    hide Fits, Sound, Present, ResponseFields, Readable;
    ResponseSound(r);
    ResponseShape(r);
    RecordTravels(x => 0, ResponseFields(r), 1);
  }

  lemma ResponseShape(r: Response)
    ensures |ResponseFields(r)| == 6
  {
  }

  lemma ResponseChain(r: Response)
    ensures Chain(ResponseFields(r))
  {
    var fs := ResponseFields(r);
    assert KeyLess(Ascii("payload"), Ascii("variant"));
    assert Chain(fs[4..]);
    assert Chain(fs[3..]);
    assert Chain(fs[2..]);
    assert Chain(fs[1..]);
    assert fs[0..] == fs;
  }

  /** What the client is to make of `r`. */
  ghost function Meaning(widen: Widen, r: Response): (nat, Outcome) {
    (if r.id.Some? && r.id.value <= MAX_INT64 then r.id.value else 0,
     if r.status != 0 then
       Failed(Client(0, "", Some(Status(r.status, AsString(if r.error.Some? then r.error.value else [])))))
     else if r.variant == Some(Ascii(SERVICE_ERROR)) then ServiceArm(widen, r.payload)
     else Reply(r.payload))
  }

  /** The envelope as the client's decoder delivers it. */
  function Arrived(r: Response): Value { Map(NormEntries(Present(ResponseFields(r)))) }

  lemma NumbersArrive(r: Response)
    ensures ParsedId(Arrived(r)) == if r.id.Some? && r.id.value <= MAX_INT64 then r.id.value else 0
    ensures ParsedStatus(Arrived(r)) == r.status
  {
    hide NormEntries, Present, Lookup, Chain, Ascii;
    ResponseChain(r);
    var fs := ResponseFields(r);
    LookupPresent(fs, 1);
    LookupInt(fs, 3);
  }

  lemma TextsArrive(r: Response)
    ensures ParsedText(Arrived(r), Ascii("error")) == if r.error.Some? then r.error.value else []
    ensures ParsedText(Arrived(r), Ascii("variant")) == if r.variant.Some? then r.variant.value else []
  {
    hide NormEntries, Present, Lookup, Chain, Ascii;
    ResponseChain(r);
    var fs := ResponseFields(r);
    LookupPresent(fs, 2);
    LookupPresent(fs, 5);
  }

  lemma PayloadArrives(widen: Widen, r: Response)
    ensures ParsedPayload(widen, Arrived(r)) ==
            if r.variant == Some(Ascii(SERVICE_ERROR)) then ServiceArm(widen, r.payload) else Reply(r.payload)
  {
    hide NormEntries, Present, Lookup, Chain, ServiceArm, ParsedText;
    TextsArrive(r);
    ResponseChain(r);
    var fs := ResponseFields(r);
    LookupPresent(fs, 4);
    var tagged := Tag(TAG_ENCODED_CBOR, Bytes(r.payload));
    assert Norm(Bytes(r.payload)) == Bytes(r.payload);
    assert Norm(tagged) == tagged;
    assert |Ascii(SERVICE_ERROR)| > 0;
  }

  /**
    The client reads back exactly what the server wrote, under the id the server echoed,
    when the envelope's text is UTF-8 and the id is below 2^63. Text that is not UTF-8
    costs the whole envelope: the answer arrives under id 0, which no call waits for.
   */
  lemma ResponseReadsBack(widen: Widen, r: Response)
    requires ResponseFits(r)
    ensures var p := ParseResponse(widen, EncodeResponse(r));
            if ResponseIsUtf8(r) then p == Meaning(widen, r) else p.0 == 0 && p.1.Failed?
  {
    hide Decode, Encode, NormEntries, Present, Sound, Readable, ResponseFields, Fits, ParsedPayload, ParsedId,
         ParsedStatus, ParsedText, ServiceArm, ResponseIsUtf8, AsString;
    ResponseSound(r);
    ResponseShape(r);
    RecordTravels(widen, ResponseFields(r), 1);
    if ResponseIsUtf8(r) {
      NumbersArrive(r);
      TextsArrive(r);
      PayloadArrives(widen, r);
    }
  }

  /** One octet that is not UTF-8 in an error text, and the status never reaches the call that has the id. */
  lemma BadTextLosesTheAnswer(widen: Widen, id: u64, status: i64)
    requires id != 0
    ensures var r := Response(Some(id), status, None, Some([0xff]), []);
            && ResponseFits(r)
            && ParseResponse(widen, EncodeResponse(r)).0 != id
            && ParseResponse(widen, EncodeResponse(r)).0 == 0
  {
    hide ParseResponse, EncodeResponse;
    var r := Response(Some(id), status, None, Some([0xff]), []);
    Utf8.NoUnit([0xff]);
    ResponseReadsBack(widen, r);
  }

  // ----- Any other envelope -----

  /** An envelope whose fields hold whatever they hold, or are missing. */
  datatype Loose = Loose(
    id: Option<Value>, error: Option<Value>, status: Option<Value>, payload: Option<Value>, variant: Option<Value>)

  function LooseFields(e: Loose): seq<Field> {
    [Field(Ascii("id"), e.id), Field(Ascii("error"), e.error), Field(Ascii("status"), e.status),
     Field(Ascii("payload"), e.payload), Field(Ascii("variant"), e.variant)]
  }

  ghost predicate Acceptable(o: Option<Value>) {
    o.Some? ==> Fits(o.value) && Depth(o.value) <= 62 && TextsValid(o.value)
  }

  ghost predicate LooseIsAcceptable(e: Loose) {
    Acceptable(e.id) && Acceptable(e.error) && Acceptable(e.status) && Acceptable(e.payload) && Acceptable(e.variant)
  }

  /** A number that fits 63 bits, or the default. */
  function NumberOr(o: Option<Value>, default: i64): i64 {
    if o.Some? && o.value.Int? then o.value.i
    else if o.Some? && o.value.Uint? && o.value.u < 0x8000_0000_0000_0000 then o.value.u
    else default
  }

  function TextOr(o: Option<Value>): bytes { if o.Some? && o.value.Text? then o.value.text else [] }

  /** The byte string in a payload field, under any tag or none. */
  function DataOf(o: Value): Option<bytes> {
    var v := if o.Tag? then o.inner else o;
    if v.Bytes? then Some(v.data) else None
  }

  ghost function LoosePayload(widen: Widen, e: Loose): Outcome {
    if e.payload.None? then Reply([])
    else if DataOf(e.payload.value).None? then
      Failed(Client(0, "", Some(Context("response payload is not a tag-24 byte string", Plain("")))))
    else if TextOr(e.variant) == Ascii("ServiceError") then ServiceArm(widen, DataOf(e.payload.value).value)
    else Reply(DataOf(e.payload.value).value)
  }

  /**
    What the client makes of an envelope from anywhere. A missing, negative or oversized
    id is 0; a status that is no number is 0; no payload is an empty reply; a payload
    needs to be a byte string but not to be tagged.
   */
  lemma LooseReadsBack(widen: Widen, e: Loose)
    requires LooseIsAcceptable(e)
    ensures Fits(Map(Present(LooseFields(e))))
    ensures var p := ParseResponse(widen, Encode(Map(Present(LooseFields(e)))));
            var id, status := NumberOr(e.id, 0), NumberOr(e.status, 0);
            && p.0 == (if id >= 0 then id else 0)
            && p.1 == if status != 0 then Failed(Client(0, "", Some(Status(status, AsString(TextOr(e.error))))))
                      else LoosePayload(widen, e)
  {
    hide Decode, Encode, NormEntries, Present, Sound, Readable, LooseFields, Fits, ParsedPayload, ParsedId,
         ParsedStatus, ParsedText, LoosePayload, AsString;
    LooseSound(e);
    RecordTravels(widen, LooseFields(e), 62);
    LooseNumbers(e);
    LooseTexts(e);
    LoosePayloadArrives(widen, e);
  }

  lemma LooseSound(e: Loose)
    requires LooseIsAcceptable(e)
    ensures |LooseFields(e)| == 5 && forall f :: f in LooseFields(e) ==> Sound(f, 62) && Readable(f)
  {
    hide Ascii, Utf8.WellFormed, Fits, Depth, TextsValid;
    AsciiKey("id");
    AsciiKey("error");
    AsciiKey("status");
    AsciiKey("payload");
    AsciiKey("variant");
  }

  lemma LooseChain(e: Loose)
    ensures Chain(LooseFields(e))
  {
    var fs := LooseFields(e);
    assert KeyLess(Ascii("payload"), Ascii("variant"));
    assert Chain(fs[3..]);
    assert Chain(fs[2..]);
    assert Chain(fs[1..]);
    assert fs[0..] == fs;
  }

  lemma LooseNumbers(e: Loose)
    ensures var v := Map(NormEntries(Present(LooseFields(e))));
            && ParsedId(v) == (if NumberOr(e.id, 0) >= 0 then NumberOr(e.id, 0) else 0)
            && ParsedStatus(v) == NumberOr(e.status, 0)
  {
    hide NormEntries, Present, Lookup, Chain, Ascii;
    LooseChain(e);
    LookupPresent(LooseFields(e), 0);
    LookupPresent(LooseFields(e), 2);
  }

  lemma LooseTexts(e: Loose)
    ensures var v := Map(NormEntries(Present(LooseFields(e))));
            && ParsedText(v, Ascii("error")) == TextOr(e.error)
            && ParsedText(v, Ascii("variant")) == TextOr(e.variant)
  {
    hide NormEntries, Present, Lookup, Chain, Ascii;
    LooseChain(e);
    LookupPresent(LooseFields(e), 1);
    LookupPresent(LooseFields(e), 4);
  }

  lemma LoosePayloadArrives(widen: Widen, e: Loose)
    ensures ParsedPayload(widen, Map(NormEntries(Present(LooseFields(e))))) == LoosePayload(widen, e)
  {
    hide NormEntries, Present, Lookup, Chain, Ascii, ServiceArm, ParsedText;
    LooseTexts(e);
    LooseChain(e);
    LookupPresent(LooseFields(e), 3);
    if e.payload.Some? {
      NormKeepsData(e.payload.value);
    }
  }

  lemma NormKeepsData(v: Value)
    ensures DataOf(Norm(v)) == DataOf(v)
  {
    if v.Tag? {
      assert Norm(v) == Tag(v.num, Norm(v.inner));
    }
  }

  // ----- The ServiceError arm -----

  function ServiceErrorFields(e: ServiceError): seq<Field> {
    [Field(Ascii("code"), Some(Uint(e.code))), Field(Ascii("message"), Some(Text(e.message)))]
  }

  function EncServiceError(e: ServiceError): Value { Map(Present(ServiceErrorFields(e))) }

  /** A service error crosses the wire whole, as a final error, exactly when its message is UTF-8. */
  lemma ServiceErrorReadsBack(widen: Widen, e: ServiceError)
    requires |e.message| <= MAX_INT64
    ensures Fits(EncServiceError(e)) && Deterministic(EncServiceError(e).entries)
    ensures ServiceArm(widen, Encode(EncServiceError(e))) ==
            if Utf8.WellFormed(e.message) then Failed(Client(Signed(e.code), AsString(e.message), None))
            else Failed(Client(0, "", Some(Plain("undecodable ServiceError payload"))))
  {
    hide Decode, Encode, NormEntries, Present, Sound, Readable, Fits, AsString, Utf8.WellFormed, Lookup, Ascii, Chain,
         Deterministic, FitsEntries;
    var fs := ServiceErrorFields(e);
    UintField("code", e.code);
    TextField("message", e.message);
    assert fs[1] in fs;
    RecordTravels(widen, fs, 0);
    ServiceErrorChain(e);
    PresentIsDeterministic(fs);
    LookupPresent(fs, 0);
    LookupText(fs, 1);
  }

  lemma ServiceErrorChain(e: ServiceError)
    ensures Chain(ServiceErrorFields(e))
  {
    var fs := ServiceErrorFields(e);
    assert Chain(fs[1..]);
  }
}
