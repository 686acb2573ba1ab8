/**
  The canonical fence envelope: one object per key holding the owner fields, the logical version
  and the logical body. The JSON text of the header is an abstract encoding; the framing around it,
  the header schema and the legacy rule are spelled out.
*/
module Envelopes {
  import opened Types
  import opened Framing

  // "KFE1"
  const MAGIC: Bytes := [0x4B, 0x46, 0x45, 0x31]
  const SCHEMA_VERSION: int := 1

  datatype Json =
    | Null
    | Bool(b: bool)
    | Int(i: int)
    | Float(f: int)  // a clock reading; only the type is told apart from Int
    | Text(s: string)
    | Compound

  datatype Document = NotAnObject | Object(fields: map<string, Json>)

  datatype Header = Header(
    owner: Option<Token>,
    expiry: Time,
    fence: nat,
    accepted: nat,
    version: Option<Version<Bytes>>)  // None: locked, never written

  /** How headers become text, and versions become 64 hex digits. */
  datatype Codec = Codec(render: Header -> Bytes, parse: Bytes -> Option<Document>, hex: Version<Bytes> -> string)
  {
    function Fields(h: Header): map<string, Json> {
      map[
        "schema_version" := Int(SCHEMA_VERSION),
        "owner_token" := if h.owner.Some? then Text(h.owner.value) else Null,
        "owner_expiry" := Float(h.expiry),
        "owner_fence" := Int(h.fence),
        "last_accepted_fence" := Int(h.accepted),
        "version_hash" := if h.version.Some? then Text(hex(h.version.value)) else Null
      ]
    }

    ghost predicate Lawful() {
      && (forall h :: parse(render(h)) == Some(Object(Fields(h))))
      && (forall v, w :: hex(v) == hex(w) ==> v == w)
      && (forall v :: hex(v) != "")
    }

    /** `struct.pack(">I", ...)` raises on anything longer. */
    predicate Fits(h: Header) {
      |render(h)| < 0x1_0000_0000
    }

    function Encode(h: Header, body: Bytes): Bytes {
      MAGIC + BigEndian(|render(h)|, 4) + render(h) + body
    }

    /** `_decode_envelope`; None stands for its ValueError. */
    function Decode(raw: Bytes): Option<(Document, Bytes)> {
      if |raw| < 4 || raw[..4] != MAGIC then None
      else if |raw| < 8 then None
      else
        var end := 8 + FromBigEndian(raw[4..8]);
        if end > |raw| then None
        else match parse(raw[8..end])
          case None => None
          case Some(doc) => Some((doc, raw[end..]))
    }

    static function Field(fields: map<string, Json>, name: string): Option<Json> {
      if name in fields then Some(fields[name]) else None
    }

    /** Python's `value == 1`, which also holds of 1.0 and True. */
    static predicate IsOne(j: Option<Json>) {
      j == Some(Int(SCHEMA_VERSION)) || j == Some(Float(SCHEMA_VERSION)) || j == Some(Bool(true))
    }

    /** `_validate_envelope_header`; None stands for its corruption error. */
    function Validate(doc: Document, body: Bytes): Option<Header> {
      if doc.NotAnObject? then None
      else
        var f := doc.fields;
        if !IsOne(Field(f, "schema_version")) then None
        else
          var token, expiry := Field(f, "owner_token"), Field(f, "owner_expiry");
          var fence, accepted := Field(f, "owner_fence"), Field(f, "last_accepted_fence");
          var version := Field(f, "version_hash");
          if token.None? || expiry.None? || fence.None? || accepted.None? || version.None? then None
          else if !token.value.Null? && !token.value.Text? then None
          else if !expiry.value.Int? && !expiry.value.Float? then None
          else if !fence.value.Int? || fence.value.i < 0 then None
          else if !accepted.value.Int? || accepted.value.i < 0 then None
          else
            var owner := if token.value.Text? then Some(token.value.s) else None;
            var until := if expiry.value.Int? then expiry.value.i else expiry.value.f;
            if version.value.Null? then
              if body != [] then None else Some(Header(owner, until, fence.value.i, accepted.value.i, None))
            else if version.value != Text(hex(Sha256(body))) then None
            else Some(Header(owner, until, fence.value.i, accepted.value.i, Some(Sha256(body))))
    }

    /** `_read_envelope` on one GET's bytes and metadata: the legacy rule first, then the magic. */
    function Interpret(raw: Bytes, meta: Option<string>): Reading {
      if meta == Some(hex(Sha256(raw))) then Envelope(Header(None, 0, 0, 0, Some(Sha256(raw))), raw)
      else match Decode(raw)
        case None => Foreign
        case Some((doc, body)) =>
          match Validate(doc, body)
          case None => Corrupt
          case Some(h) => Envelope(h, body)
    }

    /** The metadata a PUT of this header carries: the logical version, empty for a phantom. */
    function MetaOf(h: Header): string {
      match h.version
      case None => ""
      case Some(v) => hex(v)
    }
  }

  datatype Reading =
    | Foreign    // not an envelope at all
    | Corrupt    // an envelope whose header does not describe its body
    | Envelope(header: Header, body: Bytes)

  /** A header and the body it describes, as every adapter PUT sends them. */
  /** The fields spell this header, each in a type JSON may give it. */
  predicate Spells(c: Codec, f: map<string, Json>, h: Header) {
    && "schema_version" in f && f["schema_version"] in {Int(SCHEMA_VERSION), Float(SCHEMA_VERSION), Bool(true)}
    && "owner_token" in f && f["owner_token"] == (if h.owner.Some? then Text(h.owner.value) else Null)
    && "owner_expiry" in f && f["owner_expiry"] in {Int(h.expiry), Float(h.expiry)}
    && "owner_fence" in f && f["owner_fence"] == Int(h.fence)
    && "last_accepted_fence" in f && f["last_accepted_fence"] == Int(h.accepted)
    && "version_hash" in f && f["version_hash"] == (if h.version.Some? then Text(c.hex(h.version.value)) else Null)
  }

  /** The header checks accept exactly an object whose fields spell a header that describes the body. */
  lemma ValidateMeans(c: Codec, doc: Document, body: Bytes, h: Header)
    requires c.Lawful()
    ensures c.Validate(doc, body) == Some(h) <==> doc.Object? && Spells(c, doc.fields, h) && Describes(h, body)
  {
  }

  predicate Describes(h: Header, body: Bytes) {
    match h.version
    case None => body == []
    case Some(v) => v == Sha256(body)
  }

  lemma DecodeEncode(c: Codec, h: Header, body: Bytes)
    requires c.Lawful() && c.Fits(h)
    ensures c.Decode(c.Encode(h, body)) == Some((Object(c.Fields(h)), body))
  {
    var text := c.render(h);
    var raw := c.Encode(h, body);
    WordSizes();
    BigEndianRoundTrip(|text|, 4);
    assert raw[..4] == MAGIC;
    assert raw[4..8] == BigEndian(|text|, 4);
    assert raw[8..8 + |text|] == text;
    assert raw[8 + |text|..] == body;
  }

  /** A header survives its own schema check exactly when it describes the body behind it. */
  lemma ValidateFields(c: Codec, h: Header, body: Bytes)
    requires c.Lawful()
    ensures c.Validate(Object(c.Fields(h)), body) == if Describes(h, body) then Some(h) else None
  {
    var f := c.Fields(h);
    assert Codec.Field(f, "owner_token") == Some(if h.owner.Some? then Text(h.owner.value) else Null);
    if h.version.Some? {
      assert c.hex(h.version.value) == c.hex(Sha256(body)) ==> h.version.value == Sha256(body);
    }
  }

  /** The current adapter's objects read back as the header and body that were written. */
  lemma InterpretCurrent(c: Codec, h: Header, body: Bytes)
    requires c.Lawful() && c.Fits(h) && Describes(h, body)
    ensures c.Interpret(c.Encode(h, body), Some(c.MetaOf(h))) == Envelope(h, body)
  {
    var raw := c.Encode(h, body);
    assert |raw| > |body|;
    assert Sha256(raw) != Sha256(body);
    DecodeEncode(c, h, body);
    ValidateFields(c, h, body);
  }

  /** The previous adapter's objects read back verbatim, even when the body is itself an envelope. */
  lemma InterpretLegacy(c: Codec, body: Bytes)
    requires c.Lawful()
    ensures c.Interpret(body, Some(c.hex(Sha256(body)))) == Envelope(Header(None, 0, 0, 0, Some(Sha256(body))), body)
    ensures forall h, inner :: body == c.Encode(h, inner) ==>
      c.Interpret(body, Some(c.hex(Sha256(body)))).body == c.Encode(h, inner)
  {
  }

  /** Whatever bytes and metadata are stored, an accepted reading never lies about its body. */
  lemma InterpretIsHonest(c: Codec, raw: Bytes, meta: Option<string>)
    requires c.Interpret(raw, meta).Envelope?
    ensures Describes(c.Interpret(raw, meta).header, c.Interpret(raw, meta).body)
    ensures c.Interpret(raw, meta).body == raw || |c.Interpret(raw, meta).body| + 8 <= |raw|
  {
  }
}
