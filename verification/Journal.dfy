/**
  The write-ahead journal of the local backend: a binary log in which records of two shapes follow
  one another, and whose last record may be cut short by a crash.
*/
module Journal {
  import opened Types
  import opened Framing

  // "KKJ2"
  const MAGIC: Bytes := [0x4B, 0x4B, 0x4A, 0x32]
  const MAX_KEY_LENGTH: nat := 1024
  const DIGEST_LENGTH: nat := 32

  /** A record as replay yields it. A legacy record carries no fence and replays with fence 0. */
  datatype Record = Record(key: Bytes, body: Bytes, fence: nat)

  datatype Shape = Legacy | V2

  datatype Entry = Entry(shape: Shape, record: Record)

  /** `f.read(n)`: the chunk and what is left of the file, or nothing when fewer bytes remain. */
  function Take(file: Bytes, n: nat): (r: Option<(Bytes, Bytes)>)
    ensures r.Some? ==> |r.value.0| == n && |r.value.1| == |file| - n
  {
    if |file| < n then None else Some((file[..n], file[n..]))
  }

  /** The digest function and the UTF-8 decoder the journal relies on. */
  datatype Platform = Platform(digest: Bytes -> Bytes, decodable: Bytes -> bool)
  {
    ghost predicate Lawful() {
      forall b :: |digest(b)| == DIGEST_LENGTH
    }

    /** What the writers can produce: decodable keys, lengths and fences that fit their fields. */
    predicate Writable(e: Entry) {
      && decodable(e.record.key)
      && |e.record.body| < 0x1_0000_0000_0000_0000
      && match e.shape
         case Legacy => |e.record.key| <= MAX_KEY_LENGTH && e.record.fence == 0
         case V2 => |e.record.key| < 0x1_0000_0000 && e.record.fence < 0x1_0000_0000_0000_0000
    }

    function Payload(r: Record): Bytes {
      BigEndian(|r.key|, 4) + (r.key + (BigEndian(|r.body|, 8) + (r.body + digest(r.body))))
    }

    /** `_journal_append` writes the v2 shape; older stores hold the legacy one. */
    function Encode(e: Entry): Bytes {
      match e.shape
      case Legacy => Payload(e.record)
      case V2 => MAGIC + (Payload(e.record) + BigEndian(e.record.fence, 8))
    }

    function EncodeAll(es: seq<Entry>): Bytes {
      if es == [] then [] else Encode(es[0]) + EncodeAll(es[1..])
    }

    /** Key and body of one record, and the bytes after its digest. */
    function NextPayload(length: Bytes, file: Bytes): (r: Option<(Bytes, Bytes, Bytes)>)
      ensures r.Some? ==> |r.value.2| <= |file|
    {
      match Take(file, FromBigEndian(length))
      case None => None
      case Some((key, afterKey)) =>
        match NextBody(afterKey)
        case None => None
        case Some((body, rest)) => Some((key, body, rest))
    }

    /** A body after its length, with its digest behind it. */
    function NextBody(file: Bytes): (r: Option<(Bytes, Bytes)>)
      ensures r.Some? ==> |r.value.1| <= |file|
    {
      match Take(file, 8)
      case None => None
      case Some((bodyLength, afterLength)) =>
        match Take(afterLength, FromBigEndian(bodyLength))
        case None => None
        case Some((body, afterBody)) =>
          match Take(afterBody, DIGEST_LENGTH)
          case None => None
          case Some((stored, afterDigest)) => if digest(body) != stored then None else Some((body, afterDigest))
    }

    /** The record at the front of the file and what follows it; None is where replay stops. */
    function Next(file: Bytes): (r: Option<(Record, Bytes)>)
      ensures r.Some? ==> |r.value.1| < |file|
    {
      match Take(file, 4)
      case None => None
      case Some((header, afterHeader)) =>
        if header == MAGIC then NextV2(afterHeader)
        else match NextPayload(header, afterHeader)
          case None => None
          case Some((key, body, rest)) => if !decodable(key) then None else Some((Record(key, body, 0), rest))
    }

    function NextV2(file: Bytes): (r: Option<(Record, Bytes)>)
      ensures r.Some? ==> |r.value.1| <= |file|
    {
      match Take(file, 4)
      case None => None
      case Some((length, afterLength)) =>
        match NextPayload(length, afterLength)
        case None => None
        case Some((key, body, afterPayload)) =>
          match Take(afterPayload, 8)
          case None => None
          case Some((fence, rest)) =>
            if !decodable(key) then None else Some((Record(key, body, FromBigEndian(fence)), rest))
    }

    /** Everything replay yields from the whole file. */
    function Replay(file: Bytes): seq<Record>
      decreases |file|
    {
      match Next(file)
      case None => []
      case Some((r, rest)) => [r] + Replay(rest)
    }

    /** The bytes replay never reached. */
    function Rest(file: Bytes): Bytes
      decreases |file|
    {
      match Next(file)
      case None => file
      case Some((_, rest)) => Rest(rest)
    }
  }

  function Records(es: seq<Entry>): (rs: seq<Record>)
    ensures |rs| == |es|
  {
    seq(|es|, i requires 0 <= i < |es| => es[i].record)
  }

  /** How many entries lie wholly before the cut. */
  function WholeBefore(p: Platform, es: seq<Entry>, cut: nat): (n: nat)
    ensures n <= |es|
  {
    if es == [] || cut < |p.Encode(es[0])| then 0
    else 1 + WholeBefore(p, es[1..], cut - |p.Encode(es[0])|)
  }

  // What is read was written so

  lemma TakeIsFront(file: Bytes, n: nat)
    ensures Take(file, n).Some? ==> file == Take(file, n).value.0 + Take(file, n).value.1
  {
  }

  lemma BodyIsHonest(p: Platform, file: Bytes)
    requires p.NextBody(file).Some?
    ensures var (body, rest) := p.NextBody(file).value;
      file == BigEndian(|body|, 8) + (body + (p.digest(body) + rest))
  {
    var (length, afterLength) := Take(file, 8).value;
    var (body, afterBody) := Take(afterLength, FromBigEndian(length)).value;
    TakeIsFront(file, 8);
    TakeIsFront(afterLength, FromBigEndian(length));
    TakeIsFront(afterBody, DIGEST_LENGTH);
    BytesRoundTrip(length);
  }

  lemma PayloadIsHonest(p: Platform, length: Bytes, file: Bytes)
    requires |length| == 4 && p.NextPayload(length, file).Some?
    ensures var (key, body, rest) := p.NextPayload(length, file).value;
      length + file == p.Payload(Record(key, body, 0)) + rest
  {
    var (key, afterKey) := Take(file, FromBigEndian(length)).value;
    TakeIsFront(file, FromBigEndian(length));
    BytesRoundTrip(length);
    BodyIsHonest(p, afterKey);
    var (body, rest) := p.NextBody(afterKey).value;
    PayloadParts(p, Record(key, body, 0), rest);
  }

  lemma PayloadParts(p: Platform, r: Record, rest: Bytes)
    ensures p.Payload(r) + rest ==
      BigEndian(|r.key|, 4) + (r.key + (BigEndian(|r.body|, 8) + (r.body + (p.digest(r.body) + rest))))
  {
  }

  /**
    Nothing is replayed that was not framed, key length, body length, digest and all: the bytes in front
    of what is left are the encoding of the record read, in one of the two shapes, and its key decodes.
  */
  lemma NextIsHonest(p: Platform, file: Bytes) returns (e: Entry)
    requires p.Next(file).Some?
    ensures var (r, rest) := p.Next(file).value;
      e.record == r && file == p.Encode(e) + rest && p.decodable(r.key) && (e.shape.Legacy? ==> r.fence == 0)
  {
    var (header, afterHeader) := Take(file, 4).value;
    TakeIsFront(file, 4);
    var (r, rest) := p.Next(file).value;
    if header == MAGIC {
      e := Entry(V2, r);
      V2IsHonest(p, afterHeader);
      Associate(MAGIC, p.Payload(r) + BigEndian(r.fence, 8), rest);
    } else {
      e := Entry(Legacy, r);
      PayloadIsHonest(p, header, afterHeader);
    }
  }

  lemma Associate(a: Bytes, b: Bytes, c: Bytes)
    ensures a + (b + c) == (a + b) + c
  {
  }

  lemma V2IsHonest(p: Platform, file: Bytes)
    requires p.NextV2(file).Some?
    ensures var (r, rest) := p.NextV2(file).value;
      file == (p.Payload(r) + BigEndian(r.fence, 8)) + rest && p.decodable(r.key)
  {
    var (length, afterLength) := Take(file, 4).value;
    TakeIsFront(file, 4);
    PayloadIsHonest(p, length, afterLength);
    var (key, body, afterPayload) := p.NextPayload(length, afterLength).value;
    var (fence, rest) := Take(afterPayload, 8).value;
    TakeIsFront(afterPayload, 8);
    BytesRoundTrip(fence);
    var r := Record(key, body, FromBigEndian(fence));
    assert p.Payload(r) == p.Payload(Record(key, body, 0));
    Associate(p.Payload(r), fence, rest);
  }

  /** Whatever the file, what replay yields is exactly what its read part encodes; one bad digest ends it. */
  lemma {:induction false} ReplayIsHonest(p: Platform, file: Bytes) returns (es: seq<Entry>)
    ensures Records(es) == p.Replay(file) && file == p.EncodeAll(es) + p.Rest(file)
    ensures forall i :: 0 <= i < |es| ==> p.decodable(es[i].record.key)
    ensures p.Next(p.Rest(file)).None?
    decreases |file|
  {
    match p.Next(file) {
      case None =>
        es := [];
        assert file == [] + file;
      case Some((r, rest)) =>
        var e := NextIsHonest(p, file);
        var tail := ReplayIsHonest(p, rest);
        es := [e] + tail;
        HonestCons(p, e, tail, p.Rest(rest));
    }
  }

  lemma HonestCons(p: Platform, e: Entry, tail: seq<Entry>, left: Bytes)
    ensures Records([e] + tail) == [e.record] + Records(tail)
    ensures p.EncodeAll([e] + tail) + left == p.Encode(e) + (p.EncodeAll(tail) + left)
  {
    assert ([e] + tail)[1..] == tail;
    Associate(p.Encode(e), p.EncodeAll(tail), left);
  }

  /** Reading one field of a cut file: the field, or nothing if the cut falls inside it. */
  lemma TakeOfPrefix(field: Bytes, tail: Bytes, cut: nat)
    requires cut <= |field| + |tail|
    ensures Take((field + tail)[..cut], |field|) ==
      if cut < |field| then None else Some((field, tail[..cut - |field|]))
  {
    if cut >= |field| {
      var file := (field + tail)[..cut];
      assert file[..|field|] == field;
      assert file[|field|..] == tail[..cut - |field|];
    }
  }

  /** A body as written: its length, itself, its digest. */
  function BodyFields(p: Platform, body: Bytes, tail: Bytes): Bytes {
    BigEndian(|body|, 8) + (body + (p.digest(body) + tail))
  }

  /** Everything after the key length. */
  function Fields(p: Platform, r: Record, tail: Bytes): Bytes {
    r.key + BodyFields(p, r.body, tail)
  }

  lemma BodyOfPrefix(p: Platform, body: Bytes, tail: Bytes, cut: nat)
    requires p.Lawful() && |body| < 0x1_0000_0000_0000_0000 && cut <= |BodyFields(p, body, tail)|
    ensures var n := 8 + |body| + DIGEST_LENGTH;
      p.NextBody(BodyFields(p, body, tail)[..cut]) == if cut < n then None else Some((body, tail[..cut - n]))
  {
    WordSizes();
    BigEndianRoundTrip(|body|, 8);
    TakeOfPrefix(BigEndian(|body|, 8), body + (p.digest(body) + tail), cut);
    if cut >= 8 {
      TakeOfPrefix(body, p.digest(body) + tail, cut - 8);
      if cut - 8 >= |body| {
        TakeOfPrefix(p.digest(body), tail, cut - 8 - |body|);
      }
    }
  }

  lemma FieldsOfPrefix(p: Platform, r: Record, tail: Bytes, cut: nat)
    requires p.Lawful() && |r.key| < 0x1_0000_0000 && |r.body| < 0x1_0000_0000_0000_0000
    requires cut <= |Fields(p, r, tail)|
    ensures var n := |r.key| + 8 + |r.body| + DIGEST_LENGTH;
      p.NextPayload(BigEndian(|r.key|, 4), Fields(p, r, tail)[..cut]) ==
        if cut < n then None else Some((r.key, r.body, tail[..cut - n]))
  {
    WordSizes();
    BigEndianRoundTrip(|r.key|, 4);
    TakeOfPrefix(r.key, BodyFields(p, r.body, tail), cut);
    if cut >= |r.key| {
      BodyOfPrefix(p, r.body, tail, cut - |r.key|);
    }
  }

  lemma PayloadOfPrefix(p: Platform, r: Record, tail: Bytes, cut: nat)
    requires p.Lawful() && |r.key| < 0x1_0000_0000 && |r.body| < 0x1_0000_0000_0000_0000
    requires 4 + cut <= |p.Payload(r)| + |tail|
    ensures p.NextPayload(BigEndian(|r.key|, 4), (p.Payload(r) + tail)[4..4 + cut]) ==
      if 4 + cut < |p.Payload(r)| then None else Some((r.key, r.body, tail[..4 + cut - |p.Payload(r)|]))
  {
    assert p.Payload(r) + tail == BigEndian(|r.key|, 4) + Fields(p, r, tail);
    assert (p.Payload(r) + tail)[4..4 + cut] == Fields(p, r, tail)[..cut];
    FieldsOfPrefix(p, r, tail, cut);
  }

  /** The key length at the front of a cut payload, and the fields behind it. */
  lemma LengthOfPrefix(p: Platform, r: Record, tail: Bytes, cut: nat)
    requires p.Lawful() && |r.key| < 0x1_0000_0000 && |r.body| < 0x1_0000_0000_0000_0000
    requires cut <= |p.Payload(r)| + |tail|
    ensures cut < 4 ==> Take((p.Payload(r) + tail)[..cut], 4) == None
    ensures cut >= 4 ==>
      && Take((p.Payload(r) + tail)[..cut], 4) == Some((BigEndian(|r.key|, 4), (p.Payload(r) + tail)[4..cut]))
      && p.NextPayload(BigEndian(|r.key|, 4), (p.Payload(r) + tail)[4..cut]) ==
           if cut < |p.Payload(r)| then None else Some((r.key, r.body, tail[..cut - |p.Payload(r)|]))
  {
    var file, length := p.Payload(r) + tail, BigEndian(|r.key|, 4);
    assert file == length + file[4..];
    TakeOfPrefix(length, file[4..], cut);
    if cut >= 4 {
      assert file[4..][..cut - 4] == file[4..4 + (cut - 4)] == file[4..cut];
      PayloadOfPrefix(p, r, tail, cut - 4);
    }
  }

  /** The magic never reads as a legal key length, so a legacy record is never taken for a v2 one. */
  lemma MagicIsNoKeyLength(length: nat)
    requires length <= MAX_KEY_LENGTH
    ensures BigEndian(length, 4) != MAGIC
  {
    WordSizes();
    BigEndianRoundTrip(length, 4);
    FourByteValue(MAGIC);
  }

  lemma V2OfPrefix(p: Platform, r: Record, tail: Bytes, cut: nat)
    requires p.Lawful() && p.Writable(Entry(V2, r))
    requires cut <= |p.Payload(r)| + 8 + |tail|
    ensures p.NextV2((p.Payload(r) + (BigEndian(r.fence, 8) + tail))[..cut]) ==
      if cut < |p.Payload(r)| + 8 then None else Some((r, tail[..cut - |p.Payload(r)| - 8]))
  {
    var trailer := BigEndian(r.fence, 8);
    LengthOfPrefix(p, r, trailer + tail, cut);
    if cut >= |p.Payload(r)| {
      TakeOfPrefix(trailer, tail, cut - |p.Payload(r)|);
      WordSizes();
      BigEndianRoundTrip(r.fence, 8);
    }
  }

  /** The front record of a cut file is found exactly when the cut spares it. */
  lemma NextOfPrefix(p: Platform, e: Entry, tail: Bytes, cut: nat)
    requires p.Lawful() && p.Writable(e) && cut <= |p.Encode(e)| + |tail|
    ensures p.Next((p.Encode(e) + tail)[..cut]) ==
      if cut < |p.Encode(e)| then None else Some((e.record, tail[..cut - |p.Encode(e)|]))
  {
    var r := e.record;
    var file := p.Encode(e) + tail;
    match e.shape {
      case Legacy =>
        MagicIsNoKeyLength(|r.key|);
        LengthOfPrefix(p, r, tail, cut);
      case V2 =>
        var inner := p.Payload(r) + (BigEndian(r.fence, 8) + tail);
        assert file == MAGIC + inner;
        TakeOfPrefix(MAGIC, inner, cut);
        if cut >= 4 {
          V2OfPrefix(p, r, tail, cut - 4);
        }
    }
  }

  lemma ReplayCons(p: Platform, file: Bytes, r: Record, rest: Bytes)
    requires p.Next(file) == Some((r, rest))
    ensures p.Replay(file) == [r] + p.Replay(rest)
  {
  }

  lemma ReplayStops(p: Platform, file: Bytes)
    requires p.Next(file) == None
    ensures p.Replay(file) == []
  {
  }

  lemma ReplayFront(p: Platform, e: Entry, tail: Bytes, cut: nat)
    requires p.Lawful() && p.Writable(e) && cut <= |p.Encode(e)| + |tail|
    ensures p.Replay((p.Encode(e) + tail)[..cut]) ==
      if cut < |p.Encode(e)| then [] else [e.record] + p.Replay(tail[..cut - |p.Encode(e)|])
  {
    NextOfPrefix(p, e, tail, cut);
    var file := (p.Encode(e) + tail)[..cut];
    if cut < |p.Encode(e)| {
      ReplayStops(p, file);
    } else {
      ReplayCons(p, file, e.record, tail[..cut - |p.Encode(e)|]);
    }
  }

  lemma RecordsCons(es: seq<Entry>, n: nat)
    requires es != [] && n <= |es| - 1
    ensures Records(es)[..1 + n] == [es[0].record] + Records(es[1..])[..n]
  {
  }

  /**
    Torn-tail parsing: whatever the mix of shapes and wherever the file is cut, replay yields
    exactly the records that lie wholly before the cut, in order and with their fences.
  */
  lemma {:induction false} ReplayOfPrefix(p: Platform, es: seq<Entry>, cut: nat)
    requires p.Lawful() && (forall i :: 0 <= i < |es| ==> p.Writable(es[i]))
    requires cut <= |p.EncodeAll(es)|
    ensures p.Replay(p.EncodeAll(es)[..cut]) == Records(es)[..WholeBefore(p, es, cut)]
    decreases |es|
  {
    if es == [] {
      assert p.EncodeAll(es)[..cut] == [];
      ReplayStops(p, []);
    } else {
      var e, tail := es[0], p.EncodeAll(es[1..]);
      var size := |p.Encode(e)|;
      assert p.Writable(e);
      ReplayFront(p, e, tail, cut);
      if cut >= size {
        ReplayOfPrefix(p, es[1..], cut - size);
        RecordsCons(es, WholeBefore(p, es[1..], cut - size));
      }
    }
  }

  lemma {:induction false} EncodeAllAppend(p: Platform, es: seq<Entry>, e: Entry)
    ensures p.EncodeAll(es + [e]) == p.EncodeAll(es) + p.Encode(e)
  {
    if es == [] {
      assert es + [e] == [e];
    } else {
      assert (es + [e])[1..] == es[1..] + [e];
      EncodeAllAppend(p, es[1..], e);
    }
  }

  lemma ReplayWhole(p: Platform, e: Entry, tail: Bytes)
    requires p.Lawful() && p.Writable(e)
    ensures p.Replay(p.Encode(e) + tail) == [e.record] + p.Replay(tail)
  {
    var record := p.Encode(e);
    var n := |record| + |tail|;
    assert (record + tail)[..n] == record + tail && tail[..n - |record|] == tail;
    ReplayFront(p, e, tail, n);
  }

  lemma ReplayWholeThen(p: Platform, e: Entry, tail: Bytes, more: Bytes)
    requires p.Lawful() && p.Writable(e)
    ensures p.Replay(p.Encode(e) + tail + more) == [e.record] + p.Replay(tail + more)
  {
    assert p.Encode(e) + tail + more == p.Encode(e) + (tail + more);
    ReplayWhole(p, e, tail + more);
  }

  lemma ReplayStep(p: Platform, e: Entry, tail: Bytes, more: Bytes, rest: seq<Record>)
    requires p.Lawful() && p.Writable(e) && p.Replay(tail + more) == rest + p.Replay(more)
    ensures p.Replay(p.Encode(e) + tail + more) == [e.record] + rest + p.Replay(more)
  {
    ReplayWholeThen(p, e, tail, more);
    assert [e.record] + rest + p.Replay(more) == [e.record] + (rest + p.Replay(more));
  }

  lemma RecordsSplit(es: seq<Entry>)
    requires es != []
    ensures Records(es) == [es[0].record] + Records(es[1..])
  {
  }

  lemma ReplayTorn(p: Platform, e: Entry, written: nat)
    requires p.Lawful() && p.Writable(e) && written <= |p.Encode(e)|
    ensures p.Replay(p.Encode(e)[..written]) == if written < |p.Encode(e)| then [] else [e.record]
  {
    var record := p.Encode(e);
    assert (record + [])[..written] == record[..written];
    ReplayFront(p, e, [], written);
    ReplayStops(p, []);
  }

  /** A clean journal followed by anything replays its own records first. */
  lemma {:induction false} ReplayAfterClean(p: Platform, es: seq<Entry>, more: Bytes)
    requires p.Lawful() && (forall i :: 0 <= i < |es| ==> p.Writable(es[i]))
    ensures p.Replay(p.EncodeAll(es) + more) == Records(es) + p.Replay(more)
  {
    if es == [] {
      assert p.EncodeAll(es) + more == more;
    } else {
      ReplayAfterClean(p, es[1..], more);
      ReplayStep(p, es[0], p.EncodeAll(es[1..]), more, Records(es[1..]));
      RecordsSplit(es);
    }
  }

  /** One more record on a clean journal counts exactly once it is whole. */
  lemma ReplayTornAppend(p: Platform, es: seq<Entry>, e: Entry, written: nat)
    requires p.Lawful() && p.Writable(e) && (forall i :: 0 <= i < |es| ==> p.Writable(es[i]))
    requires written <= |p.Encode(e)|
    ensures p.Replay(p.EncodeAll(es) + p.Encode(e)[..written]) ==
      Records(es) + if written < |p.Encode(e)| then [] else [e.record]
  {
    ReplayAfterClean(p, es, p.Encode(e)[..written]);
    ReplayTorn(p, e, written);
  }

  // Appending to a file that is not clean

  lemma TakeExtends(file: Bytes, more: Bytes, n: nat)
    requires n <= |file|
    ensures Take(file + more, n) == Some((file[..n], file[n..] + more))
  {
    assert (file + more)[..n] == file[..n];
    assert (file + more)[n..] == file[n..] + more;
  }

  lemma PayloadExtends(p: Platform, length: Bytes, file: Bytes, more: Bytes)
    requires p.NextPayload(length, file).Some?
    ensures var (key, body, rest) := p.NextPayload(length, file).value;
      p.NextPayload(length, file + more) == Some((key, body, rest + more))
  {
    var keyLength := FromBigEndian(length);
    TakeExtends(file, more, keyLength);
    var afterKey := file[keyLength..];
    TakeExtends(afterKey, more, 8);
    var bodyLength := FromBigEndian(afterKey[..8]);
    TakeExtends(afterKey[8..], more, bodyLength);
    TakeExtends(afterKey[8..][bodyLength..], more, DIGEST_LENGTH);
  }

  lemma V2Extends(p: Platform, file: Bytes, more: Bytes)
    requires p.NextV2(file).Some?
    ensures p.NextV2(file + more) == Some((p.NextV2(file).value.0, p.NextV2(file).value.1 + more))
  {
    TakeExtends(file, more, 4);
    PayloadExtends(p, file[..4], file[4..], more);
    var rest := p.NextPayload(file[..4], file[4..]).value.2;
    TakeExtends(rest, more, 8);
  }

  lemma NextExtends(p: Platform, file: Bytes, more: Bytes)
    requires p.Next(file).Some?
    ensures p.Next(file + more) == Some((p.Next(file).value.0, p.Next(file).value.1 + more))
  {
    TakeExtends(file, more, 4);
    if file[..4] == MAGIC {
      V2Extends(p, file[4..], more);
    } else {
      PayloadExtends(p, file[..4], file[4..], more);
    }
  }

  /** What replay yields of an extended file: the old records, then whatever the unread rest now parses as. */
  lemma {:induction false} ReplayExtends(p: Platform, file: Bytes, more: Bytes)
    ensures p.Replay(file + more) == p.Replay(file) + p.Replay(p.Rest(file) + more)
    decreases |file|
  {
    if p.Next(file).Some? {
      var (r, rest) := p.Next(file).value;
      NextExtends(p, file, more);
      ReplayCons(p, file + more, r, rest + more);
      ReplayExtends(p, rest, more);
    }
  }

  /** On a file replay reads to its end, an appended record is replayed after all the others. */
  lemma CleanAppend(p: Platform, file: Bytes, e: Entry)
    requires p.Lawful() && p.Writable(e) && p.Rest(file) == []
    ensures p.Replay(file + p.Encode(e)) == p.Replay(file) + [e.record]
  {
    ReplayExtends(p, file, p.Encode(e));
    var record := p.Encode(e);
    assert p.Rest(file) + record == record[..|record|];
    ReplayTorn(p, e, |record|);
  }

  /**
    Over a torn tail appends are lost. A crash that leaves one, two or three bytes of the
    magic turns everything appended afterwards into the key of a record that is never whole: no
    later record is replayed until more than a gigabyte has been written.
  */
  lemma TornTailHidesAppends(p: Platform, torn: nat, appended: Bytes)
    requires 0 < torn < 4 && MAGIC <= appended && |appended| < 0x4B4B_4A4B
    ensures p.Replay(MAGIC[..torn] + appended) == []
  {
    var file := MAGIC[..torn] + appended;
    var header := file[..4];
    assert appended[..4] == MAGIC;
    assert header == MAGIC[..torn] + MAGIC[..4 - torn];
    FourByteValue(header);
    assert header != MAGIC;
    assert Take(file[4..], FromBigEndian(header)) == None;
    assert p.NextPayload(header, file[4..]) == None;
    assert p.Next(file) == None;
  }

  /** The key length a parser reads first. */
  function FirstKeyLength(file: Bytes): Option<nat> {
    if |file| < 4 then None
    else if file[..4] != MAGIC then Some(FromBigEndian(file[..4]))
    else if |file| < 8 then None
    else Some(FromBigEndian(file[4..8]))
  }

  lemma FirstKeyLengthRead(p: Platform, file: Bytes)
    requires p.Next(file).Some?
    ensures FirstKeyLength(file) == Some(|p.Next(file).value.0.key|)
  {
    if file[..4] == MAGIC {
      assert file[4..][..4] == file[4..8];
    }
  }

  /** Bytes left unread decide it, whatever record is appended to them. */
  lemma SameKeyLength(rest: Bytes, a: Bytes, b: Bytes)
    requires rest != [] && MAGIC <= a && MAGIC <= b && |a| >= 8 && |b| >= 8
    ensures FirstKeyLength(rest + a) == FirstKeyLength(rest + b)
  {
    var x, y, n := rest + a, rest + b, |rest| + 4;
    assert x[..n] == rest + MAGIC == y[..n];
    assert x[..4] == x[..n][..4] == y[..4];
    if n >= 8 {
      assert x[4..8] == x[..n][4..8] == y[4..8];
    } else {
      PartialMagic(rest);
      assert (rest + MAGIC)[..4] == x[..4];
    }
  }

  /** A few bytes and the magic are not the magic. */
  lemma PartialMagic(rest: Bytes)
    requires 0 < |rest| < 4
    ensures (rest + MAGIC)[..4] != MAGIC
  {
    var i := if |rest| < 3 then 2 else 3;
    assert (rest + MAGIC)[..4][i] == 0x4B != MAGIC[i];
  }

  function Probe(key: Bytes): Entry {
    Entry(V2, Record(key, [], 0))
  }

  predicate Counts(p: Platform, file: Bytes, e: Entry) {
    p.Replay(file + p.Encode(e)) == p.Replay(file) + [e.record]
  }

  lemma ProbeLength(p: Platform, file: Bytes, key: Bytes)
    requires p.Lawful() && Counts(p, file, Probe(key))
    ensures FirstKeyLength(p.Rest(file) + p.Encode(Probe(key))) == Some(|key|)
  {
    var e := Probe(key);
    var tail := p.Rest(file) + p.Encode(e);
    ReplayExtends(p, file, p.Encode(e));
    assert (p.Replay(file) + p.Replay(tail))[|p.Replay(file)|..] == p.Replay(tail);
    assert p.Replay(tail) == [e.record] && p.Replay(tail)[0] == e.record;
    assert p.Next(tail).Some? && p.Next(tail).value.0 == e.record;
    FirstKeyLengthRead(p, tail);
  }

  /**
    An append counts, whatever the record, exactly when replay reads the file to its end: over any
    byte left unread the parser takes one key length for every record, so some record is lost.
  */
  lemma AppendsCountIffClean(p: Platform, file: Bytes)
    requires p.Lawful() && p.decodable([65]) && p.decodable([65, 65])
    ensures p.Rest(file) == [] <==> forall e :: p.Writable(e) && e.shape.V2? ==> Counts(p, file, e)
  {
    if p.Rest(file) == [] {
      forall e | p.Writable(e) && e.shape.V2?
        ensures Counts(p, file, e)
      {
        CleanAppend(p, file, e);
      }
    } else {
      var one, two := Probe([65]), Probe([65, 65]);
      assert p.Writable(one) && p.Writable(two);
      EncodedLength(p, one);
      EncodedLength(p, two);
      SameKeyLength(p.Rest(file), p.Encode(one), p.Encode(two));
      if Counts(p, file, one) && Counts(p, file, two) {
        ProbeLength(p, file, [65]);
        ProbeLength(p, file, [65, 65]);
        assert false;
      }
    }
  }

  lemma EncodedLength(p: Platform, e: Entry)
    requires p.Lawful() && e.shape.V2?
    ensures MAGIC <= p.Encode(e) && |p.Encode(e)| >= 8
  {
    WordSizes();
  }

  lemma FourByteValue(bs: Bytes)
    requires |bs| == 4
    ensures FromBigEndian(bs) == bs[0] as int * 0x100_0000 + bs[1] as int * 0x1_0000 + bs[2] as int * 0x100 + bs[3]
  {
    var b3, b2, b1 := bs[..3], bs[..2], bs[..1];
    assert b3[..2] == b2 && b2[..1] == b1 && b1[..0] == [];
    assert FromBigEndian(b1) == bs[0];
    assert FromBigEndian(b2) == bs[0] as int * 0x100 + bs[1];
    assert FromBigEndian(b3) == bs[0] as int * 0x1_0000 + bs[1] as int * 0x100 + bs[2];
  }

  /** The reads that make up one record; None at the first short or inconsistent one. */
  method ReadRecord(p: Platform, file: Bytes) returns (r: Option<(Record, Bytes)>)
    ensures r == p.Next(file)
  {
    var chunk := Take(file, 4);
    if chunk.None? { return None; }
    var (header, cursor) := chunk.value;
    var isV2 := header == MAGIC;
    if isV2 {
      chunk := Take(cursor, 4);
      if chunk.None? { return None; }
      header, cursor := chunk.value.0, chunk.value.1;
    }
    var payload := ReadPayload(p, header, cursor);
    if payload.None? { return None; }
    var (key, body, rest) := payload.value;
    var fence := 0;
    if isV2 {
      chunk := Take(rest, 8);
      if chunk.None? { return None; }
      fence, rest := FromBigEndian(chunk.value.0), chunk.value.1;
    }
    if !p.decodable(key) { return None; }
    r := Some((Record(key, body, fence), rest));
  }

  method ReadPayload(p: Platform, length: Bytes, file: Bytes) returns (r: Option<(Bytes, Bytes, Bytes)>)
    ensures r == p.NextPayload(length, file)
  {
    var chunk := Take(file, FromBigEndian(length));
    if chunk.None? { return None; }
    var key := chunk.value.0;
    chunk := Take(chunk.value.1, 8);
    if chunk.None? { return None; }
    chunk := Take(chunk.value.1, FromBigEndian(chunk.value.0));
    if chunk.None? { return None; }
    var body := chunk.value.0;
    chunk := Take(chunk.value.1, DIGEST_LENGTH);
    if chunk.None? { return None; }
    if p.digest(body) != chunk.value.0 { return None; }
    r := Some((key, body, chunk.value.1));
  }

  /** `_iter_journal_records`: read record after record until one cannot be read whole. */
  method IterRecords(p: Platform, file: Bytes) returns (records: seq<Record>)
    ensures records == p.Replay(file)
  {
    records := [];
    var rest := file;
    while true
      invariant records + p.Replay(rest) == p.Replay(file)
      decreases |rest|
    {
      var next := ReadRecord(p, rest);
      if next.None? { return; }
      records := records + [next.value.0];
      rest := next.value.1;
    }
  }
}
