/** The fence sidecar of the git backend: five ASCII fields separated by single spaces. */
module Sidecars {
  import opened Types
  import opened Framing

  const SPACE: Byte := 32
  // "KKF1"
  const MARKER: Bytes := [75, 75, 70, 49]
  // "None", what Python prints for an absent owner
  const NONE: Bytes := [78, 111, 110, 101]

  datatype Tenure = Tenure(owner: Option<Token>, expiry: Time, fence: nat, accepted: nat)

  predicate Ascii(bs: Bytes) {
    forall i :: 0 <= i < |bs| ==> bs[i] < 128
  }

  function BytesOf(s: string): Bytes
    requires forall i :: 0 <= i < |s| ==> s[i] < 128 as char
  {
    seq(|s|, i requires 0 <= i < |s| => s[i] as int)
  }

  function CharsOf(bs: Bytes): string {
    seq(|bs|, i requires 0 <= i < |bs| => bs[i] as char)
  }

  /** `str.split(" ")`: always at least one field. */
  function Split(bs: Bytes): (fields: seq<Bytes>)
    ensures |fields| > 0
  {
    if bs == [] then [[]]
    else
      var rest := Split(bs[1..]);
      if bs[0] == SPACE then [[]] + rest else [[bs[0]] + rest[0]] + rest[1..]
  }

  function Join(fields: seq<Bytes>): Bytes
    requires |fields| > 0
  {
    if |fields| == 1 then fields[0] else fields[0] + [SPACE] + Join(fields[1..])
  }

  predicate Word(bs: Bytes) {
    SPACE !in bs
  }

  lemma {:induction false} SplitWord(w: Bytes, rest: Bytes)
    requires Word(w)
    ensures Split(w + [SPACE] + rest) == [w] + Split(rest)
  {
    var all := w + [SPACE] + rest;
    if w == [] {
      assert all[1..] == rest;
    } else {
      SplitWord(w[1..], rest);
      assert all[1..] == w[1..] + [SPACE] + rest;
      assert [w[0]] + w[1..] == w;
    }
  }

  lemma {:induction false} SplitLast(w: Bytes)
    requires Word(w)
    ensures Split(w) == [w]
  {
    if w != [] {
      SplitLast(w[1..]);
      assert [w[0]] + w[1..] == w;
    }
  }

  /** Splitting undoes joining for words. */
  lemma {:induction false} SplitJoin(fields: seq<Bytes>)
    requires |fields| > 0 && forall i :: 0 <= i < |fields| ==> Word(fields[i])
    ensures Split(Join(fields)) == fields
  {
    if |fields| == 1 {
      SplitLast(fields[0]);
    } else {
      SplitWord(fields[0], Join(fields[1..]));
      SplitJoin(fields[1..]);
    }
  }

  /** Every field of a split is a word, and keeps the alphabet of the text. */
  lemma {:induction false} SplitFields(bs: Bytes, i: nat)
    requires i < |Split(bs)|
    ensures Word(Split(bs)[i])
    ensures Ascii(bs) ==> Ascii(Split(bs)[i])
  {
    if bs != [] {
      if bs[0] == SPACE {
        if i > 0 { SplitFields(bs[1..], i - 1); }
      } else {
        SplitFields(bs[1..], i);
      }
    }
  }

  /** How clock readings are printed, and which texts Python reads as a float and as an integer. */
  datatype Numerals = Numerals(repr: Time -> Bytes, float: Bytes -> Option<Time>, integer: Bytes -> Option<nat>)
  {
    ghost predicate Lawful() {
      && (forall t :: Word(repr(t)) && Ascii(repr(t)) && float(repr(t)) == Some(t))
      && (forall n: nat :: integer(Decimal(n)) == Some(n))
    }

    /** The text of one owner field: `f"{owner_token}"`. */
    static function OwnerText(owner: Option<Token>): Bytes
      requires owner.Some? ==> forall i :: 0 <= i < |owner.value| ==> owner.value[i] < 128 as char
    {
      if owner.None? then NONE else BytesOf(owner.value)
    }

    /** `_encode_fence_sidecar`. */
    function Encode(f: Tenure): Bytes
      requires Printable(f.owner)
    {
      Join([MARKER, OwnerText(f.owner), repr(f.expiry), Decimal(f.fence), Decimal(f.accepted)])
    }

    /** `_parse_fence_sidecar`. */
    function Parse(raw: Bytes): Option<Tenure> {
      if !Ascii(raw) then None
      else
        var fields := Split(raw);
        if |fields| != 5 || fields[0] != MARKER then None
        else
          var expiry, fence, accepted := float(fields[2]), integer(fields[3]), integer(fields[4]);
          if expiry.None? || fence.None? || accepted.None? then None
          else
            var owner := if fields[1] == NONE then None else Some(CharsOf(fields[1]));
            Some(Tenure(owner, expiry.value, fence.value, accepted.value))
    }
  }

  /** A token the sidecar can carry: ASCII without spaces. `secrets.token_hex` prints nothing else. */
  predicate Printable(owner: Option<Token>) {
    owner.Some? ==> forall i :: 0 <= i < |owner.value| ==> owner.value[i] < 128 as char && owner.value[i] != ' '
  }

  lemma CharsOfBytes(bs: Bytes)
    requires Ascii(bs)
    ensures forall i :: 0 <= i < |CharsOf(bs)| ==> CharsOf(bs)[i] < 128 as char
    ensures BytesOf(CharsOf(bs)) == bs
  {
  }

  lemma BytesOfChars(s: string)
    requires forall i :: 0 <= i < |s| ==> s[i] < 128 as char
    ensures Ascii(BytesOf(s)) && CharsOf(BytesOf(s)) == s
  {
  }

  lemma DigitsAreWords(n: nat)
    ensures Word(Decimal(n)) && Ascii(Decimal(n))
  {
    DecimalCanonical(n);
    assert forall i :: 0 <= i < |Decimal(n)| ==> IsDigit(Decimal(n)[i]);
  }

  lemma {:induction false} JoinAscii(fields: seq<Bytes>)
    requires |fields| > 0 && forall i :: 0 <= i < |fields| ==> Ascii(fields[i])
    ensures Ascii(Join(fields))
  {
    if |fields| > 1 {
      JoinAscii(fields[1..]);
    }
  }

  lemma OwnerWord(owner: Option<Token>)
    requires Printable(owner)
    ensures Word(Numerals.OwnerText(owner)) && Ascii(Numerals.OwnerText(owner))
    ensures owner.Some? ==> CharsOf(Numerals.OwnerText(owner)) == owner.value
    ensures Numerals.OwnerText(owner) == NONE <==> owner.None? || owner == Some("None")
  {
    if owner.Some? {
      BytesOfChars(owner.value);
      if Numerals.OwnerText(owner) == NONE {
        assert owner.value == CharsOf(NONE) == "None";
      }
      if owner.value == "None" {
        assert BytesOf("None") == NONE;
      }
    }
  }

  /**
    The sidecar round trip holds for every printable token but one: the text "None" reads back as
    no owner at all. Tokens are 32 hexadecimal digits, so the adapter never meets it.
  */
  lemma SidecarRoundTrip(n: Numerals, f: Tenure)
    requires n.Lawful() && Printable(f.owner)
    ensures n.Parse(n.Encode(f)).Some?
    ensures n.Parse(n.Encode(f)) == Some(f) <==> f.owner != Some("None")
  {
    var fields := [MARKER, Numerals.OwnerText(f.owner), n.repr(f.expiry), Decimal(f.fence), Decimal(f.accepted)];
    OwnerWord(f.owner);
    DigitsAreWords(f.fence);
    DigitsAreWords(f.accepted);
    SplitJoin(fields);
    JoinAscii(fields);
  }

  /** What a parsed sidecar says can be written back. */
  lemma ParsedIsPrintable(n: Numerals, raw: Bytes)
    requires n.Parse(raw).Some?
    ensures Printable(n.Parse(raw).value.owner) && n.Parse(raw).value.owner != Some("None")
  {
    var field := Split(raw)[1];
    SplitFields(raw, 1);
    assert BytesOf("None") == NONE;
    if field != NONE {
      CharsOfBytes(field);
      assert forall i :: 0 <= i < |field| ==> field[i] != SPACE by {
        assert forall i :: 0 <= i < |field| ==> field[i] in field;
      }
    }
  }
}
