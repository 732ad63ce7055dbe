/**
 The tag-length-value layout of EMV QR Code payloads (Merchant-Presented
 Mode): a two-character tag, the value's length as two decimal digits, then
 the value.  The payload builder writes every field this way; `ParseField` and
 `ParseFields` read such fields back, as a scanner does, and give the layout
 its meaning.
 */
module Emv {
  import opened Wrappers
  import opened Text

  /** One data object: its two-character ID and its value. */
  datatype Field = Field(tag: string, value: string)

  /** A field the two-digit length can describe. */
  predicate WellFormed(f: Field) {
    |f.tag| == 2 && |f.value| <= 99
  }

  predicate AllWellFormed(fs: seq<Field>) {
    forall i :: 0 <= i < |fs| ==> WellFormed(fs[i])
  }

  /** The length digits of a field: two decimal digits that read back as `n`. */
  function Len2(n: nat): (r: string)
    requires n <= 99
    ensures |r| == 2 && IsDigitString(r, 10) && ParseRadix(r, 10) == n
  {
    var r := [DigitChar(n / 10), DigitChar(n % 10)];
    assert r[..1][..0] == [];
    assert ParseRadix(r[..1], 10) == n / 10;
    r
  }

  lemma HundredIsPow()
    ensures Pow(10, 2) == 100
  {
  }

  /** `Len2` is what `n.toString().padStart(2, "0")` writes for a length up to 99. */
  lemma Len2IsPadded(n: nat)
    requires n <= 99
    ensures n < Pow(10, 2) && Len2(n) == PaddedDigits(n, 10, 2)
  {
    HundredIsPow();
    Len2Unique(n, PaddedDigits(n, 10, 2));
  }

  /** Two decimal digits that denote `n` are the ones `Len2` writes. */
  lemma Len2Unique(n: nat, d: string)
    requires n <= 99 && |d| == 2 && IsDigitString(d, 10) && ParseRadix(d, 10) == n
    ensures Len2(n) == d
  {
    DecimalIsUpperHex(Len2(n));
    DecimalIsUpperHex(d);
    DigitsUnique(Len2(n), d, 10);
  }

  /** `tag + Len2(value) + value`: the length digits denote the value's length. */
  function Tlv(tag: string, value: string): (r: string)
    requires |value| <= 99
    ensures |r| == |tag| + 2 + |value|
  {
    tag + Len2(|value|) + value
  }

  /** The parts of a field's encoding: the tag, length digits denoting the value's length, the value. */
  lemma TlvParts(tag: string, value: string)
    requires |value| <= 99
    ensures Tlv(tag, value)[..|tag|] == tag
    ensures Tlv(tag, value)[|tag|..|tag| + 2] == Len2(|value|)
    ensures Tlv(tag, value)[|tag| + 2..] == value
  {
  }

  function Encode(f: Field): (r: string)
    requires WellFormed(f)
  {
    Tlv(f.tag, f.value)
  }

  /** The fields one after the other. */
  function EncodeFields(fs: seq<Field>): (r: string)
    requires AllWellFormed(fs)
    ensures |fs| == 0 ==> r == []
  {
    if |fs| == 0 then [] else Encode(fs[0]) + EncodeFields(fs[1..])
  }

  /**
   Read one field from the front of `s`: a tag, two decimal length digits and
   that many value characters; the rest of `s` is returned with it.
   */
  function ParseField(s: string): (r: Option<(Field, string)>)
    ensures r.Some? ==> |r.value.1| < |s|
  {
    if |s| < 4 || !IsDigitString(s[2..4], 10) then None
    else
      var n := ParseRadix(s[2..4], 10);
      if |s| < 4 + n then None
      else Some((Field(s[..2], s[4..4 + n]), s[4 + n..]))
  }

  /** Read fields until the input is used up; `None` when any field is cut short. */
  function ParseFields(s: string): (r: Option<seq<Field>>)
    decreases |s|
  {
    if |s| == 0 then Some([])
    else match ParseField(s)
      case None => None
      case Some((f, rest)) =>
        match ParseFields(rest)
        case None => None
        case Some(fs) => Some([f] + fs)
  }

  /** A field read from the front of its own encoding is the field, and the rest is left untouched. */
  lemma EncodeThenParse(f: Field, rest: string)
    requires WellFormed(f)
    ensures ParseField(Encode(f) + rest) == Some((f, rest))
  {
    var e := Encode(f);
    var s := e + rest;
    TlvParts(f.tag, f.value);
    assert s[..2] == f.tag;
    assert s[2..4] == Len2(|f.value|);
    assert s[4..4 + |f.value|] == f.value;
    assert s[4 + |f.value|..] == rest;
  }

  /** Whatever `ParseField` accepts is a well-formed field's encoding followed by the rest. */
  lemma ParseThenEncode(s: string)
    requires ParseField(s).Some?
    ensures WellFormed(ParseField(s).value.0)
    ensures s == Encode(ParseField(s).value.0) + ParseField(s).value.1
  {
    var (f, rest) := ParseField(s).value;
    var n := ParseRadix(s[2..4], 10);
    DigitsBound(s[2..4]);
    Len2Unique(n, s[2..4]);
    assert s == s[..2] + s[2..4] + s[4..4 + n] + s[4 + n..];
  }

  /** Two decimal digits denote at most 99. */
  lemma DigitsBound(d: string)
    requires |d| == 2 && IsDigitString(d, 10)
    ensures ParseRadix(d, 10) <= 99
  {
    assert d[..1][..0] == [];
    assert ParseRadix(d[..1], 10) == DigitValue(d[0]);
  }

  /** Reading back a sequence of encoded fields gives the fields. */
  lemma {:induction false} FieldsRoundTrip(fs: seq<Field>)
    requires AllWellFormed(fs)
    ensures ParseFields(EncodeFields(fs)) == Some(fs)
    decreases |fs|
  {
    if |fs| > 0 {
      var rest := EncodeFields(fs[1..]);
      EncodeThenParse(fs[0], rest);
      FieldsRoundTrip(fs[1..]);
      assert [fs[0]] + fs[1..] == fs;
    }
  }

  /** Whatever `ParseFields` accepts is the encoding of the fields it returns. */
  lemma {:induction false} ParsedFieldsEncode(s: string)
    requires ParseFields(s).Some?
    ensures AllWellFormed(ParseFields(s).value)
    ensures EncodeFields(ParseFields(s).value) == s
    decreases |s|
  {
    if |s| > 0 {
      var (f, rest) := ParseField(s).value;
      ParseThenEncode(s);
      ParsedFieldsEncode(rest);
      var fs := ParseFields(s).value;
      assert fs[1..] == ParseFields(rest).value;
    }
  }

  lemma WellFormedAppend(a: seq<Field>, b: seq<Field>)
    requires AllWellFormed(a) && AllWellFormed(b)
    ensures AllWellFormed(a + b)
  {
  }

  /** Encoding distributes over joining field lists. */
  lemma {:induction false} EncodeFieldsAppend(a: seq<Field>, b: seq<Field>)
    requires AllWellFormed(a) && AllWellFormed(b)
    ensures AllWellFormed(a + b) && EncodeFields(a + b) == EncodeFields(a) + EncodeFields(b)
    decreases |a|
  {
    WellFormedAppend(a, b);
    if |a| == 0 {
      assert a + b == b;
    } else {
      var ab := a + b;
      assert ab[0] == a[0] && ab[1..] == a[1..] + b;
      EncodeFieldsAppend(a[1..], b);
      assert EncodeFields(ab) == Encode(a[0]) + EncodeFields(ab[1..]);
    }
  }

  /**
   A field as the builder writes it for any length: the length is
   `length.toString().padStart(2, "0")`, which has three digits from 100 on.
   */
  function TlvAsWritten(tag: string, value: string): (r: string)
    ensures |r| >= |tag| + 2 + |value|
  {
    tag + PadStart(ToRadix(|value|, 10), 2, '0') + value
  }

  /** Up to 99 characters the builder's field is `Tlv`. */
  lemma AsWrittenIsTlv(tag: string, value: string)
    requires |value| <= 99
    ensures TlvAsWritten(tag, value) == Tlv(tag, value)
  {
    Len2IsPadded(|value|);
  }

  /**
   A value of 100 characters gets the length digits "100"; a reader takes
   "10" as the length and "0" as the first value character, so the field
   does not read back.
   */
  lemma LongFieldMisread(tag: string, value: string)
    requires |tag| == 2 && |value| == 100
    ensures ParseField(TlvAsWritten(tag, value)) != Some((Field(tag, value), []))
  {
    HundredLength(tag, value);
    ReadsTen(TlvAsWritten(tag, value), tag, value);
  }

  lemma HundredLength(tag: string, value: string)
    requires |value| == 100
    ensures TlvAsWritten(tag, value) == tag + "100" + value
  {
    HundredDigits(|value|);
  }

  /** After a tag, the digits "100" are read as the length 10. */
  lemma ReadsTen(s: string, tag: string, value: string)
    requires |tag| == 2 && |value| == 100 && s == tag + "100" + value
    ensures ParseField(s).Some? && |ParseField(s).value.0.value| == 10
  {
    var d := s[2..4];
    assert d[0] == '1' && d[1] == '0';
    TenIsTen(d);
  }

  /** The digits "10" read as ten. */
  lemma TenIsTen(d: string)
    requires |d| == 2 && d[0] == '1' && d[1] == '0'
    ensures IsDigitString(d, 10) && ParseRadix(d, 10) == 10
  {
    var one := d[..1];
    assert one[..0] == [] && one[0] == '1';
    assert ParseRadix(one, 10) == 1;
  }
}
