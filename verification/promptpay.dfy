/**
 The PromptPay payload builder: `phoneToPromptPay` and
 `generatePromptPayPayload` of `src/App.jsx`.  A payload is the EMV QR Code
 (Merchant-Presented Mode) string a Thai banking app scans: payload format
 indicator and point of initiation, the PromptPay merchant account (ID "29")
 holding the application identifier and the phone number, currency 764 (Thai
 baht), an optional amount, country TH, and a CRC-16/CCITT-FALSE checksum over
 everything before it.
 */
module PromptPay {
  import opened Wrappers
  import opened Text
  import opened Emv
  import opened Crc
  import CcittFalse

  /** Payload format indicator "01" (ID "00") and point of initiation "11", static (ID "01"). */
  const Header: string := "000201010211"
  /** The PromptPay application identifier, sub-field "00" of the merchant account. */
  const Gui: string := "A000000677010111"
  /** Transaction currency (ID "53"): 764, Thai baht. */
  const Currency: string := "5303764"
  /** Country code (ID "58"): TH. */
  const Country: string := "5802TH"
  /** The checksum field's ID and length, which the checksum itself covers. */
  const CrcHeader: string := "6304"

  predicate StartsWithZero(phone: string) {
    |phone| > 0 && phone[0] == '0'
  }

  /**
   `phoneToPromptPay`: a local number's leading `0` becomes the country code
   `66`; anything else is taken to be international already.
   */
  function PhoneToPromptPay(phone: string): (r: string)
    ensures |phone| > 0 ==> (r == "66" + phone[1..] <==> phone[0] == '0')
    ensures r == phone <==> !StartsWithZero(phone)
    ensures |r| > 0 ==> r[0] != '0'
    ensures |phone| > 0 ==> r[|r| - |phone| + 1..] == phone[1..]
  {
    if StartsWithZero(phone) then "66" + phone[1..] else phone
  }

  /** Normalizing twice is normalizing once. */
  lemma PhoneIdempotent(phone: string)
    ensures PhoneToPromptPay(PhoneToPromptPay(phone)) == PhoneToPromptPay(phone)
  {
    var r := PhoneToPromptPay(phone);
    assert !StartsWithZero(r);
  }

  /**
   Inputs whose fields the two-digit lengths can describe: the account
   sub-field "00" + phone and the merchant account around it stay within 99
   characters, and so does the amount.
   */
  predicate FitsLengths(phone: string, amount: Option<string>) {
    |PhoneToPromptPay(phone)| <= 73 && (amount.Some? ==> |amount.value| <= 99)
  }

  /** Inputs that are JavaScript strings, so that `charCodeAt` reads every character. */
  predicate IsTextInput(phone: string, amount: Option<string>) {
    IsCodeUnits(phone) && (amount.Some? ==> IsCodeUnits(amount.value))
  }

  /** The merchant account value: the application identifier, then sub-field "01" holding "00" + phone. */
  function MerchantInfo(phoneCC: string): (r: string)
    requires |phoneCC| <= 73
    ensures |r| == 26 + |phoneCC| <= 99
  {
    Tlv("00", Gui) + Tlv("01", "00" + phoneCC)
  }

  /** The amount field (ID "54") when there is an amount, and nothing otherwise. */
  function AmountField(amount: Option<string>): (r: string)
    requires amount.Some? ==> |amount.value| <= 99
    ensures |r| == if amount.Some? then 4 + |amount.value| else 0
  {
    match amount
    case None => ""
    case Some(a) => Tlv("54", a)
  }

  /** Everything the checksum covers, up to and including "6304", around a merchant account value. */
  function Prefix(merchant: string, amount: Option<string>): (r: string)
    requires |merchant| <= 99 && (amount.Some? ==> |amount.value| <= 99)
    ensures |r| == 33 + |merchant| + |AmountField(amount)|
    ensures r[..12] == Header && r[|r| - 4..] == CrcHeader
  {
    var body := Tlv("29", merchant) + Currency + AmountField(amount) + Country;
    var r := Header + body + CrcHeader;
    assert r == Header + (body + CrcHeader);
    r
  }

  lemma PrefixShape(merchant: string, amount: Option<string>)
    requires |merchant| <= 99 && (amount.Some? ==> |amount.value| <= 99)
    ensures Prefix(merchant, amount) == Header + (Tlv("29", merchant) + Currency + AmountField(amount) + Country) + CrcHeader
    ensures amount.Some? ==> AmountField(amount) == Tlv("54", amount.value)
  {
  }

  /** The prefix the builder assembles for a phone number and an optional amount. */
  function PayloadPrefix(phone: string, amount: Option<string>): (r: string)
    requires FitsLengths(phone, amount)
    ensures |r| == 59 + |PhoneToPromptPay(phone)| + |AmountField(amount)|
    ensures r[..12] == Header && r[|r| - 4..] == CrcHeader
  {
    Prefix(MerchantInfo(PhoneToPromptPay(phone)), amount)
  }

  /** `generatePromptPayPayload` with the amount already formatted (see `FormatSatang`). */
  function GeneratePayload(phone: string, amount: Option<string>): (r: string)
    requires FitsLengths(phone, amount) && IsTextInput(phone, amount)
    ensures |r| == 63 + |PhoneToPromptPay(phone)| + (if amount.Some? then 4 + |amount.value| else 0)
    ensures r[..12] == Header
    ensures r[|r| - 8..|r| - 4] == CrcHeader
    ensures IsCodeUnits(r[..|r| - 4]) && Crc16(r[..|r| - 4]) == r[|r| - 4..]
    ensures IsUpperHex(r[|r| - 4..])
  {
    var prefix := PayloadPrefix(phone, amount);
    PrefixIsText(phone, amount);
    var crc := Crc16(prefix);
    Appended(prefix, crc);
    prefix + crc
  }

  /** The parts of a prefix with four characters appended. */
  lemma Appended(p: string, c: string)
    requires |p| >= 12 && |c| == 4
    ensures (p + c)[..|p|] == p && (p + c)[|p|..] == c
    ensures (p + c)[..12] == p[..12] && (p + c)[|p| - 4..|p|] == p[|p| - 4..]
  {
  }

  lemma TlvBelow(tag: string, value: string, bound: int)
    requires |value| <= 99 && bound >= 0x80
    requires Below(tag, bound) && Below(value, bound)
    ensures Below(Tlv(tag, value), bound)
  {
    var len := Len2(|value|);
    assert Below(len, bound);
    BelowJoin(tag, len, bound);
    BelowJoin(tag + len, value, bound);
  }

  lemma AsciiBelow(bound: int)
    requires bound >= 0x80
    ensures Below(Header, bound) && Below(Gui, bound) && Below(Currency, bound)
    ensures Below(Country, bound) && Below(CrcHeader, bound)
    ensures Below("00", bound) && Below("01", bound) && Below("29", bound) && Below("54", bound)
  {
  }

  /** The builder adds only ASCII, so the prefix keeps every bound its inputs keep. */
  lemma PrefixBelow(phone: string, amount: Option<string>, bound: int)
    requires FitsLengths(phone, amount) && bound >= 0x80
    requires Below(phone, bound) && (amount.Some? ==> Below(amount.value, bound))
    ensures Below(PayloadPrefix(phone, amount), bound)
  {
    var phoneCC := PhoneToPromptPay(phone);
    AsciiBelow(bound);
    assert Below(phoneCC, bound);
    BelowJoin("00", phoneCC, bound);
    TlvBelow("00", Gui, bound);
    TlvBelow("01", "00" + phoneCC, bound);
    var mi := MerchantInfo(phoneCC);
    BelowJoin(Tlv("00", Gui), Tlv("01", "00" + phoneCC), bound);
    TlvBelow("29", mi, bound);
    var amt := AmountField(amount);
    if amount.Some? {
      TlvBelow("54", amount.value, bound);
    }
    assert Below(amt, bound);
    BodyBelow(Tlv("29", mi), amt, bound);
    var body := Tlv("29", mi) + Currency + amt + Country;
    BelowJoin(Header, body, bound);
    BelowJoin(Header + body, CrcHeader, bound);
  }

  lemma BodyBelow(merchantField: string, amt: string, bound: int)
    requires bound >= 0x80 && Below(merchantField, bound) && Below(amt, bound)
    ensures Below(merchantField + Currency + amt + Country, bound)
  {
    AsciiBelow(bound);
    BelowJoin(merchantField, Currency, bound);
    BelowJoin(merchantField + Currency, amt, bound);
    BelowJoin(merchantField + Currency + amt, Country, bound);
  }

  lemma PrefixIsText(phone: string, amount: Option<string>)
    requires FitsLengths(phone, amount) && IsTextInput(phone, amount)
    ensures IsCodeUnits(PayloadPrefix(phone, amount))
  {
    PrefixBelow(phone, amount, 0x10000);
  }

  /** The two sub-fields of the merchant account. */
  function MerchantFields(phoneCC: string): seq<Field> {
    [Field("00", Gui), Field("01", "00" + phoneCC)]
  }

  /** The amount field, when there is an amount. */
  function AmountFields(amount: Option<string>): seq<Field> {
    match amount
    case None => []
    case Some(a) => [Field("54", a)]
  }

  /**
   The data objects of a payload in the order a scanner reads them: format
   indicator, point of initiation, merchant account, currency, the optional
   amount, country, checksum.
   */
  function Fields(merchant: string, amount: Option<string>, crc: string): seq<Field> {
    [Field("00", "01"), Field("01", "11")]
      + [Field("29", merchant), Field("53", "764")]
      + AmountFields(amount)
      + [Field("58", "TH"), Field("63", crc)]
  }

  /** The data objects of the payload the builder produces. */
  function PayloadFields(phone: string, amount: Option<string>): (fs: seq<Field>)
    requires FitsLengths(phone, amount) && IsTextInput(phone, amount)
  {
    PrefixIsText(phone, amount);
    var prefix := PayloadPrefix(phone, amount);
    Fields(MerchantInfo(PhoneToPromptPay(phone)), amount, Crc16(prefix))
  }

  lemma EncodeOne(a: Field)
    requires WellFormed(a)
    ensures AllWellFormed([a]) && EncodeFields([a]) == Encode(a)
  {
    assert EncodeFields([a]) == Encode(a) + EncodeFields([]);
  }

  lemma EncodeTwo(a: Field, b: Field)
    requires WellFormed(a) && WellFormed(b)
    ensures AllWellFormed([a, b]) && EncodeFields([a, b]) == Encode(a) + Encode(b)
  {
    assert [a, b][1..] == [b];
    EncodeOne(b);
  }

  lemma EncodeFour(a: seq<Field>, b: seq<Field>, c: seq<Field>, d: seq<Field>)
    requires AllWellFormed(a) && AllWellFormed(b) && AllWellFormed(c) && AllWellFormed(d)
    ensures AllWellFormed(a + b + c + d)
    ensures EncodeFields(a + b + c + d) ==
      EncodeFields(a) + EncodeFields(b) + EncodeFields(c) + EncodeFields(d)
  {
    EncodeFieldsAppend(a, b);
    EncodeFieldsAppend(a + b, c);
    EncodeFieldsAppend(a + b + c, d);
  }

  /** The fixed fields, written with the field layout, are the literals the builder appends. */
  lemma FixedFields()
    ensures Tlv("00", "01") + Tlv("01", "11") == Header
    ensures Tlv("53", "764") == Currency
    ensures Tlv("58", "TH") == Country
  {
    TlvLiteral("00", "01", "0002");
    TlvLiteral("01", "11", "0102");
    TlvLiteral("53", "764", "5303");
    TlvLiteral("58", "TH", "5802");
  }

  /** A field of a short literal value, with its tag and length written out. */
  lemma TlvLiteral(tag: string, value: string, head: string)
    requires |tag| == 2 && 2 <= |value| <= 3 && |head| == 4
    requires head[..2] == tag && head[2] == '0' && head[3] as int == '0' as int + |value|
    ensures Tlv(tag, value) == head + value
  {
    assert Len2(|value|) == head[2..];
  }

  lemma CrcField(c: string)
    requires |c| == 4
    ensures Tlv("63", c) == CrcHeader + c
  {
  }

  /** The merchant account value is the encoding of its two sub-fields. */
  lemma MerchantIsFields(phoneCC: string)
    requires |phoneCC| <= 73
    ensures AllWellFormed(MerchantFields(phoneCC))
    ensures EncodeFields(MerchantFields(phoneCC)) == MerchantInfo(phoneCC)
  {
    EncodeTwo(Field("00", Gui), Field("01", "00" + phoneCC));
  }

  lemma JoinSeven(a: string, b: string, c: string, d: string, e: string, f: string, g: string)
    ensures a + (b + c) + d + (e + (f + g)) == a + (b + c + d + e) + f + g
  {
  }

  lemma HeadEncodes()
    ensures AllWellFormed([Field("00", "01"), Field("01", "11")])
    ensures EncodeFields([Field("00", "01"), Field("01", "11")]) == Header
  {
    EncodeTwo(Field("00", "01"), Field("01", "11"));
    FixedFields();
  }

  lemma MerchantCurrencyEncodes(merchant: string)
    requires |merchant| <= 99
    ensures AllWellFormed([Field("29", merchant), Field("53", "764")])
    ensures EncodeFields([Field("29", merchant), Field("53", "764")]) == Tlv("29", merchant) + Currency
  {
    EncodeTwo(Field("29", merchant), Field("53", "764"));
    FixedFields();
  }

  lemma AmountEncodes(amount: Option<string>)
    requires amount.Some? ==> |amount.value| <= 99
    ensures AllWellFormed(AmountFields(amount))
    ensures EncodeFields(AmountFields(amount)) == AmountField(amount)
  {
    if amount.Some? {
      EncodeOne(Field("54", amount.value));
    }
  }

  lemma TailEncodes(crc: string)
    requires |crc| == 4
    ensures AllWellFormed([Field("58", "TH"), Field("63", crc)])
    ensures EncodeFields([Field("58", "TH"), Field("63", crc)]) == Country + (CrcHeader + crc)
  {
    EncodeTwo(Field("58", "TH"), Field("63", crc));
    FixedFields();
    CrcField(crc);
  }

  /** The prefix and its checksum are exactly the encoding of the data objects, in order. */
  lemma FieldsEncodePrefix(merchant: string, amount: Option<string>, crc: string)
    requires |merchant| <= 99 && (amount.Some? ==> |amount.value| <= 99) && |crc| == 4
    ensures AllWellFormed(Fields(merchant, amount, crc))
    ensures EncodeFields(Fields(merchant, amount, crc)) == Prefix(merchant, amount) + crc
  {
    var a := [Field("00", "01"), Field("01", "11")];
    var b := [Field("29", merchant), Field("53", "764")];
    var c := AmountFields(amount);
    var d := [Field("58", "TH"), Field("63", crc)];
    HeadEncodes();
    MerchantCurrencyEncodes(merchant);
    AmountEncodes(amount);
    TailEncodes(crc);
    EncodeFour(a, b, c, d);
    JoinSeven(Header, Tlv("29", merchant), Currency, AmountField(amount), Country, CrcHeader, crc);
  }

  /** The payload is exactly the encoding of its data objects, in order. */
  lemma PayloadIsFields(phone: string, amount: Option<string>)
    requires FitsLengths(phone, amount) && IsTextInput(phone, amount)
    ensures AllWellFormed(PayloadFields(phone, amount))
    ensures EncodeFields(PayloadFields(phone, amount)) == GeneratePayload(phone, amount)
  {
    PrefixIsText(phone, amount);
    var prefix := PayloadPrefix(phone, amount);
    FieldsEncodePrefix(MerchantInfo(PhoneToPromptPay(phone)), amount, Crc16(prefix));
  }

  /** A scanner reading the payload field by field recovers exactly these data objects. */
  lemma PayloadParses(phone: string, amount: Option<string>)
    requires FitsLengths(phone, amount) && IsTextInput(phone, amount)
    ensures ParseFields(GeneratePayload(phone, amount)) == Some(PayloadFields(phone, amount))
  {
    PayloadIsFields(phone, amount);
    FieldsRoundTrip(PayloadFields(phone, amount));
  }

  /** Reading the merchant account value in turn recovers the identifier and "00" + phone. */
  lemma MerchantParses(phoneCC: string)
    requires |phoneCC| <= 73
    ensures ParseFields(MerchantInfo(phoneCC)) == Some(MerchantFields(phoneCC))
  {
    MerchantIsFields(phoneCC);
    FieldsRoundTrip(MerchantFields(phoneCC));
  }

  /** Some field of `fs` carries `tag`. */
  predicate HasTag(fs: seq<Field>, tag: string) {
    exists i :: 0 <= i < |fs| && fs[i].tag == tag
  }

  /** Among the data objects, one tagged "54" is present exactly when there is an amount, and it holds the amount. */
  lemma AmountTagIffAmount(merchant: string, amount: Option<string>, crc: string)
    ensures HasTag(Fields(merchant, amount, crc), "54") <==> amount.Some?
    ensures amount.Some? ==> Fields(merchant, amount, crc)[4] == Field("54", amount.value)
  {
    var fs := Fields(merchant, amount, crc);
    if amount.Some? {
      assert fs[4].tag == "54";
    } else {
      assert |fs| == 6;
      forall i | 0 <= i < |fs|
        ensures fs[i].tag != "54"
      {
      }
    }
  }

  /** In the payload the builder produces, the amount field is there exactly when an amount was given. */
  lemma AmountTagIffPresent(phone: string, amount: Option<string>)
    requires FitsLengths(phone, amount) && IsTextInput(phone, amount)
    ensures HasTag(PayloadFields(phone, amount), "54") <==> amount.Some?
    ensures amount.Some? ==> PayloadFields(phone, amount)[4] == Field("54", amount.value)
  {
    PrefixIsText(phone, amount);
    var prefix := PayloadPrefix(phone, amount);
    AmountTagIffAmount(MerchantInfo(PhoneToPromptPay(phone)), amount, Crc16(prefix));
  }

  /** The pieces of a prefix, by position. */
  lemma PrefixSlices(h: string, t: string, c: string, a: string, y: string, z: string, crc: string)
    ensures var p := h + (t + c + a + y) + z + crc; var k := |h| + |t|;
      p[..k] == h + t && p[k..k + |c|] == c && p[k + |c|..k + |c| + |a|] == a
      && p[k + |c| + |a|..k + |c| + |a| + |y|] == y
  {
    var p := h + (t + c + a + y) + z + crc;
    var k := |h| + |t|;
    assert p == (h + t) + c + a + y + (z + crc);
  }

  /**
   The layout of a payload `p` for the number `phoneCC`: the header and the
   merchant account, then the currency, the amount field (empty when there is
   no amount) and the country.
   */
  predicate LaidOut(p: string, phoneCC: string, amount: Option<string>)
    requires |phoneCC| <= 73 && (amount.Some? ==> |amount.value| <= 99)
  {
    var k := 42 + |phoneCC|;
    var n := |AmountField(amount)|;
    k + 13 + n <= |p|
    && p[..k] == Header + Tlv("29", MerchantInfo(phoneCC)) && p[k..k + 7] == Currency
    && p[k + 7..k + 7 + n] == AmountField(amount) && p[k + 7 + n..k + 13 + n] == Country
  }

  /** A prefix with its checksum appended is laid out so, around the merchant account of any number. */
  lemma PrefixLayout(phoneCC: string, amount: Option<string>, crc: string)
    requires |phoneCC| <= 73 && (amount.Some? ==> |amount.value| <= 99)
    ensures LaidOut(Prefix(MerchantInfo(phoneCC), amount) + crc, phoneCC, amount)
  {
    var merchant := MerchantInfo(phoneCC);
    PrefixSlices(Header, Tlv("29", merchant), Currency, AmountField(amount), Country, CrcHeader, crc);
  }

  /** The payload is its prefix with the checksum of that prefix appended. */
  lemma PayloadIsPrefix(phone: string, amount: Option<string>)
    requires FitsLengths(phone, amount) && IsTextInput(phone, amount)
    ensures IsCodeUnits(PayloadPrefix(phone, amount))
    ensures GeneratePayload(phone, amount)
      == Prefix(MerchantInfo(PhoneToPromptPay(phone)), amount) + Crc16(PayloadPrefix(phone, amount))
  {
    PrefixIsText(phone, amount);
  }

  /** Every payload the builder produces is laid out so: the amount sits between the currency and the country. */
  lemma AmountPlacement(phone: string, amount: Option<string>)
    requires FitsLengths(phone, amount) && IsTextInput(phone, amount)
    ensures LaidOut(GeneratePayload(phone, amount), PhoneToPromptPay(phone), amount)
  {
    PayloadIsPrefix(phone, amount);
    PrefixLayout(PhoneToPromptPay(phone), amount, Crc16(PayloadPrefix(phone, amount)));
  }

  /** Inserting `a` between the currency and the country of a prefix, by position. */
  lemma Insertion(h: string, t: string, c: string, a: string, e: string, y: string, z: string, c1: string, c2: string)
    requires |e| == 0 && |c1| == |c2| == 4
    ensures var w := h + (t + c + a + y) + z + c1;
      var wo := h + (t + c + e + y) + z + c2;
      var k := |h| + |t| + |c|;
      |w| == |wo| + |a| && w[..k] == wo[..k] && w[k..k + |a|] == a
      && w[k + |a|..|w| - 4] == wo[k..|wo| - 4]
  {
    var w := h + (t + c + a + y) + z + c1;
    var wo := h + (t + c + e + y) + z + c2;
    assert e == [];
    assert w == (h + t + c) + a + (y + z) + c1;
    assert wo == (h + t + c) + (y + z) + c2;
  }

  /**
   `with` is `without` with `field` inserted at position `k`, apart from the
   four characters at the end of each.
   */
  predicate InsertedAt(with: string, without: string, k: nat, field: string) {
    k <= |without| - 4 && |with| == |without| + |field|
    && with[..k] == without[..k] && with[k..k + |field|] == field
    && with[k + |field|..|with| - 4] == without[k..|without| - 4]
  }

  /** Around any merchant account value, the amount field is inserted after the currency. */
  lemma PrefixInsertion(merchant: string, a: string, c1: string, c2: string)
    requires |merchant| <= 99 && |a| <= 99 && |c1| == |c2| == 4
    ensures InsertedAt(Prefix(merchant, Some(a)) + c1, Prefix(merchant, None) + c2, 23 + |merchant|, Tlv("54", a))
  {
    PrefixShape(merchant, Some(a));
    PrefixShape(merchant, None);
    Insertion(Header, Tlv("29", merchant), Currency, AmountField(Some(a)), AmountField(None), Country, CrcHeader, c1, c2);
  }

  /**
   Giving an amount inserts its field and nothing else: the two payloads agree
   up to and including the currency, and from the country to the checksum.
   */
  lemma AmountOnlyInserts(phone: string, a: string)
    requires FitsLengths(phone, Some(a)) && IsTextInput(phone, Some(a))
    ensures FitsLengths(phone, None) && IsTextInput(phone, None)
    ensures InsertedAt(GeneratePayload(phone, Some(a)), GeneratePayload(phone, None),
      49 + |PhoneToPromptPay(phone)|, Tlv("54", a))
  {
    PayloadIsPrefix(phone, Some(a));
    PayloadIsPrefix(phone, None);
    PrefixInsertion(MerchantInfo(PhoneToPromptPay(phone)), a,
      Crc16(PayloadPrefix(phone, Some(a))), Crc16(PayloadPrefix(phone, None)));
  }

  /** The last four characters of `p` read, in hexadecimal, as the CRC-16/CCITT-FALSE of the bytes before them. */
  predicate ChecksumTrailer(p: string) {
    |p| >= 4 && IsByteString(p[..|p| - 4]) && IsDigitString(p[|p| - 4..], 16)
    && ParseRadix(p[|p| - 4..], 16) == CcittFalse.Checksum(Bytes(p[..|p| - 4])) as nat
  }

  /** Appending `crc16` of a byte string gives it its checksum trailer. */
  lemma TrailerOf(prefix: string)
    requires IsByteString(prefix)
    ensures IsCodeUnits(prefix) && ChecksumTrailer(prefix + Crc16(prefix))
  {
    Crc16IsCcittFalse(prefix);
    var p := prefix + Crc16(prefix);
    assert p[..|p| - 4] == prefix && p[|p| - 4..] == Crc16(prefix);
  }

  /** On byte-string inputs, the payload carries the CRC-16/CCITT-FALSE of everything before the checksum. */
  lemma PayloadChecksum(phone: string, amount: Option<string>)
    requires FitsLengths(phone, amount)
    requires IsByteString(phone) && (amount.Some? ==> IsByteString(amount.value))
    ensures IsTextInput(phone, amount)
    ensures ChecksumTrailer(GeneratePayload(phone, amount))
  {
    PrefixBelow(phone, amount, 0x100);
    TrailerOf(PayloadPrefix(phone, amount));
    PayloadIsPrefix(phone, amount);
  }

  /**
   `Number(amount).toFixed(2)` for an amount that is a whole number of satang
   (hundredths of a baht): the baht written without leading zeros, a point,
   and exactly two digits of satang.
   */
  function FormatSatang(satang: nat): (r: string)
    ensures |r| >= 4 && r[|r| - 3] == '.'
    ensures IsDigitString(r[..|r| - 3], 10) && IsDigitString(r[|r| - 2..], 10)
    ensures ParseRadix(r[..|r| - 3], 10) * 100 + ParseRadix(r[|r| - 2..], 10) == satang
    ensures r[0] == '0' <==> satang < 100
    ensures satang < 100 ==> r[..|r| - 3] == "0"
  {
    var baht := ToRadix(satang / 100, 10);
    var cents := Len2(satang % 100);
    var r := baht + "." + cents;
    assert r[..|r| - 3] == baht && r[|r| - 2..] == cents;
    r
  }

  /** An amount of zero is still written out in full. */
  lemma FormatZero()
    ensures FormatSatang(0) == "0.00"
  {
    ZeroText(0);
  }

  /** `FormatZero` over a variable, so that the literal is not unrolled. */
  lemma ZeroText(satang: nat)
    requires satang == 0
    ensures FormatSatang(satang) == "0.00"
  {
    assert ToRadix(satang / 100, 10) == "0";
    assert Len2(satang % 100) == "00";
  }

  /** One hundred baht is written "100.00". */
  lemma FormatHundred()
    ensures FormatSatang(10000) == "100.00"
  {
    HundredText(10000);
  }

  /** `FormatHundred` over a variable. */
  lemma HundredText(satang: nat)
    requires satang == 10000
    ensures FormatSatang(satang) == "100.00"
  {
    HundredDigits(satang / 100);
    assert Len2(satang % 100) == "00";
  }

  /** A local mobile number loses its leading 0 to the country code 66. */
  lemma LocalNumber()
    ensures PhoneToPromptPay("0812345678") == "66812345678"
  {
    LocalText("0812345678");
  }

  /** `LocalNumber` over a variable. */
  lemma LocalText(phone: string)
    requires phone == "0812345678"
    ensures PhoneToPromptPay(phone) == "66812345678"
  {
    assert phone[0] == '0' && phone[1..] == "812345678";
  }

  /** The merchant account for that number: the identifier, then sub-field "01" holding "00" + 66812345678. */
  lemma LocalNumberAccount()
    ensures MerchantInfo("66812345678") == "0016" + Gui + "0113" + "0066812345678"
  {
    LocalAccountText("66812345678");
  }

  /** `LocalNumberAccount` over a variable. */
  lemma LocalAccountText(cc: string)
    requires cc == "66812345678"
    ensures MerchantInfo(cc) == "0016" + Gui + "0113" + "00" + cc
  {
    LengthDigits(|Gui|, "16");
    LengthDigits(|"00" + cc|, "13");
    assert MerchantInfo(cc) == ("00" + "16" + Gui) + ("01" + "13" + ("00" + cc));
  }

  /** The length digits of a length written out. */
  lemma LengthDigits(n: nat, d: string)
    requires 10 <= n <= 19 && |d| == 2 && d[0] == '1' && d[1] as int == '0' as int + n - 10
    ensures Len2(n) == d
  {
  }
}
