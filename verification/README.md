# PromptPay payload builder in Dafny

This project models the part of the PromptPay QR generator that builds the payload string. It covers three functions of `src/App.jsx`:

- `crc16` is the checksum.
- `phoneToPromptPay` normalizes the phone number.
- `generatePromptPayPayload` assembles the EMV QR Code (Merchant-Presented Mode) payload that a Thai banking app scans.

The payload is a run of tag-length-value fields, in this order:

1. the payload format indicator and the point of initiation (static);
2. the PromptPay merchant account (ID 29), which nests the application identifier and the phone number;
3. currency 764;
4. an optional amount;
5. country TH;
6. the checksum field `6304`, followed by four upper-case hexadecimal digits. They are computed over everything before them, `6304` included.

Modules:

- `Wrappers`: `Option`.
- `Text`: the JavaScript string primitives the builder uses, and `ParseRadix`, which reads back the number that a digit string denotes.
  - `toString(radix)` on non-negative integers
  - `padStart`
  - ASCII `toUpperCase`
- `CcittFalse`: a bit-serial reference for CRC-16/CCITT-FALSE. It is a 16-bit shift register with polynomial 0x1021 and preset 0xFFFF. Bits are fed most significant first, with no reflection and no final XOR.
- `Crc`: `crc16` step for step.
  - The register is kept in the 32-bit integers that JavaScript's bitwise operators use.
  - It is proved to compute the reference checksum of the code units' low bytes.
  - It is proved to match the catalogue check value (`"123456789"` gives `29B1`).
- `Emv`: the TLV layout and a field parser that reads it back. The parser is the inverse that gives the layout its meaning.
- `PromptPay`: the number normalizer, the payload builder and the laws of the payload.
  - the structure: the payload parses back into its fields, and the merchant account parses into its two sub-fields;
  - where the amount sits;
  - that an amount only inserts a field;
  - the checksum trailer.

Two behaviours of the code are modelled as written, although a reader might expect otherwise:

- The account sub-field (ID 01 inside ID 29) holds `"00" + phoneCC`, not the bare number. So `0812345678` becomes the sub-field value `0066812345678`, not `660812345678` (`PromptPay.LocalNumberAccount`).
- No field length is checked. Every length a two-digit field can hold is a precondition instead: the number after normalization is at most 73 characters and the amount at most 99.

## Model

| member | source | states |
|---|---|---|
| Crc.ShiftStep | src/App.jsx:10-11 | one inner step leaves the register within 16 bits |
| Crc.ShiftSteps | src/App.jsx:9-12 | after one or more inner steps the register is within 16 bits, whatever it held before |
| Crc.FeedChar | src/App.jsx:8-12 | one outer turn (XOR of the code unit shifted by 8, then eight steps) leaves the register within 16 bits |
| Crc.Register | src/App.jsx:6-13 | the register after the outer loop stays within 16 bits for any preset within 16 bits |
| Crc.FeedCodeUnit | src/App.jsx:8-12 | the inner loop as written (if/else on bit 15, mask 0xFFFF) computes one outer turn |
| Crc.ComputeCrc16 | src/App.jsx:5-15 | the loops as written return exactly `Crc16` of the payload |
| Crc.Crc16 | src/App.jsx:5-15 | the checksum text is four upper-case hexadecimal digits that read back as the final register |
| Crc.RegisterAppend | src/App.jsx:7-13 | the loop over `a + b` continues from the register left by `a` |
| Crc.FeedCharIsEightClocks | src/App.jsx:8-12 | one byte-at-a-time turn equals clocking the low byte's eight bits, most significant first, into the bit-serial register |
| Crc.RegisterIsCcittFalse | src/App.jsx:6-13 | the loop computes the bit-serial CRC-16/CCITT-FALSE register over the low bytes of the code units |
| Crc.Crc16OfLowBytes | src/App.jsx:5-15 | `crc16` of any JavaScript string is CRC-16/CCITT-FALSE of its code units' low bytes |
| Crc.Crc16IsCcittFalse | src/App.jsx:5-15 | on byte strings, `crc16` is CRC-16/CCITT-FALSE of exactly the string's bytes |
| Crc.Crc16Determined | src/App.jsx:14 | two checksum texts are equal if and only if the two final registers are equal |
| Crc.Crc16Empty | src/App.jsx:6-14 | the empty string gives `FFFF`, the preset |
| Crc.CheckValue | src/App.jsx:5-15 | `"123456789"` gives `29B1`, the published check value of CRC-16/CCITT-FALSE |
| CcittFalse.RunAppend | src/App.jsx:7-13 | clocking in two bit streams in turn is clocking in their concatenation |
| Text.ToRadix | src/App.jsx:14 | `toString(radix)` gives lower-case digits that read back as `n`, with a leading `0` only for zero, and zero is written as the single digit `0` |
| Text.PadStart | src/App.jsx:14 | `padStart(width, pad)` leaves a string of at least `width` characters unchanged; a shorter one becomes exactly `width` characters, ending in the original and padded in front with `pad` only |
| Text.ToUpperCase | src/App.jsx:14 | no lower-case ASCII letter is left; every other character is kept in place; each lower-case letter becomes the upper-case letter at the same place in the alphabet |
| Text.ToRadixLength | src/App.jsx:14 | a number below `radix^k` takes at most `k` digits |
| Text.UpperKeepsValue | src/App.jsx:14 | `toUpperCase` on lower-case hexadecimal keeps the number and gives upper-case digits |
| Text.PadWithZeros | src/App.jsx:14 | `padStart` with `"0"` keeps the number and keeps upper case |
| Text.PaddedUpperHex | src/App.jsx:14 | `toString(16).toUpperCase().padStart(4, "0")` gives exactly four upper-case digits that read back as the register |
| Text.DigitsUnique | src/App.jsx:14 | two upper-case digit strings of one length and one radix that denote one number are equal, so the fixed-width rendering of a number is unique |
| Text.PaddedDigits | src/App.jsx:29-30 | `length.toString().padStart(2, "0")` gives exactly the width in decimal digits, reading back as the length |
| Emv.Len2 | src/App.jsx:29-37 | the length digits of a field are two decimal digits that read back as the length |
| Emv.Len2IsPadded | src/App.jsx:29-37 | `Len2` is exactly what `length.toString().padStart(2, "0")` writes for lengths up to 99 |
| Emv.Tlv | src/App.jsx:29-37 | a field is its tag, two length digits and its value |
| Emv.TlvParts | src/App.jsx:29-37 | the slices of a field are the tag, the length digits of the value's length, and the value |
| Emv.TlvAsWritten | src/App.jsx:29-37 | a field as written for any value length: the length digits are `length.toString().padStart(2, "0")`, so the field has at least tag + 2 + value characters |
| Emv.AsWrittenIsTlv | src/App.jsx:29-37 | up to 99 characters the field as written is exactly `Tlv` |
| Emv.LongFieldMisread | src/App.jsx:29-37 | a 100-character value gets three length digits, and a reader does not recover the field |
| Emv.EncodeThenParse | src/App.jsx:29-37 | reading a field from the front of its encoding gives the field back and leaves the rest untouched |
| Emv.ParseThenEncode | src/App.jsx:29-37 | whatever the field reader accepts is a well-formed field's encoding followed by the rest |
| Emv.FieldsRoundTrip | src/App.jsx:26-42 | reading a run of encoded fields gives the fields back |
| Emv.ParsedFieldsEncode | src/App.jsx:26-42 | whatever the field reader accepts is the encoding of the fields it returns |
| Emv.EncodeFieldsAppend | src/App.jsx:26-42 | encoding distributes over joining field lists |
| PromptPay.PhoneToPromptPay | src/App.jsx:18-21 | the result is `"66" + phone[1..]` exactly when the number starts with `0`, and the number unchanged exactly when it does not; the result never starts with `0` |
| PromptPay.PhoneIdempotent | src/App.jsx:18-21 | normalizing twice is normalizing once |
| PromptPay.LocalNumber | src/App.jsx:18-21 | `0812345678` becomes `66812345678` |
| PromptPay.MerchantInfo | src/App.jsx:28-31 | the merchant account value is 26 characters plus the number, so it fits a two-digit length |
| PromptPay.MerchantParses | src/App.jsx:28-31 | the merchant account value reads back as the application identifier (ID 00) and `"00" + number` (ID 01) |
| PromptPay.LocalNumberAccount | src/App.jsx:28-31 | for `66812345678` the account is `0016` + identifier + `0113` + `0066812345678` |
| PromptPay.AmountField | src/App.jsx:35-38 | the amount field is empty without an amount and is 4 + its length with one |
| PromptPay.Prefix | src/App.jsx:26-41 | the checksummed part starts with the header `000201010211`, ends with `6304`, and has the length of its fields |
| PromptPay.PayloadPrefix | src/App.jsx:25-41 | the same for the builder's own merchant account: 59 + number + amount field characters |
| PromptPay.FixedFields | src/App.jsx:26-39 | the literal header, currency and country are the TLV fields 00=01, 01=11, 53=764, 58=TH |
| PromptPay.GeneratePayload | src/App.jsx:24-45 | the payload starts with the header and has `6304` before four upper-case hexadecimal digits, and those digits are `crc16` of everything before them; its length is 63 + number, plus 4 + amount with an amount |
| PromptPay.PayloadIsFields | src/App.jsx:24-45 | the payload is exactly the encoding of the fields 00, 01, 29, 53, [54,] 58, 63 in that order |
| PromptPay.PayloadParses | src/App.jsx:24-45 | a field reader recovers exactly those fields from the payload |
| PromptPay.AmountTagIffPresent | src/App.jsx:35-38 | a field tagged 54 is present if and only if an amount was given, and then it is the fifth field and holds the amount |
| PromptPay.AmountPlacement | src/App.jsx:32-39 | the header and merchant account come first, then the currency, the amount field and the country, at fixed positions |
| PromptPay.AmountOnlyInserts | src/App.jsx:34-39 | with an amount, the payload is the amount-less payload with the amount field inserted after the currency; only the checksum differs otherwise |
| PromptPay.PayloadChecksum | src/App.jsx:41-42 | on byte-string inputs the last four characters read as CRC-16/CCITT-FALSE of the bytes before them |
| PromptPay.FormatSatang | src/App.jsx:36 | `toFixed(2)` of a whole number of satang: baht digits without leading zeros, a point, two digits; reading them back gives the amount; below one baht the integer part is exactly `0` |
| PromptPay.FormatZero | src/App.jsx:36 | an amount of 0 is written `0.00` |
| PromptPay.FormatHundred | src/App.jsx:36 | 100 baht is written `100.00` |

## Left out

- The React component, the QR image rendering and the download action (src/App.jsx line 47 on): UI and I/O outside the payload builder.
- `Number(amount)` on arbitrary input and `toFixed(2)` on binary floating point. `GeneratePayload` takes the amount already formatted as a string (`None` for `null`/`undefined`). `FormatSatang` models `toFixed(2)` only for amounts that are a whole number of satang; negative amounts, `NaN` and exponent notation are not modelled.
- Field lengths over 99 (see Findings): the payload functions take the limits as preconditions (`FitsLengths`), not as an error result.
- Text.ToUpperCase: only ASCII letters are case-mapped, and the length is kept. JavaScript's `toUpperCase` maps all of Unicode and can lengthen a string (`"ß"` becomes `"SS"`). This is harmless here because its only input is `toString(16)` output, which holds only `0`-`9` and `a`-`f`.
- `PromptPay.GeneratePayload`: characters are UTF-16 code units (below 0x10000). Strings holding characters outside the Basic Multilingual Plane, which JavaScript splits into surrogate pairs, are not modelled.
- UTF-8 encoding of the payload is not modelled, because `crc16` never encodes: it XORs each whole code unit into the register. For a code unit at 0x100 or above, the bits shifted past bit 15 are discarded, so only the low byte reaches the checksum (`Crc.Crc16OfLowBytes`).
- `PromptPay.PayloadChecksum`: it is stated for byte-string inputs only, where the checksummed bytes are the characters themselves; other inputs are covered by `Crc.Crc16OfLowBytes`.
- The full payload for a concrete phone number is not computed; the concrete examples stop at the merchant account and the amount text.

## Findings

| source | as written | input that shows it | evidently intended | confidence | as-written member | corrected member |
|---|---|---|---|---|---|---|
| src/App.jsx:29-37 | every field length is `length.toString().padStart(2, "0")` with no limit, so a value of 100 or more characters gets three length digits | a phone number of 74 characters that does not start with `0` makes a merchant account value of 100 characters | the two-digit length of EMV QR Code fields is never exceeded: values stay at 99 characters or fewer, and a field reader reads every field back | not executed; the arithmetic is proved, but phone numbers that long do not occur in practice | Emv.LongFieldMisread | Emv.Tlv, with the read-back proved in Emv.EncodeThenParse and Emv.FieldsRoundTrip |
