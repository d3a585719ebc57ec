/** Pinning a host key: the fingerprint text of the command line against the digest of the
    key the server presents. */
module HostKey {
  import opened Basics

  const DIGEST_SIZE: nat := 32
  const HEX_SIZE: nat := 64

  const COLON: char16 := 0x3a
  const DASH: char16 := 0x2d

  /** The value of a hexadecimal digit in either case, or -1. */
  function HexValue(c: char16): (value: int)
    ensures -1 <= value < 16
  {
    if 0x30 <= c <= 0x39 then c - 0x30
    else if 0x61 <= c <= 0x66 then c - 0x61 + 10
    else if 0x41 <= c <= 0x46 then c - 0x41 + 10
    else -1
  }

  function LowerDigit(value: nat): (digit: byte)
    requires value < 16
    ensures digit != 0 && HexValue(digit) == value
  {
    if value < 10 then 0x30 + value else 0x61 + value - 10
  }

  /** What remains of a text without its separators. */
  function Significant(text: seq<char16>): seq<char16> {
    if text == [] then []
    else
      var last := text[|text| - 1];
      Significant(text[..|text| - 1]) + (if last == COLON || last == DASH then [] else [last])
  }

  predicate AllHex(text: seq<char16>) {
    forall i | 0 <= i < |text| :: HexValue(text[i]) >= 0
  }

  /** Exactly 64 hexadecimal digits and no other characters than separators. */
  predicate IsFingerprint(text: seq<char16>) {
    AllHex(Significant(text)) && |Significant(text)| == HEX_SIZE
  }

  function Lowered(digits: seq<char16>): (lower: seq<byte>)
    requires AllHex(digits)
    ensures |lower| == |digits|
  {
    seq(|digits|, i requires 0 <= i < |digits| => LowerDigit(HexValue(digits[i])))
  }

  /** The bytes a fingerprint text denotes: two digits each. */
  function Denoted(text: seq<char16>): (bytes: seq<byte>)
    requires IsFingerprint(text)
    ensures |bytes| == DIGEST_SIZE
  {
    var digits := Significant(text);
    seq(DIGEST_SIZE, i requires 0 <= i < DIGEST_SIZE => HexValue(digits[2 * i]) * 16 + HexValue(digits[2 * i + 1]))
  }

  function Rendered(digest: seq<byte>): (hex: seq<byte>)
    ensures |hex| == 2 * |digest|
  {
    seq(2 * |digest|, i requires 0 <= i < 2 * |digest| =>
      if i % 2 == 0 then LowerDigit(digest[i / 2] / 16) else LowerDigit(digest[i / 2] % 16))
  }

  lemma {:induction false} SignificantGrows(text: seq<char16>, n: nat)
    requires n <= |text|
    ensures Significant(text[..n]) <= Significant(text)
    decreases |text| - n
  {
    if n == |text| {
      assert text[..n] == text;
    } else {
      assert text[..n + 1][..n] == text[..n];
      SignificantGrows(text, n + 1);
    }
  }

  /** Fails exactly on texts that are not fingerprints, and otherwise stores the lower-case
      digits without separators, terminated. */
  method ParseFingerprint(text: seq<char16>, fingerprint: array<byte>) returns (ok: bool)
    requires 0 !in text && fingerprint.Length == HEX_SIZE + 1
    modifies fingerprint
    ensures ok <==> IsFingerprint(text)
    ensures ok ==> fingerprint[..HEX_SIZE] == Lowered(Significant(text)) && fingerprint[HEX_SIZE] == 0
  {
    var outputIndex := 0;
    for inputIndex := 0 to |text|
      invariant 0 <= outputIndex <= HEX_SIZE
      invariant AllHex(Significant(text[..inputIndex])) && |Significant(text[..inputIndex])| == outputIndex
      invariant fingerprint[..outputIndex] == Lowered(Significant(text[..inputIndex]))
    {
      assert text[..inputIndex + 1][..inputIndex] == text[..inputIndex];
      ghost var before := Significant(text[..inputIndex]);
      if text[inputIndex] == COLON || text[inputIndex] == DASH {
        continue;
      }
      var value := HexValue(text[inputIndex]);
      SignificantGrows(text, inputIndex + 1);
      if value < 0 || outputIndex >= HEX_SIZE {
        assert Significant(text[..inputIndex + 1])[outputIndex] == text[inputIndex];
        return false;
      }
      fingerprint[outputIndex] := LowerDigit(value);
      outputIndex := outputIndex + 1;
      assert Lowered(before + [text[inputIndex]]) == Lowered(before) + [LowerDigit(value)];
    }
    assert text[..|text|] == text;
    if outputIndex != HEX_SIZE {
      return false;
    }
    fingerprint[outputIndex] := 0;
    return true;
  }

  /** The loop that renders a digest in lower-case hexadecimal, terminated. */
  method RenderDigest(digest: seq<byte>, hex: array<byte>)
    requires |digest| == DIGEST_SIZE && hex.Length == HEX_SIZE + 1
    modifies hex
    ensures hex[..HEX_SIZE] == Rendered(digest) && hex[HEX_SIZE] == 0
  {
    for index := 0 to DIGEST_SIZE
      invariant forall i | 0 <= i < 2 * index :: hex[i] == Rendered(digest)[i]
    {
      hex[index * 2] := LowerDigit(digest[index] / 16);
      hex[index * 2 + 1] := LowerDigit(digest[index] % 16);
    }
    hex[HEX_SIZE] := 0;
  }

  /** Comparing digits is comparing bytes: for every fingerprint text, in any mix of cases and
      separators, its stored form equals the rendered digest exactly when it denotes the digest. */
  lemma MatchIsSemantic(text: seq<char16>, digest: seq<byte>)
    requires IsFingerprint(text) && |digest| == DIGEST_SIZE
    ensures Rendered(digest) == Lowered(Significant(text)) <==> digest == Denoted(text)
  {
    hide Significant;
    var digits, hex := Significant(text), Rendered(digest);
    var lower, bytes := Lowered(digits), Denoted(text);
    if hex == lower {
      forall i | 0 <= i < DIGEST_SIZE ensures digest[i] == bytes[i] {
        DigitsOfByte(text, digest, i);
      }
    }
    if digest == bytes {
      forall i | 0 <= i < HEX_SIZE ensures hex[i] == lower[i] {
        DigitsOfByte(text, digest, i / 2);
        assert i == 2 * (i / 2) || i == 2 * (i / 2) + 1;
      }
    }
  }

  /** Two digits agree exactly when the byte they stand for does. */
  lemma DigitsOfByte(text: seq<char16>, digest: seq<byte>, i: nat)
    requires IsFingerprint(text) && |digest| == DIGEST_SIZE && i < DIGEST_SIZE
    ensures var hex, lower := Rendered(digest), Lowered(Significant(text));
            digest[i] == Denoted(text)[i] <==> hex[2 * i] == lower[2 * i] && hex[2 * i + 1] == lower[2 * i + 1]
  {
    hide Significant;
    var digits, hex := Significant(text), Rendered(digest);
    assert HexValue(hex[2 * i]) == digest[i] / 16 && HexValue(hex[2 * i + 1]) == digest[i] % 16;
    assert HexValue(Lowered(digits)[2 * i]) == HexValue(digits[2 * i]);
    assert HexValue(Lowered(digits)[2 * i + 1]) == HexValue(digits[2 * i + 1]);
  }

  // ---------- Digits, case and separators ----------

  /** The hexadecimal digit of a value, as it is written in lower or in upper case. */
  function Digit(value: nat, upper: bool): char16
    requires value < 16
  {
    if upper then "0123456789ABCDEF"[value] as int else "0123456789abcdef"[value] as int
  }

  /** A character has a value exactly when it is a digit, and then it is the digit of that value. */
  lemma DigitsAreExact(c: char16)
    ensures HexValue(c) >= 0 <==>
            '0' as int <= c <= '9' as int || 'a' as int <= c <= 'f' as int || 'A' as int <= c <= 'F' as int
    ensures HexValue(c) < 16
    ensures HexValue(c) >= 0 ==> c == Digit(HexValue(c), false) || c == Digit(HexValue(c), true)
  {
    assert "0123456789abcdef"[10..] == "abcdef" && "0123456789ABCDEF"[10..] == "ABCDEF";
  }

  lemma DigitHasValue(value: nat, upper: bool)
    requires value < 16
    ensures HexValue(Digit(value, upper)) == value && Digit(value, upper) != ':' as int && Digit(value, upper) != '-' as int
  {
  }

  /** The same character, or the same letter in the other case. */
  predicate SameLetter(a: char16, b: char16) {
    || a == b
    || ('A' as int <= a <= 'Z' as int && b == a + 0x20)
    || ('A' as int <= b <= 'Z' as int && a == b + 0x20)
  }

  predicate SameButCase(a: seq<char16>, b: seq<char16>) {
    |a| == |b| && forall i | 0 <= i < |a| :: SameLetter(a[i], b[i])
  }

  lemma SameLetterSameValue(a: char16, b: char16)
    requires SameLetter(a, b)
    ensures HexValue(a) == HexValue(b)
    ensures a == ':' as int || a == '-' as int <==> b == ':' as int || b == '-' as int
  {
  }

  lemma {:induction false} SignificantSameButCase(a: seq<char16>, b: seq<char16>)
    requires SameButCase(a, b)
    ensures SameButCase(Significant(a), Significant(b))
    decreases |a|
  {
    hide SameLetter;
    if a != [] {
      SignificantSameButCase(a[..|a| - 1], b[..|b| - 1]);
      SameLetterSameValue(a[|a| - 1], b[|b| - 1]);
    }
  }

  /** Texts that differ in the case of letters only are fingerprints both or neither; they store the
      same pin and denote the same bytes. */
  lemma CaseDoesNotMatter(a: seq<char16>, b: seq<char16>)
    requires SameButCase(a, b)
    ensures IsFingerprint(a) <==> IsFingerprint(b)
    ensures IsFingerprint(a) ==> Lowered(Significant(a)) == Lowered(Significant(b)) && Denoted(a) == Denoted(b)
  {
    hide Significant, HexValue, SameLetter;
    SignificantSameButCase(a, b);
    var s, t := Significant(a), Significant(b);
    forall i | 0 <= i < |s| ensures HexValue(s[i]) == HexValue(t[i]) {
      SameLetterSameValue(s[i], t[i]);
    }
  }

  /** Separators vanish, every other character stays, in order. */
  lemma {:induction false} SeparatorsDoNotMatter(a: seq<char16>, c: char16, b: seq<char16>)
    ensures Significant(a + [c] + b)
         == Significant(a) + (if c == ':' as int || c == '-' as int then [] else [c]) + Significant(b)
    decreases |b|
  {
    if b == [] {
      assert (a + [c] + b)[..|a|] == a;
    } else {
      var text := a + [c] + b;
      assert text[..|text| - 1] == a + [c] + b[..|b| - 1];
      SeparatorsDoNotMatter(a, c, b[..|b| - 1]);
    }
  }

  /** The two digits of every byte, high one first. */
  function Written(digest: seq<byte>): (text: seq<char16>)
    ensures |text| == 2 * |digest|
  {
    seq(2 * |digest|, i requires 0 <= i < 2 * |digest| =>
      Digit(if i % 2 == 0 then digest[i / 2] / 16 else digest[i / 2] % 16, false))
  }

  lemma RenderedIsWritten(digest: seq<byte>)
    ensures Rendered(digest) == Written(digest)
  {
    forall i | 0 <= i < 2 * |digest| ensures Rendered(digest)[i] == Written(digest)[i] {
      LowerDigitIsDigit(if i % 2 == 0 then digest[i / 2] / 16 else digest[i / 2] % 16);
    }
  }

  lemma LowerDigitIsDigit(value: nat)
    requires value < 16
    ensures LowerDigit(value) == Digit(value, false)
  {
  }

  /** A digest written out in any mix of cases, with separators anywhere, is a fingerprint that
      denotes it and that is stored as its lower-case digits. */
  lemma WrittenDigestIsDenoted(text: seq<char16>, digest: seq<byte>)
    requires |digest| == DIGEST_SIZE && SameButCase(Significant(text), Written(digest))
    ensures IsFingerprint(text) && Denoted(text) == digest && Lowered(Significant(text)) == Written(digest)
  {
    hide Significant, HexValue, SameLetter, Digit, Rendered;
    var digits, written := Significant(text), Written(digest);
    forall i | 0 <= i < HEX_SIZE
      ensures HexValue(digits[i]) == if i % 2 == 0 then digest[i / 2] / 16 else digest[i / 2] % 16
    {
      SameLetterSameValue(digits[i], written[i]);
      DigitHasValue(if i % 2 == 0 then digest[i / 2] / 16 else digest[i / 2] % 16, false);
    }
    forall i | 0 <= i < DIGEST_SIZE ensures Denoted(text)[i] == digest[i] {
      assert HexValue(digits[2 * i]) == digest[i] / 16 && HexValue(digits[2 * i + 1]) == digest[i] % 16;
    }
    RenderedIsWritten(digest);
    MatchIsSemantic(text, digest);
  }

  /** The characters before the terminator. */
  function TextOf(buffer: seq<byte>): seq<byte> {
    if buffer == [] || buffer[0] == 0 then [] else [buffer[0]] + TextOf(buffer[1..])
  }

  lemma TextStopsAt(buffer: seq<byte>, n: nat)
    requires n < |buffer| && buffer[n] == 0 && forall i | 0 <= i < n :: buffer[i] != 0
    ensures TextOf(buffer) == buffer[..n]
  {
    if n > 0 {
      TextStopsAt(buffer[1..], n - 1);
    }
  }

  /** The host-key check of one session. */
  class HostKeyCheck {
    const pinned: bool
    const fingerprint: array<byte>
    const acceptAny: bool
    var checked: bool
    var accepted: bool

    constructor (pinned: bool, fingerprint: array<byte>, acceptAny: bool)
      ensures this.pinned == pinned && this.fingerprint == fingerprint && this.acceptAny == acceptAny
      ensures !checked && !accepted
    {
      this.pinned, this.fingerprint, this.acceptAny := pinned, fingerprint, acceptAny;
      checked, accepted := false, false;
    }

    /** The library's question about a presented key: 0 accepts, -1 rejects. `digest` is the
        key's hash, if hashing worked, and `confirmed` what the user would answer. A key that
        could not be hashed is rejected and leaves the question open; once it has been
        decided, the first decision answers every later call. */
    method Ask(present: bool, digest: Option<seq<byte>>, confirmed: bool) returns (code: int)
      requires fingerprint.Length == HEX_SIZE + 1
      requires digest.Some? ==> |digest.value| == DIGEST_SIZE
      modifies this
      ensures if !present then code == -1 && checked == old(checked) && accepted == old(accepted)
              else if old(checked) then
                code == (if old(accepted) then 0 else -1) && checked && accepted == old(accepted)
              else if digest.None? then code == -1 && !checked && accepted == old(accepted)
              else
                && checked && code == (if accepted then 0 else -1)
                && accepted == (if pinned then Rendered(digest.value) == TextOf(fingerprint[..]) else acceptAny || confirmed)
    {
      if !present {
        return -1;
      }
      if checked {
        return if accepted then 0 else -1;
      }
      if digest.None? {
        return -1;
      }
      var hex := new byte[HEX_SIZE + 1];
      RenderDigest(digest.value, hex);
      checked := true;
      if pinned {
        forall i | 0 <= i < HEX_SIZE ensures hex[i] != 0 {
          assert hex[..HEX_SIZE][i] == Rendered(digest.value)[i];
        }
        TextStopsAt(hex[..], HEX_SIZE);
        assert hex[..][..HEX_SIZE] == hex[..HEX_SIZE];
        accepted := TextOf(hex[..]) == TextOf(fingerprint[..]);
      } else if acceptAny {
        accepted := true;
      } else {
        accepted := confirmed;
      }
      code := if accepted then 0 else -1;
    }
  }

  /** From the command line to the decision: with a pin that was parsed, the first key that can
      be hashed is accepted exactly when the pin text denotes its digest. */
  method PinDecides(text: seq<char16>, digest: seq<byte>) returns (parsed: bool, code: int)
    requires 0 !in text && |digest| == DIGEST_SIZE
    ensures parsed <==> IsFingerprint(text)
    ensures parsed ==> (code == 0 <==> digest == Denoted(text))
    ensures code == 0 || code == -1
  {
    var fingerprint := new byte[HEX_SIZE + 1](_ => 0);
    parsed := ParseFingerprint(text, fingerprint);
    code := -1;
    if parsed {
      forall i | 0 <= i < HEX_SIZE ensures fingerprint[i] != 0 {
        assert fingerprint[..HEX_SIZE][i] == Lowered(Significant(text))[i];
      }
      TextStopsAt(fingerprint[..], HEX_SIZE);
      assert fingerprint[..][..HEX_SIZE] == fingerprint[..HEX_SIZE];
      var check := new HostKeyCheck(true, fingerprint, false);
      code := check.Ask(true, Some(digest), false);
      MatchIsSemantic(text, digest);
    }
  }

  // ---------- The port option ----------

  predicate AllDigits(text: seq<char16>) {
    forall i | 0 <= i < |text| :: 0x30 <= text[i] <= 0x39
  }

  function DecimalValue(text: seq<char16>): nat
    requires AllDigits(text)
  {
    if text == [] then 0 else DecimalValue(text[..|text| - 1]) * 10 + (text[|text| - 1] - 0x30)
  }

  lemma PrefixIsSmaller(text: seq<char16>, n: nat)
    requires AllDigits(text) && n <= |text|
    ensures DecimalValue(text[..n]) <= DecimalValue(text)
    decreases |text| - n
  {
    if n == |text| {
      assert text[..n] == text;
    } else {
      assert text[..n + 1][..n] == text[..n];
      PrefixIsSmaller(text, n + 1);
    }
  }

  /** Accepts exactly the decimal texts, of any length, with a value from 1 to 65535. */
  method ParsePort(text: seq<char16>) returns (port: Option<nat>)
    requires 0 !in text
    ensures port.Some? <==> text != [] && AllDigits(text) && 1 <= DecimalValue(text) <= 0xffff
    ensures port.Some? ==> port.value == DecimalValue(text)
  {
    if text == [] {
      return None;
    }
    var value: nat := 0;
    for index := 0 to |text|
      invariant AllDigits(text[..index]) && value == DecimalValue(text[..index]) && value <= 0xffff
    {
      if text[index] < 0x30 || text[index] > 0x39 {
        return None;
      }
      assert text[..index + 1][..index] == text[..index];
      value := value * 10 + (text[index] - 0x30);
      if value > 0xffff {
        if AllDigits(text) {
          PrefixIsSmaller(text, index + 1);
        }
        return None;
      }
    }
    assert text[..|text|] == text;
    if value == 0 {
      return None;
    }
    return Some(value);
  }
}
