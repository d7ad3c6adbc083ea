/**
 Text of unbounded integers, as `big.Int.Text`, `big.Int.SetString`, `strconv.Itoa` and
 `strconv.Atoi` write and read it, and the certificate serial normalisation built on them.
 */
module Numerals {
  import opened Common

  const ALPHABET := "0123456789abcdef"

  function DigitOf(d: nat): char
    requires d < 16
  {
    ALPHABET[d]
  }

  /** The value of a lower-case digit, or 16 for any other character. */
  function DigitValue(c: char): nat {
    if '0' <= c <= '9' then (c as int) - ('0' as int)
    else if 'a' <= c <= 'f' then (c as int) - ('a' as int) + 10
    else 16
  }

  function NatText(n: nat, base: nat): string
    requires 2 <= base <= 16
  {
    if n < base then [DigitOf(n)] else NatText(n / base, base) + [DigitOf(n % base)]
  }

  function IntText(i: int, base: nat): string
    requires 2 <= base <= 16
  {
    if i < 0 then "-" + NatText(-i, base) else NatText(i, base)
  }

  predicate AllDigits(s: string, base: nat) {
    forall i :: 0 <= i < |s| ==> DigitValue(s[i]) < base
  }

  function DigitsValue(s: string, base: nat): nat {
    if s == "" then 0 else DigitsValue(s[..|s| - 1], base) * base + DigitValue(s[|s| - 1])
  }

  /** A sign is optional, at least one digit is required, and every character must be consumed. */
  function ParseInt(s: string, base: nat): Option<int> {
    var signed := s != "" && (s[0] == '-' || s[0] == '+');
    var digits := if signed then s[1..] else s;
    if digits == "" || !AllDigits(digits, base) then None
    else if signed && s[0] == '-' then Some(-(DigitsValue(digits, base) as int))
    else Some(DigitsValue(digits, base))
  }

  lemma DigitRoundTrip(d: nat)
    requires d < 16
    ensures DigitValue(DigitOf(d)) == d
  {
    assert ALPHABET[d] == "0123456789abcdef"[d];
  }

  lemma AppendDigit(s: string, c: char, base: nat)
    requires AllDigits(s, base) && DigitValue(c) < base
    ensures AllDigits(s + [c], base)
    ensures DigitsValue(s + [c], base) == DigitsValue(s, base) * base + DigitValue(c)
  {
    assert (s + [c])[..|s|] == s;
  }

  lemma {:induction false} NatTextParses(n: nat, base: nat)
    requires 2 <= base <= 16
    ensures NatText(n, base) != "" && AllDigits(NatText(n, base), base)
    ensures DigitsValue(NatText(n, base), base) == n
    decreases n
  {
    if n < base {
      DigitRoundTrip(n);
      AppendDigit("", DigitOf(n), base);
      assert NatText(n, base) == "" + [DigitOf(n)];
    } else {
      var high, low := n / base, n % base;
      DivisionShrinks(n, base);
      NatTextParses(high, base);
      DigitRoundTrip(low);
      AppendDigit(NatText(high, base), DigitOf(low), base);
    }
  }

  lemma DivisionShrinks(n: nat, base: nat)
    requires 2 <= base <= n
    ensures n == n / base * base + n % base && 0 < n / base < n
  {
  }

  lemma DigitIsNotSign(c: char)
    requires DigitValue(c) < 16
    ensures c != '-' && c != '+' && !IsSpace(c)
  {
  }

  /** Printing and parsing undo each other, for every integer and every base. */
  lemma TextRoundTrip(i: int, base: nat)
    requires 2 <= base <= 16
    ensures ParseInt(IntText(i, base), base) == Some(i)
  {
    var n := if i < 0 then -i else i;
    NatTextParses(n, base);
    DigitsParse(NatText(n, base), base);
  }

  lemma DigitsParse(digits: string, base: nat)
    requires base <= 16 && digits != "" && AllDigits(digits, base)
    ensures ParseInt(digits, base) == Some(DigitsValue(digits, base))
    ensures ParseInt("-" + digits, base) == Some(-(DigitsValue(digits, base) as int))
    ensures ParseInt("+" + digits, base) == Some(DigitsValue(digits, base))
  {
    DigitIsNotSign(digits[0]);
    assert ("-" + digits)[1..] == digits && ("+" + digits)[1..] == digits;
  }

  /** Two serial numbers have one text only when they are one number. */
  lemma NatTextInjective(m: nat, n: nat, base: nat)
    requires 2 <= base <= 16
    requires NatText(m, base) == NatText(n, base)
    ensures m == n
  {
    NatTextParses(m, base);
    NatTextParses(n, base);
  }

  // ---- Trimming ----

  /** `unicode.IsSpace`. */
  predicate IsSpace(c: char) {
    || '\t' <= c <= '\r' || c == ' ' || c == '\U{85}' || c == '\U{A0}' || c == '\U{1680}'
    || '\U{2000}' <= c <= '\U{200A}' || c == '\U{2028}' || c == '\U{2029}'
    || c == '\U{202F}' || c == '\U{205F}' || c == '\U{3000}'
  }

  function TrimSpace(s: string): string {
    if s == "" then ""
    else if IsSpace(s[0]) then TrimSpace(s[1..])
    else if IsSpace(s[|s| - 1]) then TrimSpace(s[..|s| - 1])
    else s
  }

  predicate IsSpaceOutside(s: string, from: nat, to: nat) {
    && from <= to <= |s|
    && (forall i :: 0 <= i < from ==> IsSpace(s[i]))
    && (forall i :: to <= i < |s| ==> IsSpace(s[i]))
  }

  /** Trimming takes space from both ends, all of it and nothing else. */
  lemma {:induction false} TrimSpaceTrims(s: string) returns (from: nat, to: nat)
    ensures IsSpaceOutside(s, from, to) && TrimSpace(s) == s[from..to]
    ensures from < to ==> !IsSpace(s[from]) && !IsSpace(s[to - 1])
    decreases |s|
  {
    from, to := 0, |s|;
    if s != "" && IsSpace(s[0]) {
      from, to := TrimSpaceTrims(s[1..]);
      SpaceInFront(s, from, to);
      from, to := from + 1, to + 1;
    } else if s != "" && IsSpace(s[|s| - 1]) {
      from, to := TrimSpaceTrims(s[..|s| - 1]);
      SpaceBehind(s, from, to);
    }
  }

  lemma SpaceInFront(s: string, from: nat, to: nat)
    requires s != "" && IsSpace(s[0]) && IsSpaceOutside(s[1..], from, to)
    ensures IsSpaceOutside(s, from + 1, to + 1) && s[1..][from..to] == s[from + 1..to + 1]
  {
    forall i | 0 < i < from + 1 || to + 1 <= i < |s| ensures IsSpace(s[i]) {
      assert s[i] == s[1..][i - 1];
    }
  }

  lemma SpaceBehind(s: string, from: nat, to: nat)
    requires s != "" && IsSpace(s[|s| - 1]) && IsSpaceOutside(s[..|s| - 1], from, to)
    ensures IsSpaceOutside(s, from, to) && s[..|s| - 1][from..to] == s[from..to]
  {
    forall i | 0 <= i < from || to <= i < |s| - 1 ensures IsSpace(s[i]) {
      assert s[i] == s[..|s| - 1][i];
    }
  }

  /** The number of bytes of a character, and of a string, in UTF-8. */
  function Utf8Width(c: char): nat {
    if c < '\U{80}' then 1 else if c < '\U{800}' then 2 else if c < '\U{10000}' then 3 else 4
  }

  function Utf8Length(s: string): nat {
    if s == "" then 0 else Utf8Width(s[0]) + Utf8Length(s[1..])
  }

  // ---- Certificate serial numbers ----

  /** The lower-case hexadecimal text that keys the certificate table. */
  function SerialText(serial: nat): string {
    NatText(serial, 16)
  }

  /** Decimal text becomes the hexadecimal key; anything else is taken to be a key already. */
  function NormalizeSerial(raw: string): string {
    var serial := TrimSpace(raw);
    if serial == "" then ""
    else match ParseInt(serial, 10)
      case Some(number) => IntText(number, 16)
      case None => serial
  }

  lemma DigitsAreTrimmed(s: string)
    requires s != "" && AllDigits(s, 16)
    ensures TrimSpace(s) == s
  {
    DigitIsNotSign(s[0]);
    DigitIsNotSign(s[|s| - 1]);
  }

  /** The decimal serial that the proxy passes on becomes the key under which the certificate is stored. */
  lemma DecimalSerialNormalizes(serial: nat)
    ensures NormalizeSerial(IntText(serial, 10)) == SerialText(serial)
  {
    NatTextParses(serial, 10);
    DigitsAreTrimmed(IntText(serial, 10));
    TextRoundTrip(serial, 10);
  }

  lemma {:induction false} ValueGrowsWithBase(s: string)
    requires s != "" && AllDigits(s, 10)
    ensures DigitsValue(s, 10) <= DigitsValue(s, 16)
    ensures |s| > 1 && DigitsValue(s[..|s| - 1], 10) > 0 ==> DigitsValue(s, 10) < DigitsValue(s, 16)
  {
    if |s| > 1 {
      ValueGrowsWithBase(s[..|s| - 1]);
    } else {
      assert s[..|s| - 1] == "";
    }
  }

  /**
   A serial that is already hexadecimal survives normalisation exactly when it has a letter or is a
   single digit: an all-decimal hexadecimal key is read as a decimal number and becomes another key.
   */
  lemma HexSerialNormalizes(serial: nat)
    ensures NormalizeSerial(SerialText(serial)) == SerialText(serial)
       <==> !AllDigits(SerialText(serial), 10) || serial < 10
  {
    var text := SerialText(serial);
    NatTextParses(serial, 16);
    DigitsAreTrimmed(text);
    DigitIsNotSign(text[0]);
    if AllDigits(text, 10) {
      var read := DigitsValue(text, 10);
      if IntText(read, 16) == text {
        NatTextInjective(read, serial, 16);
      }
      if serial >= 16 {
        assert text[..|text| - 1] == NatText(serial / 16, 16);
        NatTextParses(serial / 16, 16);
        DecimalPositive(text[..|text| - 1]);
        ValueGrowsWithBase(text);
      } else {
        assert text == [DigitOf(serial)];
        DigitRoundTrip(serial);
        assert text[..|text| - 1] == "";
        assert read == serial;
      }
    }
  }

  lemma {:induction false} DecimalPositive(s: string)
    requires AllDigits(s, 10) && DigitsValue(s, 16) > 0
    ensures DigitsValue(s, 10) > 0
  {
    if DigitsValue(s[..|s| - 1], 16) > 0 {
      DecimalPositive(s[..|s| - 1]);
    }
  }

  /** The failing case is reachable: the certificate numbered 16 has the hexadecimal serial "10". */
  lemma HexSerialMisread()
    ensures SerialText(16) == "10" && NormalizeSerial("10") == "a" && SerialText(10) == "a"
  {
    assert NatText(1, 16) == "1" && NatText(0, 16) == "0";
    assert SerialText(16) == "10";
    assert SerialText(10) == "a";
    assert IntText(10, 10) == "10" by {
      assert NatText(1, 10) == "1";
    }
    DecimalSerialNormalizes(10);
  }
}
