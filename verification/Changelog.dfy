/** The changelog record that services/firmware/utils/src/firmware_check_analyze_utils.cpp writes and
    services/engine/src/update_service_impl_firmware.cpp reads back. */
module Changelog {
  import opened Common
  import opened Strings

  const LANGUAGE_CHINESE := "<language name=\"zh-cn\" code=\"2052\">"
  const LANGUAGE_ENGLISH := "<language name=\"en-us\" code=\"1033\">"
  const LANGUAGE_END := "</language>"
  const QUOTA := "quota"

  type Int32 = n: int | -0x8000_0000 <= n < 0x8000_0000

  // ---------- Decimal numbers ----------

  predicate IsDigit(c: char) {
    '0' <= c <= '9'
  }

  function DigitValue(c: char): nat
    requires IsDigit(c)
  {
    c as int - '0' as int
  }

  function Digit(d: nat): (c: char)
    requires d < 10
    ensures IsDigit(c) && DigitValue(c) == d
  {
    ('0' as int + d) as char
  }

  function Decimal(n: nat): (s: string)
    ensures s != [] && forall c | c in s :: IsDigit(c)
  {
    if n < 10 then [Digit(n)] else Decimal(n / 10) + [Digit(n % 10)]
  }

  function Sign(negative: bool): string {
    if negative then "-" else ""
  }

  function Magnitude(n: int): nat {
    if n < 0 then -n else n
  }

  /** std::to_string. */
  function ToString(n: int): string {
    Sign(n < 0) + Decimal(Magnitude(n))
  }

  function Signed(magnitude: nat, negative: bool): int {
    if negative then 0 - magnitude else magnitude
  }

  function DigitCount(s: string): (k: nat)
    ensures k <= |s| && forall c | c in s[..k] :: IsDigit(c)
  {
    if s == [] || !IsDigit(s[0]) then 0 else 1 + DigitCount(s[1..])
  }

  function DigitsValue(s: string): nat
    requires forall c | c in s :: IsDigit(c)
  {
    if s == [] then 0 else
      assert forall c | c in s[..|s| - 1] :: c in s;
      10 * DigitsValue(s[..|s| - 1]) + DigitValue(s[|s| - 1])
  }

  /** std::from_chars for a 32-bit number: a minus sign, then as many digits as there are. */
  datatype Scan = NoNumber | OutOfRange | Number(value: Int32, length: nat)

  function ScanDigits(s: string, negative: bool): Scan {
    var k := DigitCount(s);
    var value := Signed(DigitsValue(s[..k]), negative);
    if k == 0 then NoNumber
    else if -0x8000_0000 <= value < 0x8000_0000 then Number(value, |Sign(negative)| + k)
    else OutOfRange
  }

  function FromChars(s: string): Scan {
    if s != [] && s[0] == '-' then ScanDigits(s[1..], true) else ScanDigits(s, false)
  }

  datatype CnvResult = Success | Failed | InvalidChar | NumberFormatError | SpillOver

  /** DecStringToNumber; number keeps its value when nothing can be read. */
  function DecStringToNumber(str: string, number: Int32): (CnvResult, Int32) {
    var trimmed := Trim(str);
    match FromChars(trimmed)
    case NoNumber => (Failed, number)
    case OutOfRange => (SpillOver, number)
    case Number(value, length) =>
      (if length != |trimmed| then InvalidChar else if |trimmed| != |str| then NumberFormatError else Success, value)
  }

  lemma {:induction false} DecimalValue(n: nat)
    ensures DigitsValue(Decimal(n)) == n
  {
    if n >= 10 {
      DecimalValue(n / 10);
      assert Decimal(n)[..|Decimal(n)| - 1] == Decimal(n / 10);
    } else {
      assert Decimal(n)[..0] == [];
    }
  }

  lemma {:induction false} AllDigits(s: string)
    requires forall c | c in s :: IsDigit(c)
    ensures DigitCount(s) == |s|
  {
    if s != [] {
      assert s[0] in s;
      assert forall c | c in s[1..] :: c in s;
      AllDigits(s[1..]);
    }
  }

  lemma ScanDecimal(n: nat, negative: bool)
    requires -0x8000_0000 <= Signed(n, negative) < 0x8000_0000
    ensures ScanDigits(Decimal(n), negative) == Number(Signed(n, negative), |Sign(negative)| + |Decimal(n)|)
  {
    var digits := Decimal(n);
    AllDigits(digits);
    DecimalValue(n);
    assert digits[..|digits|] == digits;
  }

  lemma SignedScan(digits: string, negative: bool)
    requires digits != [] && forall i | 0 <= i < |digits| :: IsDigit(digits[i])
    ensures FromChars(Sign(negative) + digits) == ScanDigits(digits, negative)
  {
    var s := Sign(negative) + digits;
    if negative {
      assert s[1..] == digits;
    } else {
      assert s == digits;
      assert IsDigit(s[0]);
    }
  }

  /** Reading a written number gives it back, for every 32-bit number. */
  lemma NumberRoundTrip(n: Int32, before: Int32)
    ensures DecStringToNumber(ToString(n), before) == (Success, n)
  {
    ScanDecimal(Magnitude(n), n < 0);
    SignedScan(Decimal(Magnitude(n)), n < 0);
    TrimmedIsTrim(ToString(n));
  }

  // ---------- The record ----------

  /** What is saved for one description. */
  function Record(descriptionType: int, content: string): string {
    ToString(descriptionType) + "|" + Replace(content, QUOTA, "\"")
  }

  /** The block that GetChangelogContent takes out for this language. */
  function OtherLanguage(language: string): string {
    if language != "zh-cn" then LANGUAGE_CHINESE else LANGUAGE_ENGLISH
  }

  /** What GetNewVersionDescription and GetCurrentVersionDescription make of a saved record; None is the
      error answer. */
  function Read(record: string, language: string): Option<(string, Int32)> {
    var start := Find(record, "|", 0);
    if start.None? || start.value + 1 >= |record| then None
    else Some((Remove(record[start.value + 1..], OtherLanguage(language), LANGUAGE_END),
               DecStringToNumber(record[..start.value], 0).1))
  }

  lemma FirstBar(number: string, text: string)
    requires '|' !in number
    ensures Find(number + "|" + text, "|", 0) == Some(|number|)
  {
    var record := number + "|" + text;
    assert At(record, "|", |number|);
    forall j | 0 <= j < |number| ensures !At(record, "|", j) {
      assert record[j] == number[j] && number[j] in number;
      Mismatch(record, "|", j, 0);
    }
  }

  /** Writer and reader undo each other: for every type and content, the reader answers exactly when some
      text is left after the replacement, and then with the type that was written and that text without
      the first block of the other language. */
  lemma {:induction false} ReadWrite(descriptionType: Int32, content: string, language: string)
    ensures var text := Replace(content, QUOTA, "\"");
            Read(Record(descriptionType, content), language)
            == if text == "" then None
               else Some((Remove(text, OtherLanguage(language), LANGUAGE_END), descriptionType))
  {
    var number := ToString(descriptionType);
    var text := Replace(content, QUOTA, "\"");
    FirstBar(number, text);
    NumberRoundTrip(descriptionType, 0);
    var record := Record(descriptionType, content);
    assert record[..|number|] == number && record[|number| + 1..] == text;
  }

  /** Every "quota" has become a quotation mark. */
  lemma NoQuotaLeft(content: string)
    ensures Find(Replace(content, QUOTA, "\""), QUOTA, 0).None?
  {
    var r := Find(Replace(content, QUOTA, "\""), QUOTA, 0);
    if r.Some? {
      ReplaceClears(content, QUOTA, '\"', r.value);
    }
  }

  // ---------- Two languages ----------

  /** A tag begins with its only '<'. */
  ghost predicate IsTag(t: string) {
    |t| > 1 && t[0] == '<' && forall k | 0 < k < |t| :: t[k] != '<'
  }

  /** The end tag of a block that begins behind pre: it is the first one, since the body has no tag. */
  lemma EndOfBlock(s: string, pre: string, open: string, body: string, close: string, post: string)
    requires IsTag(open) && IsTag(close) && open[1] != close[1] && '<' !in body
    requires s == pre + (open + body + close) + post
    ensures Find(s, close, |pre|) == Some(|pre| + |open| + |body|)
  {
    var end := |pre| + |open| + |body|;
    assert s[end..end + |close|] == close;
    assert At(s, close, end);
    forall j | |pre| <= j < end ensures !At(s, close, j) {
      if j == |pre| {
        Mismatch(s, close, j, 1);
      } else if j < |pre| + |open| {
        assert s[j] == open[j - |pre|];
        Mismatch(s, close, j, 0);
      } else {
        assert s[j] == body[j - |pre| - |open|] && s[j] in body;
        Mismatch(s, close, j, 0);
      }
    }
  }

  /** The open tag of a second block is found behind a first block with another open tag. */
  lemma OpenOfSecond(s: string, other: string, otherBody: string, close: string, open: string, post: string, k: nat)
    requires IsTag(other) && IsTag(open) && IsTag(close) && '<' !in otherBody
    requires open[1] != close[1] && k < |open| && k < |other| && open[k] != other[k]
    requires s == (other + otherBody + close) + open + post
    ensures Find(s, open, 0) == Some(|other| + |otherBody| + |close|)
  {
    var first := other + otherBody + close;
    var end := |other| + |otherBody|;
    assert s[|first|..|first| + |open|] == open;
    assert At(s, open, |first|);
    forall j | 0 <= j < |first| ensures !At(s, open, j) {
      if j == 0 {
        Mismatch(s, open, 0, k);
      } else if j < |other| {
        Mismatch(s, open, j, 0);
      } else if j < end {
        assert s[j] == otherBody[j - |other|] && s[j] in otherBody;
        Mismatch(s, open, j, 0);
      } else if j == end {
        assert s[j + 1] == close[1];
        Mismatch(s, open, j, 1);
      } else {
        assert s[j] == close[j - end];
        Mismatch(s, open, j, 0);
      }
    }
  }

  lemma RemoveFirst(open: string, body: string, close: string, post: string)
    requires IsTag(open) && IsTag(close) && open[1] != close[1] && '<' !in body
    ensures Remove((open + body + close) + post, open, close) == post
  {
    var s := (open + body + close) + post;
    var end := |open| + |body|;
    assert s == "" + (open + body + close) + post;
    EndOfBlock(s, "", open, body, close, post);
    assert s[..|open|] == open && At(s, open, 0);
    assert s[end + |close|..] == post;
    assert s[..0] + post == post;
  }

  lemma RemoveSecond(other: string, otherBody: string, open: string, body: string, close: string, k: nat)
    requires IsTag(open) && IsTag(other) && IsTag(close) && '<' !in body && '<' !in otherBody
    requires open[1] != close[1] && k < |open| && k < |other| && open[k] != other[k]
    ensures var first := other + otherBody + close;
            Remove(first + (open + body + close), open, close) == first
  {
    var first := other + otherBody + close;
    var s := first + (open + body + close);
    assert s == first + (open + body + close) + "" == first + open + body + close + "";
    assert s == first + open + (body + close);
    OpenOfSecond(s, other, otherBody, close, open, body + close, k);
    EndOfBlock(s, first, open, body, close, "");
    RemoveBlock(first, open, body, close, "");
    assert first + "" == first;
  }

  /** A changelog with one block for each language: each reader keeps its own block whole. */
  lemma OwnLanguageStays(chinese: string, english: string, language: string)
    requires '<' !in chinese && '<' !in english
    ensures var first := LANGUAGE_CHINESE + chinese + LANGUAGE_END;
            var second := LANGUAGE_ENGLISH + english + LANGUAGE_END;
            Remove(first + second, OtherLanguage(language), LANGUAGE_END)
            == if language == "zh-cn" then first else second
  {
    if language == "zh-cn" {
      RemoveSecond(LANGUAGE_CHINESE, chinese, LANGUAGE_ENGLISH, english, LANGUAGE_END, 16);
    } else {
      RemoveFirst(LANGUAGE_CHINESE, chinese, LANGUAGE_END, LANGUAGE_ENGLISH + english + LANGUAGE_END);
    }
  }

  // ---------- The code ----------

  /** The part of ProcessDescriptInfo that builds the record. */
  method BuildRecord(descriptionType: int, content: string) returns (data: string)
    ensures data == Record(descriptionType, content)
  {
    var descContent := ReplaceStringAll(content, QUOTA, "\"");
    data := ToString(descriptionType) + "|" + descContent;
  }
}
