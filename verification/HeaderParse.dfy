/** Header lookup: services/core/ability/utils/src/response_header_parse.cpp. A header line is
    "field-name ':' OWS field-value OWS" in section 5 of RFC 9112. */
module HeaderParse {
  import opened Common
  import opened Strings

  type Headers = seq<string>

  function Colon(header: string): Option<nat> {
    Find(header, ":", 0)
  }

  /** The name and value that the code sees in a line; None when it passes the line over. */
  function Field(header: string): Option<(string, string)> {
    var colon := Colon(header);
    if colon.None? || colon.value == |header| - 1 then None
    else if SafeSubString(header, 0, colon.value, "") == "" then None
    else Some((Trim(SafeSubString(header, 0, colon.value, "")),
               Trim(SafeSubString(header, colon.value + 1, |header| - colon.value - 1, ""))))
  }

  predicate Names(header: string, key: string) {
    Field(header).Some? && Field(header).value.0 == key
  }

  /** The value after the first colon as the RFC reads it. */
  function RfcValue(header: string): string
    requires Colon(header).Some?
  {
    Trim(header[Colon(header).value + 1..])
  }

  /** The value that the code sees is the RFC's exactly when the text after the colon is longer than the
      text up to it, or blank; a shorter value is lost, since the end index is the length of the value. */
  lemma FieldIsRfc(header: string, p: nat)
    requires Colon(header) == Some(p) && 0 < p < |header| - 1
    ensures Field(header).Some? && Field(header).value.0 == Trim(header[..p])
    ensures Field(header).value.1 == if |header| - p - 1 >= p + 1 then RfcValue(header) else ""
    ensures Field(header).value.1 == RfcValue(header) <==> |header| - p - 1 >= p + 1 || RfcValue(header) == ""
  {
    assert header[0..p] == header[..p];
    assert header[p + 1..|header|] == header[p + 1..];
  }

  /** A line is passed over exactly when it has no colon, nothing before the first one or nothing after it. */
  lemma PassedOver(header: string)
    ensures Colon(header).None? <==> ':' !in header
    ensures Field(header).None?
            <==> Colon(header).None? || Colon(header).value == 0 || Colon(header).value == |header| - 1
  {
    NoChar(header, ':');
  }

  /** A line that loses its value: "Content-Length:12". */
  lemma ShortValueIsLost()
    ensures var header := "Content-Length:12";
            Names(header, "Content-Length") && Field(header).value.1 == "" && RfcValue(header) == "12"
  {
    var header := "Content-Length:12";
    assert At(header, ":", 14);
    forall j | 0 <= j < 14 ensures !At(header, ":", j) {
      Mismatch(header, ":", j, 0);
    }
    assert Colon(header) == Some(14);
    assert header[15..] == "12" && header[..14] == "Content-Length";
    TrimmedIsTrim("12");
    TrimmedIsTrim("Content-Length");
    FieldIsRfc(header, 14);
  }

  // ---------- Lookup in a list ----------

  /** The value in the first line that names key. */
  function First(headers: Headers, key: string): Option<string> {
    if headers == [] then None
    else if Names(headers[0], key) then Some(Field(headers[0]).value.1)
    else First(headers[1..], key)
  }

  /** The value in the last line that names key. */
  function Last(headers: Headers, key: string): Option<string> {
    if headers == [] then None
    else if Names(headers[|headers| - 1], key) then Some(Field(headers[|headers| - 1]).value.1)
    else Last(headers[..|headers| - 1], key)
  }

  ghost predicate AtMostOnce(headers: Headers, key: string) {
    forall i, j | 0 <= i < j < |headers| :: !(Names(headers[i], key) && Names(headers[j], key))
  }

  /** Line i names the key and has this value. */
  ghost predicate IsValueAt(headers: Headers, key: string, i: nat, value: string) {
    i < |headers| && Names(headers[i], key) && value == Field(headers[i]).value.1
  }

  /** No earlier line names the key. */
  lemma {:induction false} FirstIsAt(headers: Headers, key: string) returns (i: nat)
    ensures First(headers, key).None? ==> forall j | 0 <= j < |headers| :: !Names(headers[j], key)
    ensures First(headers, key).Some? ==> IsValueAt(headers, key, i, First(headers, key).value)
    ensures First(headers, key).Some? ==> forall j | 0 <= j < i :: !Names(headers[j], key)
  {
    i := 0;
    if headers != [] && !Names(headers[0], key) {
      i := FirstIsAt(headers[1..], key);
      assert headers == [headers[0]] + headers[1..];
      i := i + 1;
    }
  }

  lemma NotNamedFrom(headers: Headers, front: Headers, key: string, from: nat)
    requires headers != [] && front == headers[..|headers| - 1] && !Names(headers[|headers| - 1], key)
    requires forall j | from <= j < |front| :: !Names(front[j], key)
    ensures forall j | from <= j < |headers| :: !Names(headers[j], key)
  {
    forall j | from <= j < |front| ensures !Names(headers[j], key) {
      assert front[j] == headers[j];
    }
  }

  /** No later line names the key. */
  lemma {:induction false} LastIsAt(headers: Headers, key: string) returns (i: nat)
    ensures Last(headers, key).None? ==> forall j | 0 <= j < |headers| :: !Names(headers[j], key)
    ensures Last(headers, key).Some? ==> IsValueAt(headers, key, i, Last(headers, key).value)
    ensures Last(headers, key).Some? ==> forall j | i < j < |headers| :: !Names(headers[j], key)
  {
    i := 0;
    if headers != [] {
      if Names(headers[|headers| - 1], key) {
        i := |headers| - 1;
      } else {
        var front := headers[..|headers| - 1];
        i := LastIsAt(front, key);
        if Last(front, key).Some? {
          NotNamedFrom(headers, front, key, i + 1);
        } else {
          NotNamedFrom(headers, front, key, 0);
        }
      }
    }
  }

  /** Where a name occurs more than once, they agree exactly if its first and its last line have the same value. */
  lemma LookupsAgreeIff(headers: Headers, key: string, i: nat, j: nat)
    requires i <= j < |headers| && Names(headers[i], key) && Names(headers[j], key)
    requires forall k | 0 <= k < i || j < k < |headers| :: !Names(headers[k], key)
    ensures First(headers, key) == Last(headers, key) <==> Field(headers[i]).value.1 == Field(headers[j]).value.1
  {
    var first := FirstIsAt(headers, key);
    var last := LastIsAt(headers, key);
  }

  /** Where a name occurs at most once, the two lookups agree. */
  lemma LookupsAgree(headers: Headers, key: string)
    requires AtMostOnce(headers, key)
    ensures First(headers, key) == Last(headers, key)
  {
    var i := FirstIsAt(headers, key);
    var j := LastIsAt(headers, key);
  }

  // ---------- Lookup as the RFC has it ----------

  function Lower(c: char): char {
    if 'A' <= c <= 'Z' then (c as int + 32) as char else c
  }

  /** Field names are compared without regard to case. */
  ghost predicate SameName(a: string, b: string) {
    |a| == |b| && forall i | 0 <= i < |a| :: Lower(a[i]) == Lower(b[i])
  }

  /** A field line: a name without blanks, then a colon. */
  ghost predicate IsFieldLine(header: string) {
    && Colon(header).Some? && Colon(header).value > 0
    && forall i | 0 <= i < Colon(header).value :: !IsSpace(header[i])
  }

  /** What stands before the first colon. */
  function Name(header: string): string {
    if Colon(header).Some? then header[..Colon(header).value] else ""
  }

  /** A list of field lines, and lines without a colon such as the status line and the empty line at the end. */
  ghost predicate WellFormed(headers: Headers) {
    forall i | 0 <= i < |headers| :: IsFieldLine(headers[i]) || Colon(headers[i]).None?
  }

  ghost predicate IsField(header: string, key: string) {
    IsFieldLine(header) && SameName(Name(header), key)
  }

  /** The code's answer for one line. */
  function Answer(header: string, key: string): string {
    if Names(header, key) then Field(header).value.1 else ""
  }

  ghost function RfcAnswer(header: string, key: string): string {
    if IsField(header, key) then RfcValue(header) else ""
  }

  /** When the code's answer for one line is the RFC's: the names differ in more than case, there is no value, or
      the names are equal and the text after the colon is longer than the text up to it. */
  ghost predicate LineAgrees(header: string, key: string) {
    || !IsField(header, key)
    || RfcValue(header) == ""
    || (Name(header) == key && |header| - Colon(header).value - 1 >= Colon(header).value + 1)
  }

  lemma LineAgreesIff(header: string, key: string)
    requires IsFieldLine(header) || Colon(header).None?
    ensures Answer(header, key) == RfcAnswer(header, key) <==> LineAgrees(header, key)
  {
    if IsFieldLine(header) {
      var p := Colon(header).value;
      if p < |header| - 1 {
        FieldIsRfc(header, p);
      } else {
        assert header[p + 1..] == "";
      }
    }
  }

  function FirstOr(headers: Headers, key: string): string {
    if First(headers, key).Some? then First(headers, key).value else ""
  }

  /** The RFC's answer for a list: the value of the first field line with that name. */
  ghost function RfcFirst(headers: Headers, key: string): string {
    if headers == [] then ""
    else if IsField(headers[0], key) then RfcValue(headers[0])
    else RfcFirst(headers[1..], key)
  }

  ghost predicate FieldOnce(headers: Headers, key: string) {
    forall i, j | 0 <= i < j < |headers| :: !(IsField(headers[i], key) && IsField(headers[j], key))
  }

  lemma LineIsNamed(header: string, key: string)
    requires IsFieldLine(header) || Colon(header).None?
    ensures Names(header, key) ==> IsField(header, key)
  {
  }

  lemma {:induction false} NoField(headers: Headers, key: string)
    requires WellFormed(headers) && forall i | 0 <= i < |headers| :: !IsField(headers[i], key)
    ensures First(headers, key).None? && RfcFirst(headers, key) == ""
  {
    if headers != [] {
      LineIsNamed(headers[0], key);
      NoField(headers[1..], key);
    }
  }

  /** On a well-formed list in which the field occurs at most once, in whatever case, ParseKeyFromHeader gives the
      RFC's answer exactly when every line agrees, that is, when the one line with that name does. */
  lemma {:induction false} ListAgreesIff(headers: Headers, key: string)
    requires WellFormed(headers) && FieldOnce(headers, key)
    ensures FirstOr(headers, key) == RfcFirst(headers, key)
            <==> forall i | 0 <= i < |headers| :: LineAgrees(headers[i], key)
  {
    if headers != [] {
      var rest := headers[1..];
      assert headers == [headers[0]] + rest;
      LineAgreesIff(headers[0], key);
      if IsField(headers[0], key) {
        NoField(rest, key);
        assert forall i | 0 < i < |headers| :: headers[i] == rest[i - 1];
      } else {
        ListAgreesIff(rest, key);
        assert LineAgrees(headers[0], key);
        assert forall i | 0 < i < |headers| :: headers[i] == rest[i - 1];
        assert forall i | 0 <= i < |rest| :: rest[i] == headers[i + 1];
      }
    }
  }

  // ---------- The code ----------

  method ParseKeyFromHeader(headers: Headers, importKey: string) returns (value: string)
    ensures value == FirstOr(headers, importKey)
  {
    for i := 0 to |headers|
      invariant First(headers, importKey) == First(headers[i..], importKey)
    {
      var header := headers[i];
      assert headers[i..][0] == header && headers[i..][1..] == headers[i + 1..];
      var colonPos := Find(header, ":", 0);
      if colonPos.Some? && colonPos.value != |header| - 1 {
        var key := SafeSubString(header, 0, colonPos.value, "");
        if key == "" {
          continue;
        }
        key := Trim(key);
        if key == importKey {
          value := SafeSubString(header, colonPos.value + 1, |header| - colonPos.value - 1, "");
          value := Trim(value);
          return;
        }
      }
    }
    return "";
  }

  lemma LastSnoc(headers: Headers, n: nat, key: string)
    requires n < |headers|
    ensures Last(headers[..n + 1], key)
            == if Names(headers[n], key) then Some(Field(headers[n]).value.1) else Last(headers[..n], key)
  {
    assert headers[..n + 1][..n] == headers[..n];
  }

  /** One round of the loop of ParseKeysFromHeader. */
  method ParseLine(header: string, keys: set<string>, info: map<string, string>) returns (info': map<string, string>)
    ensures info' == if Field(header).Some? && Field(header).value.0 in keys
                     then info[Field(header).value.0 := Field(header).value.1] else info
  {
    info' := info;
    var colonPos := Find(header, ":", 0);
    if colonPos.Some? && colonPos.value != |header| - 1 {
      var key := SafeSubString(header, 0, colonPos.value, "");
      if key == "" {
        return;
      }
      key := Trim(key);
      if key in keys {
        var value := SafeSubString(header, colonPos.value + 1, |header| - colonPos.value - 1, "");
        value := Trim(value);
        info' := info[key := value];
      }
    }
  }

  /** The map holds the last value of each wanted name that occurs; for names that occur at most once that
      is what ParseKeyFromHeader returns. */
  method ParseKeysFromHeader(headers: Headers, keys: set<string>) returns (info: map<string, string>)
    ensures forall k :: k in info <==> k in keys && Last(headers, k).Some?
    ensures forall k | k in info :: info[k] == Last(headers, k).value
    ensures forall k | k in keys && AtMostOnce(headers, k) ::
              (k in info <==> First(headers, k).Some?) && (k in info ==> info[k] == First(headers, k).value)
  {
    info := map[];
    for i := 0 to |headers|
      invariant forall k :: k in info <==> k in keys && Last(headers[..i], k).Some?
      invariant forall k | k in info :: info[k] == Last(headers[..i], k).value
    {
      forall k {
        LastSnoc(headers, i, k);
      }
      info := ParseLine(headers[i], keys, info);
    }
    assert headers[..|headers|] == headers;
    forall k | k in keys && AtMostOnce(headers, k)
      ensures First(headers, k) == Last(headers, k)
    {
      LookupsAgree(headers, k);
    }
  }
}
