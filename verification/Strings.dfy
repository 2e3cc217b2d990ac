/** StringUtils (foundations/ability/utils/include/string_utils.h) and the std::string searches it uses. */
module Strings {
  import opened Common

  /** pat occurs in s at position i. */
  predicate At(s: string, pat: string, i: nat) {
    i + |pat| <= |s| && s[i..i + |pat|] == pat
  }

  /** std::string::find: the first occurrence from position from on. */
  function Find(s: string, pat: string, from: nat): (r: Option<nat>)
    ensures r.Some? ==> from <= r.value && At(s, pat, r.value) && forall j | from <= j < r.value :: !At(s, pat, j)
    ensures r.None? ==> forall j | from <= j :: !At(s, pat, j)
    decreases |s| - from
  {
    if from + |pat| > |s| then None
    else if At(s, pat, from) then Some(from)
    else Find(s, pat, from + 1)
  }

  /** One different character is enough. */
  lemma Mismatch(s: string, pat: string, i: nat, k: nat)
    requires k < |pat| && (i + k < |s| ==> s[i + k] != pat[k])
    ensures !At(s, pat, i)
  {
    if i + |pat| <= |s| {
      assert s[i..i + |pat|][k] == s[i + k];
    }
  }

  predicate HasNo(s: string, pat: string) {
    Find(s, pat, 0).None?
  }

  lemma NoChar(s: string, c: char)
    ensures HasNo(s, [c]) <==> c !in s
  {
    if c in s {
      var i :| 0 <= i < |s| && s[i] == c;
      assert At(s, [c], i);
    }
    if !HasNo(s, [c]) {
      var i := Find(s, [c], 0).value;
      assert s[i..i + 1][0] == s[i];
    }
  }

  // ---------- Trim ----------

  /** isspace in the C locale. */
  predicate IsSpace(c: char) {
    c == ' ' || '\t' <= c <= '\r'
  }

  function LTrim(s: string): (r: string)
    ensures r != [] ==> !IsSpace(r[0])
  {
    if s != [] && IsSpace(s[0]) then LTrim(s[1..]) else s
  }

  function RTrim(s: string): (r: string)
    ensures r != [] ==> !IsSpace(r[|r| - 1])
    ensures r <= s
  {
    if s != [] && IsSpace(s[|s| - 1]) then RTrim(s[..|s| - 1]) else s
  }

  function Trim(s: string): string {
    RTrim(LTrim(s))
  }

  predicate IsTrimmed(s: string) {
    s != [] ==> !IsSpace(s[0]) && !IsSpace(s[|s| - 1])
  }

  ghost predicate AllSpace(s: string) {
    forall i | 0 <= i < |s| :: IsSpace(s[i])
  }

  lemma {:induction false} LTrimSplits(s: string) returns (a: string)
    ensures s == a + LTrim(s) && AllSpace(a)
  {
    if s != [] && IsSpace(s[0]) {
      var rest := LTrimSplits(s[1..]);
      a := [s[0]] + rest;
      assert s == [s[0]] + s[1..] == [s[0]] + (rest + LTrim(s)) == a + LTrim(s);
    } else {
      a := [];
    }
  }

  lemma {:induction false} RTrimSplits(s: string) returns (b: string)
    ensures s == RTrim(s) + b && AllSpace(b)
  {
    if s != [] && IsSpace(s[|s| - 1]) {
      var rest := RTrimSplits(s[..|s| - 1]);
      b := rest + [s[|s| - 1]];
      assert s == s[..|s| - 1] + [s[|s| - 1]] == RTrim(s) + rest + [s[|s| - 1]] == RTrim(s) + b;
    } else {
      b := [];
    }
  }

  /** Trim gives the trimmed middle of the string: only blanks go, and none is left at either end. */
  lemma TrimSplits(s: string)
    ensures IsTrimmed(Trim(s))
    ensures exists a, b :: s == a + Trim(s) + b && AllSpace(a) && AllSpace(b)
  {
    var a := LTrimSplits(s);
    var b := RTrimSplits(LTrim(s));
    assert s == a + Trim(s) + b;
  }

  lemma TrimmedIsTrim(s: string)
    requires IsTrimmed(s)
    ensures Trim(s) == s
  {
  }

  // ---------- ReplaceStringAll ----------

  /** Left to right, each occurrence of pat is replaced and the search goes on behind it. */
  function Replace(s: string, pat: string, with: string): string
    requires pat != []
  {
    if s == [] then []
    else if At(s, pat, 0) then with + Replace(s[|pat|..], pat, with)
    else [s[0]] + Replace(s[1..], pat, with)
  }

  lemma AtDrop(s: string, pat: string, from: nat, j: nat)
    requires from <= |s|
    ensures At(s[from..], pat, j) <==> At(s, pat, from + j)
  {
    if from + j + |pat| <= |s| {
      assert s[from..][j..j + |pat|] == s[from + j..from + j + |pat|];
    }
  }

  /** The text before the first occurrence stays. */
  lemma {:induction false} ReplaceFirst(before: string, pat: string, after: string, with: string)
    requires pat != [] && forall j | 0 <= j < |before| :: !At(before + pat + after, pat, j)
    ensures Replace(before + pat + after, pat, with) == before + with + Replace(after, pat, with)
    decreases |before|
  {
    var s := before + pat + after;
    if before == [] {
      assert s == pat + after;
      assert s[..|pat|] == pat && s[|pat|..] == after;
      assert At(s, pat, 0);
    } else {
      var rest := before[1..] + pat + after;
      assert s[1..] == rest && s[0] == before[0];
      forall j | 0 <= j < |before| - 1 ensures !At(rest, pat, j) {
        AtDrop(s, pat, 1, j);
      }
      ReplaceFirst(before[1..], pat, after, with);
    }
  }

  lemma {:induction false} ReplaceNone(s: string, pat: string, with: string)
    requires pat != [] && forall j | 0 <= j :: !At(s, pat, j)
    ensures Replace(s, pat, with) == s
  {
    if s != [] {
      forall j | 0 <= j ensures !At(s[1..], pat, j) {
        AtDrop(s, pat, 1, j);
      }
      ReplaceNone(s[1..], pat, with);
    }
  }

  lemma ReplaceStepNone(s: string, pat: string, with: string, from: nat)
    requires pat != [] && from <= |s| && Find(s, pat, from).None?
    ensures Replace(s[from..], pat, with) == s[from..]
  {
    forall j | 0 <= j ensures !At(s[from..], pat, j) {
      AtDrop(s, pat, from, j);
    }
    ReplaceNone(s[from..], pat, with);
  }

  lemma SplitAt(s: string, pat: string, from: nat, to: nat)
    requires from <= to && At(s, pat, to)
    ensures s[from..] == s[from..to] + pat + s[to + |pat|..]
  {
    assert s[from..] == s[from..to] + s[to..to + |pat|] + s[to + |pat|..];
  }

  lemma ReplaceStepFound(s: string, pat: string, with: string, from: nat, to: nat)
    requires pat != [] && from <= to && Find(s, pat, from) == Some(to)
    ensures Replace(s[from..], pat, with) == s[from..to] + with + Replace(s[to + |pat|..], pat, with)
  {
    SplitAt(s, pat, from, to);
    forall j | 0 <= j < |s[from..to]| ensures !At(s[from..], pat, j) {
      AtDrop(s, pat, from, j);
    }
    ReplaceFirst(s[from..to], pat, s[to + |pat|..], with);
  }

  /** If the inserted character c does not occur in p, then p begins the result only where it began s. */
  lemma {:induction false} ReplaceKeepsPrefix(s: string, pat: string, c: char, p: string)
    requires pat != [] && c !in p && p <= Replace(s, pat, [c])
    ensures At(s, p, 0)
    decreases |s|
  {
    if p != [] {
      var r := Replace(s, pat, [c]);
      assert p[0] in p && p[0] == r[0];
      assert r[1..] == Replace(s[1..], pat, [c]);
      assert p[1..] <= r[1..];
      ReplaceKeepsPrefix(s[1..], pat, c, p[1..]);
      assert s == [s[0]] + s[1..] && p == [p[0]] + p[1..];
    }
  }

  lemma ReplaceClearsStart(s: string, pat: string, c: char)
    requires pat != [] && c !in pat
    ensures !(pat <= Replace(s, pat, [c]))
  {
    assert pat[0] in pat;
    if !At(s, pat, 0) && pat <= Replace(s, pat, [c]) {
      ReplaceKeepsPrefix(s, pat, c, pat);
    }
  }

  /** When the replacement is one character outside the pattern, no pattern is left, not even across the
      seams. */
  lemma {:induction false} ReplaceClears(s: string, pat: string, c: char, i: nat)
    requires pat != [] && c !in pat
    ensures !At(Replace(s, pat, [c]), pat, i)
    decreases |s|
  {
    var r := Replace(s, pat, [c]);
    if i == 0 {
      ReplaceClearsStart(s, pat, c);
      assert At(r, pat, 0) ==> pat <= r;
    } else if s != [] {
      var rest := if At(s, pat, 0) then s[|pat|..] else s[1..];
      assert r[1..] == Replace(rest, pat, [c]);
      ReplaceClears(rest, pat, c, i - 1);
      AtDrop(r, pat, 1, i - 1);
    }
  }

  lemma Seam(s: string, from: nat, to: nat, with: string, rest: string, tail: string)
    requires from <= to <= |s|
    ensures (s[..to] + with + rest)[to + |with|..] == rest
    ensures s[..from] + (s[from..to] + with + tail) == (s[..to] + with + rest)[..to + |with|] + tail
  {
    assert (s[..to] + with + rest)[..to + |with|] == s[..from] + s[from..to] + with;
  }

  /** One round: what is done before pos and what is still to do behind it give the same result. */
  lemma RoundKeeps(s: string, pat: string, with: string, pos: nat, found: nat)
    requires pat != [] && pos <= |s| && Find(s, pat, pos) == Some(found)
    ensures var t := s[..found] + with + s[found + |pat|..];
            s[..pos] + Replace(s[pos..], pat, with)
            == t[..found + |with|] + Replace(t[found + |with|..], pat, with)
  {
    ReplaceStepFound(s, pat, with, pos, found);
    Seam(s, pos, found, with, s[found + |pat|..], Replace(s[found + |pat|..], pat, with));
  }

  /** The loop ends for every non-empty pattern, also when the replacement contains it. */
  method ReplaceStringAll(srcString: string, subString: string, newString: string) returns (resultString: string)
    requires subString != []
    ensures resultString == Replace(srcString, subString, newString)
  {
    resultString := srcString;
    var pos := 0;
    while true
      invariant 0 <= pos <= |resultString|
      invariant Replace(srcString, subString, newString)
                == resultString[..pos] + Replace(resultString[pos..], subString, newString)
      decreases |resultString| - pos
    {
      var found := Find(resultString, subString, pos);
      if found.None? {
        ReplaceStepNone(resultString, subString, newString, pos);
        assert resultString == resultString[..pos] + resultString[pos..];
        return;
      }
      RoundKeeps(resultString, subString, newString, pos, found.value);
      resultString := resultString[..found.value] + newString + resultString[found.value + |subString|..];
      pos := found.value + |newString|;
    }
  }

  // ---------- StringRemove and SafeSubString ----------

  /** Removes the first stretch from open to the close that follows it. */
  function Remove(s: string, open: string, close: string): string {
    var start := Find(s, open, 0);
    if s == [] || start.None? then s else
      var end := Find(s, close, start.value);
      if end.None? then s else s[..start.value] + s[end.value + |close|..]
  }

  /** A block that opens where open first occurs and closes where close first occurs behind that goes,
      and everything around it stays. */
  lemma RemoveBlock(pre: string, open: string, body: string, close: string, post: string)
    requires open != []
    requires Find(pre + open + body + close + post, open, 0) == Some(|pre|)
    requires Find(pre + open + body + close + post, close, |pre|) == Some(|pre| + |open| + |body|)
    ensures Remove(pre + open + body + close + post, open, close) == pre + post
  {
    var s := pre + open + body + close + post;
    assert s[..|pre|] == pre;
    assert s[|pre| + |open| + |body| + |close|..] == post;
  }

  /** Nothing goes exactly when there is no open, or no close from the first open on. */
  lemma RemoveNothingIff(s: string, open: string, close: string)
    requires open != [] && close != []
    ensures Remove(s, open, close) == s
            <==> Find(s, open, 0).None? || Find(s, close, Find(s, open, 0).value).None?
  {
    var start := Find(s, open, 0);
    if start.Some? && Find(s, close, start.value).Some? {
      assert |Remove(s, open, close)| < |s|;
    }
  }

  /** SafeSubString: endIndex is checked against the length but then used as a count. */
  function SafeSubString(s: string, beginIndex: int, endIndex: nat, default: string): string {
    if s == [] || beginIndex < 0 || endIndex > |s| || beginIndex > endIndex then default
    else s[beginIndex..if beginIndex + endIndex <= |s| then beginIndex + endIndex else |s|]
  }

  /** GetLastSplitString with a one-character separator: what follows the last one. */
  function AfterLast(s: string, c: char): (r: string)
    ensures c !in s ==> r == []
    ensures c in s ==> c !in r && |r| < |s| && s[|s| - |r| - 1] == c && s[|s| - |r|..] == r
  {
    if s == [] then []
    else if s[|s| - 1] == c then []
    else if c !in s then []
    else
      assert s == s[..|s| - 1] + [s[|s| - 1]];
      AfterLast(s[..|s| - 1], c) + [s[|s| - 1]]
  }
}
