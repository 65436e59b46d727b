/** Subject truncation under the envelope's byte cap. */
module Truncate {
  import opened Utf8
  import opened Decimals

  // The code is truncate_subject in bin/_eli5/subject.py.

  const MARKER_HEAD := "\n\n[subject truncated at 8KB \U{2014} "
  const MARKER_TAIL := " chars omitted]"

  function Marker(omitted: nat): string {
    MARKER_HEAD + ToDecimal(omitted) + MARKER_TAIL
  }

  /** Bytes reserved for the marker of a text of n characters. */
  function Reserved(n: nat): nat {
    ByteLen(Marker(n))
  }

  /** b[:n] for any integer n, as Python slices. */
  function Slice(b: seq<Byte>, n: int): seq<Byte> {
    if n >= |b| then b
    else if n >= 0 then b[..n]
    else if |b| + n >= 0 then b[..|b| + n]
    else []
  }

  predicate BreakAt(s: string, i: int) {
    0 <= i && i + 2 <= |s| && s[i] == '\n' && s[i + 1] == '\n'
  }

  /** That is an occurrence of the blank line's two line feeds. */
  lemma BreakIsTwoLineFeeds(s: string, i: nat)
    ensures BreakAt(s, i) <==> exists a, b :: |a| == i && s == a + "\n\n" + b
  {
    if BreakAt(s, i) {
      assert s == s[..i] + "\n\n" + s[i + 2..];
    }
  }

  /** s.rfind("\n\n") */
  function LastBreak(s: string): (i: int)
    ensures i == -1 || BreakAt(s, i)
    ensures forall j | i < j :: !BreakAt(s, j)
  {
    LastBreakUpTo(s, |s|)
  }

  function LastBreakUpTo(s: string, n: nat): (i: int)
    requires n <= |s|
    ensures i == -1 || (i < n && BreakAt(s, i))
    ensures forall j | i < j < n :: !BreakAt(s, j)
  {
    if n == 0 then -1 else if BreakAt(s, n - 1) then n - 1 else LastBreakUpTo(s, n - 1)
  }

  lemma SliceOfEncoded(text: string, n: int)
    ensures Slice(Encode(text), n) == Encode(text)[..SliceLen(ByteLen(text), n)]
  {
    assert Encode(text)[..ByteLen(text)] == Encode(text);
  }

  function SliceLen(size: nat, n: int): (m: nat)
    ensures m <= size
  {
    if n >= size then size else if n >= 0 then n else if size + n >= 0 then size + n else 0
  }

  lemma PrefixFits(text: string, n: int)
    ensures |DecodeIgnore(Slice(Encode(text), n))| <= |text|
  {
    SliceOfEncoded(text, n);
    DecodePrefix(text, SliceLen(ByteLen(text), n));
  }

  function TruncateSubject(text: string, cap: int): (string, nat) {
    if ByteLen(text) <= cap then (text, 0)
    else
      var budget := cap - Reserved(|text|);
      var prefix := DecodeIgnore(Slice(Encode(text), budget));
      var cut := LastBreak(prefix);
      var kept := if cut > 0 then prefix[..cut] else prefix;
      PrefixFits(text, budget);
      var omitted := |text| - |kept|;
      (kept + Marker(omitted), omitted)
  }

  // ---------- What it promises ----------

  lemma NumeralBytes(head: string, n: nat, tail: string)
    ensures ByteLen(head + ToDecimal(n) + tail) == ByteLen(head) + |ToDecimal(n)| + ByteLen(tail)
  {
    ByteLenConcat(head, ToDecimal(n));
    ByteLenConcat(head + ToDecimal(n), tail);
    RoundTrip(n);
    DigitsAreBytes(ToDecimal(n));
  }

  lemma {:induction false} DigitsAreBytes(s: string)
    requires AllDigits(s)
    ensures ByteLen(s) == |s|
  {
    if s != [] {
      DigitsAreBytes(s[1..]);
    }
  }

  /** Where the cut falls: at the last paragraph break (not at the very start) inside the
      longest prefix that fits n bytes, or at the end of that prefix when it has none. */
  ghost predicate CutsAt(text: string, n: nat, k: nat) {
    var f := Fit(text, n);
    && k <= f
    && (k == f || (k > 0 && BreakAt(text[..f], k)))
    && (forall j | j > 0 && BreakAt(text[..f], j) :: k < f && j <= k)
  }

  lemma KeptIsPrefix(text: string, cap: int) returns (k: nat, n: nat)
    requires ByteLen(text) > cap
    ensures k <= |text| && n <= ByteLen(text) && CutsAt(text, n, k)
    ensures cap >= Reserved(|text|) ==> n == cap - Reserved(|text|)
    ensures TruncateSubject(text, cap) == (text[..k] + Marker(|text| - k), |text| - k)
  {
    var budget := cap - Reserved(|text|);
    var size := ByteLen(text);
    n := SliceLen(size, budget);
    SliceOfEncoded(text, budget);
    DecodePrefix(text, n);
    var f := Fit(text, n);
    var cut := LastBreak(text[..f]);
    k := if cut > 0 then cut else f;
    assert text[..k] == if cut > 0 then text[..f][..cut] else text[..f];
  }

  /** Leaving out one character more saves at most one digit of the marker. */
  lemma CutSize(kept: string, n: nat, m: nat, head: string, tail: string)
    requires m <= n
    ensures var reserved, out := ByteLen(head + ToDecimal(n) + tail), kept + (head + ToDecimal(m) + tail);
      ByteLen(kept) + reserved - (n - m) <= ByteLen(out) <= ByteLen(kept) + reserved
  {
    ByteLenConcat(kept, head + ToDecimal(m) + tail);
    NumeralBytes(head, n, tail);
    NumeralBytes(head, m, tail);
    LengthGrowsSlowly(m, n);
  }

  /** A cut text fits the cap exactly when the cap has room for the marker. */
  lemma CutFits(text: string, cap: int, k: nat, n: nat, head: string, tail: string)
    requires ByteLen(text) > cap && k <= |text| && k <= Fit(text, n)
    requires var reserved := ByteLen(head + ToDecimal(|text|) + tail); cap >= reserved ==> n == cap - reserved
    ensures ByteLen(text[..k] + (head + ToDecimal(|text| - k) + tail)) <= cap <==>
            cap >= ByteLen(head + ToDecimal(|text|) + tail)
  {
    CutSize(text[..k], |text|, |text| - k, head, tail);
    ByteLenAtLeast(text[..k]);
    FitIsLongest(text, n, k);
  }

  /** Main result, for every text and every cap: the result is a prefix of the text and a
      marker that counts exactly the characters left out; it fits the cap exactly when the
      text does or the cap has room for the marker; at such a cap it is a fixed point. */
  lemma TruncateMeetsItsRule(text: string, cap: int)
    ensures var (out, omitted) := TruncateSubject(text, cap);
      && (ByteLen(text) <= cap ==> out == text && omitted == 0)
      && (ByteLen(text) > cap ==>
            exists k: nat :: k <= |text| && k + omitted == |text| && out == text[..k] + Marker(omitted))
      && (ByteLen(out) <= cap <==> ByteLen(text) <= cap || cap >= Reserved(|text|))
      && (ByteLen(out) <= cap ==> TruncateSubject(out, cap) == (out, 0))
  {
    if ByteLen(text) > cap {
      var k, n := KeptIsPrefix(text, cap);
      var omitted := |text| - k;
      assert k <= |text| && k + omitted == |text|;
      CutFits(text, cap, k, n, MARKER_HEAD, MARKER_TAIL);
    }
  }

  /** Truncation is never silent, and the cut is a paragraph break where one fits. */
  lemma TruncationIsVisible(text: string, cap: int)
    requires Reserved(|text|) <= cap < ByteLen(text)
    ensures exists k: nat :: (k < |text| && CutsAt(text, cap - Reserved(|text|), k)
                             && TruncateSubject(text, cap) == (text[..k] + Marker(|text| - k), |text| - k))
  {
    var k, n := KeptIsPrefix(text, cap);
    FitIsLongest(text, n, |text|);
    assert text[..|text|] == text;
  }
}
