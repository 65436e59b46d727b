/** UTF-8, section 3 and 4 of RFC 3629. */
module Utf8 {

  type Byte = n: nat | n < 256

  function EncodeChar(c: char): (b: seq<Byte>)
    ensures 1 <= |b| <= 4
  {
    var n := c as int;
    if n < 0x80 then [n]
    else if n < 0x800 then [0xC0 + n / 64, 0x80 + n % 64]
    else if n < 0x10000 then [0xE0 + n / 4096, 0x80 + n / 64 % 64, 0x80 + n % 64]
    else [0xF0 + n / 262144, 0x80 + n / 4096 % 64, 0x80 + n / 64 % 64, 0x80 + n % 64]
  }

  function Encode(s: string): seq<Byte> {
    if s == [] then [] else EncodeChar(s[0]) + Encode(s[1..])
  }

  function ByteLen(s: string): nat {
    |Encode(s)|
  }

  predicate Tail(b: Byte) {
    0x80 <= b <= 0xBF
  }

  /** Length of the well-formed sequence b starts with, 0 when there is none. */
  function HeadLen(b: seq<Byte>): (n: nat)
    ensures n <= |b| && n <= 4
  {
    if b == [] then 0
    else if b[0] <= 0x7F then 1
    else if 0xC2 <= b[0] <= 0xDF && |b| >= 2 && Tail(b[1]) then 2
    else if 0xE0 <= b[0] <= 0xEF && |b| >= 3 && Tail(b[1]) && Tail(b[2])
      && (b[0] == 0xE0 ==> b[1] >= 0xA0) && (b[0] == 0xED ==> b[1] <= 0x9F) then 3
    else if 0xF0 <= b[0] <= 0xF4 && |b| >= 4 && Tail(b[1]) && Tail(b[2]) && Tail(b[3])
      && (b[0] == 0xF0 ==> b[1] >= 0x90) && (b[0] == 0xF4 ==> b[1] <= 0x8F) then 4
    else 0
  }

  function HeadChar(b: seq<Byte>): char
    requires HeadLen(b) > 0
  {
    var low := (i: nat) requires i < |b| => b[i] as int - 0x80;
    match HeadLen(b)
    case 1 => b[0] as char
    case 2 => ((b[0] as int - 0xC0) * 64 + low(1)) as char
    case 3 => ((b[0] as int - 0xE0) * 4096 + low(1) * 64 + low(2)) as char
    case _ => ((b[0] as int - 0xF0) * 262144 + low(1) * 4096 + low(2) * 64 + low(3)) as char
  }

  /** bytes.decode("utf-8", "ignore"): ill-formed bytes are dropped one at a time. */
  function DecodeIgnore(b: seq<Byte>): string {
    if b == [] then []
    else
      var n := HeadLen(b);
      if n == 0 then DecodeIgnore(b[1..]) else [HeadChar(b)] + DecodeIgnore(b[n..])
  }

  // ---------- Encoding ----------

  lemma {:induction false} EncodeConcat(s: string, t: string)
    ensures Encode(s + t) == Encode(s) + Encode(t)
  {
    if s == [] {
      assert s + t == t;
    } else {
      assert (s + t)[1..] == s[1..] + t;
      EncodeConcat(s[1..], t);
    }
  }

  lemma ByteLenConcat(s: string, t: string)
    ensures ByteLen(s + t) == ByteLen(s) + ByteLen(t)
  {
    EncodeConcat(s, t);
  }

  lemma {:induction false} ByteLenAtLeast(s: string)
    ensures ByteLen(s) >= |s|
  {
    if s != [] {
      ByteLenAtLeast(s[1..]);
    }
  }

  // ---------- Decoding undoes encoding, and drops a cut character ----------

  /** The bits of n regrouped by six. */
  lemma Bits(n: nat)
    ensures n == n / 64 * 64 + n % 64
    ensures n / 64 == n / 4096 * 64 + n / 64 % 64
    ensures n / 4096 == n / 262144 * 64 + n / 4096 % 64
  {}

  lemma EncodedChar(c: char)
    ensures HeadLen(EncodeChar(c)) == |EncodeChar(c)| && HeadChar(EncodeChar(c)) == c
  {
    Bits(c as int);
  }

  /** Well-formedness of the head looks only at the head. */
  lemma HeadIsLocal(e: seq<Byte>, rest: seq<Byte>)
    requires HeadLen(e) == |e| && e != []
    ensures HeadLen(e + rest) == |e| && HeadChar(e + rest) == HeadChar(e)
  {
    assert forall i | 0 <= i < |e| :: (e + rest)[i] == e[i];
  }

  lemma HeadOfEncoded(c: char, rest: seq<Byte>)
    ensures var b := EncodeChar(c) + rest;
      HeadLen(b) == |EncodeChar(c)| && HeadChar(b) == c
  {
    EncodedChar(c);
    HeadIsLocal(EncodeChar(c), rest);
  }

  lemma Digits64(a: int, b: int)
    requires 0 <= b < 64
    ensures (a * 64 + b) / 64 == a && (a * 64 + b) % 64 == b
  {}

  lemma ThreeDigits64(n: int, h: int, a: int, b: int)
    requires n == h * 4096 + a * 64 + b && 0 <= a < 64 && 0 <= b < 64
    ensures n / 4096 == h && n / 64 % 64 == a && n % 64 == b
  {
    Digits64(h * 64 + a, b);
    Digits64(h, a);
  }

  lemma FourDigits64(n: int, h: int, a: int, b: int, c: int)
    requires n == h * 262144 + a * 4096 + b * 64 + c && 0 <= a < 64 && 0 <= b < 64 && 0 <= c < 64
    ensures n / 262144 == h && n / 4096 % 64 == a && n / 64 % 64 == b && n % 64 == c
  {
    Digits64(h * 4096 + a * 64 + b, c);
    ThreeDigits64(h * 4096 + a * 64 + b, h, a, b);
  }

  /** What the decoder accepts at the head is the encoding of the character it reads. */
  lemma HeadIsEncoding(b: seq<Byte>)
    requires HeadLen(b) > 0
    ensures EncodeChar(HeadChar(b)) == b[..HeadLen(b)]
  {
    var c := HeadChar(b) as int;
    match HeadLen(b)
    case 1 =>
    case 2 => Digits64(b[0] as int - 0xC0, b[1] as int - 0x80);
    case 3 => ThreeDigits64(c, b[0] as int - 0xE0, b[1] as int - 0x80, b[2] as int - 0x80);
    case _ => FourDigits64(c, b[0] as int - 0xF0, b[1] as int - 0x80, b[2] as int - 0x80, b[3] as int - 0x80);
  }

  /** A byte is dropped exactly when no encoded character begins with it. */
  lemma DroppedExactlyWhenIllFormed(b: seq<Byte>)
    ensures HeadLen(b) == 0 <==> forall c :: !(EncodeChar(c) <= b)
  {
    if HeadLen(b) > 0 {
      HeadIsEncoding(b);
      assert EncodeChar(HeadChar(b)) <= b;
    }
    forall c | EncodeChar(c) <= b
      ensures HeadLen(b) > 0
    {
      var e := EncodeChar(c);
      HeadOfEncoded(c, b[|e|..]);
      assert b == e + b[|e|..];
    }
  }

  /** A proper prefix of one encoded character decodes to nothing. */
  lemma CutCharIsDropped(c: char, j: nat)
    requires j < |EncodeChar(c)|
    ensures DecodeIgnore(EncodeChar(c)[..j]) == []
  {
    var e := EncodeChar(c);
    var b := e[..j];
    assert forall i | 1 <= i < |e| :: Tail(e[i]);
    assert |e| > 1 ==> e[0] >= 0xC2;
    if j > 0 {
      assert HeadLen(b) == 0;
      TailsAreDropped(b[1..]);
    }
  }

  lemma {:induction false} TailsAreDropped(b: seq<Byte>)
    requires forall i | 0 <= i < |b| :: Tail(b[i])
    ensures DecodeIgnore(b) == []
  {
    if b != [] {
      TailsAreDropped(b[1..]);
    }
  }

  /** How many characters of s fit whole into n bytes. */
  function Fit(s: string, n: nat): (k: nat)
    ensures k <= |s|
  {
    if s == [] || |EncodeChar(s[0])| > n then 0 else 1 + Fit(s[1..], n - |EncodeChar(s[0])|)
  }

  /** Fit is the longest prefix whose encoding has at most n bytes. */
  lemma {:induction false} FitIsLongest(s: string, n: nat, k: nat)
    requires k <= |s|
    ensures ByteLen(s[..k]) <= n <==> k <= Fit(s, n)
  {
    if k > 0 {
      assert s[..k] == [s[0]] + s[1..][..k - 1];
      EncodeConcat([s[0]], s[1..][..k - 1]);
      assert Encode([s[0]]) == EncodeChar(s[0]) + Encode([]);
      if |EncodeChar(s[0])| <= n {
        FitIsLongest(s[1..], n - |EncodeChar(s[0])|, k - 1);
      }
    }
  }

  /** Main result: decoding the first n bytes of an encoded text, ignoring errors, yields
      its longest prefix that fits. */
  lemma {:induction false} DecodePrefix(s: string, n: nat)
    requires n <= ByteLen(s)
    ensures DecodeIgnore(Encode(s)[..n]) == s[..Fit(s, n)]
  {
    if s != [] {
      var e, r := EncodeChar(s[0]), Encode(s[1..]);
      if |e| <= n {
        assert (e + r)[..n] == e + r[..n - |e|];
        HeadOfEncoded(s[0], r[..n - |e|]);
        assert (e + r[..n - |e|])[|e|..] == r[..n - |e|];
        DecodePrefix(s[1..], n - |e|);
        assert s[..Fit(s, n)] == [s[0]] + s[1..][..Fit(s, n) - 1];
      } else {
        assert (e + r)[..n] == e[..n];
        CutCharIsDropped(s[0], n);
      }
    }
  }
}
