/** JSON values and their printer, RFC 8259 sections 4 to 7. */
module Json {

  // An object keeps its members in the order of the text, repetitions included; JsonNormal
  // says what Python makes of them.  The printer is prefix-free on well-formed values: no
  // two of them print alike, even when more text follows.

  datatype Json =
    | Null
    | Bool(value: bool)
    | Num(lexeme: string)
    | Str(text: string)
    | Arr(items: Items)
    | Obj(fields: Fields)

  datatype Items = NoItems | Item(head: Json, tail: Items)

  datatype Fields = NoFields | Field(key: string, val: Json, rest: Fields)

  // ---------- Well-formedness ----------

  /** Characters a number lexeme is made of; json.dumps also writes NaN, Infinity and -Infinity. */
  predicate NumChar(c: char) {
    '0' <= c <= '9' || c in {'+', '-', '.', 'e', 'E', 'N', 'a', 'I', 'n', 'f', 'i', 't', 'y'}
  }

  predicate NumStart(c: char) {
    '0' <= c <= '9' || c in {'-', 'N', 'I'}
  }

  predicate IsNumber(x: string) {
    x != [] && NumStart(x[0]) && forall i | 0 <= i < |x| :: NumChar(x[i])
  }

  /** The only constraint on values. */
  ghost predicate WellFormed(v: Json) {
    match v
    case Num(lexeme) => IsNumber(lexeme)
    case Arr(items) => WellFormedItems(items)
    case Obj(fields) => WellFormedFields(fields)
    case _ => true
  }

  ghost predicate WellFormedItems(items: Items) {
    items.Item? ==> WellFormed(items.head) && WellFormedItems(items.tail)
  }

  ghost predicate WellFormedFields(fields: Fields) {
    fields.Field? ==> WellFormed(fields.val) && WellFormedFields(fields.rest)
  }

  // ---------- Printer ----------

  /** White space the printer adds: after an opening bracket, after a comma, before
      a closing bracket (each may depend on the depth) and after a colon. */
  datatype Style = Style(open: nat -> string, sep: nat -> string, close: nat -> string, colon: string)

  predicate IsSpace(c: char) {
    c in {' ', '\n', '\r', '\t'}
  }

  predicate Blank(s: string) {
    forall i | 0 <= i < |s| :: IsSpace(s[i])
  }

  ghost predicate WhiteStyle(st: Style) {
    && (forall d: nat :: Blank(st.open(d)) && Blank(st.sep(d)) && Blank(st.close(d)))
    && Blank(st.colon)
  }

  /** separators=(",", ":") and no indentation. */
  const COMPACT := Style((d: nat) => "", (d: nat) => "", (d: nat) => "", "")

  function HexDigit(n: nat): (c: char)
    requires n < 16
  {
    "0123456789abcdef"[n]
  }

  /** One character inside a string literal. */
  function Escape(c: char): (s: string)
    ensures s != []
  {
    if c == '\"' then ['\\', '\"']
    else if c == '\\' then ['\\', '\\']
    else if c == '\n' then ['\\', 'n']
    else if c == '\r' then ['\\', 'r']
    else if c == '\t' then ['\\', 't']
    else if c as int == 8 then ['\\', 'b']
    else if c as int == 12 then ['\\', 'f']
    else if c as int < 32 then ['\\', 'u', '0', '0', HexDigit(c as int / 16), HexDigit(c as int % 16)]
    else [c]
  }

  function EscapeAll(s: string): string {
    if s == [] then [] else Escape(s[0]) + EscapeAll(s[1..])
  }

  function Quote(s: string): string {
    ['\"'] + EscapeAll(s) + ['\"']
  }

  /** The text of v printed at nesting depth d. */
  function Print(v: Json, st: Style, d: nat): string {
    match v
    case Null => "null"
    case Bool(b) => if b then "true" else "false"
    case Num(lexeme) => lexeme
    case Str(text) => Quote(text)
    case Arr(NoItems) => "[]"
    case Arr(Item(h, t)) => ['['] + (st.open(d + 1) + (Print(h, st, d + 1) + PrintItems(t, st, d)))
    case Obj(NoFields) => "{}"
    case Obj(Field(k, x, r)) =>
      ['{'] + (st.open(d + 1) + (Quote(k) + ([':'] + (st.colon + (Print(x, st, d + 1) + PrintFields(r, st, d))))))
  }

  /** The remaining items, up to and including the closing bracket. */
  function PrintItems(items: Items, st: Style, d: nat): string {
    match items
    case NoItems => st.close(d) + [']']
    case Item(h, t) => [','] + (st.sep(d + 1) + (Print(h, st, d + 1) + PrintItems(t, st, d)))
  }

  /** The remaining members, up to and including the closing brace. */
  function PrintFields(fields: Fields, st: Style, d: nat): string {
    match fields
    case NoFields => st.close(d) + ['}']
    case Field(k, x, r) =>
      [','] + (st.sep(d + 1) + (Quote(k) + ([':'] + (st.colon + (Print(x, st, d + 1) + PrintFields(r, st, d))))))
  }

  function Dumps(v: Json): string {
    Print(v, COMPACT, 0)
  }

  // ---------- The printer is prefix-free ----------

  lemma Cancel<T>(p: seq<T>, a: seq<T>, b: seq<T>)
    requires p + a == p + b
    ensures a == b
  {
    assert a == (p + a)[|p|..];
    assert b == (p + b)[|p|..];
  }

  lemma FirstOf(a: string, b: string)
    ensures a != [] ==> a + b != [] && (a + b)[0] == a[0]
  {}

  lemma Regroup(c: string, o: string, x: string, s: string, a: string)
    ensures (c + (o + (x + s))) + a == (c + o) + (x + (s + a))
  {
    assert (c + (o + (x + s))) + a == c + (o + (x + (s + a)));
  }

  lemma RegroupMember(c: string, o: string, k: string, e: string, w: string, x: string, s: string, a: string)
    ensures (c + (o + (k + (e + (w + (x + s)))))) + a == (c + o) + (k + ((e + w) + (x + (s + a))))
  {
    Regroup(e, w, x, s, a);
    var m := e + (w + (x + s));
    assert m + a == (e + w) + (x + (s + a));
    Regroup(c, o, k, m, a);
  }

  /** The character an escape stands for. */
  function Unescape(s: string): char
    requires s != []
  {
    if |s| < 2 then s[0]
    else if |s| == 6 then
      var n := (if s[4] == '1' then 16 else 0) + HexValue(s[5]);
      n as char
    else
      match s[1]
      case 'n' => '\n'
      case 'r' => '\r'
      case 't' => '\t'
      case 'b' => 8 as char
      case 'f' => 12 as char
      case c => c
  }

  function HexValue(c: char): (n: nat)
    ensures n < 16
  {
    if '0' <= c <= '9' then c as int - '0' as int
    else if 'a' <= c <= 'f' then c as int - 'a' as int + 10
    else 0
  }

  lemma HexRoundTrip(n: nat)
    ensures n < 16 ==> (HexValue(HexDigit(n)) == n && (HexDigit(n) == '1' <==> n == 1))
  {}

  /** Its second character tells a pair from a \u escape. */
  lemma EscapeShape(c: char)
    ensures var x := Escape(c);
      && |x| in {1, 2, 6}
      && (|x| == 1 <==> x[0] != '\\')
      && (|x| > 1 ==> (|x| == 6 <==> x[1] == 'u'))
      && Unescape(x) == c
  {
    var n := c as int;
    if n < 32 && |Escape(c)| == 6 {
      HexRoundTrip(n / 16);
      HexRoundTrip(n % 16);
    }
  }

  lemma EscapeIsPrefixFree(c: char, e: char, a: string, b: string)
    requires Escape(c) + a == Escape(e) + b
    ensures c == e && a == b
  {
    var x, y := Escape(c), Escape(e);
    EscapeShape(c);
    EscapeShape(e);
    FirstOf(x, a);
    FirstOf(y, b);
    assert |x| > 1 ==> (x + a)[1] == x[1];
    assert |y| > 1 ==> (y + b)[1] == y[1];
    assert |x| == |y|;
    assert x == (x + a)[..|x|] && y == (y + b)[..|y|];
    Cancel(x, a, b);
  }

  lemma EscapeAllStep(s: string, a: string)
    ensures s != [] ==> EscapeAll(s) + a == Escape(s[0]) + (EscapeAll(s[1..]) + a)
  {}

  lemma EscapeStart(c: char)
    ensures Escape(c)[0] != '\"'
  {}

  /** A string body is followed by the closing quote at once exactly when it is empty. */
  lemma BodyStart(s: string, a: string)
    ensures var t := EscapeAll(s) + (['\"'] + a); t != [] && (t[0] == '\"' <==> s == [])
  {
    if s != [] {
      EscapeAllStep(s, ['\"'] + a);
      EscapeStart(s[0]);
      FirstOf(Escape(s[0]), EscapeAll(s[1..]) + (['\"'] + a));
    }
  }

  /** The closing quote of a string literal is recognised wherever it stands. */
  lemma {:induction false} EscapeAllIsPrefixFree(s: string, t: string, a: string, b: string)
    requires EscapeAll(s) + (['\"'] + a) == EscapeAll(t) + (['\"'] + b)
    ensures s == t && a == b
  {
    BodyStart(s, a);
    BodyStart(t, b);
    if s == [] {
      assert EscapeAll(s) + (['\"'] + a) == ['\"'] + a;
      assert EscapeAll(t) + (['\"'] + b) == ['\"'] + b;
      Cancel(['\"'], a, b);
    } else {
      var x, y := ['\"'] + a, ['\"'] + b;
      EscapeAllStep(s, x);
      EscapeAllStep(t, y);
      EscapeIsPrefixFree(s[0], t[0], EscapeAll(s[1..]) + x, EscapeAll(t[1..]) + y);
      EscapeAllIsPrefixFree(s[1..], t[1..], a, b);
      assert s == [s[0]] + s[1..] && t == [t[0]] + t[1..];
    }
  }

  lemma QuoteStep(s: string, a: string)
    ensures Quote(s) + a == ['\"'] + (EscapeAll(s) + (['\"'] + a))
  {
    Regroup("", ['\"'], EscapeAll(s), ['\"'], a);
    assert "" + (['\"'] + (EscapeAll(s) + ['\"'])) == Quote(s);
    assert "" + ['\"'] == ['\"'];
  }

  lemma QuoteIsPrefixFree(s: string, t: string, a: string, b: string)
    requires Quote(s) + a == Quote(t) + b
    ensures s == t && a == b
  {
    QuoteStep(s, a);
    QuoteStep(t, b);
    Cancel(['\"'], EscapeAll(s) + (['\"'] + a), EscapeAll(t) + (['\"'] + b));
    EscapeAllIsPrefixFree(s, t, a, b);
  }

  /** What may follow a value: nothing, or a character no number contains. */
  predicate Ends(a: string) {
    a == [] || !NumChar(a[0])
  }

  /** Length of the longest run of number characters s starts with. */
  function NumberRun(s: string): nat {
    if s == [] || !NumChar(s[0]) then 0 else 1 + NumberRun(s[1..])
  }

  lemma {:induction false} RunOfLexeme(x: string, a: string)
    requires Ends(a) && forall i | 0 <= i < |x| :: NumChar(x[i])
    ensures NumberRun(x + a) == |x|
  {
    if x == [] {
      assert x + a == a;
    } else {
      assert (x + a)[1..] == x[1..] + a;
      RunOfLexeme(x[1..], a);
    }
  }

  lemma LexemeIsPrefixFree(x: string, y: string, a: string, b: string)
    requires forall i | 0 <= i < |x| :: NumChar(x[i])
    requires forall i | 0 <= i < |y| :: NumChar(y[i])
    requires Ends(a) && Ends(b) && x + a == y + b
    ensures x == y && a == b
  {
    RunOfLexeme(x, a);
    RunOfLexeme(y, b);
    assert x == (x + a)[..|x|] && y == (y + b)[..|y|];
    Cancel(x, a, b);
  }

  /** The first character of a printed value tells its kind. */
  predicate Starts(v: Json, c: char) {
    match v
    case Null => c == 'n'
    case Bool(b) => c == (if b then 't' else 'f')
    case Num(_) => NumStart(c)
    case Str(_) => c == '\"'
    case Arr(_) => c == '['
    case Obj(_) => c == '{'
  }

  lemma PrintStarts(v: Json, st: Style, d: nat)
    ensures WellFormed(v) ==> Print(v, st, d) != [] && Starts(v, Print(v, st, d)[0])
  {}

  /** The text of a value followed by a: first character, and for brackets whether
      they close at once. */
  lemma Shape(v: Json, st: Style, d: nat, a: string)
    requires WellFormed(v) && WhiteStyle(st)
    ensures var s := Print(v, st, d) + a; s != [] && Starts(v, s[0])
    ensures v.Arr? ==> var s := Print(v, st, d) + a; |s| > 1 && (s[1] == ']' <==> v.items.NoItems?)
    ensures v.Obj? ==> var s := Print(v, st, d) + a; |s| > 1 && (s[1] == '}' <==> v.fields.NoFields?)
  {
    PrintStarts(v, st, d);
    FirstOf(Print(v, st, d), a);
    assert Blank(st.open(d + 1));
    match v
    case Arr(Item(h, t)) =>
      PrintStarts(h, st, d + 1);
      FirstOf(Print(h, st, d + 1), PrintItems(t, st, d));
    case Obj(Field(k, x, r)) =>
      var m := [':'] + (st.colon + (Print(x, st, d + 1) + PrintFields(r, st, d)));
      FirstOf(Quote(k), m);
    case _ =>
  }

  lemma TailShape(st: Style, d: nat, items: Items, fields: Fields, a: string)
    requires WhiteStyle(st)
    ensures var s := PrintItems(items, st, d) + a; s != [] && Ends(s) && (s[0] == ',' <==> items.Item?)
    ensures var s := PrintFields(fields, st, d) + a; s != [] && Ends(s) && (s[0] == ',' <==> fields.Field?)
  {
    assert Blank(st.close(d));
    FirstOf(PrintItems(items, st, d), a);
    FirstOf(PrintFields(fields, st, d), a);
  }

  /** Two well-formed values whose texts agree with what follows them are the same
      value: parsing is determined. */
  lemma {:induction false} PrintIsPrefixFree(v: Json, w: Json, st: Style, d: nat, a: string, b: string)
    requires WellFormed(v) && WellFormed(w) && WhiteStyle(st)
    requires Ends(a) && Ends(b)
    requires Print(v, st, d) + a == Print(w, st, d) + b
    ensures v == w && a == b
    decreases v, 1
  {
    Shape(v, st, d, a);
    Shape(w, st, d, b);
    match v
    case Null => Cancel("null", a, b);
    case Bool(x) => Cancel(Print(v, st, d), a, b);
    case Num(x) => LexemeIsPrefixFree(x, w.lexeme, a, b);
    case Str(s) => QuoteIsPrefixFree(s, w.text, a, b);
    case Arr(NoItems) => Cancel("[]", a, b);
    case Arr(Item(h, t)) => ArrIsPrefixFree(h, w.items.head, t, w.items.tail, st, d, a, b);
    case Obj(NoFields) => Cancel("{}", a, b);
    case Obj(Field(_, _, _)) =>
      var p := ['{'] + st.open(d + 1);
      ObjStep(v.fields, st, d, a);
      ObjStep(w.fields, st, d, b);
      Cancel(p, Member(v.fields, st, d, a), Member(w.fields, st, d, b));
      MemberIsPrefixFree(v.fields, w.fields, st, d, a, b);
  }

  lemma {:induction false} ArrIsPrefixFree(h: Json, k: Json, t: Items, u: Items, st: Style, d: nat, a: string,
      b: string)
    requires WellFormed(h) && WellFormed(k) && WellFormedItems(t) && WellFormedItems(u) && WhiteStyle(st)
    requires Ends(a) && Ends(b)
    requires Print(Arr(Item(h, t)), st, d) + a == Print(Arr(Item(k, u)), st, d) + b
    ensures h == k && t == u && a == b
    decreases Item(h, t), 1
  {
    var o := st.open(d + 1);
    var x, y := Print(h, st, d + 1), Print(k, st, d + 1);
    var s, r := PrintItems(t, st, d), PrintItems(u, st, d);
    Regroup(['['], o, x, s, a);
    Regroup(['['], o, y, r, b);
    Cancel(['['] + o, x + (s + a), y + (r + b));
    TailShape(st, d, t, NoFields, a);
    TailShape(st, d, u, NoFields, b);
    PrintIsPrefixFree(h, k, st, d + 1, s + a, r + b);
    ItemsArePrefixFree(t, u, st, d, a, b);
  }

  lemma {:induction false} ItemsArePrefixFree(t: Items, u: Items, st: Style, d: nat, a: string, b: string)
    requires WellFormedItems(t) && WellFormedItems(u) && WhiteStyle(st)
    requires Ends(a) && Ends(b)
    requires PrintItems(t, st, d) + a == PrintItems(u, st, d) + b
    ensures t == u && a == b
    decreases t
  {
    TailShape(st, d, t, NoFields, a);
    TailShape(st, d, u, NoFields, b);
    if t.NoItems? {
      Cancel(PrintItems(t, st, d), a, b);
    } else {
      var o := st.sep(d + 1);
      var x, y := Print(t.head, st, d + 1), Print(u.head, st, d + 1);
      var s, r := PrintItems(t.tail, st, d), PrintItems(u.tail, st, d);
      Regroup([','], o, x, s, a);
      Regroup([','], o, y, r, b);
      Cancel([','] + o, x + (s + a), y + (r + b));
      TailShape(st, d, t.tail, NoFields, a);
      TailShape(st, d, u.tail, NoFields, b);
      PrintIsPrefixFree(t.head, u.head, st, d + 1, s + a, r + b);
      ItemsArePrefixFree(t.tail, u.tail, st, d, a, b);
    }
  }

  /** A member, the members after it, and the text a after the object. */
  function Member(f: Fields, st: Style, d: nat, a: string): string
    requires f.Field?
  {
    Quote(f.key) + (([':'] + st.colon) + (Print(f.val, st, d + 1) + (PrintFields(f.rest, st, d) + a)))
  }

  lemma ObjStep(f: Fields, st: Style, d: nat, a: string)
    requires f.Field?
    ensures Print(Obj(f), st, d) + a == (['{'] + st.open(d + 1)) + Member(f, st, d, a)
  {
    RegroupMember(['{'], st.open(d + 1), Quote(f.key), [':'], st.colon, Print(f.val, st, d + 1),
                  PrintFields(f.rest, st, d), a);
  }

  lemma FieldsStep(f: Fields, st: Style, d: nat, a: string)
    requires f.Field?
    ensures PrintFields(f, st, d) + a == ([','] + st.sep(d + 1)) + Member(f, st, d, a)
  {
    RegroupMember([','], st.sep(d + 1), Quote(f.key), [':'], st.colon, Print(f.val, st, d + 1),
                  PrintFields(f.rest, st, d), a);
  }

  lemma {:induction false} MemberIsPrefixFree(f: Fields, g: Fields, st: Style, d: nat, a: string, b: string)
    requires WellFormedFields(f) && WellFormedFields(g) && WhiteStyle(st)
    requires Ends(a) && Ends(b) && f.Field? && g.Field?
    requires Member(f, st, d, a) == Member(g, st, d, b)
    ensures f == g && a == b
    decreases f, 0
  {
    var x, y := Print(f.val, st, d + 1), Print(g.val, st, d + 1);
    var s, t := PrintFields(f.rest, st, d) + a, PrintFields(g.rest, st, d) + b;
    var p := [':'] + st.colon;
    QuoteIsPrefixFree(f.key, g.key, p + (x + s), p + (y + t));
    Cancel(p, x + s, y + t);
    TailShape(st, d, NoItems, f.rest, a);
    TailShape(st, d, NoItems, g.rest, b);
    PrintIsPrefixFree(f.val, g.val, st, d + 1, s, t);
    FieldsArePrefixFree(f.rest, g.rest, st, d, a, b);
  }

  lemma {:induction false} FieldsArePrefixFree(x: Fields, y: Fields, st: Style, d: nat, a: string, b: string)
    requires WellFormedFields(x) && WellFormedFields(y) && WhiteStyle(st)
    requires Ends(a) && Ends(b)
    requires PrintFields(x, st, d) + a == PrintFields(y, st, d) + b
    ensures x == y && a == b
    decreases x, 1
  {
    TailShape(st, d, NoItems, x, a);
    TailShape(st, d, NoItems, y, b);
    if x.NoFields? {
      Cancel(PrintFields(x, st, d), a, b);
    } else {
      FieldsStep(x, st, d, a);
      FieldsStep(y, st, d, b);
      Cancel([','] + st.sep(d + 1), Member(x, st, d, a), Member(y, st, d, b));
      MemberIsPrefixFree(x, y, st, d, a, b);
    }
  }

  /** Canonical printing is injective. */
  lemma DumpsIsInjective(v: Json, w: Json)
    requires WellFormed(v) && WellFormed(w) && Dumps(v) == Dumps(w)
    ensures v == w
  {
    assert Dumps(v) + "" == Dumps(w) + "";
    PrintIsPrefixFree(v, w, COMPACT, 0, "", "");
  }

  // ---------- One value, one line ----------

  ghost predicate OneLine(s: string) {
    forall i | 0 <= i < |s| :: s[i] != '\n'
  }

  lemma EscapeIsOneLine(c: char)
    ensures OneLine(Escape(c))
  {}

  lemma {:induction false} QuoteIsOneLine(s: string)
    ensures OneLine(EscapeAll(s)) && OneLine(Quote(s))
  {
    if s != [] {
      EscapeIsOneLine(s[0]);
      QuoteIsOneLine(s[1..]);
    }
  }

  /** A compactly printed value never contains a line feed, so a log can hold one
      value a line. */
  lemma {:induction false} CompactIsOneLine(v: Json, d: nat)
    requires WellFormed(v)
    ensures OneLine(Print(v, COMPACT, d))
  {
    match v
    case Str(s) => QuoteIsOneLine(s);
    case Arr(Item(h, t)) =>
      CompactIsOneLine(h, d + 1);
      CompactItemsAreOneLine(t, d);
    case Obj(Field(k, x, r)) =>
      QuoteIsOneLine(k);
      CompactIsOneLine(x, d + 1);
      CompactFieldsAreOneLine(r, d);
    case _ =>
  }

  lemma {:induction false} CompactItemsAreOneLine(items: Items, d: nat)
    requires WellFormedItems(items)
    ensures OneLine(PrintItems(items, COMPACT, d))
  {
    if items.Item? {
      CompactIsOneLine(items.head, d + 1);
      CompactItemsAreOneLine(items.tail, d);
    }
  }

  lemma {:induction false} CompactFieldsAreOneLine(fields: Fields, d: nat)
    requires WellFormedFields(fields)
    ensures OneLine(PrintFields(fields, COMPACT, d))
  {
    if fields.Field? {
      QuoteIsOneLine(fields.key);
      CompactIsOneLine(fields.val, d + 1);
      CompactFieldsAreOneLine(fields.rest, d);
    }
  }
}
