/** The first JSON object of a text. */
module JsonScan {
  import opened Optional
  import opened Json

  // The code is in bin/_sdk_bridge.py. The scanner only tracks brace depth and string state; it must nevertheless
  // cut out exactly what a JSON printer wrote, whatever strings the object holds.

  datatype Scan = Scan(depth: int, inString: bool, escape: bool)

  /** Outside any string at brace depth n. */
  function At(n: int): Scan {
    Scan(n, false, false)
  }

  function Step(s: Scan, ch: char): Scan {
    if s.inString then
      if s.escape then s.(escape := false)
      else if ch == '\\' then s.(escape := true)
      else if ch == '\"' then s.(inString := false)
      else s
    else if ch == '\"' then s.(inString := true)
    else if ch == '{' then s.(depth := s.depth + 1)
    else if ch == '}' then s.(depth := s.depth - 1)
    else s
  }

  function Run(s: Scan, t: string): Scan
    decreases |t|
  {
    if t == [] then s else Run(Step(s, t[0]), t[1..])
  }

  /** No prefix of t takes the depth below n. */
  ghost predicate Stays(s: Scan, t: string, n: int)
    decreases |t|
  {
    s.depth >= n && (t != [] ==> Stays(Step(s, t[0]), t[1..], n))
  }

  // ---------- What the scanner is meant to cut out ----------

  /** The scanner state before text[k], started outside any string at text[i]. */
  ghost function StateAt(text: string, i: nat, k: nat): Scan
    requires i <= k <= |text|
    decreases k
  {
    if k == i then At(0) else Step(StateAt(text, i, k - 1), text[k - 1])
  }

  /** text[i..j] starts at the first brace, and j is the first position after it at
      which the braces outside strings balance. */
  ghost predicate IsSlice(text: string, i: nat, j: nat) {
    && i < j <= |text|
    && text[i] == '{' && (forall k | 0 <= k < i :: text[k] != '{')
    && StateAt(text, i, j).depth == 0
    && forall k | i < k < j :: StateAt(text, i, k).depth > 0
  }

  lemma SliceIsUnique(text: string, i: nat, j: nat, i': nat, j': nat)
    requires IsSlice(text, i, j) && IsSlice(text, i', j')
    ensures i == i' && j == j'
  {}

  lemma {:induction false} RunConcat(s: Scan, a: string, b: string)
    ensures Run(s, a + b) == Run(Run(s, a), b)
    decreases |a|
  {
    if a == [] {
      assert a + b == b;
    } else {
      assert (a + b)[1..] == a[1..] + b;
      RunConcat(Step(s, a[0]), a[1..], b);
    }
  }

  lemma {:induction false} StaysConcat(s: Scan, a: string, b: string, n: int)
    requires Stays(s, a, n) && Stays(Run(s, a), b, n)
    ensures Stays(s, a + b, n)
    decreases |a|
  {
    if a == [] {
      assert a + b == b;
    } else {
      assert (a + b)[1..] == a[1..] + b;
      StaysConcat(Step(s, a[0]), a[1..], b, n);
    }
  }

  lemma {:induction false} StaysAtPrefix(s: Scan, t: string, n: int, k: nat)
    requires Stays(s, t, n) && k <= |t|
    ensures Run(s, t[..k]).depth >= n
    decreases |t|
  {
    if k > 0 {
      assert t[..k][1..] == t[1..][..k - 1];
      StaysAtPrefix(Step(s, t[0]), t[1..], n, k - 1);
    }
  }

  lemma {:induction false} StateIsRun(text: string, i: nat, k: nat)
    requires i <= k <= |text|
    ensures StateAt(text, i, k) == Run(At(0), text[i..k])
    decreases k
  {
    if k > i {
      var s := Run(At(0), text[i..k - 1]);
      StateIsRun(text, i, k - 1);
      assert text[i..k] == text[i..k - 1] + [text[k - 1]];
      RunConcat(At(0), text[i..k - 1], [text[k - 1]]);
      assert [text[k - 1]][1..] == [];
      assert Run(s, [text[k - 1]]) == Run(Step(s, text[k - 1]), []);
    }
  }

  // ---------- The scanner ----------

  /** The loop of _try_extract_json_object.  `loads` stands for json.loads: None for
      text it refuses.  The slice is returned beside the value for the contract. */
  method TryExtractJsonObject(text: string, loads: string -> Option<Json>)
    returns (slice: Option<(nat, nat)>, result: Option<Json>)
    ensures slice.Some? ==> IsSlice(text, slice.value.0, slice.value.1)
    ensures slice.None? ==> forall i, j :: !IsSlice(text, i, j)
    ensures slice.None? ==> result.None?
    ensures slice.Some? ==>
      var parsed := loads(text[slice.value.0..slice.value.1]);
      result == if parsed.Some? && parsed.value.Obj? then parsed else None
  {
    slice, result := None, None;
    var start := 0;
    while start < |text| && text[start] != '{'
      invariant 0 <= start <= |text| && forall k | 0 <= k < start :: text[k] != '{'
    {
      start := start + 1;
    }
    if start == |text| {
      return;
    }
    var depth, inString, escape, i := 0, false, false, start;
    while i < |text|
      invariant start <= i <= |text|
      invariant Scan(depth, inString, escape) == StateAt(text, start, i)
      invariant forall k | start < k <= i :: StateAt(text, start, k).depth > 0
    {
      var ch := text[i];
      if inString {
        if escape {
          escape := false;
        } else if ch == '\\' {
          escape := true;
        } else if ch == '\"' {
          inString := false;
        }
      } else {
        if ch == '\"' {
          inString := true;
        } else if ch == '{' {
          depth := depth + 1;
        } else if ch == '}' {
          depth := depth - 1;
          if depth == 0 {
            slice := Some((start, i + 1));
            var parsed := loads(text[start..i + 1]);
            result := if parsed.Some? && parsed.value.Obj? then parsed else None;
            return;
          }
        }
      }
      i := i + 1;
    }
  }

  // ---------- It undoes the printer ----------

  /** Scanning t from depth n outside a string comes back there and never drops below. */
  ghost predicate Neutral(t: string, n: int) {
    Run(At(n), t) == At(n) && Stays(At(n), t, n)
  }

  lemma NeutralConcat(a: string, b: string, n: int)
    requires Neutral(a, n) && Neutral(b, n)
    ensures Neutral(a + b, n)
  {
    RunConcat(At(n), a, b);
    StaysConcat(At(n), a, b, n);
  }

  lemma {:induction false} PlainIsNeutral(t: string, n: int)
    requires forall i | 0 <= i < |t| :: t[i] !in {'\"', '{', '}'}
    ensures Neutral(t, n)
  {
    if t != [] {
      PlainIsNeutral(t[1..], n);
    }
  }

  /** The inside of a string literal: every quote and every backslash in it belongs to an escape. Each text of section 7
      of RFC 8259 is one, whichever characters its writer chose to escape. */
  ghost predicate IsBody(b: string)
    decreases |b|
  {
    || b == []
    || (b[0] == '\\' && |b| >= 2 && IsBody(b[2..]))
    || (b[0] != '\\' && b[0] != '\"' && IsBody(b[1..]))
  }

  lemma {:induction false} BodyIsPassed(b: string, n: int)
    requires IsBody(b)
    ensures Run(Scan(n, true, false), b) == Scan(n, true, false) && Stays(Scan(n, true, false), b, n)
    decreases |b|
  {
    var s := Scan(n, true, false);
    if b == [] {
    } else if b[0] == '\\' {
      BodyIsPassed(b[2..], n);
      var m := Step(s, b[0]);
      assert Step(m, b[1]) == s;
      assert b[1..][0] == b[1] && b[1..][1..] == b[2..];
      assert Run(m, b[1..]) == Run(s, b[2..]) && Stays(m, b[1..], n);
    } else {
      BodyIsPassed(b[1..], n);
    }
  }

  function Quoted(b: string): string {
    ['\"'] + b + ['\"']
  }

  /** A string literal is neutral whatever quotes, backslashes or braces it holds. */
  lemma QuoteIsNeutral(b: string, n: int)
    requires IsBody(b)
    ensures Neutral(Quoted(b), n)
  {
    var q := ['\"'];
    BodyIsPassed(b, n);
    assert q[1..] == [];
    assert Run(At(n), q) == Run(Scan(n, true, false), []) && Stays(At(n), q, n);
    RunConcat(At(n), q, b);
    StaysConcat(At(n), q, b, n);
    assert Run(Scan(n, true, false), q) == Run(At(n), []) && Stays(Scan(n, true, false), q, n);
    RunConcat(At(n), q + b, q);
    StaysConcat(At(n), q + b, q, n);
  }

  lemma BracedIsNeutral(t: string, n: int)
    requires Neutral(t, n + 1)
    ensures Neutral(['{'] + t + ['}'], n)
  {
    assert Run(At(n), ['{']) == At(n + 1) && Stays(At(n), ['{'], n);
    Lower(At(n + 1), t, n);
    RunConcat(At(n), ['{'], t);
    StaysConcat(At(n), ['{'], t, n);
    assert Run(At(n + 1), ['}']) == At(n) && Stays(At(n + 1), ['}'], n);
    RunConcat(At(n), ['{'] + t, ['}']);
    StaysConcat(At(n), ['{'] + t, ['}'], n);
  }

  lemma {:induction false} Lower(s: Scan, t: string, n: int)
    requires Stays(s, t, n + 1)
    ensures Stays(s, t, n)
    decreases |t|
  {
    if t != [] {
      Lower(Step(s, t[0]), t[1..], n);
    }
  }

  // ---------- JSON texts ----------

  /** A JSON text together with every choice its writer had: white space, escapes, the spelling of scalars. A lead is
      what stands before an element: white space, after a comma for all but the first. */
  datatype Tree =
    | Scalar(text: string)
    | Literal(body: string)
    | Array(elements: Elements)
    | Object(members: Members)

  datatype Elements = NoElements(close: string) | Element(lead: string, head: Tree, tail: Elements)

  datatype Members =
    | NoMembers(close: string)
    | Member(lead: string, key: string, colon: string, value: Tree, rest: Members)

  function TextOf(v: Tree): string {
    match v
    case Scalar(text) => text
    case Literal(body) => Quoted(body)
    case Array(elements) => ['['] + ElementsText(elements)
    case Object(members) => ['{'] + Inside(members) + ['}']
  }

  function ElementsText(e: Elements): string {
    match e
    case NoElements(close) => close + [']']
    case Element(lead, head, tail) => lead + (TextOf(head) + ElementsText(tail))
  }

  /** The members of an object without its braces. */
  function Inside(m: Members): string {
    match m
    case NoMembers(close) => close
    case Member(lead, key, colon, value, rest) => lead + (Quoted(key) + (colon + (TextOf(value) + Inside(rest))))
  }

  predicate Plain(s: string) {
    forall i | 0 <= i < |s| :: s[i] !in {'\"', '{', '}'}
  }

  /** All that the scanner needs of the grammar: scalars and whatever stands between values hold neither quotes nor
      braces, and strings are literals. */
  ghost predicate IsText(v: Tree) {
    match v
    case Scalar(text) => Plain(text)
    case Literal(body) => IsBody(body)
    case Array(elements) => AreElements(elements)
    case Object(members) => AreMembers(members)
  }

  ghost predicate AreElements(e: Elements) {
    match e
    case NoElements(close) => Plain(close)
    case Element(lead, head, tail) => Plain(lead) && IsText(head) && AreElements(tail)
  }

  ghost predicate AreMembers(m: Members) {
    match m
    case NoMembers(close) => Plain(close)
    case Member(lead, key, colon, value, rest) =>
      Plain(lead) && IsBody(key) && Plain(colon) && IsText(value) && AreMembers(rest)
  }

  /** Every JSON text is neutral at every depth. */
  lemma {:induction false} TextIsNeutral(v: Tree, n: int)
    requires IsText(v)
    ensures Neutral(TextOf(v), n)
  {
    match v
    case Scalar(text) => PlainIsNeutral(text, n);
    case Literal(body) => QuoteIsNeutral(body, n);
    case Array(elements) =>
      ElementsAreNeutral(elements, n);
      PlainIsNeutral(['['], n);
      NeutralConcat(['['], ElementsText(elements), n);
    case Object(members) =>
      InsideIsNeutral(members, n + 1);
      BracedIsNeutral(Inside(members), n);
  }

  lemma {:induction false} ElementsAreNeutral(e: Elements, n: int)
    requires AreElements(e)
    ensures Neutral(ElementsText(e), n)
  {
    match e
    case NoElements(close) =>
      PlainIsNeutral(close + [']'], n);
    case Element(lead, head, tail) =>
      PlainIsNeutral(lead, n);
      TextIsNeutral(head, n);
      ElementsAreNeutral(tail, n);
      NeutralConcat(TextOf(head), ElementsText(tail), n);
      NeutralConcat(lead, TextOf(head) + ElementsText(tail), n);
  }

  lemma {:induction false} InsideIsNeutral(m: Members, n: int)
    requires AreMembers(m)
    ensures Neutral(Inside(m), n)
  {
    match m
    case NoMembers(close) =>
      PlainIsNeutral(close, n);
    case Member(lead, key, colon, value, rest) =>
      PlainIsNeutral(lead, n);
      QuoteIsNeutral(key, n);
      PlainIsNeutral(colon, n);
      TextIsNeutral(value, n);
      InsideIsNeutral(rest, n);
      var x := TextOf(value) + Inside(rest);
      NeutralConcat(TextOf(value), Inside(rest), n);
      NeutralConcat(colon, x, n);
      NeutralConcat(Quoted(key), colon + x, n);
      NeutralConcat(lead, Quoted(key) + (colon + x), n);
  }

  // ---------- What the printers write ----------

  /** A string printed with some escape for each character. */
  function EscapedBy(s: string, escape: char -> string): string {
    if s == [] then [] else escape(s[0]) + EscapedBy(s[1..], escape)
  }

  lemma {:induction false} BodyConcat(a: string, b: string)
    requires IsBody(a) && IsBody(b)
    ensures IsBody(a + b)
    decreases |a|
  {
    if a == [] {
      assert a + b == b;
    } else if a[0] == '\\' {
      assert (a + b)[2..] == a[2..] + b;
      BodyConcat(a[2..], b);
    } else {
      assert (a + b)[1..] == a[1..] + b;
      BodyConcat(a[1..], b);
    }
  }

  /** Whatever escapes a printer chooses, with ensure_ascii or without, its strings are literals. */
  lemma {:induction false} EscapedIsBody(s: string, escape: char -> string)
    requires forall c :: IsBody(escape(c))
    ensures IsBody(EscapedBy(s, escape))
  {
    if s != [] {
      EscapedIsBody(s[1..], escape);
      BodyConcat(escape(s[0]), EscapedBy(s[1..], escape));
    }
  }

  lemma {:induction false} PlainIsBody(s: string)
    requires forall i | 0 <= i < |s| :: s[i] !in {'\"', '\\'}
    ensures IsBody(s)
    decreases |s|
  {
    if s != [] {
      PlainIsBody(s[1..]);
    }
  }

  lemma EscapeIsBody(c: char)
    ensures IsBody(Escape(c))
  {
    var e := Escape(c);
    if |e| == 1 {
      PlainIsBody(e);
    } else {
      PlainIsBody(e[2..]);
    }
  }

  /** The escape that ensure_ascii chooses: four hexadecimal digits; two such escapes make a surrogate pair. */
  lemma UnicodeEscapeIsBody(digits: string)
    requires forall i | 0 <= i < |digits| :: digits[i] !in {'\"', '\\'}
    ensures IsBody(['\\', 'u'] + digits)
  {
    var e := ['\\', 'u'] + digits;
    assert e[2..] == digits;
    PlainIsBody(digits);
  }

  lemma {:induction false} EscapeAllIsBody(s: string)
    ensures IsBody(EscapeAll(s))
  {
    if s != [] {
      EscapeIsBody(s[0]);
      EscapeAllIsBody(s[1..]);
      BodyConcat(Escape(s[0]), EscapeAll(s[1..]));
    }
  }

  /** The text that Json.Print writes, as a tree. */
  function TreeOf(v: Json, st: Style, d: nat): Tree {
    match v
    case Null => Scalar("null")
    case Bool(b) => Scalar(if b then "true" else "false")
    case Num(x) => Scalar(x)
    case Str(s) => Literal(EscapeAll(s))
    case Arr(NoItems) => Array(NoElements(""))
    case Arr(Item(h, t)) => Array(Element(st.open(d + 1), TreeOf(h, st, d + 1), ElementsOf(t, st, d)))
    case Obj(NoFields) => Object(NoMembers(""))
    case Obj(Field(k, x, r)) =>
      Object(Member(st.open(d + 1), EscapeAll(k), [':'] + st.colon, TreeOf(x, st, d + 1), MembersOf(r, st, d)))
  }

  function ElementsOf(items: Items, st: Style, d: nat): Elements {
    match items
    case NoItems => NoElements(st.close(d))
    case Item(h, t) => Element([','] + st.sep(d + 1), TreeOf(h, st, d + 1), ElementsOf(t, st, d))
  }

  function MembersOf(f: Fields, st: Style, d: nat): Members {
    match f
    case NoFields => NoMembers(st.close(d))
    case Field(k, x, r) =>
      Member([','] + st.sep(d + 1), EscapeAll(k), [':'] + st.colon, TreeOf(x, st, d + 1), MembersOf(r, st, d))
  }

  lemma Regroup2(c: string, o: string, x: string)
    ensures c + (o + x) == (c + o) + x
  {}

  /** Everything Json.Print writes of a well-formed value is a JSON text. */
  lemma {:induction false} PrintedIsText(v: Json, st: Style, d: nat)
    requires WellFormed(v) && WhiteStyle(st)
    ensures IsText(TreeOf(v, st, d)) && TextOf(TreeOf(v, st, d)) == Print(v, st, d)
    decreases v, 1
  {
    match v
    case Str(s) => EscapeAllIsBody(s);
    case Arr(Item(h, t)) =>
      assert Blank(st.open(d + 1));
      PrintedIsText(h, st, d + 1);
      PrintedItems(t, st, d);
    case Obj(Field(k, x, r)) =>
      PrintedObject(k, x, r, st, d);
    case _ =>
  }

  lemma {:induction false} PrintedObject(k: string, x: Json, r: Fields, st: Style, d: nat)
    requires WellFormed(x) && WellFormedFields(r) && WhiteStyle(st)
    ensures IsText(TreeOf(Obj(Field(k, x, r)), st, d))
    ensures TextOf(TreeOf(Obj(Field(k, x, r)), st, d)) == Print(Obj(Field(k, x, r)), st, d)
    decreases Field(k, x, r), 1
  {
    hide IsBody, WellFormed, EscapeAll;
    assert Blank(st.open(d + 1));
    EscapeAllIsBody(k);
    PrintedIsText(x, st, d + 1);
    PrintedFields(r, st, d);
    var inside := Inside(MembersOf(r, st, d));
    PrintedMember(st.open(d + 1), k, st.colon, Print(x, st, d + 1), inside);
    Regroup2(['{'], st.open(d + 1) + (Quote(k) + (([':'] + st.colon) + (Print(x, st, d + 1) + inside))), ['}']);
    assert PrintFields(r, st, d) == inside + ['}'];
  }

  lemma {:induction false} PrintedItems(items: Items, st: Style, d: nat)
    requires WellFormedItems(items) && WhiteStyle(st)
    ensures AreElements(ElementsOf(items, st, d)) && ElementsText(ElementsOf(items, st, d)) == PrintItems(items, st, d)
    decreases items, 0
  {
    assert Blank(st.close(d)) && Blank(st.sep(d + 1));
    if items.Item? {
      PrintedIsText(items.head, st, d + 1);
      PrintedItems(items.tail, st, d);
      Regroup2([','], st.sep(d + 1), Print(items.head, st, d + 1) + PrintItems(items.tail, st, d));
    }
  }

  lemma {:induction false} PrintedFields(f: Fields, st: Style, d: nat)
    requires WellFormedFields(f) && WhiteStyle(st)
    ensures AreMembers(MembersOf(f, st, d)) && Inside(MembersOf(f, st, d)) + ['}'] == PrintFields(f, st, d)
    decreases f, 0
  {
    assert Blank(st.close(d)) && Blank(st.sep(d + 1));
    if f.Field? {
      EscapeAllIsBody(f.key);
      PrintedIsText(f.val, st, d + 1);
      PrintedFields(f.rest, st, d);
      var inside := Inside(MembersOf(f.rest, st, d));
      PrintedMember([','] + st.sep(d + 1), f.key, st.colon, Print(f.val, st, d + 1), inside);
      Regroup2([','], st.sep(d + 1),
               Quote(f.key) + ([':'] + (st.colon + (Print(f.val, st, d + 1) + (inside + ['}'])))));
    }
  }

  lemma PrintedMember(lead: string, k: string, w: string, x: string, inside: string)
    ensures (lead + (Quoted(EscapeAll(k)) + (([':'] + w) + (x + inside)))) + ['}'] ==
      lead + (Quote(k) + ([':'] + (w + (x + (inside + ['}'])))))
  {
    RegroupMember("", lead, Quote(k), [':'], w, x, inside, ['}']);
    assert "" + (lead + (Quote(k) + ([':'] + (w + (x + inside))))) == lead + (Quote(k) + (([':'] + w) + (x + inside)));
    assert "" + lead == lead;
    Regroup2([':'], w, x + (inside + ['}']));
  }

  // ---------- The slice ----------

  /** At every position inside a braced neutral text the depth is positive. */
  lemma BracedScan(t: string)
    requires Neutral(t, 1)
    ensures var p := ['{'] + t + ['}'];
      && Run(At(0), p).depth == 0
      && forall k | 0 < k < |p| :: Run(At(0), p[..k]).depth > 0
  {
    var p := ['{'] + t + ['}'];
    assert ['{'][1..] == [] && ['}'][1..] == [];
    assert Run(At(0), ['{']) == Run(At(1), []);
    assert Run(At(1), ['}']) == Run(At(0), []);
    RunConcat(At(0), ['{'], t);
    RunConcat(At(0), ['{'] + t, ['}']);
    forall k | 0 < k < |p|
      ensures Run(At(0), p[..k]).depth > 0
    {
      assert p[..k] == ['{'] + t[..k - 1];
      RunConcat(At(0), ['{'], t[..k - 1]);
      StaysAtPrefix(At(1), t, 1, k - 1);
    }
  }

  lemma Embedded(pre: string, p: string, post: string, k: nat)
    requires k <= |p|
    ensures (pre + p + post)[|pre|..|pre| + k] == p[..k]
  {}

  lemma BracedTextIsSlice(pre: string, t: string, post: string)
    requires Neutral(t, 1)
    ensures var p := ['{'] + t + ['}'];
      IsSlice(pre + p + post, |pre|, |pre| + |p|) <==> '{' !in pre
  {
    var p := ['{'] + t + ['}'];
    var text := pre + p + post;
    var i, j := |pre|, |pre| + |p|;
    BracedScan(t);
    Embedded(pre, p, post, |p|);
    assert p[..|p|] == p && text[i] == p[0];
    StateIsRun(text, i, j);
    forall k | i < k < j
      ensures StateAt(text, i, k).depth > 0
    {
      Embedded(pre, p, post, k - i);
      StateIsRun(text, i, k);
    }
    assert forall k | 0 <= k < i :: text[k] == pre[k];
  }

  /** Main result.  In pre + object + post, for any JSON text of an object, the slice is the object exactly when pre
      holds no opening brace; post is arbitrary. */
  lemma ScannerUndoesPrinter(pre: string, v: Tree, post: string)
    requires IsText(v) && v.Object?
    ensures var p := TextOf(v);
      && (pre + p + post)[|pre|..|pre| + |p|] == p
      && (IsSlice(pre + p + post, |pre|, |pre| + |p|) <==> '{' !in pre)
  {
    InsideIsNeutral(v.members, 1);
    BracedTextIsSlice(pre, Inside(v.members), post);
  }

  /** So the extractor returns what json.loads makes of the object's text, and nothing else, for any reader of JSON. */
  method ExtractPrinted(pre: string, v: Tree, post: string, loads: string -> Option<Json>)
    returns (result: Option<Json>)
    requires IsText(v) && v.Object? && '{' !in pre
    ensures var read := loads(TextOf(v)); result == if read.Some? && read.value.Obj? then read else None
  {
    hide IsSlice, TextOf, IsText;
    var p := TextOf(v);
    var slice;
    slice, result := TryExtractJsonObject(pre + p + post, loads);
    ScannerUndoesPrinter(pre, v, post);
    SliceIsUnique(pre + p + post, slice.value.0, slice.value.1, |pre|, |pre| + |p|);
  }
}
