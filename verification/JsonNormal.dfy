/** JSON objects as Python dicts, and their canonical text. */
module JsonNormal {
  import opened Optional
  import opened Json
  import Order

  // The code is _canonical_json in bin/_git_merge_jsonl/merge.py. A JSON text lists members in some order and may
  // repeat a name. A dict keeps the last member of each name, and json.dumps with sort_keys prints the names in
  // increasing order. A dict is therefore represented by its members in key order. `spell` is the spelling in
  // which Python prints the number it read from a lexeme.

  // ---------- Canonical values ----------

  ghost predicate KeysIncrease(v: Json) {
    match v
    case Arr(items) => ItemsIncrease(items)
    case Obj(fields) => FieldsIncrease(fields)
    case _ => true
  }

  ghost predicate ItemsIncrease(items: Items) {
    items.Item? ==> KeysIncrease(items.head) && ItemsIncrease(items.tail)
  }

  ghost predicate FieldsIncrease(f: Fields) {
    f.Field? ==>
      && KeysIncrease(f.val) && FieldsIncrease(f.rest)
      && (f.rest.Field? ==> Order.Before(f.key, f.rest.key))
  }

  /** A value as Python holds it: the names of every object strictly increase. */
  ghost predicate Canonical(v: Json) {
    WellFormed(v) && KeysIncrease(v)
  }

  // ---------- From a text's members to a dict ----------

  /** A member put in front of those already kept: a later one of the same name wins. */
  function Insert(k: string, x: Json, f: Fields): Fields {
    if f.NoFields? || Order.Before(k, f.key) then Field(k, x, f)
    else if k == f.key then f
    else Field(f.key, f.val, Insert(k, x, f.rest))
  }

  function Normal(v: Json, spell: string -> string): Json {
    match v
    case Num(x) => Num(spell(x))
    case Arr(items) => Arr(NormalItems(items, spell))
    case Obj(fields) => Obj(NormalFields(fields, spell))
    case _ => v
  }

  function NormalItems(items: Items, spell: string -> string): Items {
    if items.NoItems? then NoItems else Item(Normal(items.head, spell), NormalItems(items.tail, spell))
  }

  function NormalFields(f: Fields, spell: string -> string): Fields {
    if f.NoFields? then NoFields else Insert(f.key, Normal(f.val, spell), NormalFields(f.rest, spell))
  }

  /** Python's own spelling of a number is read as that number. */
  ghost predicate Spelling(spell: string -> string) {
    forall x | IsNumber(x) :: IsNumber(spell(x)) && spell(spell(x)) == spell(x)
  }

  /** The value of the last member named k. */
  function Last(f: Fields, k: string): (r: Option<Json>)
    ensures r.Some? ==> (f decreases to r.value)
  {
    if f.NoFields? then None
    else
      var r := Last(f.rest, k);
      if r.Some? then r else if f.key == k then Some(f.val) else None
  }

  /** Equality of the dicts, lists and scalars that two JSON texts denote. */
  ghost predicate Same(v: Json, w: Json, spell: string -> string) {
    match (v, w)
    case (Num(x), Num(y)) => spell(x) == spell(y)
    case (Arr(s), Arr(t)) => SameItems(s, t, spell)
    case (Obj(f), Obj(g)) =>
      forall k :: Last(f, k).Some? == Last(g, k).Some?
        && (Last(f, k).Some? && Last(g, k).Some? ==> Same(Last(f, k).value, Last(g, k).value, spell))
    case _ => v == w
  }

  ghost predicate SameItems(s: Items, t: Items, spell: string -> string) {
    s.Item? == t.Item? && (s.Item? ==> Same(s.head, t.head, spell) && SameItems(s.tail, t.tail, spell))
  }

  // ---------- The normal form is canonical ----------

  lemma {:induction false} InsertIncreases(k: string, x: Json, f: Fields)
    requires FieldsIncrease(f) && KeysIncrease(x)
    ensures var g := Insert(k, x, f);
      FieldsIncrease(g) && g.Field? && (g.key == k || (f.Field? && g.key == f.key))
    ensures WellFormed(x) && WellFormedFields(f) ==> WellFormedFields(Insert(k, x, f))
  {
    if f.Field? && !Order.Before(k, f.key) && k != f.key {
      Order.BeforeTotal(k, f.key);
      InsertIncreases(k, x, f.rest);
    }
  }

  lemma {:induction false} NormalIsCanonical(v: Json, spell: string -> string)
    requires WellFormed(v) && Spelling(spell)
    ensures Canonical(Normal(v, spell))
  {
    match v
    case Arr(items) => NormalItemsAreCanonical(items, spell);
    case Obj(fields) => NormalFieldsAreCanonical(fields, spell);
    case _ =>
  }

  lemma {:induction false} NormalItemsAreCanonical(items: Items, spell: string -> string)
    requires WellFormedItems(items) && Spelling(spell)
    ensures WellFormedItems(NormalItems(items, spell)) && ItemsIncrease(NormalItems(items, spell))
  {
    if items.Item? {
      NormalIsCanonical(items.head, spell);
      NormalItemsAreCanonical(items.tail, spell);
    }
  }

  lemma {:induction false} NormalFieldsAreCanonical(f: Fields, spell: string -> string)
    requires WellFormedFields(f) && Spelling(spell)
    ensures WellFormedFields(NormalFields(f, spell)) && FieldsIncrease(NormalFields(f, spell))
  {
    if f.Field? {
      NormalIsCanonical(f.val, spell);
      NormalFieldsAreCanonical(f.rest, spell);
      InsertIncreases(f.key, Normal(f.val, spell), NormalFields(f.rest, spell));
    }
  }

  // ---------- A canonical object is its lookup function ----------

  /** In an object whose names increase, nothing stands below the first name. */
  lemma {:induction false} NothingBelow(f: Fields, k: string)
    requires FieldsIncrease(f) && f.Field? && Order.Before(k, f.key)
    ensures Last(f, k).None?
  {
    Order.BeforeIrreflexive(k);
    if f.rest.Field? {
      Order.BeforeTransitive(k, f.key, f.rest.key);
      NothingBelow(f.rest, k);
    }
  }

  lemma FirstIsFound(f: Fields)
    requires FieldsIncrease(f) && f.Field?
    ensures Last(f.rest, f.key).None? && Last(f, f.key) == Some(f.val)
  {
    if f.rest.Field? {
      NothingBelow(f.rest, f.key);
    }
  }

  lemma {:induction false} LastOfInsert(k: string, x: Json, f: Fields, j: string)
    requires FieldsIncrease(f)
    ensures Last(Insert(k, x, f), j) == if j == k && Last(f, k).None? then Some(x) else Last(f, j)
  {
    if f.NoFields? {
    } else if Order.Before(k, f.key) {
      NothingBelow(f, k);
    } else if k == f.key {
      FirstIsFound(f);
    } else {
      LastOfInsert(k, x, f.rest, j);
    }
  }

  lemma {:induction false} SameLookupsSameFields(f: Fields, g: Fields)
    requires FieldsIncrease(f) && FieldsIncrease(g)
    requires forall k :: Last(f, k) == Last(g, k)
    ensures f == g
  {
    if f.Field? && g.Field? {
      FirstIsFound(f);
      FirstIsFound(g);
      Order.BeforeTotal(f.key, g.key);
      if Order.Before(f.key, g.key) {
        NothingBelow(g, f.key);
      } else if Order.Before(g.key, f.key) {
        NothingBelow(f, g.key);
      }
      forall k
        ensures Last(f.rest, k) == Last(g.rest, k)
      {
        assert Last(f, k) == Last(g, k);
      }
      SameLookupsSameFields(f.rest, g.rest);
    } else if f.Field? {
      FirstIsFound(f);
    } else if g.Field? {
      FirstIsFound(g);
    }
  }

  /** Each name keeps its last value. */
  lemma {:induction false} LastOfNormal(f: Fields, k: string, spell: string -> string)
    requires WellFormedFields(f) && Spelling(spell)
    ensures Last(NormalFields(f, spell), k) ==
      if Last(f, k).Some? then Some(Normal(Last(f, k).value, spell)) else None
  {
    if f.Field? {
      NormalFieldsAreCanonical(f.rest, spell);
      LastOfNormal(f.rest, k, spell);
      LastOfInsert(f.key, Normal(f.val, spell), NormalFields(f.rest, spell), k);
    }
  }

  lemma {:induction false} LastIsWellFormed(f: Fields, k: string)
    requires WellFormedFields(f)
    ensures Last(f, k).Some? ==> WellFormed(Last(f, k).value)
  {
    if f.Field? {
      LastIsWellFormed(f.rest, k);
    }
  }

  // ---------- What sorting buys ----------

  /** Main result: two JSON values have the same canonical form exactly when they denote equal dicts, lists and
      scalars, whatever the order and repetition of their members. */
  lemma {:induction false} NormalIffSame(v: Json, w: Json, spell: string -> string)
    requires WellFormed(v) && WellFormed(w) && Spelling(spell)
    ensures Normal(v, spell) == Normal(w, spell) <==> Same(v, w, spell)
    decreases v, 1
  {
    match (v, w)
    case (Arr(s), Arr(t)) => ItemsIffSame(s, t, spell);
    case (Obj(f), Obj(g)) => FieldsIffSame(f, g, spell);
    case _ =>
  }

  lemma {:induction false} ItemsIffSame(s: Items, t: Items, spell: string -> string)
    requires WellFormedItems(s) && WellFormedItems(t) && Spelling(spell)
    ensures NormalItems(s, spell) == NormalItems(t, spell) <==> SameItems(s, t, spell)
    decreases s, 0
  {
    if s.Item? && t.Item? {
      NormalIffSame(s.head, t.head, spell);
      ItemsIffSame(s.tail, t.tail, spell);
    }
  }

  lemma {:induction false} FieldsIffSame(f: Fields, g: Fields, spell: string -> string)
    requires WellFormedFields(f) && WellFormedFields(g) && Spelling(spell)
    ensures NormalFields(f, spell) == NormalFields(g, spell) <==> Same(Obj(f), Obj(g), spell)
    decreases f, 1
  {
    var x, y := NormalFields(f, spell), NormalFields(g, spell);
    forall k
      ensures Last(x, k) == Last(y, k) <==>
        Last(f, k).Some? == Last(g, k).Some?
        && (Last(f, k).Some? && Last(g, k).Some? ==> Same(Last(f, k).value, Last(g, k).value, spell))
    {
      LastOfNormal(f, k, spell);
      LastOfNormal(g, k, spell);
      LastIsWellFormed(f, k);
      LastIsWellFormed(g, k);
      if Last(f, k).Some? && Last(g, k).Some? {
        NormalIffSame(Last(f, k).value, Last(g, k).value, spell);
      }
    }
    if forall k :: Last(x, k) == Last(y, k) {
      NormalFieldsAreCanonical(f, spell);
      NormalFieldsAreCanonical(g, spell);
      SameLookupsSameFields(x, y);
    }
  }

  /** json.dumps(row, sort_keys=True, ...) of the row read as v. */
  function CanonicalText(v: Json, spell: string -> string): string {
    Dumps(Normal(v, spell))
  }

  /** Rows are identified by their canonical text: it is the same exactly for equal rows. */
  lemma CanonicalTextIffSame(v: Json, w: Json, spell: string -> string)
    requires WellFormed(v) && WellFormed(w) && Spelling(spell)
    ensures CanonicalText(v, spell) == CanonicalText(w, spell) <==> Same(v, w, spell)
  {
    NormalIffSame(v, w, spell);
    NormalIsCanonical(v, spell);
    NormalIsCanonical(w, spell);
    if CanonicalText(v, spell) == CanonicalText(w, spell) {
      DumpsIsInjective(Normal(v, spell), Normal(w, spell));
    }
  }

  /** Putting an object in canonical form twice is putting it once. */
  lemma {:induction false} NormalIsIdempotent(v: Json, spell: string -> string)
    requires WellFormed(v) && Spelling(spell)
    ensures Normal(Normal(v, spell), spell) == Normal(v, spell)
    decreases v, 1
  {
    match v
    case Arr(items) => NormalItemsAreIdempotent(items, spell);
    case Obj(fields) => NormalFieldsAreIdempotent(fields, spell);
    case _ =>
  }

  lemma {:induction false} NormalItemsAreIdempotent(items: Items, spell: string -> string)
    requires WellFormedItems(items) && Spelling(spell)
    ensures NormalItems(NormalItems(items, spell), spell) == NormalItems(items, spell)
    decreases items, 0
  {
    if items.Item? {
      NormalIsIdempotent(items.head, spell);
      NormalItemsAreIdempotent(items.tail, spell);
    }
  }

  lemma {:induction false} NormalFieldsAreIdempotent(f: Fields, spell: string -> string)
    requires WellFormedFields(f) && Spelling(spell)
    ensures NormalFields(NormalFields(f, spell), spell) == NormalFields(f, spell)
    decreases f, 0
  {
    var x := NormalFields(f, spell);
    NormalFieldsAreCanonical(f, spell);
    forall k
      ensures Last(NormalFields(x, spell), k) == Last(x, k)
    {
      LastOfNormal(f, k, spell);
      LastOfNormal(x, k, spell);
      LastIsWellFormed(f, k);
      if Last(f, k).Some? {
        NormalIsIdempotent(Last(f, k).value, spell);
      }
    }
    NormalFieldsAreCanonical(x, spell);
    SameLookupsSameFields(NormalFields(x, spell), x);
  }

  // ---------- Readers ----------

  /** What the models assume of json.loads: whatever it returns is a dict, list or scalar, and it reads that same
      value from its printed form. */
  ghost predicate Faithful(loads: string -> Option<Json>, st: Style) {
    forall s :: FaithfulOn(loads, st, s)
  }

  ghost predicate FaithfulOn(loads: string -> Option<Json>, st: Style, s: string) {
    loads(s).Some? ==> Canonical(loads(s).value) && loads(Print(loads(s).value, st, 0)) == loads(s)
  }

  /** json.loads: a scanner of texts, then the building of dicts from the members it finds. */
  function Loads(decode: string -> Option<Json>, spell: string -> string): string -> Option<Json> {
    (s: string) => if decode(s).Some? then Some(Normal(decode(s).value, spell)) else None
  }

  /** The scanner finds in a printed canonical form what was printed, for whatever it once read. */
  ghost predicate Scans(decode: string -> Option<Json>, spell: string -> string, st: Style) {
    forall s :: ScansOn(decode, spell, st, s)
  }

  ghost predicate ScansOn(decode: string -> Option<Json>, spell: string -> string, st: Style, s: string) {
    decode(s).Some? ==>
      var n := Normal(decode(s).value, spell);
      WellFormed(decode(s).value) && decode(Print(n, st, 0)) == Some(n)
  }

  /** Any such reader is faithful, whatever order its texts list members in; and it reads two texts as one row exactly
      when they denote equal dicts. */
  lemma ReaderIsFaithful(decode: string -> Option<Json>, spell: string -> string, st: Style)
    requires Spelling(spell) && Scans(decode, spell, st)
    ensures Faithful(Loads(decode, spell), st)
    ensures forall s, t | decode(s).Some? && decode(t).Some? ::
      Loads(decode, spell)(s) == Loads(decode, spell)(t) <==> Same(decode(s).value, decode(t).value, spell)
  {
    var loads := Loads(decode, spell);
    forall s
      ensures FaithfulOn(loads, st, s)
    {
      assert ScansOn(decode, spell, st, s);
      if decode(s).Some? {
        NormalIsCanonical(decode(s).value, spell);
        NormalIsIdempotent(decode(s).value, spell);
      }
    }
    forall s, t | decode(s).Some? && decode(t).Some?
      ensures loads(s) == loads(t) <==> Same(decode(s).value, decode(t).value, spell)
    {
      assert ScansOn(decode, spell, st, s) && ScansOn(decode, spell, st, t);
      NormalIffSame(decode(s).value, decode(t).value, spell);
    }
  }

  /** There is such a scanner that reads every printed value, in any order of members, because the printer is
      injective. */
  lemma FaithfulReaderExists(spell: string -> string, st: Style) returns (decode: string -> Option<Json>)
    requires WhiteStyle(st) && Spelling(spell)
    ensures Scans(decode, spell, st)
    ensures forall v {:trigger Print(v, st, 0)} | WellFormed(v) :: decode(Print(v, st, 0)) == Some(v)
  {
    decode := (s: string) =>
      if exists v :: WellFormed(v) && Print(v, st, 0) == s
      then var v :| WellFormed(v) && Print(v, st, 0) == s; Some(v)
      else None;
    forall v {:trigger Print(v, st, 0)} | WellFormed(v)
      ensures decode(Print(v, st, 0)) == Some(v)
    {
      var w :| WellFormed(w) && Print(w, st, 0) == Print(v, st, 0) && decode(Print(v, st, 0)) == Some(w);
      assert Print(v, st, 0) + "" == Print(w, st, 0) + "";
      PrintIsPrefixFree(v, w, st, 0, "", "");
    }
    forall s
      ensures ScansOn(decode, spell, st, s)
    {
      if decode(s).Some? {
        NormalIsCanonical(decode(s).value, spell);
      }
    }
  }
}
