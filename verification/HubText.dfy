/**
 Occurrences of generated-zone markers in a text (bin/_fleet/engine.py, MARKERS).

 A marker has one angle bracket at either end and no line feed, so no marker occurs inside another and none
 straddles the end of a line.
 */
module HubText {
  import opened Optional

  // ---------- Occurrences ----------

  predicate At(t: string, m: string, i: nat) {
    i + |m| <= |t| && t[i..i + |m|] == m
  }

  ghost predicate Occurs(t: string, m: string) {
    exists i: nat :: At(t, m, i)
  }

  ghost predicate AtMostOnce(t: string, m: string) {
    forall i: nat, j: nat | At(t, m, i) && At(t, m, j) :: i == j
  }

  /** str.find: the first occurrence at or after `from`. */
  function Find(t: string, m: string, from: nat): (r: Option<nat>)
    ensures r.Some? ==> At(t, m, r.value) && from <= r.value && forall j: nat | from <= j && At(t, m, j) :: r.value <= j
    ensures r.None? ==> forall j: nat | from <= j :: !At(t, m, j)
    decreases |t| - from
  {
    if from + |m| > |t| then None
    else if At(t, m, from) then Some(from)
    else Find(t, m, from + 1)
  }

  lemma FindUnique(t: string, m: string, i: nat)
    ensures At(t, m, i) && AtMostOnce(t, m) ==> Find(t, m, 0) == Some(i)
  {}

  lemma AtLeft(a: string, b: string, m: string, i: nat)
    requires i + |m| <= |a|
    ensures At(a + b, m, i) <==> At(a, m, i)
  {
    assert (a + b)[i..i + |m|] == a[i..i + |m|];
  }

  lemma AtRight(a: string, b: string, m: string, i: nat)
    requires |a| <= i
    ensures At(a + b, m, i) <==> At(b, m, i - |a|)
  {
    if i + |m| <= |a + b| {
      assert (a + b)[i..i + |m|] == b[i - |a|..i - |a| + |m|];
    }
  }

  lemma AtShows(t: string, m: string, i: nat, k: nat)
    requires i <= k < i + |m| && k < |t|
    ensures At(t, m, i) ==> t[k] == m[k - i] && t[k] in m
  {
    if At(t, m, i) {
      assert t[k] == t[i..i + |m|][k - i];
    }
  }

  /** An occurrence of a text without newlines does not straddle a newline. */
  lemma NoStraddle(a: string, b: string, m: string, i: nat)
    requires '\n' !in m && m != ""
    ensures At(a + "\n" + b, m, i) <==>
      (i + |m| <= |a| && At(a, m, i)) || (i >= |a| + 1 && At(b, m, i - |a| - 1))
  {
    var t := a + "\n" + b;
    if i + |m| <= |a| {
      assert t == a + ("\n" + b);
      AtLeft(a, "\n" + b, m, i);
    } else if i >= |a| + 1 {
      AtRight(a + "\n", b, m, i);
    } else {
      AtShows(t, m, i, |a|);
    }
  }

  // ---------- Markers ----------

  datatype Zone = Now | Prompts | Tree | Attended | Board | Recent

  const ZONES := [Now, Prompts, Tree, Attended, Board, Recent]

  predicate IsOptional(z: Zone) {
    z == Prompts || z == Tree || z == Attended
  }

  /** A begin and an end marker for each zone. */
  datatype Marks = Marks(begin: Zone -> string, end: Zone -> string) {
    /** An empty zone. */
    function Block(z: Zone): string {
      begin(z) + "\n" + end(z)
    }
  }

  /** One angle bracket at either end and none inside, on a single line. */
  ghost predicate Framed(m: string) {
    |m| >= 2 && m[0] == '<' && m[|m| - 1] == '>' && Plain(m[1..|m| - 1])
  }

  predicate Plain(s: string) {
    '<' !in s && '>' !in s && '\n' !in s
  }

  /** All that the hub relies on: the markers are framed and pairwise different. */
  ghost predicate Proper(mk: Marks) {
    && (forall z :: Framed(mk.begin(z)) && Framed(mk.end(z)))
    && (forall z, z' :: mk.begin(z) != mk.end(z'))
    && (forall z, z' | mk.begin(z) == mk.begin(z') || mk.end(z) == mk.end(z') :: z == z')
  }

  // ---------- The twelve markers ----------

  const OPENER := "<" + "!-- FLEET:"
  const CLOSER := " --" + ">"

  function Name(z: Zone): string {
    match z
    case Now => "NOW"
    case Prompts => "PROMPTS"
    case Tree => "TREE"
    case Attended => "ATTENDED"
    case Board => "BOARD"
    case Recent => "RECENT"
  }

  function Begin(z: Zone): string {
    OPENER + (Name(z) + ":BEGIN") + CLOSER
  }

  function End(z: Zone): string {
    OPENER + (Name(z) + ":END") + CLOSER
  }

  const MARKERS := Marks(Begin, End)

  lemma PlainIsFramed(s: string)
    requires Plain(s)
    ensures Framed(OPENER + s + CLOSER)
  {
    var m := OPENER + s + CLOSER;
    assert m[1..|m| - 1] == "!-- FLEET:" + s + " --";
  }

  lemma NamesArePlain(z: Zone)
    ensures Plain(Name(z) + ":BEGIN") && Plain(Name(z) + ":END")
  {
    assert Plain(Name(z)) && Plain(":BEGIN") && Plain(":END");
  }

  lemma BeginIsFramed(z: Zone)
    ensures Framed(Begin(z))
  {
    NamesArePlain(z);
    PlainIsFramed(Name(z) + ":BEGIN");
  }

  lemma EndIsFramed(z: Zone)
    ensures Framed(End(z))
  {
    NamesArePlain(z);
    PlainIsFramed(Name(z) + ":END");
  }

  lemma Unwrap(a: string, s: string, s': string, b: string)
    requires a + s + b == a + s' + b
    ensures s == s'
  {
    assert |s| == |s'|;
    assert (a + s + b)[|a|..|a| + |s|] == s;
    assert (a + s' + b)[|a|..|a| + |s'|] == s';
  }

  lemma MarkersDiffer(z: Zone, z': Zone)
    ensures Begin(z) != End(z')
    ensures Begin(z) == Begin(z') || End(z) == End(z') ==> z == z'
  {
    if Begin(z) == End(z') {
      Unwrap(OPENER, Name(z) + ":BEGIN", Name(z') + ":END", CLOSER);
      LastOf(Name(z), ":BEGIN");
      LastOf(Name(z'), ":END");
    }
    if Begin(z) == Begin(z') {
      Unwrap(OPENER, Name(z) + ":BEGIN", Name(z') + ":BEGIN", CLOSER);
      Unwrap("", Name(z), Name(z'), ":BEGIN");
    }
    if End(z) == End(z') {
      Unwrap(OPENER, Name(z) + ":END", Name(z') + ":END", CLOSER);
    }
  }

  lemma LastOf(a: string, b: string)
    ensures b != "" ==> (a + b)[|a + b| - 1] == b[|b| - 1]
  {}

  /** The repository's markers are framed and pairwise different. */
  lemma MarkersAreProper()
    ensures Proper(MARKERS)
  {
    hide Begin, End, Framed;
    forall z, z'
      ensures Framed(Begin(z)) && Framed(End(z)) && Begin(z) != End(z')
      ensures Begin(z) == Begin(z') || End(z) == End(z') ==> z == z'
    {
      BeginIsFramed(z);
      EndIsFramed(z);
      MarkersDiffer(z, z');
    }
  }

  /** The rest of the hub's theory holds for any proper markers. */
  type Markers = mk: Marks | Proper(mk) ghost witness (MarkersAreProper(); MARKERS)

  // ---------- Occurrences of markers ----------

  ghost predicate IsMarker(mk: Markers, m: string) {
    exists z :: m == mk.begin(z) || m == mk.end(z)
  }

  lemma FramedIsOneLine(m: string)
    requires Framed(m)
    ensures '\n' !in m
  {
    assert m == [m[0]] + m[1..|m| - 1] + [m[|m| - 1]];
  }

  lemma MarkersAreFramed(mk: Markers, m: string)
    requires IsMarker(mk, m)
    ensures Framed(m) && '\n' !in m
  {
    FramedIsOneLine(m);
  }

  /** No framed text occurs in another one. */
  lemma FramedAreIndependent(t: string, m: string, i: nat)
    requires Framed(t) && Framed(m)
    ensures At(t, m, i) <==> i == 0 && t == m
  {
    if At(t, m, i) {
      AtShows(t, m, i, i);
      AtShows(t, m, i, i + |m| - 1);
      InnerShows(t, i);
      InnerShows(t, i + |m| - 1);
    }
  }

  lemma InnerShows(t: string, k: nat)
    requires Framed(t) && k < |t|
    ensures t[k] == '<' <==> k == 0
    ensures t[k] == '>' <==> k == |t| - 1
  {
    if 0 < k < |t| - 1 {
      assert t[k] == t[1..|t| - 1][k - 1];
    }
  }

  // ---------- Marker-free texts ----------

  ghost predicate Clean(mk: Markers, t: string) {
    forall m, i: nat | IsMarker(mk, m) :: !At(t, m, i)
  }

  lemma CleanLines(mk: Markers, a: string, b: string)
    ensures Clean(mk, a + "\n" + b) <==> Clean(mk, a) && Clean(mk, b)
  {
    forall m, i: nat | IsMarker(mk, m)
      ensures At(a + "\n" + b, m, i) <==>
        (i + |m| <= |a| && At(a, m, i)) || (i >= |a| + 1 && At(b, m, i - |a| - 1))
    {
      MarkersAreFramed(mk, m);
      NoStraddle(a, b, m, i);
    }
    forall m, i: nat | IsMarker(mk, m) && Clean(mk, a + "\n" + b)
      ensures !At(a, m, i) && !At(b, m, i)
    {
      var t := a + "\n" + b;
      assert !At(t, m, i) && !At(t, m, i + |a| + 1);
    }
  }
}
