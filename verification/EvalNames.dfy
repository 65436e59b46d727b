/** The names of case files and of baselines. */
module EvalNames {
  import opened Optional
  import opened Decimals
  import opened EvalCases
  import opened EvalGate

  // Two regular expressions and a label (bin/_eval_common/regression_case.py, bin/_eval_baseline/mint.py), said by what
  // their matches are made of.

  /** A decimal digit, by its character code. */
  predicate DigitCode(c: char) {
    48 <= c as int <= 57
  }

  /** A small or capital letter, a digit, an underscore or a hyphen. */
  predicate LabelChar(c: char) {
    97 <= c as int <= 122 || 65 <= c as int <= 90 || DigitCode(c) || c as int == 95 || c as int == 45
  }

  ghost predicate Underscores(s: string) {
    forall i | 0 <= i < |s| :: s[i] == '_'
  }

  lemma AlnumCodes(c: char)
    ensures IsAlnum(c) || c == '_' || c == '-' <==> LabelChar(c)
    ensures IsDigit(c) <==> DigitCode(c)
  {}

  // ---------- Labels ----------

  /** strip("_") takes away underscores at both ends, and all of them. */
  lemma {:induction false} StripTakesUnderscores(s: string) returns (a: string, b: string)
    ensures s == a + Strip(s) + b && Underscores(a) && Underscores(b)
    ensures Strip(s) == "" || (Strip(s)[0] != '_' && Strip(s)[|Strip(s)| - 1] != '_')
    decreases |s|
  {
    a, b := "", "";
    if s == "" {
    } else if s[0] == '_' {
      a, b := StripTakesUnderscores(s[1..]);
      a := "_" + a;
    } else if s[|s| - 1] == '_' {
      a, b := StripTakesUnderscores(s[..|s| - 1]);
      b := b + "_";
    }
  }

  /** The text with an underscore for every character that a label may not have. */
  ghost predicate Cleans(text: string, clean: string) {
    |clean| == |text| && forall i | 0 <= i < |text| :: clean[i] == if LabelChar(text[i]) then text[i] else '_'
  }

  lemma CleanCleans(text: string)
    ensures Cleans(text, Clean(text))
  {
    forall i | 0 <= i < |text|
      ensures Clean(text)[i] == if LabelChar(text[i]) then text[i] else '_'
    {
      AlnumCodes(text[i]);
    }
  }

  /** Main result for labels: the text, cleaned, is the label between underscores; the label neither begins nor ends
      with one; and where nothing but underscores is left the label is "case". */
  lemma LabelShowsText(text: string) returns (clean: string, a: string, b: string)
    ensures Cleans(text, clean) && Underscores(a) && Underscores(b)
    ensures var tag := Sanitized(text);
      if Underscores(clean) then tag == "case"
      else clean == a + tag + b && tag[0] != '_' && tag[|tag| - 1] != '_'
  {
    hide Clean, Cleans;
    clean := Clean(text);
    CleanCleans(text);
    a, b := StripTakesUnderscores(clean);
    StripsToNothing(clean, a, Strip(clean), b);
  }

  lemma StripsToNothing(clean: string, a: string, s: string, b: string)
    requires clean == a + s + b && Underscores(a) && Underscores(b) && (s == "" || s[0] != '_')
    ensures s == "" <==> Underscores(clean)
  {
    assert s != "" ==> clean[|a|] == s[0];
  }

  // ---------- Case numbers ----------

  /** The id of a promotion without one: the label, and one more than the highest number a case file of that label
      has. */
  lemma NumberIsNext(failure: string, ids: seq<string>) returns (n: nat)
    ensures IdFor(failure, None, ids) == "case_" + Sanitized(failure) + "_" + ToDecimal(n + 1)
    ensures forall id | id in ids && SeqOf(Sanitized(failure), id).Some? :: SeqOf(Sanitized(failure), id).value <= n
    ensures n == 0 || exists id :: id in ids && SeqOf(Sanitized(failure), id) == Some(n)
  {
    var token := Sanitized(failure);
    n := Highest(token, ids);
    HighestIsTaken(token, ids);
    forall id | id in ids && SeqOf(token, id).Some?
      ensures SeqOf(token, id).value <= n
    {
      HighestBounds(token, ids, id);
    }
  }

  /** A case file counts with number n exactly if behind its label there are digits only, and they read n. */
  lemma NumberedCases(token: string, id: string, n: nat)
    ensures SeqOf(token, id) == Some(n) <==>
      exists digits :: digits != "" && AllDigits(digits) && FromDecimal(digits) == n
          && id == "case_" + token + "_" + digits
  {
    var stem := "case_" + token + "_";
    assert Stem(token) == stem;
    if SeqOf(token, id) == Some(n) {
      assert id == stem + id[|stem|..];
    }
    if digits :| digits != "" && AllDigits(digits) && FromDecimal(digits) == n && id == stem + digits {
      assert id[|stem|..] == digits && id[..|stem|] == stem;
    }
  }

  // ---------- Baseline names ----------

  ghost predicate Digits(s: string, n: nat) {
    |s| == n && forall i | 0 <= i < n :: DigitCode(s[i])
  }

  ghost predicate Label(s: string) {
    s != "" && forall i | 0 <= i < |s| :: LabelChar(s[i])
  }

  ghost predicate Dated(name: string, year: string, month: string, day: string, tag: string) {
    && Digits(year, 4) && Digits(month, 2) && Digits(day, 2) && Label(tag)
    && name == year + "-" + month + "-" + day + "_" + tag
  }

  lemma DatedParts(n: string)
    ensures DatedLabel(n) ==> Dated(n, n[..4], n[5..7], n[8..10], n[11..])
  {
    if DatedLabel(n) {
      forall i | 0 <= i < |n|
        ensures IsDigit(n[i]) <==> DigitCode(n[i])
        ensures IsAlnum(n[i]) || n[i] == '_' || n[i] == '-' <==> LabelChar(n[i])
      {
        AlnumCodes(n[i]);
      }
      assert n == n[..4] + "-" + n[5..7] + "-" + n[8..10] + "_" + n[11..];
    }
  }

  lemma PartsAreDated(n: string, year: string, month: string, day: string, tag: string)
    requires Dated(n, year, month, day, tag)
    ensures DatedLabel(n)
  {
    forall i | 0 <= i < |n|
      ensures IsDigit(n[i]) <==> DigitCode(n[i])
      ensures IsAlnum(n[i]) || n[i] == '_' || n[i] == '-' <==> LabelChar(n[i])
    {
      AlnumCodes(n[i]);
    }
    assert forall i | 0 <= i < 4 :: n[i] == year[i];
    assert forall i | 5 <= i < 7 :: n[i] == month[i - 5];
    assert forall i | 8 <= i < 10 :: n[i] == day[i - 8];
    assert forall i | 11 <= i < |n| :: n[i] == tag[i - 11];
  }

  ghost predicate IsDated(n: string) {
    exists year, month, day, tag :: Dated(n, year, month, day, tag)
  }

  lemma DatedExactly(n: string)
    ensures DatedLabel(n) <==> IsDated(n)
    ensures IsDated(n) ==> n != "" && n[|n| - 1] != '\n'
  {
    hide Dated, DatedLabel;
    DatedParts(n);
    if year, month, day, tag :| Dated(n, year, month, day, tag) {
      PartsAreDated(n, year, month, day, tag);
      LastIsLabel(n, year, month, day, tag);
    }
  }

  /** Main result for names: a baseline name is accepted exactly if it is a date, an underscore and a label, and
      possibly a line feed behind them. */
  lemma ValidNameIsDated(name: string)
    ensures ValidName(name) <==> exists n :: IsDated(n) && (name == n || name == n + "\n")
  {
    hide IsDated, DatedLabel;
    var short := if name == "" then "" else name[..|name| - 1];
    DatedExactly(name);
    DatedExactly(short);
    if ValidName(name) {
      if name != "" && name[|name| - 1] == '\n' {
        assert IsDated(short) && name == short + "\n";
      } else {
        assert IsDated(name);
      }
    }
    if n :| IsDated(n) && (name == n || name == n + "\n") {
      DatedExactly(n);
      assert name != n ==> short == n;
    }
  }

  lemma LastIsLabel(n: string, year: string, month: string, day: string, tag: string)
    requires Dated(n, year, month, day, tag)
    ensures n != "" && n[|n| - 1] != '\n'
  {
    assert n[|n| - 1] == tag[|tag| - 1];
  }
}
