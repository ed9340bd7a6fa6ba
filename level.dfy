/** The level translator of level.go: free-form level text is trimmed,
    lower-cased and matched, family by family, against fixed synonyms. */
module Level {
  import Strings

  /** The five `OutputLevel` constants. `NotUsed` means "create no sink". */
  datatype OutputLevel = NotUsed | Dbg | Info | Warn | Err

  /** The string each constant stands for; each is already trimmed and
      lower-case. */
  function Name(l: OutputLevel): (r: string)
    ensures Plain(r)
  {
    match l
    case NotUsed => ""
    case Dbg => "debug"
    case Info => "info"
    case Warn => "warn"
    case Err => "error"
  }

  /** The synonym families, in the order they are tried. The info family
      spells its long synonym "infomation". */
  const DebugRefs: seq<string> := ["debug", "dbg"]
  const InfoRefs: seq<string> := ["infomation", "info"]
  const WarnRefs: seq<string> := ["warning", "warn"]
  const ErrorRefs: seq<string> := ["error", "err"]

  /** The text the families are matched against: no white space at either
      end and no ASCII capital letter; empty exactly for blank text. */
  function Normalise(lvl: string): (r: string)
    ensures r == [] || (!Strings.IsSpace(r[0]) && !Strings.IsSpace(r[|r| - 1]))
    ensures forall i :: 0 <= i < |r| ==> !('A' <= r[i] <= 'Z')
    ensures r == [] <==> Strings.AllSpace(lvl)
  {
    Strings.ToLower(Strings.TrimSpace(lvl))
  }

  /** Whether some reference occurs in `target`; the references are tried
      in order and the first hit ends the search. */
  function Contains(target: string, refs: seq<string>): (r: bool)
    ensures r <==> exists i :: 0 <= i < |refs| && Strings.Contains(target, refs[i])
  {
    if |refs| == 0 then false
    else if Strings.Contains(target, refs[0]) then true
    else
      assert forall i :: 1 <= i < |refs| ==> refs[i] == refs[1..][i - 1];
      Contains(target, refs[1..])
  }

  /** Translates level text into an `OutputLevel`: over the normalised text,
      the first family with a synonym in it wins (debug, then info, then
      warn, then error), and text with none of the synonyms is `NotUsed`. */
  function GetLevel(lvl: string): (r: OutputLevel)
    ensures var s := Normalise(lvl);
      var debug := Strings.Contains(s, "debug") || Strings.Contains(s, "dbg");
      && (r == Dbg <==> debug)
      && (r == Info <==> !debug && Strings.Contains(s, "info"))
      && (r == Warn <==> !debug && !Strings.Contains(s, "info") && Strings.Contains(s, "warn"))
      && (r == Err <==>
            !debug && !Strings.Contains(s, "info") && !Strings.Contains(s, "warn") && Strings.Contains(s, "err"))
      && (r == NotUsed <==>
            !debug && !Strings.Contains(s, "info") && !Strings.Contains(s, "warn") && !Strings.Contains(s, "err"))
  {
    Classify(Normalise(lvl))
  }

  /** The `switch` of GetLevel on normalised text `s`, family by family in
      priority order. */
  function Classify(s: string): (r: OutputLevel)
    ensures var debug := Strings.Contains(s, "debug") || Strings.Contains(s, "dbg");
      && (r == Dbg <==> debug)
      && (r == Info <==> !debug && Strings.Contains(s, "info"))
      && (r == Warn <==> !debug && !Strings.Contains(s, "info") && Strings.Contains(s, "warn"))
      && (r == Err <==>
            !debug && !Strings.Contains(s, "info") && !Strings.Contains(s, "warn") && Strings.Contains(s, "err"))
      && (r == NotUsed <==>
            !debug && !Strings.Contains(s, "info") && !Strings.Contains(s, "warn") && !Strings.Contains(s, "err"))
  {
    FamiliesByShortSynonym(s);
    if Contains(s, DebugRefs) then Dbg
    else if Contains(s, InfoRefs) then Info
    else if Contains(s, WarnRefs) then Warn
    else if Contains(s, ErrorRefs) then Err
    else NotUsed
  }

  /** Each family reduces to its short synonyms: "infomation", "warning"
      and "error" each contain the family's shorter synonym. */
  lemma FamiliesByShortSynonym(s: string)
    ensures Contains(s, DebugRefs) <==> Strings.Contains(s, "debug") || Strings.Contains(s, "dbg")
    ensures Contains(s, InfoRefs) <==> Strings.Contains(s, "info")
    ensures Contains(s, WarnRefs) <==> Strings.Contains(s, "warn")
    ensures Contains(s, ErrorRefs) <==> Strings.Contains(s, "err")
  {
    assert DebugRefs[0] == "debug" && DebugRefs[1] == "dbg";
    assert InfoRefs[1] == "info" && WarnRefs[1] == "warn" && ErrorRefs[1] == "err";
    assert Strings.Contains("infomation", "info") by {
      assert "infomation"[..4] == "info";
    }
    assert Strings.Contains("warning", "warn") by {
      assert "warning"[..4] == "warn";
    }
    assert Strings.Contains("error", "err") by {
      assert "error"[..3] == "err";
    }
    if Strings.Contains(s, "infomation") {
      Strings.ContainsTransitive(s, "infomation", "info");
    }
    if Strings.Contains(s, "warning") {
      Strings.ContainsTransitive(s, "warning", "warn");
    }
    if Strings.Contains(s, "error") {
      Strings.ContainsTransitive(s, "error", "err");
    }
  }

  /** GetLevel looks at the raw text only through its normalised form. */
  lemma GetLevelByNormalised(a: string, b: string)
    requires Normalise(a) == Normalise(b)
    ensures GetLevel(a) == GetLevel(b)
  {
  }

  /** Normalising twice is normalising once. */
  lemma NormaliseIdempotent(lvl: string)
    ensures Normalise(Normalise(lvl)) == Normalise(lvl)
  {
    var t := Strings.TrimSpace(lvl);
    Strings.TrimSpaceToLower(t);
    Strings.TrimSpaceIdempotent(lvl);
    Strings.ToLowerIdempotent(t);
  }

  /** Text already trimmed and lower-cased translates as the raw text does. */
  lemma GetLevelNormalised(lvl: string)
    ensures GetLevel(Normalise(lvl)) == GetLevel(lvl)
  {
    NormaliseIdempotent(lvl);
    GetLevelByNormalised(Normalise(lvl), lvl);
  }

  /** Letter case does not matter: texts with the same lower-case form
      translate alike. */
  lemma GetLevelIgnoresCase(a: string, b: string)
    requires Strings.ToLower(a) == Strings.ToLower(b)
    ensures GetLevel(a) == GetLevel(b)
  {
    Strings.TrimSpaceToLower(a);
    Strings.TrimSpaceToLower(b);
    GetLevelByNormalised(a, b);
  }

  /** White space around the text does not matter. */
  lemma GetLevelIgnoresPadding(pre: string, lvl: string, post: string)
    requires Strings.AllSpace(pre) && Strings.AllSpace(post)
    ensures GetLevel(pre + lvl + post) == GetLevel(lvl)
  {
    Strings.TrimSpacePadding(pre, lvl, post);
    GetLevelByNormalised(pre + lvl + post, lvl);
  }

  /** The empty text, and any text that is only white space, is `NotUsed`. */
  lemma GetLevelBlank(lvl: string)
    requires Strings.AllSpace(lvl)
    ensures GetLevel(lvl) == NotUsed
  {
    assert Normalise(lvl) == [];
  }

  /** The string of each constant is its own normalised form. */
  lemma NameNormalised(l: OutputLevel)
    ensures Normalise(Name(l)) == Name(l)
  {
    NormaliseUnchanged(Name(l));
  }

  /** Text without ASCII capitals and without surrounding white space is
      its own normalised form. */
  lemma NormaliseUnchanged(s: string)
    requires Plain(s)
    ensures Normalise(s) == s
  {
    PlainHasNoCapitals(s);
    Strings.TrimSpaceUnpadded(s);
    Strings.ToLowerNoCapitals(s);
  }

  // The predicates below restate "no ASCII capital" and "same lower-case
  // form" as index-by-index recursions. On a literal string the solver
  // evaluates a recursion like this directly, whereas the quantified forms
  // make the literal examples further down costly to prove. Each recursion
  // is proved equivalent to its quantified form (PlainHasNoCapitals,
  // SameUpToCaseLower).

  /** No ASCII capital anywhere, checked code point by code point. */
  predicate NoCapitals(s: string) {
    NoCapitalsFrom(s, 0)
  }

  predicate NoCapitalsFrom(s: string, i: nat)
    decreases |s| - i
  {
    i >= |s| || (!('A' <= s[i] <= 'Z') && NoCapitalsFrom(s, i + 1))
  }

  /** Already trimmed and lower-case: no ASCII capitals, no white space at
      either end. */
  predicate Plain(s: string) {
    NoCapitals(s) && (s == [] || (!Strings.IsSpace(s[0]) && !Strings.IsSpace(s[|s| - 1])))
  }

  lemma PlainHasNoCapitals(s: string)
    requires NoCapitals(s)
    ensures forall i :: 0 <= i < |s| ==> !('A' <= s[i] <= 'Z')
  {
    NoCapitalsFromAll(s, 0);
  }

  lemma {:induction false} NoCapitalsFromAll(s: string, i: nat)
    requires NoCapitalsFrom(s, i)
    ensures forall p :: i <= p < |s| ==> !('A' <= s[p] <= 'Z')
    decreases |s| - i
  {
    if i < |s| {
      NoCapitalsFromAll(s, i + 1);
    }
  }

  /** The string of each constant translates back to that constant. */
  lemma GetLevelOfName(l: OutputLevel)
    ensures GetLevel(Name(l)) == l
  {
    NameNormalised(l);
    ClassifyName(l);
  }

  lemma ClassifyName(l: OutputLevel)
    ensures Classify(Name(l)) == l
  {
    var n := Name(l);
    match l
    case NotUsed =>
    case Dbg => ContainsPrefix(n, "debug"); ClassifyDebugText(n);
    case Info => ContainsPrefix(n, "info"); ClassifyInfoText(n);
    case Warn => ContainsPrefix(n, "warn"); ClassifyWarnText(n);
    case Err => ContainsPrefix(n, "err"); ClassifyErrorText(n);
  }

  /** Translating the string of a translation changes nothing. */
  lemma GetLevelIdempotent(lvl: string)
    ensures GetLevel(Name(GetLevel(lvl))) == GetLevel(lvl)
  {
    GetLevelOfName(GetLevel(lvl));
  }

  /** Text with a debug synonym is debug. */
  lemma ClassifyDebugText(s: string)
    requires Strings.Contains(s, "debug") || Strings.Contains(s, "dbg")
    ensures Classify(s) == Dbg
  {
  }

  /** Text with "info" and without any 'd' is info. */
  lemma ClassifyInfoText(s: string)
    requires 'd' !in s && Strings.Contains(s, "info")
    ensures Classify(s) == Info
  {
    Strings.MissingChar(s, "debug", 'd');
    Strings.MissingChar(s, "dbg", 'd');
  }

  /** Text with "warn" and without any 'd' or 'f' is warn. */
  lemma ClassifyWarnText(s: string)
    requires 'd' !in s && 'f' !in s && Strings.Contains(s, "warn")
    ensures Classify(s) == Warn
  {
    Strings.MissingChar(s, "debug", 'd');
    Strings.MissingChar(s, "dbg", 'd');
    Strings.MissingChar(s, "info", 'f');
  }

  /** Text with "err" and without any 'd', 'f' or 'w' is error. */
  lemma ClassifyErrorText(s: string)
    requires 'd' !in s && 'f' !in s && 'w' !in s && Strings.Contains(s, "err")
    ensures Classify(s) == Err
  {
    Strings.MissingChar(s, "debug", 'd');
    Strings.MissingChar(s, "dbg", 'd');
    Strings.MissingChar(s, "info", 'f');
    Strings.MissingChar(s, "warn", 'w');
  }

  /** The text starts with `word`. */
  lemma ContainsPrefix(s: string, word: string)
    requires |word| <= |s| && s[..|word|] == word
    ensures Strings.Contains(s, word)
  {
    assert Strings.OccursAt(word, s, 0);
  }

  /** Text that is already trimmed and lower-case is classified as it is. */
  lemma GetLevelOfPlain(s: string)
    requires Plain(s)
    ensures GetLevel(s) == Classify(s)
  {
    NormaliseUnchanged(s);
  }

  /** The short level texts a configuration may hold: "dbg" and "err" as
      well as the constants' own strings. */
  lemma GetLevelOfShortForms()
    ensures GetLevel("dbg") == Dbg && GetLevel("err") == Err
  {
    ShortDbg();
    ShortErr();
  }

  lemma ShortDbg()
    ensures GetLevel("dbg") == Dbg
  {
    GetLevelOfPlain("dbg");
    ContainsPrefix("dbg", "dbg");
    ClassifyDebugText("dbg");
  }

  lemma ShortErr()
    ensures GetLevel("err") == Err
  {
    GetLevelOfPlainError("err");
  }

  /** Trimmed lower-case text that starts with "err" and has no 'd', 'f' or
      'w' is error. */
  lemma GetLevelOfPlainError(s: string)
    requires Plain(s) && |s| >= 3 && s[..3] == "err"
    requires 'd' !in s && 'f' !in s && 'w' !in s
    ensures GetLevel(s) == Err
  {
    GetLevelOfPlain(s);
    ContainsPrefix(s, "err");
    ClassifyErrorText(s);
  }

  /** Mixed case and surrounding blanks: " DeBuG " is debug. */
  lemma GetLevelOfPaddedMixedCase()
    ensures GetLevel(" DeBuG ") == Dbg
  {
    PaddedAsUnpadded();
    MixedCaseAsLower();
    GetLevelOfName(Dbg);
  }

  lemma PaddedAsUnpadded()
    ensures GetLevel(" DeBuG ") == GetLevel("DeBuG")
  {
    assert " DeBuG " == " " + "DeBuG" + " ";
    GetLevelIgnoresPadding(" ", "DeBuG", " ");
  }

  lemma MixedCaseAsLower()
    ensures GetLevel("DeBuG") == GetLevel("debug")
  {
    SameUpToCaseLower("DeBuG", "debug");
    GetLevelIgnoresCase("DeBuG", "debug");
  }

  /** Upper case: "WARNING" is warn. */
  lemma GetLevelOfUpperCase()
    ensures GetLevel("WARNING") == Warn
  {
    UpperCaseAsLower();
    GetLevelOfWarning();
  }

  lemma UpperCaseAsLower()
    ensures GetLevel("WARNING") == GetLevel("warning")
  {
    SameUpToCaseLower("WARNING", "warning");
    GetLevelIgnoresCase("WARNING", "warning");
  }

  lemma GetLevelOfWarning()
    ensures GetLevel("warning") == Warn
  {
    GetLevelOfPlainWarn("warning");
  }

  /** Trimmed lower-case text that starts with "warn" and has no 'd' or 'f'
      is warn. */
  lemma GetLevelOfPlainWarn(s: string)
    requires Plain(s) && |s| >= 4 && s[..4] == "warn"
    requires 'd' !in s && 'f' !in s
    ensures GetLevel(s) == Warn
  {
    GetLevelOfPlain(s);
    ContainsPrefix(s, "warn");
    ClassifyWarnText(s);
  }

  /** The two texts agree code point by code point up to ASCII case. */
  predicate SameUpToCase(a: string, b: string) {
    |a| == |b| && SameUpToCaseFrom(a, b, 0)
  }

  predicate SameUpToCaseFrom(a: string, b: string, i: nat)
    requires |a| == |b|
    decreases |a| - i
  {
    i >= |a| || (Strings.LowerChar(a[i]) == Strings.LowerChar(b[i]) && SameUpToCaseFrom(a, b, i + 1))
  }

  /** Texts that agree up to ASCII case have the same lower-case form. */
  lemma SameUpToCaseLower(a: string, b: string)
    requires SameUpToCase(a, b)
    ensures Strings.ToLower(a) == Strings.ToLower(b)
  {
    SameUpToCaseFromAll(a, b, 0);
  }

  lemma {:induction false} SameUpToCaseFromAll(a: string, b: string, i: nat)
    requires |a| == |b| && SameUpToCaseFrom(a, b, i)
    ensures forall p :: i <= p < |a| ==> Strings.LowerChar(a[p]) == Strings.LowerChar(b[p])
    decreases |a| - i
  {
    if i < |a| {
      SameUpToCaseFromAll(a, b, i + 1);
    }
  }

}
