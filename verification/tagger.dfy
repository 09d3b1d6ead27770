/** The dietary flag of the preprocessing script: `detect_is_veggie`
    lower-cases its text and asks whether one of three vegetarian terms
    occurs in it. */
module Tagger {
  import opened Text

  /** The indicator terms, in the order `any(...)` tries them. */
  const VeggieKeywords: seq<string> := ["végétarien", "végétarienne", "veggie"]

  /** Reference meaning of the flag: some indicator term is a substring of
      the lower-cased text. */
  predicate IsVeggie(text: string)
  {
    exists k :: 0 <= k < |VeggieKeywords| && Contains(Lower(text), VeggieKeywords[k])
  }

  /** `word in txt`: a left-to-right scan over the start positions. */
  method Find(txt: string, word: string) returns (found: bool)
    ensures found <==> Contains(txt, word)
  {
    ContainsIff(txt, word);
    if |word| > |txt| {
      return false;
    }
    var i := 0;
    while i <= |txt| - |word|
      invariant i <= |txt| - |word| + 1
      invariant forall j :: 0 <= j < i ==> !OccursAt(txt, word, j)
    {
      if txt[i..i + |word|] == word {
        assert OccursAt(txt, word, i);
        return true;
      }
      i := i + 1;
    }
    return false;
  }

  /** `detect_is_veggie(text)`: lower-case once, then try each term in turn
      and stop at the first one found. */
  method DetectIsVeggie(text: string) returns (r: bool)
    ensures r <==> IsVeggie(text)
  {
    var txt := Lower(text);
    var k := 0;
    r := false;
    while k < |VeggieKeywords| && !r
      invariant k <= |VeggieKeywords|
      invariant r ==> IsVeggie(text)
      invariant !r ==> forall j :: 0 <= j < k ==> !Contains(txt, VeggieKeywords[j])
    {
      r := Find(txt, VeggieKeywords[k]);
      k := k + 1;
    }
  }

  /** The flag does not see letter case: a text and its lower-case form get
      the same answer, and so do two texts that agree up to case. */
  lemma CaseInsensitive(s: string, t: string)
    requires Lower(s) == Lower(t)
    ensures IsVeggie(s) <==> IsVeggie(t)
    ensures IsVeggie(Lower(s)) <==> IsVeggie(s)
  {
    LowerIdempotent(s);
  }

  /** Adding text around a vegetarian text keeps it vegetarian. */
  lemma Monotone(a: string, s: string, b: string)
    requires IsVeggie(s)
    ensures IsVeggie(a + s + b)
  {
    var k :| 0 <= k < |VeggieKeywords| && Contains(Lower(s), VeggieKeywords[k]);
    ContainsInContext(Lower(a), Lower(s), Lower(b), VeggieKeywords[k]);
    LowerConcat(a + s, b);
    LowerConcat(a, s);
    assert Contains(Lower(a + s + b), VeggieKeywords[k]);
  }

  /** No indicator term holds a space. */
  lemma KeywordsHaveNoSpace(k: nat, j: nat)
    requires k < |VeggieKeywords| && j < |VeggieKeywords[k]|
    ensures VeggieKeywords[k][j] != ' '
  {
  }

  /** The recipe flag is computed on `stem + " " + text`; as no term holds a
      space, no match can straddle the joint, so the flag is set exactly when
      the file stem or the body text is vegetarian on its own. */
  lemma JoinedFlag(stem: string, text: string)
    ensures IsVeggie(stem + " " + text) <==> IsVeggie(stem) || IsVeggie(text)
  {
    if IsVeggie(stem) {
      Monotone([], stem, " " + text);
      assert [] + stem + (" " + text) == stem + " " + text;
    }
    if IsVeggie(text) {
      Monotone(stem + " ", text, []);
      assert stem + " " + text + [] == stem + " " + text;
    }
    if IsVeggie(stem + " " + text) {
      var k :| 0 <= k < |VeggieKeywords| && Contains(Lower(stem + " " + text), VeggieKeywords[k]);
      SplitMatch(stem, text, VeggieKeywords[k], k);
    }
  }

  /** A match of term `k` in the lower-cased joint text lies in the stem or in
      the body. */
  lemma SplitMatch(stem: string, text: string, w: string, k: nat)
    requires k < |VeggieKeywords| && w == VeggieKeywords[k]
    requires Contains(Lower(stem + " " + text), w)
    ensures Contains(Lower(stem), w) || Contains(Lower(text), w)
  {
    var left := Lower(stem) + " ";
    var whole := left + Lower(text);
    JointLower(stem, text);
    ContainsWitness(whole, w);
    var i :| OccursAt(whole, w, i);
    if i + |w| <= |stem| {
      OccursInLeft(left, Lower(text), w, i);
      OccursInLeft(Lower(stem), " ", w, i);
      OccursAtContains(Lower(stem), w, i);
    } else if i > |stem| {
      OccursInRight(left, Lower(text), w, i);
      OccursAtContains(Lower(text), w, i - |stem| - 1);
    } else {
      assert whole[|stem|] == left[|stem|] == ' ';
      assert w[|stem| - i] == whole[i..i + |w|][|stem| - i];
      KeywordsHaveNoSpace(k, |stem| - i);
    }
  }

  lemma JointLower(stem: string, text: string)
    ensures Lower(stem + " " + text) == (Lower(stem) + " ") + Lower(text)
  {
    LowerConcat(stem + " ", text);
    LowerConcat(stem, " ");
  }

  lemma OccursInLeft(a: string, b: string, w: string, i: int)
    requires OccursAt(a + b, w, i) && i + |w| <= |a|
    ensures OccursAt(a, w, i)
  {
    assert (a + b)[i..i + |w|] == a[i..i + |w|];
  }

  lemma OccursInRight(a: string, b: string, w: string, i: int)
    requires OccursAt(a + b, w, i) && |a| <= i
    ensures OccursAt(b, w, i - |a|)
  {
    assert (a + b)[i..i + |w|] == b[i - |a|..i - |a| + |w|];
  }

  /** The second term is redundant: "végétarienne" contains "végétarien", so
      the flag is already decided by the first and third terms. */
  lemma SecondKeywordRedundant(text: string)
    ensures IsVeggie(text) <==>
      Contains(Lower(text), VeggieKeywords[0]) || Contains(Lower(text), VeggieKeywords[2])
  {
    if Contains(Lower(text), VeggieKeywords[1]) {
      var w := VeggieKeywords[1];
      assert w == VeggieKeywords[0] + "ne";
      ContainsWitness(Lower(text), w);
      var i :| OccursAt(Lower(text), w, i);
      assert Lower(text)[i..i + 10] == w[..10];
      OccursAtContains(Lower(text), VeggieKeywords[0], i);
    }
  }

  /** The flag on two menu titles: upper-case accented letters are folded. */
  lemma UpperCaseTitle()
    ensures IsVeggie("Pizza V\U{C9}G\U{C9}TARIENNE")
    ensures IsVeggie("pizza v\U{E9}g\U{E9}tarienne")
  {
    var s := "Pizza V\U{C9}G\U{C9}TARIENNE";
    var t := "pizza v\U{E9}g\U{E9}tarienne";
    forall i | 0 <= i < |s|
      ensures Lower(s)[i] == t[i]
    {
      assert LowerChar(s[i]) == t[i];
    }
    assert Lower(s) == t;
    LowerIdempotent(s);
    assert OccursAt(t, VeggieKeywords[0], 6);
    OccursAtContains(t, VeggieKeywords[0], 6);
  }

  /** A title without any indicator term is not flagged. */
  lemma PlainTitle()
    ensures !IsVeggie("Pizza Reine")
  {
    var s := "Pizza Reine";
    var t := "pizza reine";
    forall i | 0 <= i < |s|
      ensures Lower(s)[i] == t[i]
    {
      assert LowerChar(s[i]) == t[i];
    }
    assert Lower(s) == t;
    forall k | 0 <= k < |VeggieKeywords|
      ensures !Contains(t, VeggieKeywords[k])
    {
      FirstLetterAbsent(t, VeggieKeywords[k]);
    }
  }

  /** A word whose first letter never appears in `t` does not occur in it. */
  lemma {:induction false} FirstLetterAbsent(t: string, w: string)
    requires |w| >= 1
    requires forall i :: 0 <= i < |t| ==> t[i] != w[0]
    ensures !Contains(t, w)
    decreases |t|
  {
    if |w| <= |t| {
      assert t[..|w|][0] != w[0];
      FirstLetterAbsent(t[1..], w);
    }
  }
}
