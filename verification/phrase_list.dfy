/**
 The corpus builder of the phrase generator script: the length filter, the
 padding of short candidates, and `buildList`, which keeps pulling candidates
 until it has `count` distinct acceptable ones or has made `count * 20` pulls.
 The random generator is the sequence of candidates it would yield, and
 `toLowerCase` is the uninterpreted function `fold`.
 */
module PhraseList {
  import opened JsText

  /** `acceptableLen`: the code-point length lies in `[minLen, maxLen]`. */
  function AcceptableLen(s: string, minLen: int, maxLen: int): (r: bool)
    ensures r <==> minLen <= |s| && |s| <= maxLen
  {
    minLen <= |s| <= maxLen
  }

  const PadEn := " Keep practicing."
  const PadKo := " 꾸준히 연습하자."

  /** The pad for the `--lang` setting: English for "en", Korean otherwise. */
  function PadFor(lang: string): (r: string)
    ensures lang == "en" ==> r == PadEn
    ensures lang != "en" ==> r == PadKo
    ensures |r| > 1 && r[0] == ' ' && !IsSpaceChar(r[1]) && !IsSpaceChar(r[|r| - 1])
  {
    if lang == "en" then PadEn else PadKo
  }

  /** The length correction of the generator: a candidate shorter than
      `minLen` becomes `(s + " " + pad).trim()`. For a trimmed candidate the
      result extends it and is strictly longer; a long enough one is kept. */
  function Lengthen(s: string, lang: string, minLen: int): (r: string)
    ensures |s| >= minLen ==> r == s
    ensures |s| < minLen && TrimChars(s) == s ==> |r| > |s| && r[..|s|] == s
    ensures |s| < minLen ==> |r| > 0 && !IsSpaceChar(r[0]) && !IsSpaceChar(r[|r| - 1])
    ensures |s| < minLen && TrimChars(s) == s && |s| > 0 ==> r == s + " " + PadFor(lang)
    ensures |s| < minLen && |s| == 0 ==> r == PadFor(lang)[1..]
  {
    if |s| < minLen then
      var pad := PadFor(lang);
      var u := s + " " + pad;
      assert u[|u| - 1] == pad[|pad| - 1];
      assert u[|s| + 2] == pad[1];
      assert |TrimChars(u)| > 0;
      ExtendTrimmed(s, pad);
      if |s| == 0 then
        assert u == [' ', ' '] + pad[1..];
        TrimAfterSpaces([' ', ' '], pad[1..], IsSpaceChar);
        TrimChars(u)
      else if TrimChars(s) == s then
        assert u[0] == s[0];
        TrimFixed(u, IsSpaceChar);
        TrimChars(u)
      else TrimChars(u)
    else s
  }

  /** Appending text that ends in a non-space to a trimmed string trims to itself
      when the string is non-empty, and to something non-empty otherwise. */
  lemma ExtendTrimmed(s: string, pad: string)
    requires |pad| > 1 && !IsSpaceChar(pad[1]) && !IsSpaceChar(pad[|pad| - 1])
    ensures var t := TrimChars(s + " " + pad); TrimChars(s) == s ==> |t| > |s| && t[..|s|] == s
  {
    var u := s + " " + pad;
    assert u[|u| - 1] == pad[|pad| - 1];
    if TrimChars(s) != s {
    } else if |s| > 0 {
      assert u[0] == s[0];
      assert !IsSpaceChar(s[0]);
      TrimFixed(u, IsSpaceChar);
      assert u[..|s|] == s;
    } else {
      assert u[2] == pad[1];
    }
  }

  /** The lower-cased keys of the items kept so far (the `uniq` set). */
  function Keys(out: seq<string>, fold: string -> string): set<string> {
    set s | s in out :: fold(s)
  }

  /** `a` is an order-preserving subsequence of `b`. */
  predicate IsSubsequence<T(==)>(a: seq<T>, b: seq<T>) {
    if |a| == 0 then true
    else if |b| == 0 then false
    else (a[|a| - 1] == b[|b| - 1] && IsSubsequence(a[..|a| - 1], b[..|b| - 1])) || IsSubsequence(a, b[..|b| - 1])
  }

  /** The items kept from the candidates `cands`, pulled in order: each one of
      acceptable length whose key is new. Every item kept has an acceptable
      length, no two share a key, and they appear in the order pulled. */
  function Accepted(cands: seq<string>, minLen: int, maxLen: int, fold: string -> string): (r: seq<string>)
    ensures forall s | s in r :: AcceptableLen(s, minLen, maxLen)
    ensures forall i, j | 0 <= i < j < |r| :: fold(r[i]) != fold(r[j])
    ensures IsSubsequence(r, cands)
  {
    if |cands| == 0 then []
    else
      var prev := Accepted(cands[..|cands| - 1], minLen, maxLen, fold);
      var s := cands[|cands| - 1];
      if AcceptableLen(s, minLen, maxLen) && fold(s) !in Keys(prev, fold) then
        var r := prev + [s];
        assert r[..|r| - 1] == prev;
        assert forall i | 0 <= i < |prev| :: fold(prev[i]) in Keys(prev, fold);
        r
      else prev
  }

  /** Every item kept is one of the candidates. */
  lemma {:induction false} AcceptedFromCands(cands: seq<string>, minLen: int, maxLen: int, fold: string -> string)
    ensures forall x | x in Accepted(cands, minLen, maxLen, fold) :: x in cands
  {
    if |cands| > 0 {
      var init := cands[..|cands| - 1];
      AcceptedFromCands(init, minLen, maxLen, fold);
      assert forall x | x in init :: x in cands;
    }
  }

  /** Filling the count: the key of every acceptable candidate is among the
      keys of the items kept, so the kept items are as many as the distinct
      acceptable keys pulled. */
  lemma {:induction false} AcceptedCovers(cands: seq<string>, minLen: int, maxLen: int, fold: string -> string)
    ensures forall c | c in cands && AcceptableLen(c, minLen, maxLen) :: fold(c) in Keys(Accepted(cands, minLen, maxLen, fold), fold)
  {
    if |cands| > 0 {
      var init := cands[..|cands| - 1];
      AcceptedCovers(init, minLen, maxLen, fold);
      var prev := Accepted(init, minLen, maxLen, fold);
      var r := Accepted(cands, minLen, maxLen, fold);
      assert forall c | c in cands :: c == cands[|cands| - 1] || c in init;
      assert Keys(prev, fold) <= Keys(r, fold);
    }
  }

  /** No candidate before position `i` is acceptable with the same key as
      `cands[i]`: `cands[i]` is the first acceptable occurrence of its key. */
  predicate FirstOfKey(cands: seq<string>, i: int, minLen: int, maxLen: int, fold: string -> string)
    requires 0 <= i < |cands|
  {
    forall j | 0 <= j < i :: !AcceptableLen(cands[j], minLen, maxLen) || fold(cands[j]) != fold(cands[i])
  }

  /** The first acceptable occurrence of every key is the item kept for it. */
  lemma {:induction false} AcceptedKeepsFirst(cands: seq<string>, minLen: int, maxLen: int, fold: string -> string)
    ensures forall i | 0 <= i < |cands| && AcceptableLen(cands[i], minLen, maxLen) && FirstOfKey(cands, i, minLen, maxLen, fold) ::
      cands[i] in Accepted(cands, minLen, maxLen, fold)
  {
    if |cands| > 0 {
      var n := |cands| - 1;
      var init := cands[..n];
      AcceptedKeepsFirst(init, minLen, maxLen, fold);
      var prev := Accepted(init, minLen, maxLen, fold);
      var r := Accepted(cands, minLen, maxLen, fold);
      assert forall x | x in prev :: x in r;
      forall i | 0 <= i < n && AcceptableLen(cands[i], minLen, maxLen) && FirstOfKey(cands, i, minLen, maxLen, fold)
        ensures cands[i] in r
      {
        assert FirstOfKey(init, i, minLen, maxLen, fold);
      }
      if AcceptableLen(cands[n], minLen, maxLen) && FirstOfKey(cands, n, minLen, maxLen, fold) {
        AcceptedFromCands(init, minLen, maxLen, fold);
        NewKey(cands, prev, minLen, maxLen, fold);
      }
    }
  }

  /** The last candidate, when it is the first acceptable occurrence of its key,
      has a key that no earlier kept item has. */
  lemma NewKey(cands: seq<string>, prev: seq<string>, minLen: int, maxLen: int, fold: string -> string)
    requires |cands| > 0
    requires forall x | x in prev :: AcceptableLen(x, minLen, maxLen) && x in cands[..|cands| - 1]
    requires AcceptableLen(cands[|cands| - 1], minLen, maxLen) && FirstOfKey(cands, |cands| - 1, minLen, maxLen, fold)
    ensures fold(cands[|cands| - 1]) !in Keys(prev, fold)
  {
  }

  /** `buildList`: pulls candidates while fewer than `count` items are kept and
      fewer than `count * 20` pulls were made. */
  method BuildList(cands: seq<string>, count: nat, minLen: int, maxLen: int, fold: string -> string)
    returns (out: seq<string>, attempts: nat)
    requires |cands| >= count * 20
    ensures attempts <= count * 20
    ensures |out| <= count
    ensures |out| == count || attempts == count * 20
    ensures out == Accepted(cands[..attempts], minLen, maxLen, fold)
    ensures forall s | s in out :: AcceptableLen(s, minLen, maxLen)
    ensures forall i, j | 0 <= i < j < |out| :: fold(out[i]) != fold(out[j])
    ensures IsSubsequence(out, cands[..attempts])
    ensures forall c | c in cands[..attempts] && AcceptableLen(c, minLen, maxLen) :: fold(c) in Keys(out, fold)
  {
    var uniq: set<string> := {};
    out := [];
    attempts := 0;
    var maxAttempts := count * 20;
    while |out| < count && attempts < maxAttempts
      invariant attempts <= maxAttempts
      invariant |out| <= count
      invariant out == Accepted(cands[..attempts], minLen, maxLen, fold)
      invariant uniq == Keys(out, fold)
    {
      attempts := attempts + 1;
      var s := cands[attempts - 1];
      var key := fold(s);
      assert cands[..attempts][..attempts - 1] == cands[..attempts - 1];
      if !AcceptableLen(s, minLen, maxLen) {
        continue;
      }
      if key in uniq {
        continue;
      }
      uniq := uniq + {key};
      out := out + [s];
    }
    AcceptedCovers(cands[..attempts], minLen, maxLen, fold);
  }
}
