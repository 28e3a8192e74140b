/** Title normalisation used by the title matcher of `anime_data.rs`:
    `replace_special_vowels`, ASCII lower-casing, and the pre-dash prefix
    `([^-]*).*` of the third matching pass. */
module Titles {
  import opened Strings

  /** The character classes of `REPLACE_A` … `REPLACE_Y`, each an alternation
      of single characters. */
  const ClassA: string := "ÀÁÂÃÄÅàáâãäå"
  const ClassAE: string := "Ææ"
  const ClassB: string := "ßÞþ"
  const ClassC: string := "Çç"
  const ClassD: string := "Ðð"
  const ClassE: string := "ÈÉÊËèéêë"
  const ClassI: string := "ÌÍÎÏìíîï"
  const ClassN: string := "Ññ"
  const ClassO: string := "ÒÓÔÕÖØòóôõöø"
  const ClassU: string := "ÙÚÛÜùúûü"
  const ClassY: string := "Ýýÿ"

  /** The replacements of `replace_special_vowels`, in the order the source
      applies them: A, AE, C, E, I, D, N, O, U, Y, B. */
  const Classes: seq<string> := [ClassA, ClassAE, ClassC, ClassE, ClassI, ClassD, ClassN, ClassO, ClassU, ClassY, ClassB]
  const Replacements: seq<string> := ["a", "ae", "c", "e", "i", "d", "n", "o", "u", "y", "b"]

  /** The plain letters the replacements write. */
  const Plain: string := "abcdeinouy"

  /** A character some replacement rewrites. */
  predicate Special(c: char)
  {
    exists j :: 0 <= j < |Classes| && c in Classes[j]
  }

  /** `replace_all` of a single-character alternation: each character of `cls`
      becomes `rep`, every other character stays. */
  function ReplaceClass(s: string, cls: string, rep: string): string
  {
    if s == [] then []
    else (if s[0] in cls then rep else [s[0]]) + ReplaceClass(s[1..], cls, rep)
  }

  /** Every character of the result is a character of `s` outside the class
      or one of `rep`; a string with no character of the class is unchanged. */
  lemma ReplaceClassChars(s: string, cls: string, rep: string)
    ensures forall c :: c in ReplaceClass(s, cls, rep) ==> (c in s && c !in cls) || c in rep
    ensures (forall i :: 0 <= i < |s| ==> s[i] !in cls) ==> ReplaceClass(s, cls, rep) == s
    ensures |s| > 0 && |rep| > 0 ==> |ReplaceClass(s, cls, rep)| > 0
  {
    forall c | c in ReplaceClass(s, cls, rep) ensures (c in s && c !in cls) || c in rep {
      ReplaceClassChar(s, cls, rep, c);
    }
    if forall i :: 0 <= i < |s| ==> s[i] !in cls {
      ReplaceClassNone(s, cls, rep);
    }
  }

  lemma {:induction false} ReplaceClassChar(s: string, cls: string, rep: string, c: char)
    requires c in ReplaceClass(s, cls, rep)
    ensures (c in s && c !in cls) || c in rep
    decreases |s|
  {
    var head := if s[0] in cls then rep else [s[0]];
    var tail := ReplaceClass(s[1..], cls, rep);
    assert ReplaceClass(s, cls, rep) == head + tail;
    if c !in head {
      assert c in tail;
      ReplaceClassChar(s[1..], cls, rep, c);
      if c !in rep {
        var i :| 0 <= i < |s[1..]| && s[1..][i] == c;
        assert s[i + 1] == c;
      }
    }
  }

  lemma {:induction false} ReplaceClassNone(s: string, cls: string, rep: string)
    requires forall i :: 0 <= i < |s| ==> s[i] !in cls
    ensures ReplaceClass(s, cls, rep) == s
    decreases |s|
  {
    if s != [] {
      assert forall i :: 0 <= i < |s[1..]| ==> s[1..][i] !in cls;
      ReplaceClassNone(s[1..], cls, rep);
      assert [s[0]] + s[1..] == s;
    }
  }

  /** The replacements from the `k`-th on, applied in order. */
  function ReplaceFrom(s: string, k: nat): string
    requires k <= |Classes|
    decreases |Classes| - k
  {
    if k == |Classes| then s
    else ReplaceFrom(ReplaceClass(s, Classes[k], Replacements[k]), k + 1)
  }

  /** `replace_special_vowels`. */
  function ReplaceSpecialVowels(s: string): string
  {
    ReplaceFrom(s, 0)
  }

  /** Every character of `s` lies outside ASCII. */
  predicate NonAscii(s: string)
  {
    forall c :: c in s ==> c as int >= 128
  }

  lemma VowelClassesNonAscii()
    ensures NonAscii(ClassA) && NonAscii(ClassE) && NonAscii(ClassI)
  {
    assert NonAscii(ClassA);
    assert NonAscii(ClassE);
  }

  lemma OtherVowelClassesNonAscii()
    ensures NonAscii(ClassO) && NonAscii(ClassU) && NonAscii(ClassY)
  {
    assert NonAscii(ClassO);
    assert NonAscii(ClassU);
  }

  lemma ConsonantClassesNonAscii()
    ensures NonAscii(ClassAE) && NonAscii(ClassB) && NonAscii(ClassC) && NonAscii(ClassD) && NonAscii(ClassN)
  {
  }

  /** Every character some replacement rewrites lies outside ASCII. */
  lemma ClassesAreNonAscii()
    ensures forall j, c :: 0 <= j < |Classes| && c in Classes[j] ==> c as int >= 128
  {
    VowelClassesNonAscii();
    OtherVowelClassesNonAscii();
    ConsonantClassesNonAscii();
    forall j | 0 <= j < |Classes| ensures NonAscii(Classes[j]) {
    }
  }

  lemma PlainIsNotSpecial(c: char)
    requires c in Plain
    ensures !Special(c)
  {
    ClassesAreNonAscii();
    assert c as int < 128;
  }

  lemma {:induction false} ReplaceFromChars(s: string, k: nat)
    requires k <= |Classes|
    ensures forall c :: c in ReplaceFrom(s, k) ==>
      (c in s && forall j :: k <= j < |Classes| ==> c !in Classes[j]) || c in Plain
    ensures |s| > 0 ==> |ReplaceFrom(s, k)| > 0
    decreases |Classes| - k
  {
    if k < |Classes| {
      var t := ReplaceClass(s, Classes[k], Replacements[k]);
      ReplaceClassChars(s, Classes[k], Replacements[k]);
      ReplaceFromChars(t, k + 1);
      ReplacementIsPlain(k);
      assert ReplaceFrom(s, k) == ReplaceFrom(t, k + 1);
      forall c | c in ReplaceFrom(s, k) && c !in Plain
        ensures c in s && forall j :: k <= j < |Classes| ==> c !in Classes[j]
      {
        assert c in t;
      }
    }
  }

  lemma ReplacementIsPlain(k: nat)
    requires k < |Classes|
    ensures |Replacements[k]| > 0
    ensures forall c :: c in Replacements[k] ==> c in Plain
  {
  }

  /** Every character of the result is a non-special character of the input
      or one of the plain letters the replacements write; so no special
      character is left. */
  lemma ReplaceSpecialVowelsChars(s: string)
    ensures forall c :: c in ReplaceSpecialVowels(s) ==> (c in s && !Special(c)) || c in Plain
    ensures forall c :: c in ReplaceSpecialVowels(s) ==> !Special(c)
    ensures |s| > 0 ==> |ReplaceSpecialVowels(s)| > 0
  {
    ReplaceFromChars(s, 0);
    forall c | c in Plain ensures !Special(c) { PlainIsNotSpecial(c); }
  }

  lemma {:induction false} ReplaceFromPlain(s: string, k: nat)
    requires k <= |Classes|
    requires forall i :: 0 <= i < |s| ==> !Special(s[i])
    ensures ReplaceFrom(s, k) == s
    decreases |Classes| - k
  {
    if k < |Classes| {
      assert forall i :: 0 <= i < |s| ==> s[i] !in Classes[k];
      ReplaceClassChars(s, Classes[k], Replacements[k]);
      ReplaceFromPlain(s, k + 1);
    }
  }

  /** A string without special characters is left alone. */
  lemma ReplaceSpecialVowelsPlain(s: string)
    requires forall i :: 0 <= i < |s| ==> !Special(s[i])
    ensures ReplaceSpecialVowels(s) == s
  {
    ReplaceFromPlain(s, 0);
  }

  /** Replacing twice is replacing once. */
  lemma ReplaceSpecialVowelsIdempotent(s: string)
    ensures ReplaceSpecialVowels(ReplaceSpecialVowels(s)) == ReplaceSpecialVowels(s)
  {
    var t := ReplaceSpecialVowels(s);
    ReplaceSpecialVowelsChars(s);
    assert forall i :: 0 <= i < |t| ==> !Special(t[i]) by {
      forall i | 0 <= i < |t| ensures !Special(t[i]) { assert t[i] in t; }
    }
    ReplaceSpecialVowelsPlain(t);
  }

  /** How a title or a file title is compared: ASCII lower case, then the
      special letters replaced. */
  function Normalize(s: string): string
  {
    ReplaceSpecialVowels(AsciiLower(s))
  }

  /** A normalised string holds no special and no upper-case ASCII letter,
      and is empty only when the input is. */
  lemma NormalizeChars(s: string)
    ensures forall c :: c in Normalize(s) ==> !Special(c) && !('A' <= c <= 'Z')
    ensures |s| > 0 ==> |Normalize(s)| > 0
  {
    var l := AsciiLower(s);
    var r := Normalize(s);
    assert r == ReplaceSpecialVowels(l);
    ReplaceSpecialVowelsChars(l);
    assert forall c :: c in l ==> !('A' <= c <= 'Z');
    forall c | c in r ensures !Special(c) && !('A' <= c <= 'Z') {
      assert (c in l && !Special(c)) || c in Plain;
    }
  }

  /** ASCII lower-casing leaves a string without upper-case letters alone. */
  lemma AsciiLowerPlain(s: string)
    requires forall c :: c in s ==> !('A' <= c <= 'Z')
    ensures AsciiLower(s) == s
  {
    var l := AsciiLower(s);
    assert forall i :: 0 <= i < |s| ==> l[i] == s[i] by {
      forall i | 0 <= i < |s| ensures l[i] == s[i] { assert s[i] in s; }
    }
  }

  /** Normalising a normalised string changes nothing. */
  lemma NormalizeIdempotent(s: string)
    ensures Normalize(Normalize(s)) == Normalize(s)
  {
    var t := Normalize(s);
    NormalizeChars(s);
    AsciiLowerPlain(t);
    assert forall i :: 0 <= i < |t| ==> !Special(t[i]) by {
      forall i | 0 <= i < |t| ensures !Special(t[i]) { assert t[i] in t; }
    }
    ReplaceSpecialVowelsPlain(t);
  }

  /** Upper and lower case ASCII spellings of a title normalise alike. */
  lemma NormalizeIgnoresAsciiCase(s: string)
    ensures Normalize(s) == Normalize(AsciiLower(s))
  {
    var l := AsciiLower(s);
    assert forall c :: c in l ==> !('A' <= c <= 'Z');
    AsciiLowerPlain(l);
  }

  /** Group 1 of `([^-]*).*`: the text before the first '-', or all of it. */
  function PreDash(s: string): (r: string)
    ensures '-' !in r
    ensures |r| <= |s| && r == s[..|r|]
    ensures |r| < |s| ==> s[|r|] == '-'
  {
    if s == [] || s[0] == '-' then [] else [s[0]] + PreDash(s[1..])
  }
}
