/** The string steps of `identify_anime` in `anime_data.rs`: each rewrites
    the file title and is written here as a function of the title it is
    given. The method that chains them is `AnimeLibrary.AnimeData.IdentifyAnime`. */
module Identify {
  import opened Wrappers
  import opened Strings
  import opened Patterns
  import opened EpisodeNumber

  lemma {:induction false} CountCharReplace(s: string, a: char, b: char, c: char)
    requires c != a && c != b
    ensures CountChar(ReplaceAll(s, [a], [b]), c) == CountChar(s, c)
    decreases |s|
  {
    if |s| > 0 {
      CountCharReplace(s[1..], a, b, c);
      var r := ReplaceAll(s, [a], [b]);
      assert s[..1] == [s[0]];
      assert r == [if s[0] == a then b else s[0]] + ReplaceAll(s[1..], [a], [b]);
      assert r[1..] == ReplaceAll(s[1..], [a], [b]);
    }
  }

  /** `_` becomes a space, and so does `.` when the title has more than five. */
  function Separators(filename: string): (t: string)
    ensures |t| == |filename|
    ensures forall i :: 0 <= i < |t| ==> t[i] != '_' && (t[i] == filename[i] || t[i] == ' ')
    ensures CountChar(filename, '.') > 5 ==> forall i :: 0 <= i < |t| ==> t[i] != '.'
    ensures forall i :: 0 <= i < |t| && filename[i] != '_' && !(filename[i] == '.' && CountChar(filename, '.') > 5) ==> t[i] == filename[i]
  {
    var u := ReplaceAll(filename, "_", " ");
    ReplaceCharPointwise(filename, '_', ' ');
    CountCharReplace(filename, '_', ' ', '.');
    if CountChar(u, '.') > 5 then
      ReplaceCharPointwise(u, '.', ' ');
      ReplaceAll(u, ".", " ")
    else u
  }

  /** The resolution step: the first `NNNp` match gives the resolution and all
      such matches are removed; only when there is none does the first `WxH`
      match give the height, and then all `WxH` matches are removed. */
  function ExtractResolution(t: string): (r: (string, int))
    ensures r.1 >= 0
    ensures FirstFrom(Resolution, t, 0).Some? ==> r.1 == DigitsValue(CaptureText(Resolution, t, FirstFrom(Resolution, t, 0).value))
    ensures FirstFrom(Resolution, t, 0).None? && FirstFrom(ResolutionWxH, t, 0).Some? ==> r.1 == DigitsValue(CaptureText(ResolutionWxH, t, FirstFrom(ResolutionWxH, t, 0).value))
    ensures forall c :: c in r.0 ==> c in t
    ensures Matches(Resolution, t) ==> r.0 == RemoveAll(Resolution, t)
    ensures !Matches(Resolution, t) && Matches(ResolutionWxH, t) ==> r.0 == RemoveAll(ResolutionWxH, t)
    ensures !Matches(Resolution, t) && !Matches(ResolutionWxH, t) ==> r == (t, 0)
  {
    match FirstFrom(Resolution, t, 0)
    case Some(k) => (RemoveAll(Resolution, t), DigitsValue(CaptureText(Resolution, t, k)))
    case None =>
      match FirstFrom(ResolutionWxH, t, 0)
      case Some(k) => (RemoveAll(ResolutionWxH, t), DigitsValue(CaptureText(ResolutionWxH, t, k)))
      case None => (t, 0)
  }

  /** The `REMOVE_INFO` loop: each token, in order, deleted everywhere
      (deleting the empty string changes nothing). */
  function RemoveTokens(t: string, tokens: seq<string>): (r: string)
    ensures forall c :: c in r ==> c in t
    decreases |tokens|
  {
    if tokens == [] then t
    else RemoveToken(RemoveTokens(t, tokens[..|tokens| - 1]), tokens[|tokens| - 1])
  }

  /** `str::replace(token, "")`. */
  function RemoveToken(t: string, token: string): (r: string)
    ensures forall c :: c in r ==> c in t
  {
    if token == "" then t else ReplaceAll(t, token, "")
  }

  lemma {:induction false} ReplaceAllAbsent(s: string, pat: string, rep: string)
    requires |pat| > 0
    requires forall k: nat :: !OccursAt(s, pat, k)
    ensures ReplaceAll(s, pat, rep) == s
    decreases |s|
  {
    if |s| >= |pat| {
      assert !OccursAt(s, pat, 0);
      assert s[0..|pat|] == s[..|pat|];
      forall k: nat ensures !OccursAt(s[1..], pat, k) {
        OccursAtShift(s, pat, k);
      }
      ReplaceAllAbsent(s[1..], pat, rep);
      assert [s[0]] + s[1..] == s;
    }
  }

  /** A title holding none of the tokens comes through unchanged. */
  lemma {:induction false} RemoveTokensAbsent(t: string, tokens: seq<string>)
    requires forall i, k: nat :: 0 <= i < |tokens| ==> !OccursAt(t, tokens[i], k)
    ensures RemoveTokens(t, tokens) == t
    decreases |tokens|
  {
    if tokens != [] {
      var init := tokens[..|tokens| - 1];
      assert forall i :: 0 <= i < |init| ==> init[i] == tokens[i];
      RemoveTokensAbsent(t, init);
      if tokens[|tokens| - 1] != "" { ReplaceAllAbsent(t, tokens[|tokens| - 1], ""); }
    }
  }

  /** The episode step: `identify_number` on the title, and when it finds an
      episode above 0 the title is cut before the first occurrence of the
      matched text, which always exists. */
  function CutAtEpisode(t: string): (r: (string, EpisodeGuess))
    ensures r.1 == IdentifyNumber(t)
    ensures r.1.episode <= 0 ==> r.0 == t
    ensures r.1.episode > 0 ==>
      |r.0| < |t| && r.0 == t[..|r.0|] && OccursAt(t, r.1.text, |r.0|)
      && forall k :: 0 <= k < |r.0| ==> !OccursAt(t, r.1.text, k)
  {
    var g := IdentifyNumber(t);
    if g.episode > 0 then
      match Find(t, g.text)
      case Some(i) => (t[..i], g)
      case None =>
        // `identify_number` returns text taken from the title, so it is found.
        assert false;
        (t, g)
    else (t, g)
  }

  lemma LeadingGroup(t: string)
    requires Matches(SubGroup, t)
    ensures var g := CaptureText(SubGroup, t, FirstFrom(SubGroup, t, 0).value);
      |g| > 0 && ']' !in g && 2 + |g| <= |t| && t[..2 + |g|] == "[" + g + "]"
      && RemoveAll(SubGroup, t) == t[2 + |g| + (if 2 + |g| < |t| && t[2 + |g|] == ' ' then 1 else 0)..]
  {
    var k := FirstFrom(SubGroup, t, 0).value;
    var h := MatchAt(SubGroup, t, k);
    assert h == SubGroupAt(t, k);
    assert k == 0;
    forall j | h.len <= j ensures MatchAt(SubGroup, t, j).Miss? {
      if j < |t| { assert MatchAt(SubGroup, t, j) == SubGroupAt(t, j); }
    }
    RemoveFromNoMatch(SubGroup, t, h.len);
    var g := CaptureText(SubGroup, t, k);
    assert g == t[1..h.capHi];
    assert t[..2 + |g|] == "[" + g + "]";
  }

  lemma TrailingGroup(t: string)
    requires FirstFrom(SubGroupBackup, t, 0).Some?
    ensures var k := FirstFrom(SubGroupBackup, t, 0).value;
      var g := CaptureText(SubGroupBackup, t, k);
      RemoveAll(SubGroupBackup, t) + "-" + g == t && |g| > 0 && '-' !in g
  {
    var k := FirstFrom(SubGroupBackup, t, 0).value;
    assert MatchAt(SubGroupBackup, t, k) == SubGroupBackupAt(t, k);
    RemoveFromUpTo(SubGroupBackup, t, 0, k);
    var g := CaptureText(SubGroupBackup, t, k);
    assert g == t[k + 1..];
    assert t[..k] + "-" + g == t;
  }

  /** The sub-group step: a leading `[group]` (and one space after it) is
      taken off; failing that, a trailing `-group` with no further '-'. */
  function SplitSubGroup(t: string): (r: (string, string))
    ensures Matches(SubGroup, t) ==>
      |r.1| > 0 && ']' !in r.1 && 2 + |r.1| <= |t| && t[..2 + |r.1|] == "[" + r.1 + "]"
      && r.0 == t[2 + |r.1| + (if 2 + |r.1| < |t| && t[2 + |r.1|] == ' ' then 1 else 0)..]
    ensures !Matches(SubGroup, t) ==>
      (r == (t, "") && !Matches(SubGroupBackup, t))
      || (r.0 + "-" + r.1 == t && |r.1| > 0 && '-' !in r.1)
  {
    match FirstFrom(SubGroup, t, 0)
    case Some(k) =>
      LeadingGroup(t);
      (RemoveAll(SubGroup, t), CaptureText(SubGroup, t, k))
    case None =>
      match FirstFrom(SubGroupBackup, t, 0)
      case Some(k) =>
        TrailingGroup(t);
        (RemoveAll(SubGroupBackup, t), CaptureText(SubGroupBackup, t, k))
      case None =>
        RemoveFromNoMatch(SubGroupBackup, t, 0);
        (RemoveAll(SubGroupBackup, t), "")
  }

  /** The text does not end with a space, a dash or a dot. */
  predicate EndsClean(t: string)
  {
    t == [] || t[|t| - 1] !in " -."
  }

  /** `TRAILING_EMPTY_SPACE` removal: exactly the trailing run of spaces,
      dashes and dots is cut off. */
  function TrimTrailing(t: string): (r: string)
    ensures |r| <= |t| && r == t[..|r|]
    ensures EndsClean(r)
    ensures forall k :: |r| <= k < |t| ==> t[k] in " -."
  {
    match FirstFrom(TrailingJunk, t, 0)
    case Some(k) =>
      RemoveFromUpTo(TrailingJunk, t, 0, k);
      assert k > 0 ==> MatchAt(TrailingJunk, t, k - 1).Miss?;
      RemoveAll(TrailingJunk, t)
    case None =>
      RemoveFromNoMatch(TrailingJunk, t, 0);
      assert |t| > 0 ==> MatchAt(TrailingJunk, t, |t| - 1).Miss?;
      RemoveAll(TrailingJunk, t)
  }
}
