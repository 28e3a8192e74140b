/** Episode detection in a cleaned file title: `identify_number` and
    `extract_number` of `anime_data.rs`. */
module EpisodeNumber {
  import opened Wrappers
  import opened Strings
  import opened Patterns

  /** A match of the range pattern `[^sS](\d+)[&-](\d+)`: its extent and the
      spans of the two numbers (absolute positions). */
  datatype RangeHit = RangeHit(start: nat, end: nat, firstLo: nat, firstHi: nat, secondLo: nat, secondHi: nat)

  predicate ValidRange(s: string, r: RangeHit)
  {
    r.start < r.firstLo < r.firstHi < r.secondLo < r.secondHi == r.end <= |s|
    && r.firstLo == r.start + 1 && r.secondLo == r.firstHi + 1
    && s[r.start] !in "sS" && s[r.firstHi] in "&-"
    && AllDigits(s[r.firstLo..r.firstHi]) && AllDigits(s[r.secondLo..r.secondHi])
  }

  function RangeAt(s: string, i: nat): (r: Option<RangeHit>)
    ensures r.Some? ==> ValidRange(s, r.value) && r.value.start == i
  {
    if i >= |s| || s[i] in "sS" then None
    else
      var a := DigitRun(s, i + 1);
      var j := i + 1 + a;
      if a > 0 && j < |s| && s[j] in "&-" && DigitRun(s, j + 1) > 0 then
        var b := DigitRun(s, j + 1);
        assert AllDigits(s[i + 1..j]);
        assert AllDigits(s[j + 1..j + 1 + b]);
        Some(RangeHit(i, j + 1 + b, i + 1, j, j + 1, j + 1 + b))
      else None
  }

  /** Leftmost match of the range pattern at or after `i` (`captures`). */
  function FirstRange(s: string, i: nat): (r: Option<RangeHit>)
    ensures r.Some? ==> ValidRange(s, r.value) && i <= r.value.start && RangeAt(s, r.value.start) == r
    ensures r.Some? ==> forall k :: i <= k < r.value.start ==> RangeAt(s, k).None?
    ensures r.None? ==> forall k :: i <= k ==> RangeAt(s, k).None?
    decreases |s| - i
  {
    if i >= |s| then None
    else if RangeAt(s, i).Some? then RangeAt(s, i)
    else FirstRange(s, i + 1)
  }

  /** What `identify_number` returns: the matched text, the episode and the
      number of episodes the file holds. */
  datatype EpisodeGuess = EpisodeGuess(text: string, episode: int, length: int)

  const NoEpisode := EpisodeGuess("", 0, 0)

  /** The single-episode patterns, in the order they are tried. */
  const EpisodePatterns: seq<Pattern> := [DashNumber, DashEpisode, SeasonEpisode, EpisodeMarker, BareNumber]

  /** `extract_number`: the last match of `find_iter`, with its capture parsed;
      ("", 0) when the pattern does not match. */
  function ExtractNumber(p: Pattern, s: string): (r: (string, nat))
    requires p.CapturesNumber()
    ensures r.1 > 0 ==> |r.0| > 0 && exists k: nat :: OccursAt(s, r.0, k)
    ensures FirstFrom(p, s, 0).None? ==> r == ("", 0)
    ensures FirstFrom(p, s, 0).Some? ==>
      exists k: nat :: LastMatch(p, s, k) && r == (MatchText(p, s, k), DigitsValue(CaptureText(p, s, k)))
  {
    match LastFrom(p, s, 0)
    case None => ("", 0)
    case Some(k) =>
      var t := MatchText(p, s, k);
      assert OccursAt(s, t, k);
      assert LastMatch(p, s, k);
      (t, DigitsValue(CaptureText(p, s, k)))
  }

  /** What each pattern of `ps` extracts, in order. */
  function Extracted(ps: seq<Pattern>, s: string): (rs: seq<(string, nat)>)
    requires forall p :: p in ps ==> p.CapturesNumber()
    ensures |rs| == |ps|
    ensures forall j :: 0 <= j < |ps| ==> rs[j] == ExtractNumber(ps[j], s)
  {
    seq(|ps|, j requires 0 <= j < |ps| => ExtractNumber(ps[j], s))
  }

  /** The first extracted number that is non-zero wins. */
  function FirstNonZeroIn(rs: seq<(string, nat)>): (r: EpisodeGuess)
    ensures r == NoEpisode
      || (r.length == 1 && r.episode > 0 && exists j :: 0 <= j < |rs| && rs[j] == (r.text, r.episode))
  {
    if rs == [] then NoEpisode
    else if rs[0].1 != 0 then EpisodeGuess(rs[0].0, rs[0].1, 1)
    else
      var r := FirstNonZeroIn(rs[1..]);
      assert r != NoEpisode ==> exists j :: 0 <= j < |rs| && rs[j] == (r.text, r.episode) by {
        if r != NoEpisode {
          var j :| 0 <= j < |rs[1..]| && rs[1..][j] == (r.text, r.episode);
          assert rs[j + 1] == (r.text, r.episode);
        }
      }
      r
  }

  /** The index of the first non-zero number, or `|rs|` when there is none. */
  function FirstHitIn(rs: seq<(string, nat)>): (k: nat)
    ensures k <= |rs|
  {
    if rs == [] then 0
    else if rs[0].1 != 0 then 0
    else 1 + FirstHitIn(rs[1..])
  }

  /** The winner is the first non-zero number, every earlier number is zero,
      and there is no winner exactly when every number is zero. */
  lemma {:induction false} FirstNonZeroInIsFirst(rs: seq<(string, nat)>)
    ensures forall j :: 0 <= j < FirstHitIn(rs) ==> rs[j].1 == 0
    ensures FirstNonZeroIn(rs) == NoEpisode <==> FirstHitIn(rs) == |rs|
    ensures FirstHitIn(rs) < |rs| ==>
      rs[FirstHitIn(rs)].1 != 0
      && FirstNonZeroIn(rs) == EpisodeGuess(rs[FirstHitIn(rs)].0, rs[FirstHitIn(rs)].1, 1)
  {
    if rs != [] && rs[0].1 == 0 {
      var rest := rs[1..];
      FirstNonZeroInIsFirst(rest);
      forall j | 0 < j < FirstHitIn(rs) ensures rs[j].1 == 0 {
        assert rs[j] == rest[j - 1];
      }
      if FirstHitIn(rs) < |rs| {
        assert rs[FirstHitIn(rs)] == rest[FirstHitIn(rest)];
      }
    }
  }

  /** The pattern loop of `identify_number`: the first pattern whose
      extracted number is non-zero wins. */
  function FirstNonZero(ps: seq<Pattern>, s: string): (r: EpisodeGuess)
    requires forall p :: p in ps ==> p.CapturesNumber()
    ensures r == NoEpisode || (r.length == 1 && r.episode > 0)
    ensures r.episode > 0 ==> |r.text| > 0 && exists k: nat :: OccursAt(s, r.text, k)
  {
    var rs := Extracted(ps, s);
    var r := FirstNonZeroIn(rs);
    assert r.episode > 0 ==> |r.text| > 0 && exists k: nat :: OccursAt(s, r.text, k) by {
      if r != NoEpisode {
        var j :| 0 <= j < |rs| && rs[j] == (r.text, r.episode);
        assert ExtractNumber(ps[j], s) == (r.text, r.episode);
      }
    }
    r
  }

  /** The index of the pattern that wins, or `|ps|` when none does. */
  function FirstHit(ps: seq<Pattern>, s: string): (k: nat)
    requires forall p :: p in ps ==> p.CapturesNumber()
    ensures k <= |ps|
  {
    FirstHitIn(Extracted(ps, s))
  }

  /** The guess comes from the first pattern whose number is non-zero, every
      earlier pattern gives zero, and the guess is empty exactly when every
      pattern gives zero. */
  lemma FirstNonZeroIsFirst(ps: seq<Pattern>, s: string)
    requires forall p :: p in ps ==> p.CapturesNumber()
    ensures forall j :: 0 <= j < FirstHit(ps, s) ==> ExtractNumber(ps[j], s).1 == 0
    ensures FirstNonZero(ps, s) == NoEpisode <==> FirstHit(ps, s) == |ps|
    ensures FirstHit(ps, s) < |ps| ==>
      var k := FirstHit(ps, s);
      ExtractNumber(ps[k], s).1 != 0
      && FirstNonZero(ps, s) == EpisodeGuess(ExtractNumber(ps[k], s).0, ExtractNumber(ps[k], s).1, 1)
  {
    FirstNonZeroInIsFirst(Extracted(ps, s));
  }

  /** `identify_number`: a range `X<a>&<b>` or `X<a>-<b>` (X not 's'/'S') gives
      episode a and length b - a + 1; otherwise the single-episode patterns
      are tried in order, each contributing its last match. */
  function IdentifyNumber(s: string): (r: EpisodeGuess)
    ensures FirstRange(s, 0).Some? ==>
      var m := FirstRange(s, 0).value;
      r.text == s[m.start..m.end]
      && r.episode == DigitsValue(s[m.firstLo..m.firstHi])
      && r.length == DigitsValue(s[m.secondLo..m.secondHi]) - r.episode + 1
    ensures FirstRange(s, 0).None? ==> r == FirstNonZero(EpisodePatterns, s)
    ensures r.episode > 0 ==> |r.text| > 0 && exists k: nat :: OccursAt(s, r.text, k)
  {
    match FirstRange(s, 0)
    case Some(m) =>
      var first := DigitsValue(s[m.firstLo..m.firstHi]);
      var second := DigitsValue(s[m.secondLo..m.secondHi]);
      assert OccursAt(s, s[m.start..m.end], m.start);
      EpisodeGuess(s[m.start..m.end], first, 1 + second - first)
    case None =>
      FirstNonZero(EpisodePatterns, s)
  }
}
