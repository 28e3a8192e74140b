/** The fixed regular expressions of `anime_data.rs`, each written out as a
    matcher that answers what the `regex` crate's leftmost-first search finds
    at one position: the length of the match and the span of its first
    capture group. `\d` is read as an ASCII digit. */
module Patterns {
  import opened Wrappers
  import opened Strings

  datatype Hit = Miss | Hit(len: nat, capLo: nat, capHi: nat)

  datatype Pattern =
    | Checksum        // \[[0-9A-Fa-f]{6,8}\]|\([0-9A-Fa-f]{6,8}\)
    | Resolution      // (\d{3,4})[pP]
    | ResolutionWxH   // \d{3,4} ?[xX] ?(\d{3,4})
    | Version         // [vV][1-9][^9]
    | EmptyBrackets   // (\[[ ,\-]*\])|(\([ ,\-]*\))
    | SubGroup        // ^\[([^\]]+)\] ?
    | SubGroupBackup  // -([^\-]+)$
    | TrailingJunk    // [ \-\.]+$
    | DashNumber      // " - (\d+)"
    | DashEpisode     // " - Episode (\d+)"
    | SeasonEpisode   // [sS]\d+[eE][pP]? ?(\d+)
    | EpisodeMarker   // [eE][pP]? ?(\d+)
    | BareNumber      // [^vsVS](\d+)
  {
    /** The patterns whose capture group is the episode number. */
    predicate CapturesNumber() {
      Resolution? || ResolutionWxH? || DashNumber? || DashEpisode?
      || SeasonEpisode? || EpisodeMarker? || BareNumber?
    }
  }

  predicate IsHex(c: char) { IsDigit(c) || 'a' <= c <= 'f' || 'A' <= c <= 'F' }

  /** Length of the longest run of characters satisfying `p` from position `j`. */
  function Run(s: string, j: nat, p: char -> bool): (r: nat)
    ensures j <= |s| ==> j + r <= |s|
    ensures j > |s| ==> r == 0
    ensures forall k :: j <= k < j + r ==> p(s[k])
    ensures j + r < |s| ==> !p(s[j + r])
    decreases |s| - j
  {
    if j < |s| && p(s[j]) then 1 + Run(s, j + 1, p) else 0
  }

  predicate ValidHit(h: Hit, s: string, i: nat)
  {
    h.Hit? ==> 0 < h.len && i + h.len <= |s| && h.capLo <= h.capHi <= h.len
  }

  /** `(\d{3,4})` as a tail: four digits if there are four, else three. */
  function Height(s: string, k: nat): (r: nat)
    ensures r == 0 || r == 3 || r == 4
    ensures r > 0 ==> k + r <= |s| && forall j :: k <= j < k + r ==> IsDigit(s[j])
  {
    var d := DigitRun(s, k);
    if d >= 4 then 4 else if d >= 3 then 3 else 0
  }

  /** ` ?(\d{3,4})` from position `k`: the absolute span of the capture. */
  function AfterX(s: string, k: nat): (r: Option<(nat, nat)>)
    ensures r.Some? ==> k <= r.value.0 < r.value.1 <= |s|
    ensures r.Some? ==> forall j :: r.value.0 <= j < r.value.1 ==> IsDigit(s[j])
  {
    if k < |s| && s[k] == ' ' && Height(s, k + 1) > 0 then Some((k + 1, k + 1 + Height(s, k + 1)))
    else if Height(s, k) > 0 then Some((k, k + Height(s, k)))
    else None
  }

  /** ` ?[xX] ?(\d{3,4})` from position `j`. */
  function FromX(s: string, j: nat): (r: Option<(nat, nat)>)
    ensures r.Some? ==> j < r.value.0 < r.value.1 <= |s|
    ensures r.Some? ==> forall k :: r.value.0 <= k < r.value.1 ==> IsDigit(s[k])
  {
    if j + 1 < |s| && s[j] == ' ' && s[j + 1] in "xX" && AfterX(s, j + 2).Some? then AfterX(s, j + 2)
    else if j < |s| && s[j] in "xX" then AfterX(s, j + 1)
    else None
  }

  /** `[pP]? ?(\d+)` from position `k`. */
  function OptPDigits(s: string, k: nat): (r: Option<(nat, nat)>)
    ensures r.Some? ==> k <= r.value.0 < r.value.1 <= |s|
    ensures r.Some? ==> forall j :: r.value.0 <= j < r.value.1 ==> IsDigit(s[j])
  {
    var k' := if k < |s| && s[k] in "pP" then k + 1 else k;
    if k' < |s| && s[k'] == ' ' && DigitRun(s, k' + 1) > 0 then Some((k' + 1, k' + 1 + DigitRun(s, k' + 1)))
    else if DigitRun(s, k') > 0 then Some((k', k' + DigitRun(s, k')))
    else None
  }

  function HitFromSpan(i: nat, span: Option<(nat, nat)>): Hit
  {
    match span
    case None => Miss
    case Some((lo, hi)) => if i <= lo <= hi && i < hi then Hit(hi - i, lo - i, hi - i) else Miss
  }

  predicate DigitCapture(h: Hit, s: string, i: nat)
    requires ValidHit(h, s, i)
  {
    h.Hit? ==> h.capLo < h.capHi && forall k :: i + h.capLo <= k < i + h.capHi ==> IsDigit(s[k])
  }

  function ChecksumAt(s: string, i: nat): (h: Hit)
    requires i < |s|
    ensures ValidHit(h, s, i)
  {
    var close := if s[i] == '[' then ']' else ')';
    var n := Run(s, i + 1, IsHex);
    if (s[i] == '[' || s[i] == '(') && 6 <= n <= 8 && i + 1 + n < |s| && s[i + 1 + n] == close
    then Hit(n + 2, 0, 0) else Miss
  }

  function ResolutionAt(s: string, i: nat): (h: Hit)
    requires i < |s|
    ensures ValidHit(h, s, i) && DigitCapture(h, s, i)
  {
    var d := DigitRun(s, i);
    if d >= 4 && i + 4 < |s| && s[i + 4] in "pP" then Hit(5, 0, 4)
    else if d >= 3 && i + 3 < |s| && s[i + 3] in "pP" then Hit(4, 0, 3)
    else Miss
  }

  function ResolutionWxHAt(s: string, i: nat): (h: Hit)
    requires i < |s|
    ensures ValidHit(h, s, i) && DigitCapture(h, s, i)
  {
    var d := DigitRun(s, i);
    if d >= 4 && FromX(s, i + 4).Some? then HitFromSpan(i, FromX(s, i + 4))
    else if d >= 3 then HitFromSpan(i, FromX(s, i + 3))
    else Miss
  }

  function VersionAt(s: string, i: nat): (h: Hit)
    requires i < |s|
    ensures ValidHit(h, s, i)
  {
    if i + 2 < |s| && s[i] in "vV" && '1' <= s[i + 1] <= '9' && s[i + 2] != '9'
    then Hit(3, 0, 0) else Miss
  }

  function EmptyBracketsAt(s: string, i: nat): (h: Hit)
    requires i < |s|
    ensures ValidHit(h, s, i)
  {
    var close := if s[i] == '[' then ']' else ')';
    var n := Run(s, i + 1, c => c in " ,-");
    if (s[i] == '[' || s[i] == '(') && i + 1 + n < |s| && s[i + 1 + n] == close
    then Hit(n + 2, 0, 0) else Miss
  }

  function SubGroupAt(s: string, i: nat): (h: Hit)
    requires i < |s|
    ensures ValidHit(h, s, i)
    ensures h.Hit? ==> i == 0 && h.capLo == 1 && h.capHi > 1
  {
    var n := Run(s, 1, c => c != ']');
    if i == 0 && s[0] == '[' && n > 0 && 1 + n < |s|
    then Hit(n + 2 + (if n + 2 < |s| && s[n + 2] == ' ' then 1 else 0), 1, 1 + n)
    else Miss
  }

  function SubGroupBackupAt(s: string, i: nat): (h: Hit)
    requires i < |s|
    ensures ValidHit(h, s, i)
    ensures h.Hit? ==> i + h.len == |s|
  {
    if s[i] == '-' && i + 1 < |s| && Run(s, i + 1, c => c != '-') == |s| - i - 1
    then Hit(|s| - i, 1, |s| - i) else Miss
  }

  function TrailingJunkAt(s: string, i: nat): (h: Hit)
    requires i < |s|
    ensures ValidHit(h, s, i)
    ensures h.Hit? ==> i + h.len == |s| && forall k :: i <= k < |s| ==> s[k] in " -."
  {
    if Run(s, i, c => c in " -.") == |s| - i then Hit(|s| - i, 0, 0) else Miss
  }

  function DashNumberAt(s: string, i: nat): (h: Hit)
    requires i < |s|
    ensures ValidHit(h, s, i) && DigitCapture(h, s, i)
  {
    var d := DigitRun(s, i + 3);
    if i + 3 <= |s| && s[i..i + 3] == " - " && d > 0 then Hit(3 + d, 3, 3 + d) else Miss
  }

  function DashEpisodeAt(s: string, i: nat): (h: Hit)
    requires i < |s|
    ensures ValidHit(h, s, i) && DigitCapture(h, s, i)
  {
    var d := DigitRun(s, i + 11);
    if i + 11 <= |s| && s[i..i + 11] == " - Episode " && d > 0 then Hit(11 + d, 11, 11 + d) else Miss
  }

  function SeasonEpisodeAt(s: string, i: nat): (h: Hit)
    requires i < |s|
    ensures ValidHit(h, s, i) && DigitCapture(h, s, i)
  {
    var a := DigitRun(s, i + 1);
    var j := i + 1 + a;
    if s[i] in "sS" && a > 0 && j < |s| && s[j] in "eE" then HitFromSpan(i, OptPDigits(s, j + 1))
    else Miss
  }

  function EpisodeMarkerAt(s: string, i: nat): (h: Hit)
    requires i < |s|
    ensures ValidHit(h, s, i) && DigitCapture(h, s, i)
  {
    if s[i] in "eE" then HitFromSpan(i, OptPDigits(s, i + 1)) else Miss
  }

  function BareNumberAt(s: string, i: nat): (h: Hit)
    requires i < |s|
    ensures ValidHit(h, s, i) && DigitCapture(h, s, i)
  {
    var d := DigitRun(s, i + 1);
    if s[i] !in "vsVS" && d > 0 then Hit(1 + d, 1, 1 + d) else Miss
  }

  /** What the pattern matches when the search tries position `i`. */
  function MatchAt(p: Pattern, s: string, i: nat): (h: Hit)
    ensures i >= |s| ==> h == Miss
    ensures ValidHit(h, s, i)
    ensures p.CapturesNumber() ==> DigitCapture(h, s, i)
  {
    if i >= |s| then Miss
    else match p
      case Checksum => ChecksumAt(s, i)
      case Resolution => ResolutionAt(s, i)
      case ResolutionWxH => ResolutionWxHAt(s, i)
      case Version => VersionAt(s, i)
      case EmptyBrackets => EmptyBracketsAt(s, i)
      case SubGroup => SubGroupAt(s, i)
      case SubGroupBackup => SubGroupBackupAt(s, i)
      case TrailingJunk => TrailingJunkAt(s, i)
      case DashNumber => DashNumberAt(s, i)
      case DashEpisode => DashEpisodeAt(s, i)
      case SeasonEpisode => SeasonEpisodeAt(s, i)
      case EpisodeMarker => EpisodeMarkerAt(s, i)
      case BareNumber => BareNumberAt(s, i)
  }

  /** Leftmost position at or after `i` where the pattern matches. */
  function FirstFrom(p: Pattern, s: string, i: nat): (r: Option<nat>)
    ensures r.Some? ==> i <= r.value < |s| && MatchAt(p, s, r.value).Hit?
    ensures r.Some? ==> forall k :: i <= k < r.value ==> MatchAt(p, s, k).Miss?
    ensures r.None? ==> forall k :: i <= k ==> MatchAt(p, s, k).Miss?
    decreases |s| - i
  {
    if i >= |s| then None
    else
      var h := MatchAt(p, s, i);
      if h.Hit? then Some(i) else FirstFrom(p, s, i + 1)
  }

  /** Start of the last match of `find_iter` (non-overlapping, left to right)
      from position `i`. */
  function LastFrom(p: Pattern, s: string, i: nat): (r: Option<nat>)
    ensures r.Some? ==> i <= r.value < |s| && MatchAt(p, s, r.value).Hit?
    ensures r.Some? ==> FirstFrom(p, s, r.value + MatchAt(p, s, r.value).len).None?
    ensures r.None? <==> FirstFrom(p, s, i).None?
    decreases |s| - i
  {
    if i >= |s| then None
    else
      var h := MatchAt(p, s, i);
      if h.Hit? then
        var rest := LastFrom(p, s, i + h.len);
        if rest.Some? then rest else Some(i)
      else LastFrom(p, s, i + 1)
  }

  /** A match at `k` after whose end no further match starts: the last
      match of `find_iter`. */
  predicate LastMatch(p: Pattern, s: string, k: nat)
  {
    MatchAt(p, s, k).Hit? && FirstFrom(p, s, k + MatchAt(p, s, k).len).None?
  }

  /** `is_match`. */
  predicate Matches(p: Pattern, s: string)
  {
    FirstFrom(p, s, 0).Some?
  }

  /** The text of the match at `k`. */
  function MatchText(p: Pattern, s: string, k: nat): string
    requires MatchAt(p, s, k).Hit?
  {
    s[k..k + MatchAt(p, s, k).len]
  }

  /** The text of the first capture group of the match at `k`. */
  function CaptureText(p: Pattern, s: string, k: nat): (c: string)
    requires MatchAt(p, s, k).Hit?
    ensures p.CapturesNumber() ==> |c| > 0 && AllDigits(c)
  {
    var h := MatchAt(p, s, k);
    s[k + h.capLo..k + h.capHi]
  }

  /** The match at each position of `s`. */
  function HitsOf(p: Pattern, s: string): (hs: seq<Hit>)
    ensures |hs| == |s|
    ensures forall j :: 0 <= j < |s| ==> hs[j] == MatchAt(p, s, j)
  {
    seq(|s|, j requires 0 <= j < |s| => MatchAt(p, s, j))
  }

  /** Every hit of `hs` is non-empty and ends within the text. */
  predicate ValidHits(hs: seq<Hit>)
  {
    forall j :: 0 <= j < |hs| && hs[j].Hit? ==> 0 < hs[j].len && j + hs[j].len <= |hs|
  }

  /** The text from `i` on with the matches given by `hs` cut out, found left
      to right without overlap. */
  function Cut(hs: seq<Hit>, s: string, i: nat): (r: string)
    requires |hs| == |s| && ValidHits(hs)
    ensures forall c :: c in r ==> c in s
    ensures |r| <= |s| - i || i > |s|
    decreases |s| - i
  {
    if i >= |s| then []
    else if hs[i].Hit? then Cut(hs, s, i + hs[i].len)
    else [s[i]] + Cut(hs, s, i + 1)
  }

  /** `replace_all(s, "")` from position `i`: every match, found left to right
      without overlap, removed. */
  function RemoveFrom(p: Pattern, s: string, i: nat): (r: string)
    ensures forall c :: c in r ==> c in s
    ensures |r| <= |s| - i || i > |s|
  {
    var hs := HitsOf(p, s);
    assert ValidHits(hs) by {
      forall j | 0 <= j < |hs| && hs[j].Hit? ensures 0 < hs[j].len && j + hs[j].len <= |hs| {
        assert hs[j] == MatchAt(p, s, j);
      }
    }
    Cut(hs, s, i)
  }

  function RemoveAll(p: Pattern, s: string): (r: string)
    ensures forall c :: c in r ==> c in s
    ensures |r| <= |s|
  {
    RemoveFrom(p, s, 0)
  }

  /** With no hit from `i` on, the cut keeps the rest of the text. */
  lemma {:induction false} CutNoHit(hs: seq<Hit>, s: string, i: nat)
    requires |hs| == |s| && ValidHits(hs) && i <= |s|
    requires forall j :: i <= j < |s| ==> hs[j].Miss?
    ensures Cut(hs, s, i) == s[i..]
    decreases |s| - i
  {
    if i < |s| {
      CutNoHit(hs, s, i + 1);
      assert s[i..] == [s[i]] + s[i + 1..];
    }
  }

  /** When the first hit from `i` is at `k` and runs to the end of the text,
      the cut keeps exactly the text before it. */
  lemma {:induction false} CutUpTo(hs: seq<Hit>, s: string, i: nat, k: nat)
    requires |hs| == |s| && ValidHits(hs) && i <= k < |s|
    requires forall j :: i <= j < k ==> hs[j].Miss?
    requires hs[k].Hit? && k + hs[k].len == |s|
    ensures Cut(hs, s, i) == s[i..k]
    decreases k - i
  {
    if i < k {
      CutUpTo(hs, s, i + 1, k);
      assert s[i..k] == [s[i]] + s[i + 1..k];
    } else {
      assert Cut(hs, s, k) == Cut(hs, s, |s|);
    }
  }

  /** A string with no match is left alone by `replace_all`. */
  lemma RemoveFromNoMatch(p: Pattern, s: string, i: nat)
    requires i <= |s|
    requires forall k :: i <= k ==> MatchAt(p, s, k).Miss?
    ensures RemoveFrom(p, s, i) == s[i..]
  {
    CutNoHit(HitsOf(p, s), s, i);
  }

  /** When the first match from `i` is at `k` and runs to the end of the
      string, `replace_all` keeps exactly the text before it. */
  lemma RemoveFromUpTo(p: Pattern, s: string, i: nat, k: nat)
    requires i <= k < |s|
    requires forall j :: i <= j < k ==> MatchAt(p, s, j).Miss?
    requires MatchAt(p, s, k).Hit? && k + MatchAt(p, s, k).len == |s|
    ensures RemoveFrom(p, s, i) == s[i..k]
  {
    CutUpTo(HitsOf(p, s), s, i, k);
  }

  /** `EXTENSION_CHECK` = `(.mkv)|(.mp4)|(.avi) ?$` at position `i`, where `.`
      is any character but a line feed. */
  predicate ExtensionAt(s: string, i: nat)
  {
    i + 4 <= |s| && s[i] != '\n'
    && (s[i + 1..i + 4] == "mkv" || s[i + 1..i + 4] == "mp4"
        || (s[i + 1..i + 4] == "avi" && (i + 4 == |s| || (i + 5 == |s| && s[i + 4] == ' '))))
  }

  predicate ExtensionMatches(s: string)
  {
    exists i :: 0 <= i < |s| && ExtensionAt(s, i)
  }
}
