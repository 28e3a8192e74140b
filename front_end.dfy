/** The self-contained helpers of the front end (`main.js` and
    `anime_info_window.js`): the "episodes on disk" text, the choice of title
    language, the score clamp, the paging guard of the list view, the
    previous/next buttons of the information window and the torrent filter
    options. The date helpers are in `DateText`. */
module FrontEnd {
  import opened Wrappers
  import opened Strings
  import opened DateText

  // ---------------------------------------------------------------------
  // episodes_on_disk_string

  const EpisodesHeader: string := "\nEpisodes on disk: "

  /** Position `i` ends a run: the last position, or one whose successor is
      not the next episode. Position 0 never does, because the loop spends
      its first step opening the first run. */
  predicate ClosesRun(eps: seq<int>, i: int)
    requires 0 <= i < |eps|
  {
    i > 0 && (i + 1 == |eps| || eps[i] != eps[i + 1] - 1)
  }

  /** The runs, as (first, last) positions, of the scan resumed at `i` with a
      run open since `s`. */
  function RunsFrom(eps: seq<int>, s: nat, i: nat): (runs: seq<(nat, nat)>)
    requires s <= i <= |eps|
    ensures forall k :: 0 <= k < |runs| ==> s <= runs[k].0 <= runs[k].1 < |eps|
    decreases |eps| - i
  {
    if i == |eps| then []
    else if ClosesRun(eps, i) then [(s, i)] + RunsFrom(eps, i + 1, i + 1)
    else RunsFrom(eps, s, i + 1)
  }

  /** A run from episode `first` to episode `last` as text: "a" or "a-b". */
  function RunPiece(first: int, last: int): (t: string)
    ensures |t| > 0
  {
    if first == last then IntToString(first) else IntToString(first) + "-" + IntToString(last)
  }

  /** The run between positions `r.0` and `r.1` as text. */
  function RunText(eps: seq<int>, r: (nat, nat)): (t: string)
    requires r.0 <= r.1 < |eps|
    ensures |t| > 0
  {
    RunPiece(eps[r.0], eps[r.1])
  }

  /** The runs as text, separated by ", ". */
  function JoinRuns(eps: seq<int>, runs: seq<(nat, nat)>): (t: string)
    requires forall k :: 0 <= k < |runs| ==> runs[k].0 <= runs[k].1 < |eps|
    ensures |t| == 0 <==> runs == []
  {
    if runs == [] then ""
    else
      JoinRuns(eps, runs[..|runs| - 1]) + (if |runs| > 1 then ", " else "")
      + RunText(eps, runs[|runs| - 1])
  }

  /** What `episodes_on_disk_string` shows for a list of episodes. */
  function OnDiskText(eps: seq<int>): string
  {
    if |eps| == 0 then ""
    else if |eps| == 1 then EpisodesHeader + IntToString(eps[0])
    else EpisodesHeader + JoinRuns(eps, RunsFrom(eps, 0, 0))
  }

  /** The runs of a list of two or more episodes cover it: there is at
      least one, the first starts where the scan's open run started and the
      last ends at the last position. */
  lemma {:induction false} RunsCover(eps: seq<int>, s: nat, i: nat)
    requires |eps| >= 2 && s <= i < |eps|
    ensures |RunsFrom(eps, s, i)| > 0 && RunsFrom(eps, s, i)[0].0 == s
    ensures RunsFrom(eps, s, i)[|RunsFrom(eps, s, i)| - 1].1 == |eps| - 1
    decreases |eps| - i
  {
    if ClosesRun(eps, i) {
      if i + 1 < |eps| {
        RunsCover(eps, i + 1, i + 1);
      }
    } else {
      assert RunsFrom(eps, s, i) == RunsFrom(eps, s, i + 1);
      RunsCover(eps, s, i + 1);
    }
  }

  /** Each run ends at a position that closes a run and the next run starts
      right after it. */
  lemma {:induction false} RunsChain(eps: seq<int>, s: nat, i: nat)
    requires s <= i <= |eps|
    ensures forall k :: 0 <= k < |RunsFrom(eps, s, i)| ==> ClosesRun(eps, RunsFrom(eps, s, i)[k].1)
    ensures forall k :: 0 <= k < |RunsFrom(eps, s, i)| - 1 ==>
      RunsFrom(eps, s, i)[k + 1].0 == RunsFrom(eps, s, i)[k].1 + 1
    decreases |eps| - i
  {
    if i < |eps| {
      var runs := RunsFrom(eps, s, i);
      if ClosesRun(eps, i) {
        RunsChain(eps, i + 1, i + 1);
        var rest := RunsFrom(eps, i + 1, i + 1);
        assert runs == [(s, i)] + rest;
        if |rest| > 0 {
          RunsCover(eps, i + 1, i + 1);
        }
      } else {
        assert runs == RunsFrom(eps, s, i + 1);
        RunsChain(eps, s, i + 1);
      }
    }
  }

  /** No position inside a run, other than its last, closes a run. */
  lemma {:induction false} RunsInside(eps: seq<int>, s: nat, i: nat)
    requires s <= i <= |eps|
    requires forall j :: s <= j < i ==> !ClosesRun(eps, j)
    ensures forall k, j ::
      0 <= k < |RunsFrom(eps, s, i)| && RunsFrom(eps, s, i)[k].0 <= j < RunsFrom(eps, s, i)[k].1 ==> !ClosesRun(eps, j)
    decreases |eps| - i
  {
    if i < |eps| {
      var runs := RunsFrom(eps, s, i);
      if ClosesRun(eps, i) {
        RunsInside(eps, i + 1, i + 1);
        var rest := RunsFrom(eps, i + 1, i + 1);
        assert runs == [(s, i)] + rest;
        forall k, j | 0 <= k < |runs| && runs[k].0 <= j < runs[k].1 ensures !ClosesRun(eps, j) {
          if k > 0 {
            assert runs[k] == rest[k - 1];
            assert 0 <= k - 1 < |rest| && rest[k - 1].0 <= j < rest[k - 1].1;
            assert !ClosesRun(eps, j);
          } else {
            assert runs[k] == (s, i);
            assert s <= j < i;
            assert !ClosesRun(eps, j);
          }
        }
      } else {
        assert runs == RunsFrom(eps, s, i + 1);
        RunsInside(eps, s, i + 1);
      }
    }
  }

  /** Inside a run, past position 0, the episodes go up one at a time. */
  lemma RunsAreConsecutive(eps: seq<int>)
    requires |eps| >= 2
    ensures forall k, j ::
      0 <= k < |RunsFrom(eps, 0, 0)| && RunsFrom(eps, 0, 0)[k].0 <= j < RunsFrom(eps, 0, 0)[k].1 && j > 0 ==> eps[j + 1] == eps[j] + 1
  {
    RunsInside(eps, 0, 0);
    var runs := RunsFrom(eps, 0, 0);
    forall k, j | 0 <= k < |runs| && runs[k].0 <= j < runs[k].1 && j > 0 ensures eps[j + 1] == eps[j] + 1 {
      assert !ClosesRun(eps, j);
    }
  }

  /** Position 0 never closes a run: 1 and 3 are shown as the run "1-3". */
  lemma FirstPairAlwaysJoined()
    ensures OnDiskText([1, 3]) == EpisodesHeader + "1-3"
  {
    var eps := [1, 3];
    assert !ClosesRun(eps, 0) && ClosesRun(eps, 1);
    assert RunsFrom(eps, 0, 0) == [(0, 1)];
    assert RunText(eps, (0, 1)) == "1-3";
  }

  lemma JoinRunsStep(eps: seq<int>, done: seq<(nat, nat)>, r: (nat, nat))
    requires forall k :: 0 <= k < |done| ==> done[k].0 <= done[k].1 < |eps|
    requires r.0 <= r.1 < |eps|
    ensures JoinRuns(eps, done + [r])
            == JoinRuns(eps, done) + (if |JoinRuns(eps, done)| != 0 then ", " else "") + RunText(eps, r)
  {
    assert (done + [r])[..|done|] == done;
  }

  /** A position that does not close the open run leaves the runs still to
      come unchanged. */
  lemma KeepRunStep(eps: seq<int>, done: seq<(nat, nat)>, s: nat, i: nat)
    requires s <= i < |eps| && !ClosesRun(eps, i)
    requires done + RunsFrom(eps, s, i) == RunsFrom(eps, 0, 0)
    ensures done + RunsFrom(eps, s, i + 1) == RunsFrom(eps, 0, 0)
  {
    assert RunsFrom(eps, s, i) == RunsFrom(eps, s, i + 1);
  }

  /** Closing the run open since `s` at `i` moves it from the runs still to
      come to the runs done. */
  lemma CloseRunStep(eps: seq<int>, done: seq<(nat, nat)>, s: nat, i: nat)
    requires s <= i < |eps| && ClosesRun(eps, i)
    requires forall k :: 0 <= k < |done| ==> done[k].0 <= done[k].1 < |eps|
    requires done + RunsFrom(eps, s, i) == RunsFrom(eps, 0, 0)
    ensures forall k :: 0 <= k < |done + [(s, i)]| ==> (done + [(s, i)])[k].0 <= (done + [(s, i)])[k].1 < |eps|
    ensures (done + [(s, i)]) + RunsFrom(eps, i + 1, i + 1) == RunsFrom(eps, 0, 0)
    ensures JoinRuns(eps, done + [(s, i)])
            == JoinRuns(eps, done) + (if |JoinRuns(eps, done)| != 0 then ", " else "") + RunText(eps, (s, i))
  {
    assert RunsFrom(eps, s, i) == [(s, i)] + RunsFrom(eps, i + 1, i + 1);
    assert done + RunsFrom(eps, s, i) == (done + [(s, i)]) + RunsFrom(eps, i + 1, i + 1);
    JoinRunsStep(eps, done, (s, i));
  }

  /** The state of the scan of `episodes_on_disk_string` before position
      `i`: `start` holds the first episode of the run open since `s` (`-1`
      before the first step), the runs `done` are closed, the runs still to
      come are those resumed at `i`, and `body` is the text of `done`. */
  ghost predicate Scanned(eps: seq<int>, i: nat, s: nat, done: seq<(nat, nat)>, start: int, body: string)
  {
    s <= i <= |eps|
    && (i == 0 ==> start == -1)
    && (0 < i < |eps| ==> s < |eps| && start == eps[s])
    && (forall k :: 0 <= k < |done| ==> done[k].0 <= done[k].1 < |eps|)
    && done + RunsFrom(eps, s, i) == RunsFrom(eps, 0, 0)
    && body == JoinRuns(eps, done)
  }

  /** One step of the scan over episodes none of which is negative: position
      `i` closes the open run exactly when the source's tests set `end`, and
      the state after the step is the one the source's updates produce. */
  lemma ScanStep(eps: seq<int>, i: nat, s: nat, done: seq<(nat, nat)>, start: int, body: string)
    requires i < |eps| && forall k :: 0 <= k < |eps| ==> eps[k] >= 0
    requires Scanned(eps, i, s, done, start, body)
    ensures ClosesRun(eps, i) <==> start != -1 && (i + 1 == |eps| || eps[i] != eps[i + 1] - 1)
    ensures ClosesRun(eps, i) ==>
      Scanned(eps, i + 1, i + 1, done + [(s, i)], if i + 1 < |eps| then eps[i + 1] else -1,
              body + (if |body| != 0 then ", " else "") + RunPiece(start, eps[i]))
    ensures !ClosesRun(eps, i) ==>
      Scanned(eps, i + 1, s, done, if start == -1 then eps[i] else start, body)
  {
    if ClosesRun(eps, i) {
      CloseRunStep(eps, done, s, i);
      assert RunText(eps, (s, i)) == RunPiece(start, eps[i]);
    } else {
      KeepRunStep(eps, done, s, i);
    }
  }

  /** `episodes_on_disk_string`. `-1` marks "no run open" in the source, so
      the loop agrees with `OnDiskText` whenever no episode is negative. */
  method EpisodesOnDiskString(eps: seq<int>) returns (text: string)
    ensures |eps| <= 1 ==> text == OnDiskText(eps)
    ensures (forall k :: 0 <= k < |eps| ==> eps[k] >= 0) ==> text == OnDiskText(eps)
  {
    if |eps| == 0 {
      return "";
    } else if |eps| == 1 {
      return EpisodesHeader + IntToString(eps[0]);
    }
    var start := -1;
    var end := -1;
    var body := "";
    ghost var ok := forall k :: 0 <= k < |eps| ==> eps[k] >= 0;
    ghost var s: nat := 0;
    ghost var done: seq<(nat, nat)> := [];
    for i: nat := 0 to |eps|
      invariant ok ==> end == -1 && Scanned(eps, i, s, done, start, body)
    {
      if ok {
        ScanStep(eps, i, s, done, start, body);
      }
      if start == -1 {
        start := eps[i];
      } else if i + 1 == |eps| {
        end := eps[i];
      } else if eps[i] != eps[i + 1] - 1 {
        end := eps[i];
      }

      if end != -1 {
        if |body| != 0 {
          body := body + ", ";
        }
        body := body + RunPiece(start, end);
        if i + 1 < |eps| {
          start := eps[i + 1];
        } else {
          start := -1;
        }
        end := -1;
        if ok {
          done := done + [(s, i)];
          s := i + 1;
        }
      }
    }
    if ok {
      assert done == RunsFrom(eps, 0, 0);
    }
    text := EpisodesHeader + body;
  }

  // ---------------------------------------------------------------------
  // determine_title

  /** `determine_title`: the title in the preferred language when there is
      one, else romaji, else English, else native. */
  function DetermineTitle(language: string, romaji: Option<string>, english: Option<string>,
                          native: Option<string>): (title: Option<string>)
    ensures language == "romaji" && romaji.Some? ==> title == romaji
    ensures language == "english" && english.Some? ==> title == english
    ensures language == "native" && native.Some? ==> title == native
    ensures (!(language == "romaji" && romaji.Some?) && !(language == "english" && english.Some?)
             && !(language == "native" && native.Some?)) ==>
      title == (if romaji.Some? then romaji else if english.Some? then english else native)
  {
    var preferred :=
      if language == "romaji" && romaji.Some? then romaji
      else if language == "english" && english.Some? then english
      else if language == "native" && native.Some? then native
      else None;
    if preferred.None? then NullCheck(romaji, romaji, NullCheck(english, english, native))
    else preferred
  }

  /** A title is found exactly when one of the three exists, and it is one
      of them. */
  lemma DetermineTitleFound(language: string, romaji: Option<string>, english: Option<string>,
                            native: Option<string>)
    ensures var t := DetermineTitle(language, romaji, english, native);
      (t.Some? <==> romaji.Some? || english.Some? || native.Some?)
      && (t == romaji || t == english || t == native)
  {
  }

  // ---------------------------------------------------------------------
  // score clamp of update_user_entry

  /** The score clamp: POINT_100 and POINT_10_DECIMAL scores are made
      non-negative by negation and capped at 100 and 10; the other formats
      keep the score. */
  function ClampScore(format: string, score: real): (r: real)
    ensures format == "POINT_100" ==> 0.0 <= r <= 100.0
    ensures format == "POINT_10_DECIMAL" ==> 0.0 <= r <= 10.0
    ensures format != "POINT_100" && format != "POINT_10_DECIMAL" ==> r == score
  {
    var cap := if format == "POINT_100" then 100.0 else if format == "POINT_10_DECIMAL" then 10.0 else -1.0;
    if cap < 0.0 then score
    else
      var positive := if score < 0.0 then score * -1.0 else score;
      if positive > cap then cap else positive
  }

  /** A score already in range is kept, a negative one counts as its
      magnitude, and clamping twice is clamping once. */
  lemma ClampScoreSpec(format: string, score: real)
    ensures format == "POINT_100" && 0.0 <= score <= 100.0 ==> ClampScore(format, score) == score
    ensures format == "POINT_10_DECIMAL" && 0.0 <= score <= 10.0 ==> ClampScore(format, score) == score
    ensures score < 0.0 ==> ClampScore(format, score) == (if format == "POINT_100" || format == "POINT_10_DECIMAL"
                                                          then ClampScore(format, -score) else score)
    ensures ClampScore(format, ClampScore(format, score)) == ClampScore(format, score)
  {
  }

  // ---------------------------------------------------------------------
  // show_anime_list_paged

  /** Entries per page of the list view. */
  const PageSize := 50

  /** The paging globals `current_tab`, `current_page`, `expected_page` and
      `has_next_page` of the list view. */
  class Pager {
    var currentTab: string
    var currentPage: int
    var expectedPage: int
    var hasNextPage: bool

    constructor ()
      ensures currentTab == "" && currentPage == 0 && expectedPage == 0 && hasNextPage
    {
      currentTab := "";
      currentPage := 0;
      expectedPage := 0;
      hasNextPage := true;
    }

    /** A tab button (`show_watching_anime` and its siblings): nothing when
        the tab is already shown, else the tab is switched and paging starts
        over. */
    method ShowTab(tab: string) returns (switched: bool)
      modifies this
      ensures switched <==> old(currentTab) != tab
      ensures switched ==> currentTab == tab && currentPage == 0 && expectedPage == 0 && hasNextPage
      ensures !switched ==>
        (currentTab == old(currentTab) && currentPage == old(currentPage)
         && expectedPage == old(expectedPage) && hasNextPage == old(hasNextPage))
    {
      if currentTab == tab {
        return false;
      }
      currentTab := tab;
      expectedPage := 0;
      currentPage := 0;
      hasNextPage := true;
      switched := true;
    }

    /** A change of sort order on a list tab: paging starts over. */
    method Restart()
      modifies this
      ensures currentTab == old(currentTab) && currentPage == 0 && expectedPage == 0 && hasNextPage
    {
      expectedPage := 0;
      currentPage := 0;
      hasNextPage := true;
    }

    /** The guard of `show_anime_list_paged(page)`: the page is fetched only
        when more pages exist and it is the one expected next, and then the
        next page is expected. */
    method RequestPage(page: int) returns (accepted: bool)
      modifies this
      ensures accepted <==> old(hasNextPage) && page == old(expectedPage)
      ensures expectedPage == old(expectedPage) + (if accepted then 1 else 0)
      ensures currentTab == old(currentTab) && currentPage == old(currentPage)
        && hasNextPage == old(hasNextPage)
    {
      if !hasNextPage || page != expectedPage {
        return false;
      }
      expectedPage := expectedPage + 1;
      accepted := true;
    }

    /** The answer to a request made on tab `tab`, with `count` entries: it
        counts only if the tab has not changed meanwhile; a short page means
        there is no next page. */
    method ReceivePage(tab: string, count: nat)
      modifies this
      ensures tab == old(currentTab) ==>
        hasNextPage == (old(hasNextPage) && count >= PageSize) && currentPage == old(currentPage) + 1
      ensures tab != old(currentTab) ==> hasNextPage == old(hasNextPage) && currentPage == old(currentPage)
      ensures currentTab == old(currentTab) && expectedPage == old(expectedPage)
    {
      if tab == currentTab {
        if count < PageSize {
          hasNextPage := false;
        }
        currentPage := currentPage + 1;
      }
    }
  }

  // ---------------------------------------------------------------------
  // previous / next in the information window

  lemma ModSmall(a: int, b: int)
    requires 0 <= a < b
    ensures a % b == a
  {
  }

  lemma ModSelf(b: int)
    requires b > 0
    ensures b % b == 0
  {
  }

  /** JavaScript's `%`: the remainder takes the sign of the dividend. */
  function JsRem(a: int, b: int): (r: int)
    requires b > 0
    ensures a >= 0 ==> r == a % b
    ensures -b < r < b
    ensures -b < a < b ==> r == a
  {
    if 0 <= a < b then ModSmall(a, b); a
    else if -b < a < 0 then ModSmall(-a, b); a
    else if a >= 0 then a % b
    else -((-a) % b)
  }

  /** The neighbours of position `index` (`indexOf`, so -1 when the media is
      not on the list) in a list of `len` ids. */
  function Neighbours(index: int, len: nat): (r: (int, int))
    requires len > 0 && -1 <= index < len
    ensures 0 <= index ==> 0 <= r.0 < len && 0 <= r.1 < len
    ensures 0 <= index ==> r.0 == (if index == 0 then len - 1 else index - 1)
    ensures 0 <= index ==> r.1 == (if index == len - 1 then 0 else index + 1)
  {
    var previous := if index == 0 then len - 1 else JsRem(index - 1, len);
    if index + 1 == len then ModSelf(len); (previous, JsRem(index + 1, len))
    else (previous, JsRem(index + 1, len))
  }

  /** Next undoes previous and previous undoes next. */
  lemma NeighboursInverse(index: int, len: nat)
    requires len > 0 && 0 <= index < len
    ensures Neighbours(Neighbours(index, len).0, len).1 == index
    ensures Neighbours(Neighbours(index, len).1, len).0 == index
  {
  }

  /** A media missing from the list gets the first id as next, and for three
      or more ids a negative position as previous. */
  lemma NeighboursOfMissing(len: nat)
    requires len > 0
    ensures Neighbours(-1, len).1 == 0
    ensures len > 2 ==> Neighbours(-1, len).0 == -2
  {
  }

  // ---------------------------------------------------------------------
  // add_torrent_data

  ghost predicate TotalPreorder<T(!new)>(le: (T, T) -> bool)
  {
    (forall a, b :: le(a, b) || le(b, a))
    && (forall a, b, c :: le(a, b) && le(b, c) ==> le(a, c))
  }

  predicate SortedBy<T>(s: seq<T>, le: (T, T) -> bool)
  {
    forall i, j :: 0 <= i < j < |s| ==> le(s[i], s[j])
  }

  predicate Distinct<T(==)>(s: seq<T>)
  {
    forall i, j :: 0 <= i < j < |s| ==> s[i] != s[j]
  }

  function Insert<T(!new)>(x: T, s: seq<T>, le: (T, T) -> bool): (r: seq<T>)
    ensures multiset(r) == multiset(s) + multiset{x}
    ensures forall y :: y in r <==> y == x || y in s
  {
    if s == [] then [x]
    else if le(x, s[0]) then [x] + s
    else
      assert s == [s[0]] + s[1..];
      [s[0]] + Insert(x, s[1..], le)
  }

  lemma {:induction false} InsertSorted<T(!new)>(x: T, s: seq<T>, le: (T, T) -> bool)
    requires TotalPreorder(le) && SortedBy(s, le)
    ensures SortedBy(Insert(x, s, le), le)
    decreases |s|
  {
    if s != [] && !le(x, s[0]) {
      var rest := Insert(x, s[1..], le);
      InsertSorted(x, s[1..], le);
      assert le(s[0], x);
      assert forall y :: y in s[1..] ==> le(s[0], y);
      assert Insert(x, s, le) == [s[0]] + rest;
    }
  }

  /** `Array.prototype.sort` with the order `le`: a sorted permutation. */
  function SortBy<T(!new)>(s: seq<T>, le: (T, T) -> bool): (r: seq<T>)
    requires TotalPreorder(le)
    ensures multiset(r) == multiset(s)
    ensures SortedBy(r, le)
  {
    if s == [] then [] else
      assert s == s[..|s| - 1] + [s[|s| - 1]];
      var sorted := SortBy(s[..|s| - 1], le);
      InsertSorted(s[|s| - 1], sorted, le);
      Insert(s[|s| - 1], sorted, le)
  }

  lemma DistinctByMultiset<T>(s: seq<T>, t: seq<T>)
    requires multiset(s) == multiset(t) && Distinct(s)
    ensures Distinct(t)
  {
    forall x ensures multiset(t)[x] <= 1 { CountAtMostOne(s, x); }
    CountsDistinct(t);
  }

  lemma {:induction false} CountAtMostOne<T>(s: seq<T>, x: T)
    requires Distinct(s)
    ensures multiset(s)[x] <= 1
    decreases |s|
  {
    if s != [] {
      var init := s[..|s| - 1];
      assert s == init + [s[|s| - 1]];
      assert Distinct(init);
      CountAtMostOne(init, x);
      if s[|s| - 1] == x {
        assert x !in init;
      }
    }
  }

  lemma {:induction false} CountsDistinct<T>(t: seq<T>)
    requires forall x :: multiset(t)[x] <= 1
    ensures Distinct(t)
    decreases |t|
  {
    if t != [] {
      var init, last := t[..|t| - 1], t[|t| - 1];
      assert t == init + [last];
      assert multiset(t) == multiset(init) + multiset{last};
      forall x ensures multiset(init)[x] <= 1 {
        assert multiset(init)[x] <= multiset(t)[x];
      }
      CountsDistinct(init);
      assert multiset(t)[last] == multiset(init)[last] + 1;
      assert last !in init;
      forall i, j | 0 <= i < j < |t| ensures t[i] != t[j] {
        if j < |t| - 1 {
          assert t[i] == init[i] && t[j] == init[j];
        } else {
          assert t[i] == init[i] && init[i] in init;
        }
      }
    }
  }

  function StringOrder(): (le: (string, string) -> bool)
    ensures TotalPreorder(le)
    ensures forall a, b :: le(a, b) == LessEq(a, b)
  {
    forall a, b ensures LessEq(a, b) || LessEq(b, a) { LessEqTotal(a, b); }
    forall a, b, c | LessEq(a, b) && LessEq(b, c) ensures LessEq(a, c) { LessEqTransitive(a, b, c); }
    (a, b) => LessEq(a, b)
  }

  function Descending(): (le: (int, int) -> bool)
    ensures TotalPreorder(le)
    ensures forall a, b :: le(a, b) == (a >= b)
  {
    (a, b) => a >= b
  }

  /** `add_torrent_data`: the sub-group and resolution filter options of the
      torrents (each a (sub-group, resolution) pair), without repeats, the
      sub-groups in ascending text order and the resolutions from highest to
      lowest. */
  method TorrentFilterOptions(torrents: seq<(string, int)>) returns (subGroups: seq<string>, resolutions: seq<int>)
    ensures forall g :: g in subGroups <==> exists t :: t in torrents && t.0 == g
    ensures forall r :: r in resolutions <==> exists t :: t in torrents && t.1 == r
    ensures Distinct(subGroups) && Distinct(resolutions)
    ensures forall i, j :: 0 <= i < j < |subGroups| ==> LessEq(subGroups[i], subGroups[j])
    ensures forall i, j :: 0 <= i < j < |resolutions| ==> resolutions[i] > resolutions[j]
  {
    var groups: seq<string> := [];
    var res: seq<int> := [];
    for i := 0 to |torrents|
      invariant forall g :: g in groups <==> exists k :: 0 <= k < i && torrents[k].0 == g
      invariant forall r :: r in res <==> exists k :: 0 <= k < i && torrents[k].1 == r
      invariant Distinct(groups) && Distinct(res)
    {
      if torrents[i].0 !in groups {
        groups := groups + [torrents[i].0];
      }
      if torrents[i].1 !in res {
        res := res + [torrents[i].1];
      }
    }
    subGroups := SortBy(groups, StringOrder());
    resolutions := SortBy(res, Descending());
    DistinctByMultiset(groups, subGroups);
    DistinctByMultiset(res, resolutions);
    assert forall g :: g in subGroups <==> g in groups by {
      forall g ensures g in subGroups <==> g in groups {
        assert g in subGroups <==> g in multiset(subGroups);
      }
    }
    assert forall r :: r in resolutions <==> r in res by {
      forall r ensures r in resolutions <==> r in res {
        assert r in resolutions <==> r in multiset(resolutions);
      }
    }
    forall g ensures g in subGroups <==> exists t :: t in torrents && t.0 == g {
      if g in subGroups {
        var k :| 0 <= k < |torrents| && torrents[k].0 == g;
        assert torrents[k] in torrents;
      } else {
        forall t | t in torrents ensures t.0 != g {
          var k :| 0 <= k < |torrents| && torrents[k] == t;
        }
      }
    }
    forall r ensures r in resolutions <==> exists t :: t in torrents && t.1 == r {
      if r in resolutions {
        var k :| 0 <= k < |torrents| && torrents[k].1 == r;
        assert torrents[k] in torrents;
      } else {
        forall t | t in torrents ensures t.1 != r {
          var k :| 0 <= k < |torrents| && torrents[k] == t;
        }
      }
    }
  }
}
