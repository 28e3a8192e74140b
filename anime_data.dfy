/** `AnimeData` of `anime_data.rs`: the catalogue of known anime (`data`)
    and the table of episode files found on disk (`anime_path`), with the
    filename matcher, the sequel remapping, the scan insertion, the pruning
    of missing files, the episode listing and the recommendation filter. */
module AnimeLibrary {
  import opened Wrappers
  import opened Strings
  import opened Patterns
  import opened EpisodeNumber
  import opened Titles
  import opened Catalog
  import opened Identify

  /** The `(score, media_id, title)` triple the title search updates. */
  datatype Best = Best(score: real, id: int, title: string)

  const NoMatch := Best(0.0, 0, "")

  /** Whether `title_compare` compares variant `v` with file title `f`: with
      the first-letter filter on, only a variant whose first character is the
      file title's own first character. */
  predicate Considered(v: string, f: string, skip: bool)
  {
    !skip || (|v| > 0 && |f| > 0 && v[0] == f[0])
  }

  /** The first-letter filter reads the first character of every variant. */
  predicate NonEmptyVariants(a: AnimeInfo)
  {
    forall v :: v in Variants(a) ==> |v| > 0
  }

  /** The entries a search looks at: all of them in `order` (the map's
      iteration order), or only `only_compare` when it names a known entry. */
  function Candidates(data: map<int, AnimeInfo>, order: seq<int>, onlyCompare: Option<int>): (c: seq<int>)
    ensures (forall k :: k in order ==> k in data) ==> forall k :: k in c ==> k in data
    ensures onlyCompare.Some? ==> c == (if onlyCompare.value in data then [onlyCompare.value] else [])
  {
    if onlyCompare.None? then order
    else if onlyCompare.value in data then [onlyCompare.value]
    else []
  }

  /** Every variant of `a` that the pass compares scores at most `score`. */
  predicate EntryDominated(a: AnimeInfo, f: string, skip: bool, sim: (string, string) -> real, score: real)
  {
    forall v :: v in Variants(a) && Considered(v, f, skip) ==> sim(Normalize(f), v) <= score
  }

  /** The state records a comparison of `f` with a variant of `a`. */
  predicate EntryAchieved(a: AnimeInfo, f: string, sim: (string, string) -> real, b: Best)
  {
    b.id == a.id && b.title in Variants(a) && b.score == sim(Normalize(f), b.title)
  }

  /** Every known candidate of `ids` is dominated by `score`. */
  predicate Dominated(data: map<int, AnimeInfo>, ids: seq<int>, f: string, skip: bool,
                      sim: (string, string) -> real, score: real)
    decreases |ids|
  {
    ids == []
    || (Dominated(data, ids[..|ids| - 1], f, skip, sim, score)
        && (ids[|ids| - 1] in data ==> EntryDominated(data[ids[|ids| - 1]], f, skip, sim, score)))
  }

  /** The state was achieved on some known candidate of `ids`. */
  predicate Achieved(data: map<int, AnimeInfo>, ids: seq<int>, f: string,
                     sim: (string, string) -> real, b: Best)
    decreases |ids|
  {
    ids != []
    && (Achieved(data, ids[..|ids| - 1], f, sim, b)
        || (ids[|ids| - 1] in data && EntryAchieved(data[ids[|ids| - 1]], f, sim, b)))
  }

  /** `Dominated` says that no compared variant of any known candidate scores
      above `score`. */
  lemma {:induction false} DominatedMeans(data: map<int, AnimeInfo>, ids: seq<int>, f: string, skip: bool,
                                          sim: (string, string) -> real, score: real)
    ensures Dominated(data, ids, f, skip, sim, score) <==>
      forall k :: k in ids && k in data ==> EntryDominated(data[k], f, skip, sim, score)
    decreases |ids|
  {
    if ids != [] {
      var init := ids[..|ids| - 1];
      var last := ids[|ids| - 1];
      DominatedMeans(data, init, f, skip, sim, score);
      assert ids == init + [last];
      if Dominated(data, ids, f, skip, sim, score) {
        forall k | k in ids && k in data ensures EntryDominated(data[k], f, skip, sim, score) {
          if k != last { assert k in init; }
        }
      }
      if forall k :: k in ids && k in data ==> EntryDominated(data[k], f, skip, sim, score) {
        assert forall k :: k in init ==> k in ids;
        assert last in ids;
      }
    }
  }

  /** `Achieved` says that some known candidate produced the state. */
  lemma AchievedMeans(data: map<int, AnimeInfo>, ids: seq<int>, f: string,
                      sim: (string, string) -> real, b: Best)
    ensures Achieved(data, ids, f, sim, b) <==>
      exists k :: k in ids && k in data && EntryAchieved(data[k], f, sim, b)
  {
    if Achieved(data, ids, f, sim, b) {
      AchievedWitness(data, ids, f, sim, b);
    }
    forall k | k in ids && k in data && EntryAchieved(data[k], f, sim, b)
      ensures Achieved(data, ids, f, sim, b)
    {
      AchievedBy(data, ids, k, f, sim, b);
    }
  }

  lemma {:induction false} AchievedWitness(data: map<int, AnimeInfo>, ids: seq<int>, f: string,
                                           sim: (string, string) -> real, b: Best)
    requires Achieved(data, ids, f, sim, b)
    ensures exists k :: k in ids && k in data && EntryAchieved(data[k], f, sim, b)
    decreases |ids|
  {
    var init := ids[..|ids| - 1];
    var last := ids[|ids| - 1];
    assert last in ids;
    if Achieved(data, init, f, sim, b) {
      AchievedWitness(data, init, f, sim, b);
      var k :| k in init && k in data && EntryAchieved(data[k], f, sim, b);
      var i :| 0 <= i < |init| && init[i] == k;
      assert ids[i] == k;
    } else {
      assert last in data && EntryAchieved(data[last], f, sim, b);
    }
  }

  lemma {:induction false} AchievedBy(data: map<int, AnimeInfo>, ids: seq<int>, k: int, f: string,
                                      sim: (string, string) -> real, b: Best)
    requires k in ids && k in data && EntryAchieved(data[k], f, sim, b)
    ensures Achieved(data, ids, f, sim, b)
    decreases |ids|
  {
    var init := ids[..|ids| - 1];
    if k != ids[|ids| - 1] {
      var i :| 0 <= i < |ids| && ids[i] == k;
      assert init[i] == k;
      AchievedBy(data, init, k, f, sim, b);
    }
  }

  /** A state some candidate achieved, with the plain title or the one cut
      at the dash, names a candidate, so it may start the prequel walk when
      every candidate may. */
  lemma AchievedMayWalk(data: map<int, AnimeInfo>, ids: seq<int>, f: string,
                        sim: (string, string) -> real, b: Best, rank: map<int, nat>)
    requires forall k :: k in ids && k in data ==> MayWalkFrom(data, rank, data[k].id)
    requires Achieved(data, ids, f, sim, b) || Achieved(data, ids, PreDash(f), sim, b)
    ensures MayWalkFrom(data, rank, b.id)
  {
    AchievedMeans(data, ids, f, sim, b);
    AchievedMeans(data, ids, PreDash(f), sim, b);
    var k :| k in ids && k in data && (EntryAchieved(data[k], f, sim, b) || EntryAchieved(data[k], PreDash(f), sim, b));
    assert b.id == data[k].id;
  }

  /** Domination survives a rise of the score. */
  lemma {:induction false} DominatedMonotone(data: map<int, AnimeInfo>, ids: seq<int>, f: string, skip: bool,
                                             sim: (string, string) -> real, low: real, high: real)
    requires low <= high
    requires Dominated(data, ids, f, skip, sim, low)
    ensures Dominated(data, ids, f, skip, sim, high)
    decreases |ids|
  {
    if ids != [] {
      DominatedMonotone(data, ids[..|ids| - 1], f, skip, sim, low, high);
    }
  }

  lemma DominatedStep(data: map<int, AnimeInfo>, ids: seq<int>, i: nat, f: string, skip: bool,
                      sim: (string, string) -> real, before: real, after: real)
    requires i < |ids| && ids[i] in data
    requires Dominated(data, ids[..i], f, skip, sim, before) && before <= after
    requires EntryDominated(data[ids[i]], f, skip, sim, after)
    ensures Dominated(data, ids[..i + 1], f, skip, sim, after)
  {
    DominatedMonotone(data, ids[..i], f, skip, sim, before, after);
    assert ids[..i + 1][..i] == ids[..i];
  }

  lemma AchievedStep(data: map<int, AnimeInfo>, ids: seq<int>, i: nat, f: string,
                     sim: (string, string) -> real, b: Best, before: Best, after: Best)
    requires i < |ids| && ids[i] in data
    requires before != b ==> Achieved(data, ids[..i], f, sim, before)
    requires after != before ==> EntryAchieved(data[ids[i]], f, sim, after)
    ensures after != b ==> Achieved(data, ids[..i + 1], f, sim, after)
  {
    assert ids[..i + 1][..i] == ids[..i];
  }

  /** `replace_with_sequel` returns at once. */
  predicate NoSequelNeeded(data: map<int, AnimeInfo>, info: IdentifyInfo)
  {
    info.mediaId !in data || data[info.mediaId].episodes.None?
    || info.episode <= data[info.mediaId].episodes.value
  }

  /** A PREQUEL edge to a known TV entry: a step of the walk back to season one. */
  predicate TvPrequel(data: map<int, AnimeInfo>, e: Edge)
  {
    e.relationType == "PREQUEL" && e.nodeId in data
    && data[e.nodeId].format.Some? && data[e.nodeId].format.value == "TV"
  }

  /** The PREQUEL edge the walk back takes from an entry: the last one to a
      known TV entry. */
  function LastTvPrequel(data: map<int, AnimeInfo>, edges: seq<Edge>): (r: Option<int>)
    ensures r.None? ==> forall e :: e in edges ==> !TvPrequel(data, e)
    ensures r.Some? ==> exists i :: 0 <= i < |edges| && TvPrequel(data, edges[i]) && edges[i].nodeId == r.value
                                    && (forall j :: i < j < |edges| ==> !TvPrequel(data, edges[j]))
  {
    if edges == [] then None
    else if TvPrequel(data, edges[|edges| - 1]) then Some(edges[|edges| - 1].nodeId)
    else
      var r := LastTvPrequel(data, edges[..|edges| - 1]);
      assert edges == edges[..|edges| - 1] + [edges[|edges| - 1]];
      r
  }

  /** `back` is a walk along last TV PREQUEL edges through known entries. */
  predicate PrequelChain(data: map<int, AnimeInfo>, back: seq<int>)
  {
    |back| >= 1
    && (forall i :: 0 <= i < |back| ==> back[i] in data)
    && (forall i :: 0 <= i < |back| - 1 ==> LastTvPrequel(data, data[back[i]].edges) == Some(back[i + 1]))
  }

  /** Following the last TV PREQUEL edge of a chain's last entry extends it. */
  lemma PrequelChainStep(data: map<int, AnimeInfo>, back: seq<int>, next: int)
    requires PrequelChain(data, back) && next in data
    requires LastTvPrequel(data, data[back[|back| - 1]].edges) == Some(next)
    ensures PrequelChain(data, back + [next])
  {
    var longer := back + [next];
    forall i | 0 <= i < |longer| - 1
      ensures LastTvPrequel(data, data[longer[i]].edges) == Some(longer[i + 1])
    {
      if i < |back| - 1 {
        assert longer[i] == back[i] && longer[i + 1] == back[i + 1];
      }
    }
  }

  /** The walk back to season one neither panics nor runs forever from the
      entries `rank` holds: from each of them, a PREQUEL edge to a known
      entry finds a format, and one to a known TV entry finds an episode
      count and leads to an entry of lower rank. Entries outside `rank` are
      not looked at. */
  predicate PrequelsWellFormed(data: map<int, AnimeInfo>, rank: map<int, nat>)
  {
    forall k :: k in rank && k in data ==>
      forall e :: e in data[k].edges && e.relationType == "PREQUEL" && e.nodeId in data ==>
        (data[e.nodeId].format.Some?
         && (data[e.nodeId].format.value == "TV" ==>
               data[e.nodeId].episodes.Some? && e.nodeId in rank && rank[e.nodeId] < rank[k]))
  }

  /** A walk from `id`, should the episode exceed its count, starts inside `rank`. */
  predicate MayWalkFrom(data: map<int, AnimeInfo>, rank: map<int, nat>, id: int)
  {
    id in data && data[id].episodes.Some? ==> id in rank
  }

  /** The entry has no PREQUEL edge to a known TV entry: the walk back ends there. */
  predicate IsFirstSeason(data: map<int, AnimeInfo>, k: int)
    requires k in data
  {
    forall e :: e in data[k].edges ==> !TvPrequel(data, e)
  }

  /** The walk forward runs out from the entries of `seasons`: each sequel
      hop it takes leads to an entry of `seasons`, and leaves an entry with
      a known count above 0, so that the episode goes down. Entries outside
      `seasons` are not looked at. */
  predicate SequelsWellFormed(data: map<int, AnimeInfo>, seasons: set<int>)
  {
    forall k :: k in seasons && k in data && FirstTvSequel(data, data[k].edges).Some? ==>
      FirstTvSequel(data, data[k].edges).value in seasons
      && (data[k].episodes.Some? ==> data[k].episodes.value > 0)
  }

  /** Every first season the walk back can end at from `rank` is where the
      walk forward starts. */
  predicate WalkStarts(data: map<int, AnimeInfo>, rank: map<int, nat>, seasons: set<int>)
  {
    forall k :: k in rank && k in data && data[k].episodes.Some? && IsFirstSeason(data, k) ==> k in seasons
  }

  /** The SEQUEL edge `replace_with_sequel` follows: the first one whose entry
      is known and has format "TV". */
  function FirstTvSequel(data: map<int, AnimeInfo>, edges: seq<Edge>): (r: Option<int>)
    ensures r.Some? ==> r.value in data && exists e :: e in edges && e.relationType == "SEQUEL" && e.nodeId == r.value
    ensures r.None? ==> forall e :: e in edges && e.relationType == "SEQUEL" && e.nodeId in data ==>
      data[e.nodeId].format != Some("TV")
  {
    if edges == [] then None
    else
      var e := edges[0];
      var format := if e.nodeId in data && data[e.nodeId].format.Some? then data[e.nodeId].format.value else "";
      if e.relationType == "SEQUEL" && format == "TV" then Some(e.nodeId)
      else FirstTvSequel(data, edges[1..])
  }

  /** The episode counts of the seasons walked past. */
  function EpisodeSum(data: map<int, AnimeInfo>, ids: seq<int>): int
  {
    if ids == [] then 0
    else EpisodeSum(data, ids[..|ids| - 1])
         + (if ids[|ids| - 1] in data then data[ids[|ids| - 1]].episodes.GetOr(0) else 0)
  }

  /** Appending a season to a chain adds the episodes of the season before
      it to the sum of the seasons left behind. */
  lemma EpisodeSumStep(data: map<int, AnimeInfo>, chain: seq<int>, next: int)
    requires |chain| >= 1
    ensures EpisodeSum(data, (chain + [next])[..|chain|])
            == EpisodeSum(data, chain[..|chain| - 1])
               + (if chain[|chain| - 1] in data then data[chain[|chain| - 1]].episodes.GetOr(0) else 0)
  {
    assert (chain + [next])[..|chain|] == chain;
    assert chain[..|chain| - 1] + [chain[|chain| - 1]] == chain;
  }

  /** `chain` is a walk along first TV SEQUEL edges through known entries. */
  predicate SequelChain(data: map<int, AnimeInfo>, chain: seq<int>)
  {
    |chain| >= 1
    && (forall i :: 0 <= i < |chain| ==> chain[i] in data)
    && (forall i :: 0 <= i < |chain| - 1 ==> FirstTvSequel(data, data[chain[i]].edges) == Some(chain[i + 1]))
  }

  /** Following the first TV SEQUEL edge of a chain's last entry extends it. */
  lemma SequelChainStep(data: map<int, AnimeInfo>, chain: seq<int>, next: int)
    requires SequelChain(data, chain)
    requires FirstTvSequel(data, data[chain[|chain| - 1]].edges) == Some(next)
    ensures SequelChain(data, chain + [next])
  {
    var longer := chain + [next];
    forall i | 0 <= i < |longer| - 1
      ensures FirstTvSequel(data, data[longer[i]].edges) == Some(longer[i + 1])
    {
      if i < |chain| - 1 {
        assert longer[i] == chain[i] && longer[i + 1] == chain[i + 1];
      }
    }
  }

  /** The walk forward left each season of `chain` but the last only because
      the episode still exceeded that season's count. */
  predicate WalkedPast(data: map<int, AnimeInfo>, episode: int, chain: seq<int>)
  {
    forall i :: 0 <= i < |chain| - 1 ==>
      chain[i] in data && data[chain[i]].episodes.Some?
      && episode - EpisodeSum(data, chain[..i]) > data[chain[i]].episodes.value
  }

  /** Leaving the last season of a chain while the episode exceeds its count
      keeps `WalkedPast`. */
  lemma WalkedPastStep(data: map<int, AnimeInfo>, episode: int, chain: seq<int>, next: int)
    requires WalkedPast(data, episode, chain) && |chain| >= 1
    requires chain[|chain| - 1] in data && data[chain[|chain| - 1]].episodes.Some?
    requires episode - EpisodeSum(data, chain[..|chain| - 1]) > data[chain[|chain| - 1]].episodes.value
    ensures WalkedPast(data, episode, chain + [next])
  {
    var longer := chain + [next];
    forall i | 0 <= i < |longer| - 1
      ensures longer[i] in data && data[longer[i]].episodes.Some?
        && episode - EpisodeSum(data, longer[..i]) > data[longer[i]].episodes.value
    {
      assert longer[..i] == chain[..i];
      assert longer[i] == chain[i];
    }
  }

  /** The state of the sequel walk from `start`: `r` sits at the last
      season of `chain`, inside `seasons`, with the counts of the seasons
      left behind taken off the episode. */
  predicate Walking(data: map<int, AnimeInfo>, seasons: set<int>, start: IdentifyInfo, r: IdentifyInfo, chain: seq<int>)
  {
    r == start.(mediaId := r.mediaId, episode := r.episode)
    && SequelChain(data, chain) && chain[0] == start.mediaId && chain[|chain| - 1] == r.mediaId
    && r.episode == start.episode - EpisodeSum(data, chain[..|chain| - 1])
    && WalkedPast(data, start.episode, chain)
    && (|chain| >= 2 ==> r.episode >= 1)
    && r.mediaId in seasons
  }

  /** A hop of the sequel walk, taken while the episode exceeds the count of
      the current season, keeps `Walking` and takes a positive count off. */
  lemma WalkingStep(data: map<int, AnimeInfo>, seasons: set<int>, start: IdentifyInfo, r: IdentifyInfo,
                    chain: seq<int>, next: int)
    requires Walking(data, seasons, start, r, chain) && SequelsWellFormed(data, seasons)
    requires data[r.mediaId].episodes.Some? && r.episode > data[r.mediaId].episodes.value
    requires FirstTvSequel(data, data[r.mediaId].edges) == Some(next)
    ensures data[r.mediaId].episodes.value > 0
    ensures Walking(data, seasons, start,
                    r.(mediaId := next, episode := r.episode - data[r.mediaId].episodes.value), chain + [next])
  {
    assert r.mediaId in seasons && r.mediaId in data;
    SequelChainStep(data, chain, next);
    EpisodeSumStep(data, chain, next);
    WalkedPastStep(data, start.episode, chain, next);
  }

  /** `r` is where `replace_with_sequel` moves `info`: `back` walks back
      along last TV PREQUEL edges from the entry to a first season, and
      `chain` walks forward from there along first TV SEQUEL edges. The walk
      forward leaves a season only while the episode exceeds its count, takes
      that count off, and stops where the episode fits, where there is no TV
      sequel or where the count is unknown. */
  predicate Remapped(data: map<int, AnimeInfo>, info: IdentifyInfo, r: IdentifyInfo, back: seq<int>, chain: seq<int>)
  {
    SequelChain(data, chain) && chain[|chain| - 1] == r.mediaId
    && PrequelChain(data, back) && back[0] == info.mediaId && back[|back| - 1] == chain[0]
    && IsFirstSeason(data, chain[0])
    && WalkedPast(data, info.episode, chain)
    && r.episode == info.episode - EpisodeSum(data, chain[..|chain| - 1])
    && (|chain| >= 2 ==> r.episode >= 1)
    && (data[r.mediaId].episodes.Some? && r.episode > data[r.mediaId].episodes.value ==>
          FirstTvSequel(data, data[r.mediaId].edges).None?)
  }

  /** The recommendation filters of `filter_anime`; "" and 0 mean "not set". */
  datatype Filters = Filters(genre: string, yearMin: int, yearMax: int, format: string)
  {
    predicate Active()
    {
      genre != "" || yearMin != 0 || yearMax != 0 || format != ""
    }
  }

  /** An entry passes every filter that is set. */
  predicate Passes(a: AnimeInfo, f: Filters)
  {
    (f.genre == "" || f.genre in a.genres)
    && (f.yearMin == 0 || (a.seasonYear.Some? && a.seasonYear.value >= f.yearMin))
    && (f.yearMax == 0 || (a.seasonYear.Some? && a.seasonYear.value <= f.yearMax))
    && (f.format == "" || a.format == Some(f.format))
  }

  predicate IsSubsequence<T(==)>(a: seq<T>, b: seq<T>)
  {
    if a == [] then true
    else if b == [] then false
    else if a[0] == b[0] then IsSubsequence(a[1..], b[1..])
    else IsSubsequence(a, b[1..])
  }

  /** `filter_anime` as a function: the recommendations that pass, in order. */
  function Filtered(data: map<int, AnimeInfo>, list: seq<RecommendTally>, f: Filters): (kept: seq<RecommendTally>)
    requires f.Active() ==> forall r :: r in list ==> r.id in data
    ensures forall r :: r in kept ==> r in list
    ensures IsSubsequence(kept, list)
    ensures f.Active() ==> forall r :: r in kept ==> Passes(data[r.id], f)
    ensures f.Active() ==> forall r :: r in list && Passes(data[r.id], f) ==> r in kept
    ensures f.Active() ==> forall r :: r in list ==>
      multiset(kept)[r] == (if Passes(data[r.id], f) then multiset(list)[r] else 0)
    ensures !f.Active() ==> kept == list
    decreases |list|
  {
    if !f.Active() then SubsequenceOfItself(list); list
    else if list == [] then []
    else
      var rest := Filtered(data, list[1..], f);
      FilteredStep(data, list, f, rest);
      if Passes(data[list[0].id], f) then [list[0]] + rest
      else SubsequenceDrop(rest, list); rest
  }

  /** One step of `Filtered`: what the kept tail says about `list[1..]`
      carries over to `list` once its head is kept or dropped. */
  lemma FilteredStep(data: map<int, AnimeInfo>, list: seq<RecommendTally>, f: Filters, rest: seq<RecommendTally>)
    requires list != [] && forall r :: r in list ==> r.id in data
    requires forall r :: r in rest ==> r in list[1..]
    requires forall r :: r in rest ==> Passes(data[r.id], f)
    requires forall r :: r in list[1..] && Passes(data[r.id], f) ==> r in rest
    requires forall r :: r in list[1..] ==>
      multiset(rest)[r] == (if Passes(data[r.id], f) then multiset(list[1..])[r] else 0)
    ensures var kept := if Passes(data[list[0].id], f) then [list[0]] + rest else rest;
      (forall r :: r in kept ==> r in list)
      && (forall r :: r in kept ==> Passes(data[r.id], f))
      && (forall r :: r in list && Passes(data[r.id], f) ==> r in kept)
      && (forall r :: r in list ==>
            multiset(kept)[r] == (if Passes(data[r.id], f) then multiset(list)[r] else 0))
  {
    assert list == [list[0]] + list[1..];
  }

  lemma {:induction false} SubsequenceOfItself<T>(a: seq<T>)
    ensures IsSubsequence(a, a)
    decreases |a|
  {
    if a != [] { SubsequenceOfItself(a[1..]); }
  }

  lemma {:induction false} SubsequenceDrop<T>(a: seq<T>, b: seq<T>)
    requires b != [] && IsSubsequence(a, b[1..])
    ensures IsSubsequence(a, b)
    decreases |b|, |a|
  {
    if a != [] && a[0] == b[0] {
      SubsequenceTail(a, b[1..]);
    }
  }

  lemma {:induction false} SubsequenceTail<T>(a: seq<T>, b: seq<T>)
    requires a != [] && IsSubsequence(a, b)
    ensures IsSubsequence(a[1..], b)
    decreases |b|, |a|
  {
    if b != [] {
      if a[0] == b[0] {
        SubsequenceDrop(a[1..], b);
      } else {
        SubsequenceTail(a, b[1..]);
        SubsequenceDrop(a[1..], b);
      }
    }
  }

  /** A scan result is stored only for a known id with a score above the threshold. */
  predicate Accepted(info: IdentifyInfo)
  {
    info.mediaId != 0 && info.similarityScore > SimilarityThreshold
  }

  /** The insertion block of `scan_folder` as a function of the table. */
  function InsertPath(table: map<int, map<int, AnimePath>>, info: IdentifyInfo, path: string)
    : (r: map<int, map<int, AnimePath>>)
    ensures !Accepted(info) ==> r == table
    ensures Accepted(info) ==> info.mediaId in r && info.episode in r[info.mediaId]
    ensures forall m :: m in table ==> m in r && forall e :: e in table[m] ==> e in r[m]
    ensures forall m :: m in r ==> m in table || m == info.mediaId
    ensures forall m, e :: m in r && e in r[m] && (m != info.mediaId || e != info.episode) ==>
      m in table && e in table[m] && r[m][e] == table[m][e]
  {
    if !Accepted(info) then table
    else
      var media := if info.mediaId in table then table[info.mediaId] else map[];
      var slot :=
        if info.episode in media then
          (if info.similarityScore > media[info.episode].similarityScore
           then AnimePath(path, info.similarityScore) else media[info.episode])
        else AnimePath(path, info.similarityScore);
      table[info.mediaId := media[info.episode := slot]]
  }

  /** The slot of an accepted result ends holding the larger of its old score
      and the new one, and the new path exactly when the new score is larger. */
  lemma InsertPathKeepsBest(table: map<int, map<int, AnimePath>>, info: IdentifyInfo, path: string)
    requires Accepted(info)
    ensures var r := InsertPath(table, info, path);
      var m, e := info.mediaId, info.episode;
      r[m][e].similarityScore >= info.similarityScore
      && (m in table && e in table[m] ==>
            r[m][e].similarityScore >= table[m][e].similarityScore
            && (r[m][e] == table[m][e] || r[m][e] == AnimePath(path, info.similarityScore))
            && (r[m][e] != table[m][e] <==> info.similarityScore > table[m][e].similarityScore))
      && (!(m in table && e in table[m]) ==> r[m][e] == AnimePath(path, info.similarityScore))
  {
  }

  /** A whole scan: the results inserted one after another. */
  function InsertAll(table: map<int, map<int, AnimePath>>, results: seq<(IdentifyInfo, string)>)
    : map<int, map<int, AnimePath>>
    decreases |results|
  {
    if results == [] then table
    else InsertPath(InsertAll(table, results[..|results| - 1]), results[|results| - 1].0, results[|results| - 1].1)
  }

  /** After a scan every accepted result's slot exists and holds a score at
      least as high as that result's: each slot keeps the best file seen. */
  lemma {:induction false} InsertAllKeepsBest(table: map<int, map<int, AnimePath>>, results: seq<(IdentifyInfo, string)>)
    ensures forall i :: 0 <= i < |results| && Accepted(results[i].0) ==>
      var r := InsertAll(table, results);
      results[i].0.mediaId in r && results[i].0.episode in r[results[i].0.mediaId]
      && r[results[i].0.mediaId][results[i].0.episode].similarityScore >= results[i].0.similarityScore
    decreases |results|
  {
    if results != [] {
      var init := results[..|results| - 1];
      var last := results[|results| - 1];
      InsertAllKeepsBest(table, init);
      var before := InsertAll(table, init);
      assert InsertAll(table, results) == InsertPath(before, last.0, last.1);
      if Accepted(last.0) { InsertPathKeepsBest(before, last.0, last.1); }
      forall i | 0 <= i < |results| && Accepted(results[i].0)
        ensures var r := InsertAll(table, results);
          results[i].0.mediaId in r && results[i].0.episode in r[results[i].0.mediaId]
          && r[results[i].0.mediaId][results[i].0.episode].similarityScore >= results[i].0.similarityScore
      {
        if i < |results| - 1 {
          assert results[i] == init[i];
          var m, e := results[i].0.mediaId, results[i].0.episode;
          if Accepted(last.0) && m == last.0.mediaId && e == last.0.episode {
            InsertPathKeepsBest(before, last.0, last.1);
          }
        }
      }
    }
  }

  /** `remove_missing_files` as a function: paths that no longer exist are
      dropped, then entries left without paths. */
  function Prune(table: map<int, map<int, AnimePath>>, exists_: string -> bool)
    : (r: map<int, map<int, AnimePath>>)
    ensures forall m :: m in r ==> m in table && |r[m]| > 0
    ensures forall m, e :: m in r && e in r[m] ==>
      e in table[m] && r[m][e] == table[m][e] && exists_(r[m][e].path)
    ensures forall m, e :: m in table && e in table[m] && exists_(table[m][e].path) ==>
      m in r && e in r[m]
  {
    var kept := map m | m in table :: map e | e in table[m] && exists_(table[m][e].path) :: table[m][e];
    var r := map m | m in kept && |kept[m]| > 0 :: kept[m];
    assert forall m, e :: m in table && e in table[m] && exists_(table[m][e].path) ==>
      e in kept[m] && |kept[m]| > 0 by {
      forall m, e | m in table && e in table[m] && exists_(table[m][e].path)
        ensures e in kept[m] && |kept[m]| > 0
      {
        assert e in kept[m].Keys;
      }
    }
    r
  }

  /** The token loop of `identify_anime`: each token deleted in turn. */
  method RemoveEach(title: string, tokens: seq<string>) returns (t: string)
    ensures t == RemoveTokens(title, tokens)
  {
    t := title;
    for i := 0 to |tokens|
      invariant t == RemoveTokens(title, tokens[..i])
    {
      assert tokens[..i + 1][..i] == tokens[..i];
      t := RemoveToken(t, tokens[i]);
    }
    assert tokens[..|tokens|] == tokens;
  }

  /** The `REMOVE_INFO` step: it only deletes characters. */
  method RemoveInfoTokens(title: string) returns (t: string)
    ensures forall c :: c in t ==> c in title
  {
    t := RemoveEach(title, RemoveInfo);
  }

  /** The first half of the title clean-up of `identify_anime`: separators,
      checksum, resolution, the `REMOVE_INFO` tokens, version and empty
      brackets. */
  method StripTags(filename: string) returns (t: string, resolution: int)
    ensures resolution >= 0
    ensures resolution == ExtractResolution(RemoveAll(Checksum, Separators(filename))).1
    ensures forall c :: c in t ==>
      c != '_' && (c in filename || c == ' ') && (CountChar(filename, '.') > 5 ==> c != '.')
  {
    t := Separators(filename);
    ghost var t0 := t;
    t := RemoveAll(Checksum, t);
    var res := ExtractResolution(t);
    t, resolution := res.0, res.1;
    ghost var t1 := t;
    assert forall c :: c in t ==> c in t0;
    t := RemoveInfoTokens(t);
    assert forall c :: c in t ==> c in t1;
    t := RemoveAll(Version, t);
    t := RemoveAll(EmptyBrackets, t);
  }

  /** The title clean-up of `identify_anime`: the tags stripped, then the
      cut at the episode, the sub-group and the trailing junk. The title that
      comes out holds only characters of the filename and spaces. */
  method CleanFileTitle(filename: string) returns (t: string, resolution: int, guess: EpisodeGuess, subGroup: string)
    ensures resolution >= 0
    ensures forall c :: c in t ==>
      c != '_' && (c in filename || c == ' ') && (CountChar(filename, '.') > 5 ==> c != '.')
    ensures EndsClean(t)
  {
    t, resolution := StripTags(filename);
    ghost var t2 := t;
    var cut := CutAtEpisode(t);
    t, guess := cut.0, cut.1;
    assert forall c :: c in t ==> c in t2;
    var group := SplitSubGroup(t);
    ghost var t3 := t;
    t, subGroup := group.0, group.1;
    assert forall c :: c in t ==> c in t3;
    ghost var t4 := t;
    t := TrimTrailing(t);
    assert forall c :: c in t ==> c in t4;
  }

  /** The state `title_compare` leaves after scoring the variants `titles` of
      entry `id` in turn, from `b`: a variant replaces the state only when it
      passes the first-letter filter and scores strictly higher. */
  function TitlesResult(titles: seq<string>, id: int, f: string, b: Best, skip: bool,
                        sim: (string, string) -> real): (r: Best)
    ensures r.score >= b.score
    ensures r.score == b.score ==> r == b
    ensures r != b ==>
      (r.id == id && r.title in titles
       && r.score == sim(Normalize(f), r.title) && Considered(r.title, f, skip))
    decreases |titles|
  {
    if f == [] || titles == [] then b
    else
      var prev := TitlesResult(titles[..|titles| - 1], id, f, b, skip, sim);
      var v := titles[|titles| - 1];
      assert titles == titles[..|titles| - 1] + [v];
      if Considered(v, f, skip) && sim(Normalize(f), v) > prev.score then Best(sim(Normalize(f), v), id, v)
      else prev
  }

  /** No considered variant scores above the recorded state. */
  lemma {:induction false} TitlesResultBound(titles: seq<string>, id: int, f: string, b: Best, skip: bool,
                                             sim: (string, string) -> real)
    requires f != []
    ensures forall v :: v in titles && Considered(v, f, skip) ==>
      sim(Normalize(f), v) <= TitlesResult(titles, id, f, b, skip, sim).score
    decreases |titles|
  {
    if titles != [] {
      var init := titles[..|titles| - 1];
      TitlesResultBound(init, id, f, b, skip, sim);
      assert titles == init + [titles[|titles| - 1]];
    }
  }

  /** Variant `i` of `titles` is the recorded one, and every considered
      variant before it scores strictly less. */
  predicate FirstVariant(titles: seq<string>, f: string, skip: bool, sim: (string, string) -> real, r: Best, i: int)
  {
    0 <= i < |titles| && titles[i] == r.title && Considered(titles[i], f, skip)
    && forall j :: 0 <= j < i && Considered(titles[j], f, skip) ==> sim(Normalize(f), titles[j]) < r.score
  }

  lemma FirstVariantExtend(titles: seq<string>, f: string, skip: bool, sim: (string, string) -> real, r: Best, i: int)
    requires titles != [] && FirstVariant(titles[..|titles| - 1], f, skip, sim, r, i)
    ensures FirstVariant(titles, f, skip, sim, r, i)
  {
    var init := titles[..|titles| - 1];
    assert titles[i] == init[i];
    assert forall j :: 0 <= j < i ==> titles[j] == init[j];
  }

  /** The strict comparison keeps the earliest best variant: every considered
      variant before the recorded one scores strictly less. */
  lemma {:induction false} TitlesResultFirst(titles: seq<string>, id: int, f: string, b: Best, skip: bool,
                                             sim: (string, string) -> real)
    ensures var r := TitlesResult(titles, id, f, b, skip, sim);
      r != b ==> exists i :: FirstVariant(titles, f, skip, sim, r, i)
    decreases |titles|
  {
    if f != [] && titles != [] {
      var init := titles[..|titles| - 1];
      var prev := TitlesResult(init, id, f, b, skip, sim);
      var r := TitlesResult(titles, id, f, b, skip, sim);
      if r != prev {
        TitlesResultBound(init, id, f, b, skip, sim);
        forall j | 0 <= j < |init| && Considered(titles[j], f, skip)
          ensures sim(Normalize(f), titles[j]) < r.score
        {
          assert titles[j] == init[j] && init[j] in init;
        }
        assert FirstVariant(titles, f, skip, sim, r, |init|);
      } else if r != b {
        TitlesResultFirst(init, id, f, b, skip, sim);
        var i :| FirstVariant(init, f, skip, sim, r, i);
        FirstVariantExtend(titles, f, skip, sim, r, i);
      }
    }
  }

  /** The state one pass of `identify_media_id` leaves: `title_compare` on
      each candidate of `ids` in turn, from `b`. */
  function PassResult(data: map<int, AnimeInfo>, ids: seq<int>, f: string, b: Best, skip: bool,
                      sim: (string, string) -> real): (r: Best)
    requires forall k :: k in ids ==> k in data
    ensures r.score >= b.score
    ensures r.score == b.score ==> r == b
    decreases |ids|
  {
    if ids == [] then b
    else
      var k := ids[|ids| - 1];
      assert forall j :: j in ids[..|ids| - 1] ==> j in ids;
      TitlesResult(Variants(data[k]), data[k].id, f, PassResult(data, ids[..|ids| - 1], f, b, skip, sim), skip, sim)
  }

  /** The three passes of `identify_media_id` over `ids`: the first-letter
      pass from no match; the full pass only when that stays below the
      threshold; the pass on the text before the first '-' only when the
      full pass stays below it too. Each pass starts from the state the
      previous one left. */
  function SearchResult(data: map<int, AnimeInfo>, ids: seq<int>, f: string, sim: (string, string) -> real): Best
    requires forall k :: k in ids ==> k in data
  {
    var first := PassResult(data, ids, f, NoMatch, true, sim);
    var second := PassResult(data, ids, f, first, false, sim);
    var third := PassResult(data, ids, PreDash(f), second, false, sim);
    if first.score >= SimilarityThreshold then first
    else if second.score >= SimilarityThreshold then second
    else third
  }

  /** Every considered variant of `a` scores strictly below `score`. */
  predicate EntryBelow(a: AnimeInfo, f: string, skip: bool, sim: (string, string) -> real, score: real)
  {
    forall v :: v in Variants(a) && Considered(v, f, skip) ==> sim(Normalize(f), v) < score
  }

  /** No considered variant of a candidate scores above the result of a pass. */
  lemma {:induction false} PassResultBound(data: map<int, AnimeInfo>, ids: seq<int>, f: string, b: Best, skip: bool,
                                           sim: (string, string) -> real)
    requires forall k :: k in ids ==> k in data
    requires f != []
    ensures forall k :: k in ids ==> EntryDominated(data[k], f, skip, sim, PassResult(data, ids, f, b, skip, sim).score)
    decreases |ids|
  {
    if ids != [] {
      var init, last := ids[..|ids| - 1], ids[|ids| - 1];
      assert ids == init + [last];
      PassResultBound(data, init, f, b, skip, sim);
      var prev := PassResult(data, init, f, b, skip, sim);
      var r := TitlesResult(Variants(data[last]), data[last].id, f, prev, skip, sim);
      assert r == PassResult(data, ids, f, b, skip, sim);
      TitlesResultBound(Variants(data[last]), data[last].id, f, prev, skip, sim);
      forall k | k in ids ensures EntryDominated(data[k], f, skip, sim, r.score) {
        if k != last {
          assert k in init;
          EntryDominatedMonotone(data[k], f, skip, sim, prev.score, r.score);
        }
      }
    }
  }

  lemma EntryDominatedMonotone(a: AnimeInfo, f: string, skip: bool, sim: (string, string) -> real, lo: real, hi: real)
    requires EntryDominated(a, f, skip, sim, lo) && lo <= hi
    ensures EntryDominated(a, f, skip, sim, hi)
  {
  }

  /** Candidate `i` of `ids` produced `r`, and every candidate before it
      scores strictly less on all its considered variants. */
  predicate FirstAchieved(data: map<int, AnimeInfo>, ids: seq<int>, f: string, skip: bool,
                          sim: (string, string) -> real, r: Best, i: int)
  {
    0 <= i < |ids| && ids[i] in data && EntryAchieved(data[ids[i]], f, sim, r)
    && forall j :: 0 <= j < i ==> ids[j] in data && EntryBelow(data[ids[j]], f, skip, sim, r.score)
  }

  lemma FirstAchievedExtend(data: map<int, AnimeInfo>, ids: seq<int>, f: string, skip: bool,
                            sim: (string, string) -> real, r: Best, i: int)
    requires ids != [] && FirstAchieved(data, ids[..|ids| - 1], f, skip, sim, r, i)
    ensures FirstAchieved(data, ids, f, skip, sim, r, i)
  {
    var init := ids[..|ids| - 1];
    assert ids[i] == init[i];
    assert forall j :: 0 <= j < i ==> ids[j] == init[j];
  }

  /** The strict comparison keeps the earliest best candidate: the result of
      a pass that moved was achieved on some candidate, and every candidate
      before it scores strictly less on all its considered variants. */
  lemma {:induction false} PassResultFirst(data: map<int, AnimeInfo>, ids: seq<int>, f: string, b: Best, skip: bool,
                                           sim: (string, string) -> real)
    requires forall k :: k in ids ==> k in data
    ensures var r := PassResult(data, ids, f, b, skip, sim);
      r != b ==> exists i :: FirstAchieved(data, ids, f, skip, sim, r, i)
    decreases |ids|
  {
    if ids != [] {
      var init, last := ids[..|ids| - 1], ids[|ids| - 1];
      assert ids == init + [last];
      var prev := PassResult(data, init, f, b, skip, sim);
      var r := TitlesResult(Variants(data[last]), data[last].id, f, prev, skip, sim);
      assert r == PassResult(data, ids, f, b, skip, sim);
      if r != prev {
        assert f != [] && r.score > prev.score;
        PassResultBound(data, init, f, b, skip, sim);
        forall j | 0 <= j < |init| ensures ids[j] in data && EntryBelow(data[ids[j]], f, skip, sim, r.score) {
          assert ids[j] == init[j] && init[j] in init;
          EntryDominatedBelow(data[ids[j]], f, skip, sim, prev.score, r.score);
        }
        assert FirstAchieved(data, ids, f, skip, sim, r, |init|);
      } else if r != b {
        PassResultFirst(data, init, f, b, skip, sim);
        var i :| FirstAchieved(data, init, f, skip, sim, r, i);
        FirstAchievedExtend(data, ids, f, skip, sim, r, i);
      }
    }
  }

  lemma EntryDominatedBelow(a: AnimeInfo, f: string, skip: bool, sim: (string, string) -> real, lo: real, hi: real)
    requires EntryDominated(a, f, skip, sim, lo) && lo < hi
    ensures EntryBelow(a, f, skip, sim, hi)
  {
  }

  /** The loop of `title_compare` over the variants `titles` of entry `id`:
      each variant that passes the first-letter filter is scored against the
      normalised file title, and the state moves only on a strictly higher
      score. An empty file title changes nothing. */
  method CompareTitles(titles: seq<string>, id: int, f: string, b: Best, skip: bool, sim: (string, string) -> real)
    returns (r: Best)
    requires f != [] && skip ==> forall v :: v in titles ==> |v| > 0
    ensures r == TitlesResult(titles, id, f, b, skip, sim)
    ensures f == [] ==> r == b
    ensures r.score >= b.score
    ensures r.score == b.score ==> r == b
    ensures r != b ==>
      (r.id == id && r.title in titles
       && r.score == sim(Normalize(f), r.title) && Considered(r.title, f, skip))
    ensures f != [] ==> forall v :: v in titles && Considered(v, f, skip) ==>
      sim(Normalize(f), v) <= r.score
  {
    r := b;
    if f == [] { return; }
    var normalized := Normalize(f);
    for i := 0 to |titles|
      invariant r == TitlesResult(titles[..i], id, f, b, skip, sim)
    {
      var title := titles[i];
      assert titles[..i + 1][..i] == titles[..i];
      assert title in titles;
      if !skip || title[0] == f[0] {
        var score := sim(normalized, title);
        if score > r.score {
          r := Best(score, id, title);
        }
      }
    }
    assert titles[..|titles|] == titles;
    TitlesResultBound(titles, id, f, b, skip, sim);
  }

  class AnimeData {
    var data: map<int, AnimeInfo>
    var animePath: map<int, map<int, AnimePath>>

    constructor ()
      ensures data == map[] && animePath == map[]
    {
      data := map[];
      animePath := map[];
    }

    /** `title_compare`: the entry's title variants are compared in turn. */
    method TitleCompare(anime: AnimeInfo, f: string, b: Best, skip: bool, sim: (string, string) -> real)
      returns (r: Best)
      requires f != [] && skip ==> NonEmptyVariants(anime)
      ensures f == [] ==> r == b
      ensures r.score >= b.score
      ensures r.score == b.score ==> r == b
      ensures r == TitlesResult(Variants(anime), anime.id, f, b, skip, sim)
      ensures r != b ==> EntryAchieved(anime, f, sim, r) && Considered(r.title, f, skip)
      ensures f != [] ==> EntryDominated(anime, f, skip, sim, r.score)
    {
      r := CompareTitles(Variants(anime), anime.id, f, b, skip, sim);
    }

    /** One pass of `identify_media_id`: `title_compare` on each candidate in turn. */
    method ComparePass(ids: seq<int>, f: string, b: Best, skip: bool, sim: (string, string) -> real)
      returns (r: Best)
      requires forall k :: k in ids ==> k in data
      requires f != [] && skip ==> forall k :: k in ids ==> NonEmptyVariants(data[k])
      ensures r == PassResult(data, ids, f, b, skip, sim)
      ensures r.score >= b.score
      ensures r.score == b.score ==> r == b
      ensures r != b ==> Achieved(data, ids, f, sim, r)
      ensures f != [] ==> Dominated(data, ids, f, skip, sim, r.score)
    {
      r := b;
      for i := 0 to |ids|
        invariant r.score >= b.score
        invariant r.score == b.score ==> r == b
        invariant forall k :: k in ids ==> k in data
        invariant f != [] && skip ==> forall k :: k in ids ==> NonEmptyVariants(data[k])
        invariant r != b ==> Achieved(data, ids[..i], f, sim, r)
        invariant f != [] ==> Dominated(data, ids[..i], f, skip, sim, r.score)
        invariant r == PassResult(data, ids[..i], f, b, skip, sim)
      {
        var before := r;
        assert ids[i] in ids;
        assert ids[..i + 1][..i] == ids[..i];
        r := TitleCompare(data[ids[i]], f, r, skip, sim);
        if f != [] {
          DominatedStep(data, ids, i, f, skip, sim, before.score, r.score);
        }
        AchievedStep(data, ids, i, f, sim, b, before, r);
      }
      assert ids[..|ids|] == ids;
    }

    /** `identify_media_id`: the first-letter pass, then while the score is
        below the threshold a full pass, then a pass on the text before the
        first '-'. An `only_compare` id restricts the search to that entry. */
    method IdentifyMediaId(f: string, onlyCompare: Option<int>, order: seq<int>, sim: (string, string) -> real)
      returns (r: Best)
      requires forall k :: k in order <==> k in data
      requires f != [] ==> forall k :: k in Candidates(data, order, onlyCompare) ==> NonEmptyVariants(data[k])
      ensures r == SearchResult(data, Candidates(data, order, onlyCompare), f, sim)
      ensures onlyCompare.Some? && onlyCompare.value !in data ==> r == NoMatch
      ensures r.score >= 0.0
      ensures r != NoMatch ==>
        Achieved(data, Candidates(data, order, onlyCompare), f, sim, r)
        || Achieved(data, Candidates(data, order, onlyCompare), PreDash(f), sim, r)
      ensures f != [] ==> Dominated(data, Candidates(data, order, onlyCompare), f, true, sim, r.score)
      ensures r.score < SimilarityThreshold && f != [] ==>
        Dominated(data, Candidates(data, order, onlyCompare), f, false, sim, r.score)
      ensures r.score < SimilarityThreshold && PreDash(f) != [] ==>
        Dominated(data, Candidates(data, order, onlyCompare), PreDash(f), false, sim, r.score)
    {
      var ids := Candidates(data, order, onlyCompare);
      r := ComparePass(ids, f, NoMatch, true, sim);
      ghost var first := r;
      if r.score < SimilarityThreshold {
        r := ComparePass(ids, f, r, false, sim);
      }
      ghost var second := r;
      if r.score < SimilarityThreshold {
        r := ComparePass(ids, PreDash(f), r, false, sim);
      }
      if f != [] {
        DominatedMonotone(data, ids, f, true, sim, first.score, r.score);
      }
      if r.score < SimilarityThreshold && f != [] {
        DominatedMonotone(data, ids, f, false, sim, second.score, r.score);
      }
    }

    /** The prequel walk of `replace_with_sequel`: while the entry has a
        PREQUEL edge to a known TV entry, move to it (the last such edge of
        the entry wins). Ends at an entry with no such edge. */
    method FirstSeason(id: int, ghost rank: map<int, nat>) returns (first: int, ghost back: seq<int>)
      requires id in data && data[id].episodes.Some? && id in rank
      requires PrequelsWellFormed(data, rank)
      ensures PrequelChain(data, back) && back[0] == id && back[|back| - 1] == first
      ensures first in data && data[first].episodes.Some? && first in rank
      ensures IsFirstSeason(data, first)
      ensures first == id || rank[first] < rank[id]
    {
      first := id;
      back := [id];
      var prequelExists := true;
      while prequelExists
        invariant first in data && data[first].episodes.Some? && first in rank
        invariant first == id || rank[first] < rank[id]
        invariant PrequelChain(data, back) && back[0] == id && back[|back| - 1] == first
        invariant !prequelExists ==> IsFirstSeason(data, first)
        decreases (if prequelExists then 1 else 0) + rank[first]
      {
        prequelExists := false;
        var edges := data[first].edges;
        ghost var from := first;
        for i := 0 to |edges|
          invariant first in data && data[first].episodes.Some? && first in rank
          invariant prequelExists ==> rank[first] < rank[from]
          invariant !prequelExists ==> first == from
          invariant LastTvPrequel(data, edges[..i]) == (if prequelExists then Some(first) else None)
        {
          var edge := edges[i];
          assert edges[..i + 1][..i] == edges[..i];
          if edge.relationType == "PREQUEL" && edge.nodeId in data && data[edge.nodeId].format.value == "TV" {
            first := edge.nodeId;
            prequelExists := true;
          }
        }
        assert edges[..|edges|] == edges;
        if prequelExists {
          PrequelChainStep(data, back, first);
          back := back + [first];
        }
      }
    }

    /** `replace_with_sequel`: an episode beyond the entry's count is moved,
        from the first season on, along TV SEQUEL edges, each hop taking off
        the count of the season it leaves. `chain` lists the seasons visited. */
    method ReplaceWithSequel(info: IdentifyInfo, ghost rank: map<int, nat>, ghost seasons: set<int>)
      returns (r: IdentifyInfo, ghost back: seq<int>, ghost chain: seq<int>)
      requires !NoSequelNeeded(data, info) ==> info.mediaId in rank
      requires PrequelsWellFormed(data, rank)
      requires SequelsWellFormed(data, seasons)
      requires WalkStarts(data, rank, seasons)
      ensures r == info.(mediaId := r.mediaId, episode := r.episode)
      ensures NoSequelNeeded(data, info) ==> r == info
      ensures !NoSequelNeeded(data, info) ==>
        Remapped(data, info, r, back, chain)
        && chain[0] in rank && (chain[0] == info.mediaId || rank[chain[0]] < rank[info.mediaId])
    {
      r := info;
      back, chain := [], [];
      if info.mediaId !in data || data[info.mediaId].episodes.None? {
        return;
      }
      var episodes := data[info.mediaId].episodes.value;
      if info.episode <= episodes {
        return;
      }

      // start from the first season
      var first;
      first, back := FirstSeason(info.mediaId, rank);
      assert first in seasons;
      r := r.(mediaId := first);

      // traverse across sequels until the episode is within the episode count
      r, chain := SequelWalk(r, seasons);
    }

    /** The sequel walk of `replace_with_sequel`: while the episode is beyond
        the count of the entry, move along its first TV SEQUEL edge, taking
        off that count. `chain` lists the seasons visited. */
    method SequelWalk(start: IdentifyInfo, ghost seasons: set<int>) returns (r: IdentifyInfo, ghost chain: seq<int>)
      requires start.mediaId in data && data[start.mediaId].episodes.Some? && start.mediaId in seasons
      requires SequelsWellFormed(data, seasons)
      ensures r == start.(mediaId := r.mediaId, episode := r.episode)
      ensures SequelChain(data, chain) && chain[0] == start.mediaId && chain[|chain| - 1] == r.mediaId
      ensures r.episode == start.episode - EpisodeSum(data, chain[..|chain| - 1])
      ensures WalkedPast(data, start.episode, chain)
      ensures |chain| >= 2 ==> r.episode >= 1
      ensures data[r.mediaId].episodes.Some? && r.episode > data[r.mediaId].episodes.value ==>
        FirstTvSequel(data, data[r.mediaId].edges).None?
    {
      r := start;
      var episodes := data[r.mediaId].episodes.value;
      chain := [r.mediaId];
      var sequelExists := true;
      while r.episode > episodes && sequelExists
        invariant Walking(data, seasons, start, r, chain)
        invariant data[r.mediaId].episodes == Some(episodes)
        invariant !sequelExists ==> FirstTvSequel(data, data[r.mediaId].edges).None?
        decreases if sequelExists then 1 + (if r.episode > 0 then r.episode else 0) else 0
      {
        sequelExists := false;
        match FirstTvSequel(data, data[r.mediaId].edges) {
          case Some(next) =>
            WalkingStep(data, seasons, start, r, chain, next);
            r := r.(mediaId := next, episode := r.episode - episodes);
            chain := chain + [next];
            sequelExists := true;
          case None =>
        }
        if data[r.mediaId].episodes.None? {
          break;
        }
        episodes := data[r.mediaId].episodes.value;
      }
    }

    /** `episode_fix`: a file of a single-episode entry is its episode 1. */
    function EpisodeFix(info: IdentifyInfo): (r: IdentifyInfo)
      reads this
      ensures r == info.(episode := r.episode, episodeLength := r.episodeLength)
      ensures (info.mediaId in data && data[info.mediaId].episodes == Some(1))
        <==> (r != info || (info.episode == 1 && info.episodeLength == 1 && info.mediaId in data && data[info.mediaId].episodes == Some(1)))
      ensures info.mediaId in data && data[info.mediaId].episodes == Some(1) ==> r.episode == 1 && r.episodeLength == 1
    {
      if info.mediaId in data && data[info.mediaId].episodes == Some(1)
      then info.(episode := 1, episodeLength := 1)
      else info
    }

    /** `identify_anime`: the extension gate, then the title clean-up, the
        episode, the sub-group, the search for the entry, the sequel
        remapping and the single-episode fix. */
    method IdentifyAnime(filename: string, mediaId: Option<int>, order: seq<int>,
                         sim: (string, string) -> real, ghost rank: map<int, nat>, ghost seasons: set<int>)
      returns (r: Option<IdentifyInfo>)
      requires forall k :: k in order <==> k in data
      requires forall k :: k in Candidates(data, order, mediaId) ==> NonEmptyVariants(data[k])
      requires MayWalkFrom(data, rank, NoMatch.id)
      requires forall k :: k in Candidates(data, order, mediaId) ==> MayWalkFrom(data, rank, data[k].id)
      requires PrequelsWellFormed(data, rank)
      requires SequelsWellFormed(data, seasons)
      requires WalkStarts(data, rank, seasons)
      ensures r.None? <==> !ExtensionMatches(filename)
      ensures r.Some? ==> r.value.filename == filename && r.value.resolution >= 0
      ensures r.Some? ==> forall c :: c in r.value.fileTitle ==>
        c != '_' && (c in filename || c == ' ') && (CountChar(filename, '.') > 5 ==> c != '.')
      ensures r.Some? ==> EndsClean(r.value.fileTitle)
      ensures r.Some? && r.value.mediaId in data && data[r.value.mediaId].episodes == Some(1) ==>
        r.value.episode == 1 && r.value.episodeLength == 1
    {
      if !ExtensionMatches(filename) {
        return None;
      }
      var t, resolution, guess, subGroup := CleanFileTitle(filename);
      var best := IdentifyMediaId(t, mediaId, order, sim);
      var info := IdentifyInfo(filename, t, best.id, best.score, best.title, subGroup, resolution, guess.episode, guess.length);
      if best != NoMatch {
        AchievedMayWalk(data, Candidates(data, order, mediaId), t, sim, best, rank);
      }
      ghost var back, chain;
      info, back, chain := ReplaceWithSequel(info, rank, seasons);
      info := EpisodeFix(info);
      assert info.filename == filename && info.fileTitle == t && info.resolution == resolution;
      return Some(info);
    }

    /** The insertion block of `scan_folder` for one identified file. */
    method InsertScanResult(info: IdentifyInfo, path: string) returns (fileFound: bool)
      modifies this
      ensures fileFound == Accepted(info)
      ensures animePath == InsertPath(old(animePath), info, path)
      ensures data == old(data)
    {
      fileFound := false;
      if info.mediaId != 0 && info.similarityScore > SimilarityThreshold {
        var media := if info.mediaId in animePath then animePath[info.mediaId] else map[];
        if info.episode in media {
          if info.similarityScore > media[info.episode].similarityScore {
            media := media[info.episode := AnimePath(path, info.similarityScore)];
          } else {
            assert media[info.episode := media[info.episode]] == media;
          }
        } else {
          media := media[info.episode := AnimePath(path, info.similarityScore)];
        }
        animePath := animePath[info.mediaId := media];
        fileFound := true;
      }
    }

    /** `remove_missing_files`, with file existence as a parameter. */
    method RemoveMissingFiles(exists_: string -> bool)
      modifies this
      ensures animePath == Prune(old(animePath), exists_)
      ensures data == old(data)
    {
      var kept := map m | m in animePath :: map e | e in animePath[m] && exists_(animePath[m][e].path) :: animePath[m][e];
      animePath := map m | m in kept && |kept[m]| > 0 :: kept[m];
    }

    /** `get_existing_files`: the episodes that have a file, in the table's
        iteration order `order`; none for an unknown id. */
    method GetExistingFiles(animeId: int, order: seq<int>) returns (eps: seq<int>)
      requires animeId in animePath ==>
        (forall e :: e in order <==> e in animePath[animeId])
        && forall i, j :: 0 <= i < j < |order| ==> order[i] != order[j]
      ensures animeId !in animePath ==> eps == []
      ensures animeId in animePath ==> forall e :: e in eps <==> e in animePath[animeId]
      ensures forall i, j :: 0 <= i < j < |eps| ==> eps[i] != eps[j]
    {
      eps := [];
      if animeId in animePath {
        for i := 0 to |order|
          invariant eps == order[..i]
        {
          eps := eps + [order[i]];
        }
        assert eps == order[..|order|];
      }
    }

    /** `filter_anime`: the recommendations whose entries pass every filter
        that is set, in their original order. */
    method FilterAnime(list: seq<RecommendTally>, f: Filters) returns (kept: seq<RecommendTally>)
      requires f.Active() ==> forall r :: r in list ==> r.id in data
      ensures kept == Filtered(data, list, f)
    {
      kept := list;
      if f.Active() {
        kept := [];
        var i := |list|;
        while i > 0
          invariant 0 <= i <= |list|
          invariant kept == Filtered(data, list[i..], f)
        {
          i := i - 1;
          assert list[i..][1..] == list[i + 1..];
          if Passes(data[list[i].id], f) {
            kept := [list[i]] + kept;
          }
        }
      }
    }
  }
}
