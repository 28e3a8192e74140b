/** The request side of `api_calls.rs` for the AniList GraphQL API: splitting
    a batch of media ids into requests that stay under the query complexity
    limit, the text and variables of one batched media query, storing what a
    reply returns, and trimming the list-entry mutation to the dates that are
    known. The HTTP client, JSON parsing and the server are not part of this
    model: a reply is a parameter. */
module AniList {
  import opened Wrappers
  import opened Strings
  import opened Dates

  // ---------------------------------------------------------------------
  // Splitting a batch of ids

  /** Ids per request: each media block costs 26 complexity points and the
      server allows 500, so 19 blocks (494 points) fit. */
  const ChunkSize: nat := 19

  /** `(len + 19 - 1) / 19`, the number of requests. */
  function ChunkCount(n: nat): nat
  {
    (n + ChunkSize - 1) / ChunkSize
  }

  function Min(a: int, b: int): int
  {
    if a <= b then a else b
  }

  /** Chunk `c` is exactly the ids the split puts there: c*19 and after, up
      to 19 of them. */
  lemma ChunkCountBound(n: nat, c: nat)
    ensures c < ChunkCount(n) <==> c * ChunkSize < n
  {
  }

  /** The ids of chunk `c`: positions c*19 up to (c+1)*19, or the end. */
  function Chunk(ids: seq<int>, c: nat): seq<int>
    requires c < ChunkCount(|ids|)
  {
    ChunkCountBound(|ids|, c);
    ids[c * ChunkSize .. Min(c * ChunkSize + ChunkSize, |ids|)]
  }

  /** `chunks` is the split of `ids`. */
  predicate IsSplit(ids: seq<int>, chunks: seq<seq<int>>)
  {
    |chunks| == ChunkCount(|ids|)
    && forall c :: 0 <= c < |chunks| ==> chunks[c] == Chunk(ids, c)
  }

  /** The chunks after the split loop has pushed the first `i` ids. */
  ghost predicate SplitUpTo(ids: seq<int>, chunks: seq<seq<int>>, i: nat)
  {
    i <= |ids| && |chunks| == ChunkCount(|ids|)
    && forall c :: 0 <= c < |chunks| ==>
         chunks[c] == ids[Min(c * ChunkSize, i) .. Min(c * ChunkSize + ChunkSize, i)]
  }

  /** Pushing id `i` onto list `i / 19` moves the split on by one id. */
  lemma SplitStep(ids: seq<int>, chunks: seq<seq<int>>, i: nat)
    requires i < |ids| && SplitUpTo(ids, chunks, i)
    ensures i / ChunkSize < |chunks|
    ensures SplitUpTo(ids, chunks[i / ChunkSize := chunks[i / ChunkSize] + [ids[i]]], i + 1)
  {
    var c := i / ChunkSize;
    ChunkCountBound(|ids|, c);
    assert ids[c * ChunkSize .. i + 1] == ids[c * ChunkSize .. i] + [ids[i]];
  }

  /** The split loop of `anilist_get_anime_info_split`: `ceil(len/19)` empty
      lists, then id `i` is pushed onto list `i / 19`. */
  method SplitIds(ids: seq<int>) returns (chunks: seq<seq<int>>)
    ensures IsSplit(ids, chunks)
  {
    var count := (|ids| + ChunkSize - 1) / ChunkSize;
    chunks := seq(count, _ => []);
    for i := 0 to |ids|
      invariant SplitUpTo(ids, chunks, i)
    {
      SplitStep(ids, chunks, i);
      var c := i / ChunkSize;
      chunks := chunks[c := chunks[c] + [ids[i]]];
    }
    forall c | 0 <= c < count ensures chunks[c] == Chunk(ids, c) {
      ChunkCountBound(|ids|, c);
    }
  }

  /** Every chunk holds between one and 19 ids. */
  lemma ChunkSizes(ids: seq<int>, c: nat)
    requires c < ChunkCount(|ids|)
    ensures 1 <= |Chunk(ids, c)| <= ChunkSize
  {
    ChunkCountBound(|ids|, c);
  }

  /** Id `i` lands in chunk `i / 19`, at position `i % 19`. */
  lemma IdInChunk(ids: seq<int>, i: nat)
    requires i < |ids|
    ensures i / ChunkSize < ChunkCount(|ids|)
    ensures i % ChunkSize < |Chunk(ids, i / ChunkSize)|
    ensures Chunk(ids, i / ChunkSize)[i % ChunkSize] == ids[i]
  {
    ChunkCountBound(|ids|, i / ChunkSize);
  }

  /** The chunks one after another. */
  function Flatten(chunks: seq<seq<int>>): seq<int>
  {
    if chunks == [] then [] else Flatten(chunks[..|chunks| - 1]) + chunks[|chunks| - 1]
  }

  lemma {:induction false} FlattenPrefix(ids: seq<int>, chunks: seq<seq<int>>, c: nat)
    requires IsSplit(ids, chunks) && c <= |chunks|
    ensures Flatten(chunks[..c]) == ids[..Min(c * ChunkSize, |ids|)]
  {
    if c > 0 {
      FlattenPrefix(ids, chunks, c - 1);
      assert chunks[..c][..c - 1] == chunks[..c - 1];
      ChunkCountBound(|ids|, c - 1);
      assert chunks[c - 1] == Chunk(ids, c - 1);
      assert ids[..Min(c * ChunkSize, |ids|)]
          == ids[..(c - 1) * ChunkSize] + ids[(c - 1) * ChunkSize .. Min(c * ChunkSize, |ids|)];
    }
  }

  /** Concatenating the chunks gives back the ids, in order. */
  lemma SplitFlattens(ids: seq<int>, chunks: seq<seq<int>>)
    requires IsSplit(ids, chunks)
    ensures Flatten(chunks) == ids
  {
    FlattenPrefix(ids, chunks, |chunks|);
    assert chunks[..|chunks|] == chunks;
    if |chunks| > 0 {
      ChunkCountBound(|ids|, |chunks| - 1);
    } else {
      ChunkCountBound(|ids|, 0);
    }
    assert ids[..|ids|] == ids;
  }

  // ---------------------------------------------------------------------
  // The batched media query

  /** The name of the variable holding the k-th id. */
  function VarName(k: nat): string
  {
    "id" + NatToString(k)
  }

  /** The start of the query, declaring `$id0`. */
  const QueryFront: string := "query ($id0: Int"
  const QueryBack: string := ") { "
  const QueryEnd: string := "}"

  /** `MULTI_ANIME_INFO_QUERY`, cut at its two zeros (the alias `R0` and the
      variable `$id0`); the tail is kept in four parts. */
  const BlockHead: string := "R"
  const BlockMiddle: string := ":Media (id: $id"
  const TailTitle: string := ", type: ANIME) { id " + "title { romaji english " + "native } coverImage { "
  const TailSeason: string := "large } season " + "seasonYear type format " + "episodes duration "
  const TailScore: string := "isAdult genres " + "averageScore popularity " + "description trailer { "
  const TailDate: string := "id site } startDate { " + "year month day } } "
  const BlockTail: string := TailTitle + TailSeason + TailScore + TailDate
  const MediaTemplate: string := BlockHead + "0" + BlockMiddle + "0" + BlockTail

  lemma TailTitleHasNoZero()
    ensures '0' !in TailTitle
  {
    assert '0' !in ", type: ANIME) { id ";
    assert '0' !in "title { romaji english ";
    assert '0' !in "native } coverImage { ";
  }

  lemma TailSeasonHasNoZero()
    ensures '0' !in TailSeason
  {
    assert '0' !in "large } season ";
    assert '0' !in "seasonYear type format ";
    assert '0' !in "episodes duration ";
  }

  lemma TailScoreHasNoZero()
    ensures '0' !in TailScore
  {
    assert '0' !in "isAdult genres ";
    assert '0' !in "averageScore popularity ";
    assert '0' !in "description trailer { ";
  }

  lemma TailDateHasNoZero()
    ensures '0' !in TailDate
  {
    assert '0' !in "id site } startDate { ";
    assert '0' !in "year month day } } ";
  }

  /** The declaration `, $idK: Int`. */
  function IdDecl(k: nat): string
  {
    ", $" + VarName(k) + ": Int"
  }

  /** `f(lo) + f(lo + 1) + ... + f(hi - 1)`. */
  function Joined(f: nat -> string, lo: nat, hi: nat): string
    decreases hi
  {
    if hi <= lo then "" else Joined(f, lo, hi - 1) + f(hi - 1)
  }

  /** Part `k` sits in the joined text right after parts lo .. k-1. */
  lemma {:induction false} JoinedContains(f: nat -> string, lo: nat, hi: nat, k: nat)
    requires lo <= k < hi
    ensures OccursAt(Joined(f, lo, hi), f(k), |Joined(f, lo, k)|)
    decreases hi
  {
    if k < hi - 1 {
      JoinedContains(f, lo, hi - 1, k);
      OccursInPrefix(Joined(f, lo, hi - 1), f(hi - 1), f(k), |Joined(f, lo, k)|);
    } else {
      OccursAfterPrefix(Joined(f, lo, k), f(k), f(k), 0);
    }
  }

  /** The declarations of ids lo .. hi-1. */
  function Decls(lo: nat, hi: nat): string
  {
    Joined(IdDecl, lo, hi)
  }

  /** The block asking for media `$idK` under the alias `RK`. */
  function MediaBlock(k: nat): string
  {
    BlockHead + NatToString(k) + BlockMiddle + NatToString(k) + BlockTail
  }

  /** The media blocks for ids 0 .. n-1. */
  function Blocks(n: nat): string
  {
    Joined(MediaBlock, 0, n)
  }

  /** The query for `n` ids. */
  function QueryText(n: nat): string
  {
    QueryFront + Decls(1, n) + QueryBack + Blocks(n) + QueryEnd
  }

  /** `MULTI_ANIME_INFO_QUERY.replace("0", k)` is block `k`: the template's
      only zeros are the two that name the id. */
  lemma TemplateReplace(k: nat)
    ensures ReplaceAll(MediaTemplate, "0", NatToString(k)) == MediaBlock(k)
  {
    var t := NatToString(k);
    TailTitleHasNoZero();
    TailSeasonHasNoZero();
    TailScoreHasNoZero();
    TailDateHasNoZero();
    assert '0' !in BlockHead && '0' !in BlockMiddle && '0' !in BlockTail;
    ReplaceCharAppend(BlockHead + "0" + BlockMiddle + "0", BlockTail, '0', t);
    ReplaceCharAppend(BlockHead + "0" + BlockMiddle, "0", '0', t);
    ReplaceCharAppend(BlockHead + "0", BlockMiddle, '0', t);
    ReplaceCharAppend(BlockHead, "0", '0', t);
    ReplaceCharAbsent(BlockHead, '0', t);
    ReplaceCharAbsent(BlockMiddle, '0', t);
    ReplaceCharAbsent(BlockTail, '0', t);
    assert ReplaceAll("0", ['0'], t) == t;
  }

  /** The query loops of `anilist_get_anime_info`: the declarations of
      `$id1` .. `$id(n-1)` after that of `$id0`, then one block per id. */
  method BuildQuery(n: nat) returns (query: string)
    ensures query == QueryText(n)
  {
    var decls := "";
    var i := 1;
    while i < n
      invariant i == 1 || 1 <= i <= n
      invariant decls == Decls(1, i)
    {
      decls := decls + ", $id" + NatToString(i) + ": Int";
      i := i + 1;
    }
    assert Decls(1, i) == Decls(1, n);
    var blocks := "";
    for k := 0 to n
      invariant blocks == Blocks(k)
    {
      TemplateReplace(k);
      blocks := blocks + ReplaceAll(MediaTemplate, "0", NatToString(k));
    }
    query := QueryFront + decls + QueryBack + blocks + QueryEnd;
  }

  /** Two texts that differ only in the digit strings after `head` (each
      followed by a non-digit) agree in those digits. */
  lemma DigitPrefixUnique(x: string, y: string, rx: string, ry: string)
    requires AllDigits(x) && AllDigits(y)
    requires |rx| > 0 && !IsDigit(rx[0]) && |ry| > 0 && !IsDigit(ry[0])
    requires x + rx == y + ry
    ensures x == y
  {
    var s := x + rx;
    DigitRunFrom(s, 0, |x|);
    DigitRunFrom(y + ry, 0, |y|);
    assert x == s[..|x|];
    assert y == s[..|y|];
  }

  lemma DigitsAfterHead(head: string, middle: string, tail: string, x: string, y: string)
    requires AllDigits(x) && AllDigits(y)
    requires |middle| > 0 && !IsDigit(middle[0])
    requires head + x + middle + x + tail == head + y + middle + y + tail
    ensures x == y
  {
    var sx := x + (middle + x + tail);
    var sy := y + (middle + y + tail);
    assert head + x + middle + x + tail == head + sx;
    assert head + y + middle + y + tail == head + sy;
    assert sx == (head + sx)[|head|..];
    assert sy == (head + sy)[|head|..];
    DigitPrefixUnique(x, y, middle + x + tail, middle + y + tail);
  }

  /** Different ids get different blocks (and different aliases), so the
      reply holds one entry per id. */
  lemma MediaBlockInjective(i: nat, j: nat)
    requires MediaBlock(i) == MediaBlock(j)
    ensures i == j
  {
    assert BlockMiddle[0] == ':';
    DigitsAfterHead(BlockHead, BlockMiddle, BlockTail, NatToString(i), NatToString(j));
    NatToStringInjective(i, j);
  }

  /** The fixed start of the query declares `$id0`. */
  lemma FrontDeclaresFirstId()
    ensures OccursAt(QueryFront, "$" + VarName(0) + ": Int", 7)
  {
    assert NatToString(0) == "0";
    assert "$" + VarName(0) + ": Int" == "$id0: Int";
    assert QueryFront[7..16] == "$id0: Int";
  }

  /** An occurrence in the middle part of a three-part text. */
  lemma OccursInMiddle(s: string, a: string, b: string, c: string, pat: string, k: nat)
    requires s == a + b + c
    requires OccursAt(b, pat, k)
    ensures OccursAt(s, pat, |a| + k)
  {
    OccursAfterPrefix(a, b, pat, k);
    OccursInPrefix(a + b, c, pat, |a| + k);
  }

  /** Block `k` sits in the blocks of a longer query. */
  lemma BlockInBlocks(n: nat, k: nat)
    requires k < n
    ensures OccursAt(Blocks(n), MediaBlock(k), |Blocks(k)|)
  {
    JoinedContains(MediaBlock, 0, n, k);
  }

  /** The query declares `$id0` for its first id. */
  lemma QueryDeclaresFirstId(n: nat)
    ensures OccursAt(QueryText(n), "$" + VarName(0) + ": Int", 7)
  {
    var pat := "$" + VarName(0) + ": Int";
    FrontDeclaresFirstId();
    OccursInPrefix(QueryFront, Decls(1, n), pat, 7);
    OccursInPrefix(QueryFront + Decls(1, n), QueryBack, pat, 7);
    OccursInPrefix(QueryFront + Decls(1, n) + QueryBack, Blocks(n), pat, 7);
    OccursInPrefix(QueryFront + Decls(1, n) + QueryBack + Blocks(n), QueryEnd, pat, 7);
  }

  /** The query declares `$idK` for every later id. */
  lemma QueryDeclaresId(n: nat, k: nat)
    requires 1 <= k < n
    ensures OccursAt(QueryText(n), IdDecl(k), |QueryFront| + |Decls(1, k)|)
  {
    var p := |QueryFront| + |Decls(1, k)|;
    JoinedContains(IdDecl, 1, n, k);
    OccursAfterPrefix(QueryFront, Decls(1, n), IdDecl(k), |Decls(1, k)|);
    OccursInPrefix(QueryFront + Decls(1, n), QueryBack, IdDecl(k), p);
    OccursInPrefix(QueryFront + Decls(1, n) + QueryBack, Blocks(n), IdDecl(k), p);
    OccursInPrefix(QueryFront + Decls(1, n) + QueryBack + Blocks(n), QueryEnd, IdDecl(k), p);
  }

  /** The query holds the block of every id, after the blocks of the ids
      before it. */
  lemma QueryHasBlock(n: nat, k: nat)
    requires k < n
    ensures OccursAt(QueryText(n), MediaBlock(k), |QueryFront + Decls(1, n) + QueryBack| + |Blocks(k)|)
  {
    BlockInBlocks(n, k);
    OccursInMiddle(QueryText(n), QueryFront + Decls(1, n) + QueryBack, Blocks(n), QueryEnd, MediaBlock(k), |Blocks(k)|);
  }

  /** Distinct positions give distinct variable names. */
  lemma VarNameInjective(i: nat, j: nat)
    requires VarName(i) == VarName(j)
    ensures i == j
  {
    assert VarName(i)[2..] == NatToString(i);
    assert VarName(j)[2..] == NatToString(j);
    NatToStringInjective(i, j);
  }

  /** `vars` is the variables object of the query: `idK` holds the k-th id,
      and there is no other key. */
  predicate IsIdVariables(ids: seq<int>, vars: map<string, int>)
  {
    (forall k :: 0 <= k < |ids| ==> VarName(k) in vars && vars[VarName(k)] == ids[k])
    && (forall key :: key in vars ==> exists k :: 0 <= k < |ids| && key == VarName(k))
  }

  /** The `ids` map loop of `anilist_get_anime_info`. It has one key per id. */
  method BuildVariables(ids: seq<int>) returns (vars: map<string, int>)
    ensures IsIdVariables(ids, vars)
    ensures |vars| == |ids|
  {
    vars := map[];
    for i := 0 to |ids|
      invariant forall k :: 0 <= k < i ==> VarName(k) in vars && vars[VarName(k)] == ids[k]
      invariant forall key :: key in vars ==> exists k :: 0 <= k < i && key == VarName(k)
      invariant |vars| == i
    {
      if VarName(i) in vars {
        var k :| 0 <= k < i && VarName(i) == VarName(k);
        VarNameInjective(i, k);
        assert false;
      }
      vars := vars[VarName(i) := ids[i]];
    }
  }

  // ---------------------------------------------------------------------
  // Replies and the media store

  /** The request body: the query text and its variables. */
  datatype Request = Request(query: string, variables: map<string, int>)

  /** The query and variables `anilist_get_anime_info` sends for a batch. */
  method BuildRequest(ids: seq<int>) returns (request: Request)
    ensures request.query == QueryText(|ids|)
    ensures IsIdVariables(ids, request.variables)
    ensures |request.variables| == |ids|
  {
    var query := BuildQuery(|ids|);
    var vars := BuildVariables(ids);
    request := Request(query, vars);
  }

  /** What the server answers, as far as the code looks at it: a `data`
      object holding the media of each alias (id and record), or no `data`
      object and an `errors` array (too many requests). */
  datatype Reply<M> = Data(media: seq<(int, M)>) | Errors

  /** Each media record stored under its id, in reply order. */
  function InsertAll<M>(store: map<int, M>, media: seq<(int, M)>): map<int, M>
  {
    if media == [] then store
    else InsertAll(store, media[..|media| - 1])[media[|media| - 1].0 := media[|media| - 1].1]
  }

  /** After storing, the keys are the old keys plus the reply's ids, a
      reply id holds the record of its last occurrence, and every other
      entry is kept. */
  lemma InsertAllSpec<M>(store: map<int, M>, media: seq<(int, M)>)
    ensures InsertAll(store, media).Keys == store.Keys + set i | 0 <= i < |media| :: media[i].0
    ensures forall i :: 0 <= i < |media| && (forall j :: i < j < |media| ==> media[j].0 != media[i].0)
                 ==> InsertAll(store, media)[media[i].0] == media[i].1
    ensures forall id :: id in store && (forall i :: 0 <= i < |media| ==> media[i].0 != id)
                 ==> InsertAll(store, media)[id] == store[id]
  {
    InsertAllKeys(store, media);
    InsertAllLast(store, media);
    InsertAllKeeps(store, media);
  }

  lemma {:induction false} InsertAllKeys<M>(store: map<int, M>, media: seq<(int, M)>)
    ensures InsertAll(store, media).Keys == store.Keys + set i | 0 <= i < |media| :: media[i].0
  {
    if media != [] {
      var init := media[..|media| - 1];
      var last := |media| - 1;
      InsertAllKeys(store, init);
      assert (set i | 0 <= i < |media| :: media[i].0)
          == (set i | 0 <= i < |init| :: init[i].0) + {media[last].0};
    }
  }

  lemma InsertAllLast<M>(store: map<int, M>, media: seq<(int, M)>)
    ensures forall i :: 0 <= i < |media| && (forall j :: i < j < |media| ==> media[j].0 != media[i].0)
                 ==> media[i].0 in InsertAll(store, media) && InsertAll(store, media)[media[i].0] == media[i].1
  {
    forall i | 0 <= i < |media| && (forall j :: i < j < |media| ==> media[j].0 != media[i].0)
      ensures media[i].0 in InsertAll(store, media) && InsertAll(store, media)[media[i].0] == media[i].1
    {
      InsertAllAt(store, media, i);
    }
  }

  /** The record stored under the id of position `i`, when no later
      position has that id, is the record of position `i`. */
  lemma {:induction false} InsertAllAt<M>(store: map<int, M>, media: seq<(int, M)>, i: nat)
    requires i < |media| && forall j :: i < j < |media| ==> media[j].0 != media[i].0
    ensures media[i].0 in InsertAll(store, media) && InsertAll(store, media)[media[i].0] == media[i].1
  {
    var init := media[..|media| - 1];
    if i < |init| {
      forall j | i < j < |init| ensures init[j].0 != init[i].0 {
        assert init[j] == media[j] && init[i] == media[i];
      }
      InsertAllAt(store, init, i);
    }
  }

  lemma {:induction false} InsertAllKeeps<M>(store: map<int, M>, media: seq<(int, M)>)
    ensures forall id :: id in store && (forall i :: 0 <= i < |media| ==> media[i].0 != id)
                 ==> id in InsertAll(store, media) && InsertAll(store, media)[id] == store[id]
  {
    if media != [] {
      var init := media[..|media| - 1];
      var last := |media| - 1;
      InsertAllKeeps(store, init);
      var r := InsertAll(store, media);
      assert r == InsertAll(store, init)[media[last].0 := media[last].1];
      forall id | id in store && (forall i :: 0 <= i < |media| ==> media[i].0 != id)
        ensures id in r && r[id] == store[id]
      {
        assert forall i :: 0 <= i < |init| ==> init[i] == media[i];
        assert media[last].0 != id;
      }
    }
  }

  /** The store after the first `k` replies. */
  function Applied<M>(store: map<int, M>, replies: nat -> Reply<M>, k: nat): map<int, M>
  {
    if k == 0 then store
    else
      var before := Applied(store, replies, k - 1);
      match replies(k - 1)
      case Data(media) => InsertAll(before, media)
      case Errors => before
  }

  /** `GLOBAL_ANIME_DATA`, the media records known by id. */
  class AnimeCache<M> {
    var anime: map<int, M>

    constructor()
      ensures anime == map[]
    {
      anime := map[];
    }

    /** `anilist_get_anime_info`: an empty batch succeeds without a request;
        otherwise the request built by `BuildRequest` goes out, and the reply
        either stores its media (true) or is an error (false, nothing
        stored). */
    method GetAnimeInfo(ids: seq<int>, reply: Reply<M>) returns (ok: bool)
      modifies this
      ensures ids == [] ==> ok && anime == old(anime)
      ensures ids != [] ==> ok == reply.Data?
      ensures ids != [] && reply.Data? ==> anime == InsertAll(old(anime), reply.media)
      ensures reply.Errors? ==> anime == old(anime)
    {
      if |ids| == 0 {
        return true;
      }
      var request := BuildRequest(ids);
      match reply {
        case Errors =>
          return false;
        case Data(media) =>
          var i := 0;
          while i < |media|
            invariant i <= |media|
            invariant anime == InsertAll(old(anime), media[..i])
          {
            assert media[..i + 1][..i] == media[..i];
            anime := anime[media[i].0 := media[i].1];
            i := i + 1;
          }
          assert media[..i] == media;
          ok := true;
      }
    }

    /** `anilist_get_anime_info_split`: the ids go out in chunks of 19, one
        request per chunk, stopping after the first chunk whose reply is an
        error. `replies(k)` is the reply to the k-th request. */
    method GetAnimeInfoSplit(ids: seq<int>, replies: nat -> Reply<M>) returns (sent: nat)
      modifies this
      ensures sent <= ChunkCount(|ids|)
      ensures ids != [] ==> sent > 0
      ensures forall k :: 0 <= k < sent - 1 ==> replies(k).Data?
      ensures sent < ChunkCount(|ids|) ==> sent > 0 && replies(sent - 1).Errors?
      ensures anime == Applied(old(anime), replies, sent)
    {
      var chunks := SplitIds(ids);
      ChunkCountBound(|ids|, 0);
      sent := 0;
      var k := 0;
      while k < |chunks|
        invariant k <= |chunks| && sent == k
        invariant forall j :: 0 <= j < k ==> replies(j).Data?
        invariant anime == Applied(old(anime), replies, k)
      {
        ChunkSizes(ids, k);
        ghost var before := anime;
        var ok := GetAnimeInfo(chunks[k], replies(k));
        assert anime == (if replies(k).Data? then InsertAll(before, replies(k).media) else before);
        assert anime == Applied(old(anime), replies, k + 1);
        sent := k + 1;
        if !ok {
          return;
        }
        k := k + 1;
      }
    }
  }

  // ---------------------------------------------------------------------
  // The list-entry mutation

  /** `UserAnimeInfo` of `api_calls.rs`. */
  datatype UserAnimeInfo = UserAnimeInfo(id: int, mediaId: int, status: string, score: int, progress: int,
                                         startedAt: Option<Date>, completedAt: Option<Date>)

  /** The JSON values the variables take. */
  datatype Json = Null | Number(n: int) | Text(s: string)

  /** `json!` of an optional number. */
  function JsonOf(v: Option<int>): Json
  {
    match v
    case None => Null
    case Some(n) => Number(n)
  }

  /** `ANIME_UPDATE_ENTRY`, in parts: the fixed text (the variable list
      head, the call head and the selected fields) around the four parts
      that `replace` may cut out, the start-date and end-date variable
      declarations and the `startedAt` and `completedAt` arguments. */
  datatype Piece = Header | StartDecl | EndDecl | Call | StartArg | EndArg | Selection

  function PieceText(p: Piece): string
  {
    match p
    case Header => "mutation ($id: Int, $status: MediaListStatus, $score: Float, $progress: Int"
    case StartDecl => ", $syear: Int, $smonth: Int, $sday: Int"
    case EndDecl => ", $eyear: Int, $emonth: Int, $eday: Int"
    case Call => ") { \n    SaveMediaListEntry (id: $id, status: $status, score: $score, progress: $progress"
    case StartArg => ", startedAt: {year: $syear, month: $smonth, day: $sday}"
    case EndArg => ", completedAt: {year: $eyear, month: $emonth, day: $eday}"
    case Selection => ") {\n        id\n        mediaId\n        status\n        score\n        progress\n        startedAt {\n            year\n            month\n            day\n        }\n        completedAt {\n            year\n            month\n            day\n        }\n    }\n}"
  }

  /** The variables of the mutation; `Key` gives each one's JSON name. */
  datatype Var = Id | Status | Score | Progress | SYear | SMonth | SDay | EYear | EMonth | EDay

  function Key(v: Var): (k: string)
    ensures |k| > 0
  {
    match v
    case Id => "id"
    case Status => "status"
    case Score => "score"
    case Progress => "progress"
    case SYear => "syear"
    case SMonth => "smonth"
    case SDay => "sday"
    case EYear => "eyear"
    case EMonth => "emonth"
    case EDay => "eday"
  }

  /** The date variables a part names. */
  function PieceVars(p: Piece): set<Var>
  {
    match p
    case StartDecl => {SYear, SMonth, SDay}
    case StartArg => {SYear, SMonth, SDay}
    case EndDecl => {EYear, EMonth, EDay}
    case EndArg => {EYear, EMonth, EDay}
    case _ => {}
  }

  const MutationTemplate: seq<Piece> := [Header, StartDecl, EndDecl, Call, StartArg, EndArg, Selection]

  /** The template holds every part. */
  lemma TemplateHoldsAll(p: Piece)
    ensures p in MutationTemplate
  {
    match p
    case Header => assert MutationTemplate[0] == p;
    case StartDecl => assert MutationTemplate[1] == p;
    case EndDecl => assert MutationTemplate[2] == p;
    case Call => assert MutationTemplate[3] == p;
    case StartArg => assert MutationTemplate[4] == p;
    case EndArg => assert MutationTemplate[5] == p;
    case Selection => assert MutationTemplate[6] == p;
  }

  /** The text of a list of parts, each written by `text`. */
  function Render<T>(ps: seq<T>, text: T -> string): string
  {
    if ps == [] then "" else text(ps[0]) + Render(ps[1..], text)
  }

  /** `replace(part, "")` on a text holding the part once: the part is cut
      out. */
  function Remove<T(==,!new)>(ps: seq<T>, p: T): (r: seq<T>)
    ensures forall q :: q in r <==> q in ps && q != p
  {
    if ps == [] then []
    else (if ps[0] == p then [] else [ps[0]]) + Remove(ps[1..], p)
  }

  /** Removing a part that occurs once, between `a` and `b`, leaves `a + b`. */
  lemma RemoveOnly<T(!new)>(a: seq<T>, p: T, b: seq<T>)
    requires p !in a && p !in b
    ensures Remove(a + [p] + b, p) == a + b
  {
    RemoveAppend(a + [p], b, p);
    RemoveAppend(a, [p], p);
    RemoveOutside(a, p);
    RemoveOutside(b, p);
    assert Remove([p], p) == [];
  }

  lemma {:induction false} RenderAppend<T>(a: seq<T>, b: seq<T>, text: T -> string)
    ensures Render(a + b, text) == Render(a, text) + Render(b, text)
  {
    if a != [] {
      assert (a + b)[1..] == a[1..] + b;
      RenderAppend(a[1..], b, text);
    } else {
      assert a + b == b;
    }
  }

  lemma {:induction false} RemoveOutside<T(!new)>(ps: seq<T>, p: T)
    requires p !in ps
    ensures Remove(ps, p) == ps
  {
    if ps != [] {
      RemoveOutside(ps[1..], p);
      assert ps == [ps[0]] + ps[1..];
    }
  }

  lemma {:induction false} RemoveAppend<T(!new)>(a: seq<T>, b: seq<T>, p: T)
    ensures Remove(a + b, p) == Remove(a, p) + Remove(b, p)
  {
    if a != [] {
      assert (a + b)[1..] == a[1..] + b;
      RemoveAppend(a[1..], b, p);
    } else {
      assert a + b == b;
    }
  }

  /** Removing a part that occurs once keeps the other parts in order. */
  lemma RemoveOnce<T(!new)>(ps: seq<T>, i: nat)
    requires i < |ps|
    requires forall j :: 0 <= j < |ps| && j != i ==> ps[j] != ps[i]
    ensures Remove(ps, ps[i]) == ps[..i] + ps[i + 1..]
  {
    var x := ps[i];
    var before := ps[..i];
    var after := ps[i + 1..];
    assert ps == before + [x] + after;
    assert x !in before && x !in after;
    RemoveOutside(before, x);
    RemoveOutside(after, x);
    RemoveAppend(before + [x], after, x);
    RemoveAppend(before, [x], x);
    assert Remove([x], x) == [];
    assert Remove(before + [x], x) == before;
  }

  /** Removing a part that occurs once leaves the text before it followed by
      the text after it. */
  lemma RemoveCutsText<T(!new)>(ps: seq<T>, i: nat, text: T -> string)
    requires i < |ps|
    requires forall j :: 0 <= j < |ps| && j != i ==> ps[j] != ps[i]
    ensures Render(ps, text) == Render(ps[..i], text) + text(ps[i]) + Render(ps[i + 1..], text)
    ensures Render(Remove(ps, ps[i]), text) == Render(ps[..i], text) + Render(ps[i + 1..], text)
  {
    var x := ps[i];
    var before := ps[..i];
    var after := ps[i + 1..];
    assert ps == before + [x] + after;
    RenderAppend(before + [x], after, text);
    RenderAppend(before, [x], text);
    assert Render([x], text) == text(x);
    RemoveOnce(ps, i);
    RenderAppend(before, after, text);
  }

  /** Whether `update_user_entry` keeps a part: a date part only when its
      date is present. */
  predicate Kept(p: Piece, entry: UserAnimeInfo)
  {
    match p
    case StartDecl => entry.startedAt.Some?
    case StartArg => entry.startedAt.Some?
    case EndDecl => entry.completedAt.Some?
    case EndArg => entry.completedAt.Some?
    case _ => true
  }

  /** The keys every mutation sets. */
  const BaseVars: set<Var> := {Id, Status, Score, Progress}

  /** The mutation text of `update_user_entry`: the template without the
      start-date parts when the start date is absent and without the
      completion-date parts when the completion date is absent. */
  method TrimMutation(entry: UserAnimeInfo) returns (mutation: seq<Piece>)
    ensures forall p :: p in mutation <==> Kept(p, entry)
    ensures mutation == [Header] + (if entry.startedAt.Some? then [StartDecl] else [])
                                 + (if entry.completedAt.Some? then [EndDecl] else []) + [Call]
                                 + (if entry.startedAt.Some? then [StartArg] else [])
                                 + (if entry.completedAt.Some? then [EndArg] else []) + [Selection]
  {
    // `to_string` makes an owned copy of the template
    mutation := MutationTemplate[..|MutationTemplate|];
    assert mutation == MutationTemplate == Trimmed(true, true);
    if entry.startedAt.None? {
      TrimStart();
      mutation := Remove(mutation, StartDecl);
      mutation := Remove(mutation, StartArg);
    }
    if entry.completedAt.None? {
      TrimEnd(entry.startedAt.Some?);
      mutation := Remove(mutation, EndDecl);
      mutation := Remove(mutation, EndArg);
    }
    TrimmedKept(entry, mutation);
  }

  /** `update_user_entry` up to the request: the mutation loses the date
      parts whose date is absent, and the variables get the day, month and
      year of each date that is present. */
  method UpdateEntryRequest(entry: UserAnimeInfo) returns (mutation: seq<Piece>, variables: map<Var, Json>)
    ensures forall p :: p in mutation <==> Kept(p, entry)
    ensures mutation == [Header] + (if entry.startedAt.Some? then [StartDecl] else [])
                                 + (if entry.completedAt.Some? then [EndDecl] else []) + [Call]
                                 + (if entry.startedAt.Some? then [StartArg] else [])
                                 + (if entry.completedAt.Some? then [EndArg] else []) + [Selection]
    ensures variables.Keys == BaseVars + (if entry.startedAt.Some? then PieceVars(StartDecl) else {})
                                       + (if entry.completedAt.Some? then PieceVars(EndDecl) else {})
    ensures variables[Id] == Number(entry.id) && variables[Status] == Text(entry.status)
    ensures variables[Score] == Number(entry.score) && variables[Progress] == Number(entry.progress)
    ensures entry.startedAt.Some? ==>
      var d := entry.startedAt.value;
      variables[SYear] == JsonOf(d.year) && variables[SMonth] == JsonOf(d.month) && variables[SDay] == JsonOf(d.day)
    ensures entry.completedAt.Some? ==>
      var d := entry.completedAt.value;
      variables[EYear] == JsonOf(d.year) && variables[EMonth] == JsonOf(d.month) && variables[EDay] == JsonOf(d.day)
  {
    mutation := TrimMutation(entry);
    variables := map[Id := Number(entry.id), Status := Text(entry.status),
                     Score := Number(entry.score), Progress := Number(entry.progress)];
    if entry.startedAt.Some? {
      var started := entry.startedAt.value;
      variables := variables[SYear := JsonOf(started.year)];
      variables := variables[SMonth := JsonOf(started.month)];
      variables := variables[SDay := JsonOf(started.day)];
    }
    assert variables.Keys == BaseVars + (if entry.startedAt.Some? then PieceVars(StartDecl) else {});
    if entry.completedAt.Some? {
      var completed := entry.completedAt.value;
      variables := variables[EYear := JsonOf(completed.year)];
      variables := variables[EMonth := JsonOf(completed.month)];
      variables := variables[EDay := JsonOf(completed.day)];
    }
  }

  /** The mutation with the start parts present exactly when `started` and
      the completion parts exactly when `completed`. */
  function Trimmed(started: bool, completed: bool): seq<Piece>
  {
    [Header] + (if started then [StartDecl] else []) + (if completed then [EndDecl] else []) + [Call]
             + (if started then [StartArg] else []) + (if completed then [EndArg] else []) + [Selection]
  }

  /** Dropping the start parts from the template. */
  lemma TrimStart()
    ensures Remove(Remove(MutationTemplate, StartDecl), StartArg) == Trimmed(false, true)
  {
    assert MutationTemplate == [Header] + [StartDecl] + [EndDecl, Call] + [StartArg] + [EndArg, Selection];
    RemovePair([Header], StartDecl, [EndDecl, Call], StartArg, [EndArg, Selection]);
    assert Trimmed(false, true) == [Header] + [EndDecl, Call] + [EndArg, Selection];
  }

  /** Dropping the completion parts, with or without the start parts. */
  lemma TrimEnd(started: bool)
    ensures Remove(Remove(Trimmed(started, true), EndDecl), EndArg) == Trimmed(started, false)
  {
    var decl := if started then [StartDecl] else [];
    var arg := if started then [StartArg] else [];
    assert Trimmed(started, true) == [Header] + decl + [EndDecl] + ([Call] + arg) + [EndArg] + [Selection];
    RemovePair([Header] + decl, EndDecl, [Call] + arg, EndArg, [Selection]);
    assert Trimmed(started, false) == [Header] + decl + ([Call] + arg) + [Selection];
  }

  /** Removing two parts that occur once each, in that order, leaves the rest. */
  lemma RemovePair<T(!new)>(a: seq<T>, p: T, b: seq<T>, q: T, c: seq<T>)
    requires p !in a && p !in b && p !in c && q !in a && q !in b && q !in c && p != q
    ensures Remove(Remove(a + [p] + b + [q] + c, p), q) == a + b + c
  {
    assert a + [p] + b + [q] + c == a + [p] + (b + [q] + c);
    RemoveOnly(a, p, b + [q] + c);
    assert a + (b + [q] + c) == (a + b) + [q] + c;
    RemoveOnly(a + b, q, c);
  }

  /** The parts of the trimmed mutation are exactly the kept ones. */
  lemma TrimmedKept(entry: UserAnimeInfo, mutation: seq<Piece>)
    requires mutation == [Header] + (if entry.startedAt.Some? then [StartDecl] else [])
                                  + (if entry.completedAt.Some? then [EndDecl] else []) + [Call]
                                  + (if entry.startedAt.Some? then [StartArg] else [])
                                  + (if entry.completedAt.Some? then [EndArg] else []) + [Selection]
    ensures forall p :: p in mutation <==> Kept(p, entry)
  {
  }

  /** The trimmed mutation and its variables agree: every date variable a
      kept part names is set, and every date variable set is declared by a
      kept part. */
  lemma MutationMatchesVariables(entry: UserAnimeInfo, mutation: seq<Piece>, variables: map<Var, Json>)
    requires forall p :: p in mutation <==> Kept(p, entry)
    requires variables.Keys == BaseVars + (if entry.startedAt.Some? then PieceVars(StartDecl) else {})
                                        + (if entry.completedAt.Some? then PieceVars(EndDecl) else {})
    ensures forall p :: p in mutation ==> PieceVars(p) <= variables.Keys
    ensures forall v :: v in variables.Keys - BaseVars ==>
      (StartDecl in mutation && v in PieceVars(StartDecl)) || (EndDecl in mutation && v in PieceVars(EndDecl))
  {
  }
}
