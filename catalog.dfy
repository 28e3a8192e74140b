/** The catalogue entities of `anime_data.rs` that the filename matcher and
    the episode-file table work on, reduced to the fields those operations
    read, and the constants they use. */
module Catalog {
  import opened Wrappers
  import opened Titles

  /** `SIMILARITY_SCORE_THRESHOLD` of `constants.rs`. */
  const SimilarityThreshold: real := 0.8

  datatype Title = Title(
    english: Option<string>, native: Option<string>, romaji: Option<string>,
    userPreferred: Option<string>, custom: Option<string>)

  /** One edge of `relations.edges`: the relation type and the related id. */
  datatype Edge = Edge(relationType: string, nodeId: int)

  /** `AnimeInfo`, with the fields the modelled operations read. */
  datatype AnimeInfo = AnimeInfo(
    id: int, episodes: Option<int>, format: Option<string>, genres: seq<string>,
    seasonYear: Option<int>, title: Title, synonyms: seq<string>, edges: seq<Edge>)

  /** `IdentifyInfo`: what the filename matcher learns about one file. */
  datatype IdentifyInfo = IdentifyInfo(
    filename: string, fileTitle: string, mediaId: int, similarityScore: real,
    mediaTitle: string, subGroup: string, resolution: int, episode: int, episodeLength: int)

  /** `AnimePath`: the file chosen for one episode and its match score. */
  datatype AnimePath = AnimePath(path: string, similarityScore: real)

  /** `RecommendTally`: a recommended id and its rating. */
  datatype RecommendTally = RecommendTally(id: int, rating: real)

  /** The titles `title_compare` compares against, in its order: english,
      romaji and custom when present, then the synonyms. */
  function TitleList(a: AnimeInfo): seq<string>
  {
    (if a.title.english.Some? then [a.title.english.value] else [])
    + (if a.title.romaji.Some? then [a.title.romaji.value] else [])
    + (if a.title.custom.Some? then [a.title.custom.value] else [])
    + a.synonyms
  }

  /** The title variants of an entry: its titles, each normalised. */
  function Variants(a: AnimeInfo): seq<string>
  {
    NormalizeAll(TitleList(a))
  }

  function NormalizeAll(ss: seq<string>): seq<string>
  {
    if ss == [] then [] else [Normalize(ss[0])] + NormalizeAll(ss[1..])
  }

  lemma {:induction false} NormalizeAllPointwise(ss: seq<string>)
    ensures |NormalizeAll(ss)| == |ss|
    ensures forall i :: 0 <= i < |ss| ==> NormalizeAll(ss)[i] == Normalize(ss[i])
  {
    if ss != [] {
      var rest := NormalizeAll(ss[1..]);
      NormalizeAllPointwise(ss[1..]);
      assert NormalizeAll(ss) == [Normalize(ss[0])] + rest;
      forall i | 0 < i < |ss| ensures NormalizeAll(ss)[i] == Normalize(ss[i]) {
        assert NormalizeAll(ss)[i] == rest[i - 1];
        assert ss[1..][i - 1] == ss[i];
      }
    }
  }

  /** Exactly the normalised titles of the entry are compared: english,
      romaji, custom and every synonym, and not the native or user-preferred
      title unless it is also one of those. */
  lemma VariantsAreTitles(a: AnimeInfo)
    ensures forall v :: v in Variants(a) <==> exists t :: t in TitleList(a) && v == Normalize(t)
    ensures forall s :: s in a.synonyms ==> Normalize(s) in Variants(a)
    ensures a.title.english.Some? ==> Normalize(a.title.english.value) in Variants(a)
    ensures a.title.romaji.Some? ==> Normalize(a.title.romaji.value) in Variants(a)
    ensures a.title.custom.Some? ==> Normalize(a.title.custom.value) in Variants(a)
    ensures |Variants(a)| == |TitleList(a)| <= 3 + |a.synonyms|
  {
    var ts := TitleList(a);
    var vs := Variants(a);
    NormalizeAllPointwise(ts);
    forall v | v in vs ensures exists t :: t in ts && v == Normalize(t) {
      var i :| 0 <= i < |vs| && vs[i] == v;
      assert ts[i] in ts;
    }
    forall t | t in ts ensures Normalize(t) in vs {
      var i :| 0 <= i < |ts| && ts[i] == t;
      assert vs[i] == Normalize(t);
    }
    assert forall s :: s in a.synonyms ==> s in ts;
  }

  /** `REMOVE_INFO`: encoding, source and release-group tags deleted from a
      file title, in the order they are deleted. */
  const RemoveInfo: seq<string> := [
    " mkv", " mp4", " avi", ".mkv", ".mp4", ".avi", "HEVC-10bit", "HEVC-10", "HEVC10", "HEVC",
    "x264-KRP", "x264-KQRM", "x264-VARYG", "H 264-VARYG", "x264", "x265", "10bits", "10bit",
    "10Bit", "Hi10P", "Hi10", "Bluray", "BluRay", "YUV420P10LE", "AVC-YUV420P10", "AVC", "FLAC2.0",
    "FLAC2 0", "FLAC 2 0", "2xFLAC", "3xFLAC", "FLAC", "English Subbed", "English Sub",
    "English Dub", "EnglIsh Dub", "WEB-DL", "AV1", "DualA", "Dual audio", "Multiple Subtitle",
    "BDrip", "BDRip", "US BD", "UK BD-Remux", "UK BD-Remux", "BD-Rip", "BDRIP", "JP.BD", "WEBDL",
    "BD", "h264_qsv", "H264", "h264", "DTSx2", "DTS", "-DualPlease", "Dual", "Opus2 0", "Opus",
    "2xOPUS", "3xOPUS", "OPUS", "Multi-Subs", "Multi-Sub", "Multi-Audio", "EAC3", "E-AC3", "AC3",
    "AAC5 0", "AAC2 0", "2xAAC", "xHE-AAC", "AAC", "Multi Subs", "Multi Sub", "WebRip", "WEB-RIP",
    "WEBRip", "WEB", "ENG", " Eng", "Eng ", "CR", "FUNi-DL", "FUNi", "FUNI", "HIDI", "HID",
    "English-Japanese Audio", "Japanese Audio", "Audio", "Remux", "4k", "4K", "NF", "X264", "Flac",
    "Bdrip", "dual audio", "multisub", "MultiSubs", "Multi", "Web-Rip", "Webrip", "Web", "8bit",
    "JP", "WeTV-Corrected", "TV Rip", "TV", "RAW", "E-AC-3", "DUAL AUDIO", "MULTI-SUB", "MULTI",
    "EAC-3", "H 264-ZigZag", "264-ZigZag", "REMUX", "LPCM 2 0", "LPCM", "PCM 2 0", "PCM", "TrueHD",
    "AC-3", "END", "DVD-Rip", "DSNP", "-ZeroBuild", "Blu-Ray", "AMZN", "SRTx4", "DDP5 1", "DDP5",
    "HDR10", "HDR", "DVDRip", "DVD", "DV", "DDP 2 0", "DDP2 0", "DDP2", "264-KQRM", "JA+EN",
    "264-VARYG", "JAP", "10-bit", "(Weekly)", "(Uncensored)", "10 bits", "10 bit", "WVH", "WV",
    "VVC", "H.264", "H 264", "x 264", "DEXA", "143 8561fps", "ADN", "8-bit", "DTS-HD MA", "5 1",
    "SEV", "Kira ", "10-Bit", "Blu-ray", "Jpn", "H265", "H 265", "h 264", "-YUV444P10",
    "DUAL-AUDIO", "VHS", "UHD", "-iAHD", "HD", "[Japanese]", "(Japanese)", "Remaster",
    "-Tsundere-Raws", "B-Global", "-LYS1TH3A", "-Emmid", "HULU", "REPACK", "(Dub)", "-Rapta",
    "-Lazy", "-YURASUKA", "[}", "MKV", "Donghua", "-aKraa", " » Myanime live", "REMASTERED",
    "ENCODE", "-ZR-", "h265", "dvd", "EN ", "Jap", "BILI", "WIP", "MA", "ASS"
  ]
}
