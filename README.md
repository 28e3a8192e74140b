# Gekijou core, modelled in Dafny

Gekijou is a desktop anime-list manager: a Tauri application with a Rust
backend and a JavaScript front end, backed by the AniList GraphQL API. This
project models the logic of its core and proves properties of that model.

- **File-name recognition** (`anime_data.rs`). The pipeline turns a video
  file name into a title, an episode number, a resolution and a release
  group. It then finds the catalogue entry whose title variants are most
  similar to the title, remaps an episode past the end of a season onto the
  sequel season, and fixes the episode of single-episode entries.
- **The episode-file table** (`anime_data.rs`). This is the map from media
  id and episode to the best-scoring file path. The model covers the
  insertion done by a folder scan, the pruning of missing files, the listing
  of the episodes on disk, and the recommendation filters.
- **The user's list bookkeeping** (`user_data.rs`). Per-media entries are
  kept in step with per-status lists of media ids. Setting an entry fills in
  start and completion dates. The progress counter is bounded by the episode
  count. Partially known dates have their own comparator.
- **Front-end helpers** (`main.js`, `anime_info_window.js`):
  - the "episodes on disk" text;
  - the date number and date text, and the parse of the date inputs;
  - the choice of title language;
  - the score clamp;
  - the paging guard of the list view;
  - the previous/next buttons of the information window;
  - the torrent filter options.
- **The torrent feed reader** (`rss_parser.rs`). It folds the XML reader
  events of an RSS 2.0 feed into one entry per `<item>` (RSS 2.0
  specification, section "Elements of `<item>`"). The model also covers the
  request URL and the clean-up of the response text.
- **The AniList request side** (`api_calls.rs`):
  - batches of media ids are split into requests of 19;
  - the text and variables of a batched media query are built;
  - the media of a reply are stored;
  - the list-entry mutation is trimmed to the dates that are known.

Modules:

| file | module | models |
|---|---|---|
| `wrappers.dfy` | `Wrappers` | `Option` and `Result` |
| `strings.dfy` | `Strings` | decimal text, `str::replace`, `str::find`, JavaScript `split`, `parseInt` and string order |
| `patterns.dfy` | `Patterns` | the fixed regular expressions of `anime_data.rs`, as hand-written leftmost-first matchers |
| `titles.dfy` | `Titles` | `replace_special_vowels`, ASCII lower-casing, the pre-dash prefix |
| `catalog.dfy` | `Catalog` | `AnimeInfo`, `IdentifyInfo`, `AnimePath` and the title variants of an entry |
| `episode_number.dfy` | `EpisodeNumber` | `identify_number` and `extract_number` |
| `identify.dfy` | `Identify` | the string steps of `identify_anime` |
| `anime_data.dfy` | `AnimeLibrary` | the `AnimeData` class: matching, sequel remapping, the file table, filters |
| `dates.dfy` | `Dates` | `Date`/`AnilistDate` and their comparator |
| `user_data.dfy` | `UserLists` | the `UserData` class |
| `date_text.dfy` | `DateText` | the front end's date helpers |
| `front_end.dfy` | `FrontEnd` | the other front-end helpers, with the paging globals as the `Pager` class |
| `rss.dfy` | `Rss` | the feed reader |
| `api_calls.dfy` | `AniList` | request batching, query text, the reply store, the mutation |

The matcher scores candidates with `strsim::normalized_levenshtein`, which
is the parameter `sim` here. It accepts a score above
`SIMILARITY_SCORE_THRESHOLD = 0.8` (`src-tauri/src/constants.rs:5`). It
reports "no match" as id 0 with score 0, which is `NoMatch` here.

## Model

| member | source | states |
|---|---|---|
| Strings.NatToString | src-tauri/src/api_calls.rs:527 | `to_string` of a non-negative number is a non-empty run of digits without a leading zero |
| Strings.NatToStringRoundTrip | src-tauri/src/api_calls.rs:527 | reading the decimal text of `n` back gives `n` |
| Strings.NatToStringInjective | src-tauri/src/api_calls.rs:527 | distinct numbers have distinct decimal texts, so `$idK` names differ |
| Strings.ReplaceAll | src-tauri/src/anime_data.rs:483 | `str::replace` only keeps characters of the input or of the replacement |
| Strings.ReplaceCharPointwise | src-tauri/src/anime_data.rs:483-485 | replacing one character by another keeps the length and changes exactly the positions holding that character |
| Strings.ReplaceCharAppend | src-tauri/src/anime_data.rs:483 | replacing a single character distributes over concatenation |
| Strings.ReplaceCharAbsent | src-tauri/src/anime_data.rs:483 | replacing a character that does not occur changes nothing |
| Strings.WithoutCharKeeps | src-tauri/src/rss_parser.rs:35-36 | deleting one character keeps every other character present exactly when it was present |
| Strings.SplitNoSep | src/main.js:1588 | text without the separator splits into itself alone |
| Strings.RemoveCharIsFilter | src-tauri/src/rss_parser.rs:35-36 | deleting a character is the filter that drops that character |
| Strings.Find | src-tauri/src/anime_data.rs:514 | `str::find` gives the first position where the pattern occurs, or none when it occurs nowhere |
| Strings.CountChar | src-tauri/src/anime_data.rs:484 | `matches(c).count()` is 0 exactly when `c` is absent |
| Strings.AsciiLower | src-tauri/src/anime_data.rs:653-661 | `to_ascii_lowercase` keeps the length and lowers exactly the letters A-Z |
| Strings.Split | src/main.js:1588 | JavaScript `split` gives at least one part and no part holds the separator |
| Strings.SplitAppend | src/main.js:1588 | splitting `a + sep + b` with `a` free of the separator gives `a`, then the parts of `b` |
| Strings.ParseInt | src/main.js:1590 | `parseInt`: an optional sign and the digit run after it, `None` (NaN) without a digit; `ParseIntOfNat` states that it reads back a number's decimal text |
| Strings.ParseIntOfNat | src/main.js:1590 | `parseInt` of a decimal text followed by a non-digit gives the number |
| Strings.LessEqTotal | src/main.js:1784 | the default string order of `sort()` is total |
| Strings.LessEqTransitive | src/main.js:1784 | that order is transitive |
| Strings.LessEqAntisymmetric | src/main.js:1784 | that order is antisymmetric |
| Patterns.ChecksumAt | src-tauri/src/anime_data.rs:206 | a `CHECKSUM` match lies within the text |
| Patterns.ResolutionAt | src-tauri/src/anime_data.rs:203 | a `RESOLUTION` match lies within the text and captures a run of digits |
| Patterns.ResolutionWxHAt | src-tauri/src/anime_data.rs:204 | a `RESOLUTION2` match lies within the text and captures the height digits |
| Patterns.VersionAt | src-tauri/src/anime_data.rs:200 | a `VERSION` match lies within the text |
| Patterns.EmptyBracketsAt | src-tauri/src/anime_data.rs:205 | an `EMPTY_BRACKETS` match lies within the text |
| Patterns.SubGroupAt | src-tauri/src/anime_data.rs:201 | `SUB_GROUP` matches only at the start, with a non-empty capture after `[` |
| Patterns.SubGroupBackupAt | src-tauri/src/anime_data.rs:202 | `SUB_GROUP_BACKUP` matches only up to the end of the text |
| Patterns.TrailingJunkAt | src-tauri/src/anime_data.rs:208 | `TRAILING_EMPTY_SPACE` matches only a tail made of spaces, dashes and dots |
| Patterns.DashNumberAt | src-tauri/src/anime_data.rs:556 | `" - (\d+)"` matches within the text and captures digits |
| Patterns.DashEpisodeAt | src-tauri/src/anime_data.rs:557 | `" - Episode (\d+)"` matches within the text and captures digits |
| Patterns.SeasonEpisodeAt | src-tauri/src/anime_data.rs:558 | `[sS]\d+[eE][pP]? ?(\d+)` matches within the text and captures digits |
| Patterns.EpisodeMarkerAt | src-tauri/src/anime_data.rs:559 | `[eE][pP]? ?(\d+)` matches within the text and captures digits |
| Patterns.BareNumberAt | src-tauri/src/anime_data.rs:560 | `[^vsVS](\d+)` matches within the text and captures digits |
| Patterns.MatchAt | src-tauri/src/anime_data.rs:200-208 | every pattern's match lies within the text, and the episode patterns capture a non-empty run of digits |
| Patterns.FirstFrom | src-tauri/src/anime_data.rs:488 | the leftmost match: a hit, with no hit before it; none means no hit anywhere |
| Patterns.LastFrom | src-tauri/src/anime_data.rs:575 | the match `find_iter(..).last()` picks: a hit after whose end no further match starts; none exactly when the pattern matches nowhere |
| Patterns.CaptureText | src-tauri/src/anime_data.rs:583 | the captured episode text is a non-empty run of digits |
| Patterns.RemoveFrom | src-tauri/src/anime_data.rs:488 | `replace_all(.., "")` from a position: keeps only characters of the text and never lengthens the rest. It is `Cut` over the pattern's hits; `RemoveFromNoMatch` and `RemoveFromUpTo` state what it removes |
| Patterns.Cut | src-tauri/src/anime_data.rs:488 | the scan of `replace_all(.., "")` over the hits found at each position: the result holds only characters of the text and is no longer than the rest; `CutNoHit` and `CutUpTo` state what it keeps |
| Patterns.CutNoHit | src-tauri/src/anime_data.rs:488 | with no hit from a position on, the scan keeps the rest of the text unchanged |
| Patterns.CutUpTo | src-tauri/src/anime_data.rs:533 | when the first hit from a position runs to the end of the text, the scan keeps exactly the text before that hit |
| Patterns.ExtensionMatches | src-tauri/src/anime_data.rs:207 | `EXTENSION_CHECK.is_match`: a character other than a line feed followed by `mkv` or `mp4` anywhere, or by `avi` and an optional space at the end |
| Patterns.RemoveAll | src-tauri/src/anime_data.rs:488 | `replace_all(.., "")` keeps only characters of the text and never lengthens it |
| Patterns.RemoveFromNoMatch | src-tauri/src/anime_data.rs:488 | with no match from a position on, `replace_all` leaves the rest of the text unchanged |
| Patterns.RemoveFromUpTo | src-tauri/src/anime_data.rs:533 | when the first match reaches the end of the text, removal cuts the text at the start of that match |
| Titles.ReplaceClassChars | src-tauri/src/anime_data.rs:678-688 | one class replacement only keeps characters outside the class or from the replacement, is the identity on text without class characters, and keeps non-empty text non-empty |
| Titles.VowelClassesNonAscii | src-tauri/src/anime_data.rs:226-236 | the characters of `REPLACE_A`, `REPLACE_E` and `REPLACE_I` are all non-ASCII |
| Titles.OtherVowelClassesNonAscii | src-tauri/src/anime_data.rs:226-236 | the characters of `REPLACE_O`, `REPLACE_U` and `REPLACE_Y` are all non-ASCII |
| Titles.ConsonantClassesNonAscii | src-tauri/src/anime_data.rs:226-236 | the characters of `REPLACE_AE`, `REPLACE_B`, `REPLACE_C`, `REPLACE_D` and `REPLACE_N` are all non-ASCII |
| Titles.ClassesAreNonAscii | src-tauri/src/anime_data.rs:226-236 | no class holds an ASCII character |
| Titles.PlainIsNotSpecial | src-tauri/src/anime_data.rs:678-688 | no replacement text holds a special character |
| Titles.ReplaceFromChars | src-tauri/src/anime_data.rs:678-688 | after the remaining replacements, no character of those classes is left |
| Titles.ReplacementIsPlain | src-tauri/src/anime_data.rs:678-688 | each replacement text is non-empty plain ASCII |
| Titles.ReplaceSpecialVowels | src-tauri/src/anime_data.rs:676-691 | `replace_special_vowels`, the class replacements in source order; `ReplaceSpecialVowelsChars`, `ReplaceSpecialVowelsPlain` and `ReplaceSpecialVowelsIdempotent` state that no special character is left, plain text is kept, and it is idempotent |
| Titles.ReplaceSpecialVowelsChars | src-tauri/src/anime_data.rs:676-691 | `replace_special_vowels` leaves no special character, keeps other characters or adds plain ones, and keeps non-empty text non-empty |
| Titles.ReplaceFromPlain | src-tauri/src/anime_data.rs:678-688 | the remaining replacements are the identity on text without special characters |
| Titles.ReplaceSpecialVowelsPlain | src-tauri/src/anime_data.rs:676-691 | `replace_special_vowels` is the identity on text without special characters |
| Titles.ReplaceSpecialVowelsIdempotent | src-tauri/src/anime_data.rs:676-691 | applying `replace_special_vowels` twice gives the same as once |
| Titles.Normalize | src-tauri/src/anime_data.rs:652-663 | ASCII lower-casing then `replace_special_vowels`, as applied to titles and to the file title; `NormalizeChars`, `NormalizeIdempotent` and `NormalizeIgnoresAsciiCase` state its properties |
| Titles.NormalizeChars | src-tauri/src/anime_data.rs:653-661 | a normalised title has no special character and no upper-case ASCII letter, and is non-empty when the input is |
| Titles.AsciiLowerPlain | src-tauri/src/anime_data.rs:653 | lower-casing is the identity on text without A-Z |
| Titles.NormalizeIdempotent | src-tauri/src/anime_data.rs:653-661 | normalising twice gives the same as once |
| Titles.NormalizeIgnoresAsciiCase | src-tauri/src/anime_data.rs:653-661 | titles that differ only in ASCII case normalise alike |
| Titles.PreDash | src-tauri/src/anime_data.rs:591 | `([^-]*).*` captures the longest dash-free prefix, which is followed by a dash when shorter than the text |
| Catalog.TitleList | src-tauri/src/anime_data.rs:652-656 | the english, romaji and custom titles that are present, in that order, then every synonym |
| Catalog.Variants | src-tauri/src/anime_data.rs:652-657 | the title list normalised; `VariantsAreTitles` states that these are exactly the normalised titles and synonyms |
| Catalog.NormalizeAllPointwise | src-tauri/src/anime_data.rs:652-657 | the variant list is the title list normalised element by element |
| Catalog.VariantsAreTitles | src-tauri/src/anime_data.rs:652-657 | the variants are exactly the normalised english, romaji and custom titles and every synonym; there are at most 3 plus the number of synonyms |
| EpisodeNumber.RangeAt | src-tauri/src/anime_data.rs:548 | a range match at a position is a valid `[^sS](\d+)[&-](\d+)` match there |
| EpisodeNumber.FirstRange | src-tauri/src/anime_data.rs:548-549 | the leftmost range match: nothing matches before it, and none means nothing matches anywhere |
| EpisodeNumber.ExtractNumber | src-tauri/src/anime_data.rs:573-584 | when the pattern matches, the text and number come from a match after whose end no further match starts (the last one), the number read from its capture; a non-zero number has non-empty text that occurs in the title; no match gives ("", 0) |
| EpisodeNumber.Extracted | src-tauri/src/anime_data.rs:562-563 | one extraction per pattern, in priority order: entry j is what pattern j extracts from the title |
| EpisodeNumber.FirstNonZeroIn | src-tauri/src/anime_data.rs:562-567 | over extracted numbers: no episode, or an episode above 0 of length 1 whose text and number are one of the extracted pairs |
| EpisodeNumber.FirstHitIn | src-tauri/src/anime_data.rs:562-567 | the position of the first non-zero extracted number, at most the count, which stands for none |
| EpisodeNumber.FirstNonZeroInIsFirst | src-tauri/src/anime_data.rs:562-569 | every extracted number before the first hit is 0; no episode exactly when there is no hit; a hit gives its text and number with length 1 |
| EpisodeNumber.FirstNonZero | src-tauri/src/anime_data.rs:562-569 | the pattern loop gives no episode, or an episode above 0 of length 1 whose text occurs in the title |
| EpisodeNumber.FirstHit | src-tauri/src/anime_data.rs:562-567 | the index of the winning pattern is at most the number of patterns, which stands for none |
| EpisodeNumber.FirstNonZeroIsFirst | src-tauri/src/anime_data.rs:556-569 | the result comes from the first pattern in priority order whose last match gives a number other than 0; every earlier pattern gives 0; none gives ("", 0, 0) |
| EpisodeNumber.IdentifyNumber | src-tauri/src/anime_data.rs:546-570 | a range match gives its text, episode = first number and length = second − first + 1; otherwise the pattern loop decides |
| Identify.CountCharReplace | src-tauri/src/anime_data.rs:483-484 | replacing `_` leaves the count of dots unchanged |
| Identify.Separators | src-tauri/src/anime_data.rs:483-486 | `_` becomes a space, and `.` does too when there are more than 5 dots; every other character stays where it was, so nothing else changes |
| Identify.ExtractResolution | src-tauri/src/anime_data.rs:489-503 | `NNNp` wins over `WxH`: the resolution is the number captured by the first `NNNp` match, else the height captured by the first `WxH` match; the matched pattern is removed everywhere and the resolution is non-negative; no match leaves (title, 0) |
| Identify.RemoveTokens | src-tauri/src/anime_data.rs:505-507 | deleting the noise tokens only deletes characters |
| Identify.RemoveToken | src-tauri/src/anime_data.rs:506 | deleting one token only deletes characters |
| Identify.ReplaceAllAbsent | src-tauri/src/anime_data.rs:506 | replacing a pattern that does not occur changes nothing |
| Identify.RemoveTokensAbsent | src-tauri/src/anime_data.rs:505-507 | a title holding no token is left as it is |
| Identify.CutAtEpisode | src-tauri/src/anime_data.rs:512-520 | with an episode above 0, the title is cut to the prefix before the first occurrence of the episode text; otherwise it is unchanged |
| Identify.LeadingGroup | src-tauri/src/anime_data.rs:523-525 | a leading `[group]` gives a non-empty bracket-free group, and removal drops `[group]` and one following space |
| Identify.TrailingGroup | src-tauri/src/anime_data.rs:527-530 | a trailing `-group` gives a non-empty dash-free group, and title + "-" + group is the input |
| Identify.SplitSubGroup | src-tauri/src/anime_data.rs:523-531 | the sub-group is the leading bracketed group, else the trailing dash group, else empty with the title unchanged |
| Identify.TrimTrailing | src-tauri/src/anime_data.rs:533 | the result is the longest prefix not ending in a space, `-` or `.`, and only such characters are cut |
| AnimeLibrary.Candidates | src-tauri/src/anime_data.rs:593-639 | the entries searched are all known ids, or just `only_compare` when it is known, or none |
| AnimeLibrary.DominatedMeans | src-tauri/src/anime_data.rs:659-671 | "dominated" holds iff no compared variant of any known candidate scores above the score |
| AnimeLibrary.AchievedMeans | src-tauri/src/anime_data.rs:659-671 | "achieved" holds iff some known candidate has a variant that produced the state |
| AnimeLibrary.DominatedMonotone | src-tauri/src/anime_data.rs:667 | domination survives a rise of the score |
| AnimeLibrary.DominatedStep | src-tauri/src/anime_data.rs:595-598 | one more dominated candidate extends domination over the prefix |
| AnimeLibrary.AchievedStep | src-tauri/src/anime_data.rs:595-598 | a state changed by a candidate, or kept from earlier, stays achieved over the longer prefix |
| AnimeLibrary.FirstTvSequel | src-tauri/src/anime_data.rs:729-742 | the followed SEQUEL edge leads to a known entry; none means no SEQUEL edge leads to a known TV entry |
| AnimeLibrary.EpisodeSum | src-tauri/src/anime_data.rs:738-739 | the known episode counts of the seasons a walk has left, added up; `EpisodeSumStep` states that each hop adds the count of the season it leaves |
| AnimeLibrary.EpisodeSumStep | src-tauri/src/anime_data.rs:738-739 | each hop adds the left season's episode count to the total subtracted |
| AnimeLibrary.SequelChainStep | src-tauri/src/anime_data.rs:727-739 | following the first TV SEQUEL edge of a walk's last season extends the walk |
| AnimeLibrary.Passes | src-tauri/src/anime_data.rs:1108-1143 | an entry passes each filter that is set: genre listed, season year known and within the bounds, format known and equal |
| AnimeLibrary.Filtered | src-tauri/src/anime_data.rs:1106-1145 | the kept list is an order-preserving subsequence; with a filter set, it holds exactly the items passing genre, year bounds and format, each passing item as often as in the input; with none set it is the input |
| AnimeLibrary.SubsequenceOfItself | src-tauri/src/anime_data.rs:1108 | with no filter set the list is kept whole |
| AnimeLibrary.SubsequenceDrop | src-tauri/src/anime_data.rs:1113 | `retain` that drops an element keeps a subsequence |
| AnimeLibrary.SubsequenceTail | src-tauri/src/anime_data.rs:1113 | a subsequence stays one without its first element |
| AnimeLibrary.InsertPath | src-tauri/src/anime_data.rs:877-891 | the table changes only for an accepted result (id ≠ 0, score above 0.8); then its slot exists, no entry or slot is lost, and every other slot is unchanged |
| AnimeLibrary.InsertPathKeepsBest | src-tauri/src/anime_data.rs:880-888 | an existing slot is replaced only by a strictly higher score, and the slot keeps the larger score; a new slot holds the new path |
| AnimeLibrary.InsertAll | src-tauri/src/anime_data.rs:875-891 | the file table after inserting every result of a scan in order; `InsertAllKeepsBest` states that every accepted file's slot exists with at least its score |
| AnimeLibrary.InsertAllKeepsBest | src-tauri/src/anime_data.rs:875-891 | after a scan, every accepted file's slot exists with a score at least that file's |
| AnimeLibrary.Prune | src-tauri/src/anime_data.rs:899-906 | exactly the paths that exist survive, unchanged, and no entry is left without paths |
| AnimeLibrary.RemoveEach | src-tauri/src/anime_data.rs:505-507 | the loop deletes each token in turn |
| AnimeLibrary.RemoveInfoTokens | src-tauri/src/anime_data.rs:505-507 | deleting the `REMOVE_INFO` tokens only deletes characters |
| AnimeLibrary.StripTags | src-tauri/src/anime_data.rs:483-510 | after the tag removal the title has no `_`, holds only characters of the file name or spaces, has no `.` after a dot-heavy name, and the resolution is the one `ExtractResolution` reads from the title after the separator and checksum steps (so non-negative) |
| AnimeLibrary.CleanFileTitle | src-tauri/src/anime_data.rs:483-533 | the cleaned title keeps those character properties and does not end in a space, `-` or `.` |
| AnimeLibrary.TitlesResult | src-tauri/src/anime_data.rs:660-670 | the state after scoring the variants in order: it never scores below the start, equals the start unless it scores strictly higher, and otherwise records a considered variant of this entry with its score |
| AnimeLibrary.TitlesResultBound | src-tauri/src/anime_data.rs:661-666 | no considered variant scores above the recorded state |
| AnimeLibrary.TitlesResultFirst | src-tauri/src/anime_data.rs:666-670 | the strict `>` keeps the earliest best variant: every considered variant before the recorded one scores strictly less |
| AnimeLibrary.PassResult | src-tauri/src/anime_data.rs:595-597 | the state after `title_compare` on every candidate in order: never below the start, and equal to it unless it scores strictly higher |
| AnimeLibrary.PassResultBound | src-tauri/src/anime_data.rs:595-597 | no considered variant of any candidate scores above the result of a pass |
| AnimeLibrary.PassResultFirst | src-tauri/src/anime_data.rs:595-597 | a pass that moves the state records a variant of some candidate, and every candidate before that one scores strictly less on all its considered variants: ties keep the first in order |
| AnimeLibrary.CompareTitles | src-tauri/src/anime_data.rs:660-670 | the result is `TitlesResult`; the best-so-far state moves only on a strictly higher score, to a compared variant of this entry; an empty file title changes nothing; no compared variant beats the final score |
| AnimeLibrary.AnimeData.constructor | src-tauri/src/anime_data.rs:268-270 | a new library has no entries and no files |
| AnimeLibrary.AnimeData.TitleCompare | src-tauri/src/anime_data.rs:645-672 | `title_compare` gives `TitlesResult` of the entry's variants: the score never decreases, changes only to a variant of the entry that passes the first-letter filter, and dominates every compared variant |
| AnimeLibrary.AnimeData.ComparePass | src-tauri/src/anime_data.rs:595-598 | one pass over the candidates gives `PassResult`: the final state was achieved on one of them and dominates them all |
| AnimeLibrary.AnimeData.IdentifyMediaId | src-tauri/src/anime_data.rs:586-641 | the result is `SearchResult`: the first-letter pass from no match; the full pass, from that state, only while the score is below 0.8; the pre-dash pass, from that state, only while it is still below; an unknown `only_compare` gives (0, "", 0.0); any match comes from a candidate; below the threshold the full and pre-dash passes dominate too |
| AnimeLibrary.LastTvPrequel | src-tauri/src/anime_data.rs:713-720 | the PREQUEL edge one round of the walk back takes is the last edge to a known TV entry: none exactly when there is no such edge, otherwise one such edge with no such edge after it |
| AnimeLibrary.PrequelChainStep | src-tauri/src/anime_data.rs:709-721 | following the last TV PREQUEL edge of a walk's last entry extends the walk back |
| AnimeLibrary.AnimeData.FirstSeason | src-tauri/src/anime_data.rs:708-721 | the walk back from `id` is a chain of last-TV-PREQUEL hops (`back`, starting at `id`) ending at `first`, a known entry with an episode count and no TV PREQUEL edge; `first` is in the walk's domain and of lower rank unless it is the start |
| AnimeLibrary.AnimeData.ReplaceWithSequel | src-tauri/src/anime_data.rs:695-747 | only the media id and episode change, and not at all for an unknown id, an unknown count or an episode within the count; otherwise (`Remapped`) the walk back from the entry along last TV PREQUEL edges (`back`) ends at the first season where the walk forward (`chain`) starts; each hop forward follows the first TV SEQUEL edge, is taken only while the episode exceeds the count of the season it leaves, and takes that count off; the episode is at least 1 after a hop; a walk ending beyond a season's count has no TV sequel left. Given the entry, these fix both walks and the result |
| AnimeLibrary.WalkedPastStep | src-tauri/src/anime_data.rs:725-739 | a hop taken while the episode exceeds the count of the season it leaves keeps every season left behind exceeded |
| AnimeLibrary.WalkingStep | src-tauri/src/anime_data.rs:725-745 | one hop of the walk forward keeps its state: the chain, the episode arithmetic, the seasons left only while exceeded, and a positive count taken off |
| AnimeLibrary.AnimeData.SequelWalk | src-tauri/src/anime_data.rs:723-746 | each hop follows the first TV SEQUEL edge, is taken only while the episode exceeds the count of the season it leaves, and takes that count off; the episode is at least 1 after a hop; the walk stops within a season's count, at a season with no TV sequel, or at one with no count |
| AnimeLibrary.AnimeData.EpisodeFix | src-tauri/src/anime_data.rs:750-765 | episode and length become 1 exactly when the entry has exactly one episode; nothing else changes |
| AnimeLibrary.AnimeData.IdentifyAnime | src-tauri/src/anime_data.rs:472-544 | `None` exactly when the extension check fails; otherwise the cleaned title's character properties, a non-negative resolution, and episode 1 of length 1 for single-episode entries |
| AnimeLibrary.AnimeData.InsertScanResult | src-tauri/src/anime_data.rs:877-891 | the file table becomes `InsertPath` of the old table; the catalogue is unchanged; a file is reported found exactly when accepted |
| AnimeLibrary.AnimeData.RemoveMissingFiles | src-tauri/src/anime_data.rs:899-906 | the file table becomes `Prune` of the old one |
| AnimeLibrary.AnimeData.GetExistingFiles | src-tauri/src/anime_data.rs:1002-1011 | exactly the episodes with a file, each once; none for an unknown id |
| AnimeLibrary.AnimeData.FilterAnime | src-tauri/src/anime_data.rs:1106-1145 | the in-place `retain` chain computes `Filtered` |
| Dates.Compare | src-tauri/src/user_data.rs:35-58 | `Date::cmp` (and `AnilistDate::cmp`): year, then month, then day, a missing field sorting first, with the month and day reverse tests comparing a date with itself; the `Compare…` lemmas below state its properties |
| Dates.CompareMissingYear | src-tauri/src/user_data.rs:37-38 | a date without a year is `Less` than one with a year, and `Greater` the other way |
| Dates.CompareByYear | src-tauri/src/user_data.rs:39-42 | known, different years decide |
| Dates.CompareReflexive | src-tauri/src/user_data.rs:35-58 | identical dates compare `Equal` |
| Dates.CompareGreaterReverse | src-tauri/src/user_data.rs:35-58 | whenever `Greater` is answered, the reverse question answers `Less` |
| Dates.MonthGreaterBranchIsDead | src-tauri/src/user_data.rs:45 | the month "Greater" test compares the date with itself and never fires: the days decide instead |
| Dates.NotAntisymmetric | src-tauri/src/anime_data.rs:62 | two different dates compare `Equal` one way and `Less` the other, so the comparator is not a total order |
| Dates.CompareComplete | src-tauri/src/anime_data.rs:52-77 | on fully known dates the comparator is the (year, month, day) lexicographic order, and `Equal` is equality |
| UserLists.Without | src-tauri/src/user_data.rs:170 | `retain(|id| *id != x)` removes every copy of `x` and keeps every other id |
| UserLists.TargetList | src-tauri/src/user_data.rs:171-175 | REPEATING and CURRENT both go to the CURRENT list |
| UserLists.RemovedEverywhere | src-tauri/src/user_data.rs:170 | the id is removed from every list and the list names are kept |
| UserLists.MovedLists | src-tauri/src/user_data.rs:147-177 | `check_correct_list` on the lists; `MovedListsSpec` and `MovedListsOnOneList` state that the id moves to its new list only on a real list change, and stays on at most one list |
| UserLists.MovedListsSpec | src-tauri/src/user_data.rs:149-177 | an unchanged status, or a CURRENT↔REPEATING swap, changes no list; any other change keeps the names and other ids and leaves the id exactly once on its target list, or on none when the target list is missing |
| UserLists.WithoutAbsent | src-tauri/src/user_data.rs:170 | removing an absent id changes nothing |
| UserLists.WithoutAppend | src-tauri/src/user_data.rs:176 | removing `x` from a list with `x` pushed gives the list without `x` |
| UserLists.MovedListsOnOneList | src-tauri/src/user_data.rs:168-177 | moving a media keeps every id on at most one list |
| UserLists.AdjustDates | src-tauri/src/user_data.rs:201-252 | on COMPLETED from a status other than REPEATING, a missing or empty completion date becomes today, and an empty start date becomes the completion date when there is at most one episode or the previous progress was 0; on CURRENT with progress above 0 from previous progress 0, an empty start date becomes today; when no rule fires the entry is stored as given; only the two dates ever change and a date the user entered is kept |
| UserLists.AdjustDatesIdempotent | src-tauri/src/user_data.rs:201-252 | storing the adjusted entry again against the same previous status and progress fills in nothing more |
| UserLists.UserData.constructor | src-tauri/src/user_data.rs:120-126 | a new store has no entries, no lists and no episode counts |
| UserLists.UserData.OldStatus | src-tauri/src/user_data.rs:149-153 | a media with no entry has the empty old status |
| UserLists.UserData.OldProgress | src-tauri/src/user_data.rs:192-196 | a media with no entry has old progress −1 |
| UserLists.UserData.GetUserData | src-tauri/src/user_data.rs:139-145 | the stored entry, or `Err("data does not exist")` exactly when there is none |
| UserLists.UserData.GetList | src-tauri/src/user_data.rs:263-277 | `Err("invalid list")` exactly for names outside `USER_LISTS`, else the stored list |
| UserLists.UserData.CheckCorrectList | src-tauri/src/user_data.rs:147-178 | the lists become `MovedLists` of the old lists for the old and new status; the entries are unchanged |
| UserLists.UserData.SetUserData | src-tauri/src/user_data.rs:180-259 | an invalid status gives `Err("invalid status")` and no change; otherwise the previous entry is returned, the lists are moved, and the entry stored is `AdjustDates` of the input against the previous status and progress |
| UserLists.UserData.IncrementEpisode | src-tauri/src/user_data.rs:309-330 | always `Ok(true)`; when a maximum exists, progress is below it and the status is valid, the stored entry becomes `AdjustDates` of the entry with progress + 1, so dates may be filled in; otherwise it is unchanged; progress never passes the maximum; other entries and the lists are unchanged |
| DateText.NullCheck | src/anime_info_window.js:323-329 | `null_value` exactly when the checked value is null, else `not_null_value` |
| DateText.DateNumber | src/anime_info_window.js:334-348 | `null_check_date`: year·10000 + month·100 + day with missing parts adding 0; `DateNumberSortable` states that it orders complete dates as the comparator does |
| DateText.DateNumberSortable | src/anime_info_window.js:333-348 | on complete dates with two-digit month and day, the number orders dates as the comparator does and is equal only for equal dates |
| DateText.Pad2 | src/main.js:826 | `padStart(2, '0')` gives at least two characters and never shortens |
| DateText.ParseDateInput | src/main.js:1588-1593 | a date input that does not split into three parts gives the empty date |
| DateText.DigitsValueLeadingZero | src/main.js:826 | a leading `0` does not change the value read |
| DateText.ParsePadded | src/main.js:826 | `parseInt` of a padded number gives the number, and the padded text has no dash |
| DateText.SplitThree | src/main.js:1588 | three dash-free parts joined by dashes split back into those parts |
| DateText.DateString | src/main.js:817-832 | `null_check_date_string`: year, then `-` and the padded month, then `-` and the padded day, each only when present; `FullDateString` and `DateStringRoundTrip` state its form and that it parses back |
| DateText.FullDateString | src/main.js:817-832 | a full date is written as year, `-`, padded month, `-`, padded day |
| DateText.DateStringRoundTrip | src/main.js:1588-1590 | the date text of a full date parses back to that date |
| DateText.NullDateRoundTrip | src/main.js:818-820 | a null date is written as the empty text, which parses back to the empty date |
| DateText.PartialDateLost | src/main.js:817-832 | a date with a year and day but no month does not survive the round trip: its text parses to the empty date |
| FrontEnd.RunsFrom | src/main.js:953-982 | the runs lie within the list, in order |
| FrontEnd.RunPiece | src/main.js:969-973 | a run is written as a non-empty "a" or "a-b" |
| FrontEnd.RunText | src/main.js:969-973 | the text of a run is non-empty |
| FrontEnd.JoinRuns | src/main.js:965-967 | the joined text is empty exactly when there are no runs |
| FrontEnd.RunsCover | src/main.js:953-982 | the runs start at the first index and end at the last |
| FrontEnd.RunsChain | src/main.js:975-980 | each run ends at a closing index and the next run starts right after it |
| FrontEnd.RunsInside | src/main.js:955-961 | no index inside a run closes it |
| FrontEnd.RunsAreConsecutive | src/main.js:959-960 | inside a run, every pair of neighbours after index 0 is consecutive |
| FrontEnd.FirstPairAlwaysJoined | src/main.js:955-956 | index 0 never closes a run: [1, 3] is written "1-3" |
| FrontEnd.JoinRunsStep | src/main.js:965-973 | adding a run appends ", " (when text exists) and the run's text |
| FrontEnd.CloseRunStep | src/main.js:963-981 | closing a run at index i extends the runs and the text by exactly that run |
| FrontEnd.OnDiskText | src/main.js:941-985 | the text `episodes_on_disk_string` shows: "" for none, the header and the episode for one, otherwise the header and the runs joined by ", "; `RunsCover`, `RunsChain`, `RunsInside` and `RunsAreConsecutive` state what the runs are |
| FrontEnd.EpisodesOnDiskString | src/main.js:941-985 | "" for no episodes, the header and the episode for one, and for non-negative episodes the header followed by the runs joined by ", " |
| FrontEnd.ScanStep | src/main.js:953-982 | over non-negative episodes, a position ends the open run exactly when the loop's tests set `end`, and the loop's updates of `start` and the text carry the scan state, runs closed and runs to come, to the next position |
| FrontEnd.DetermineTitle | src/main.js:1642-1655 | the preferred language's title when present, else romaji, else english, else native |
| FrontEnd.DetermineTitleFound | src/anime_info_window.js:182-185 | a title is found iff some title is present, and it is one of the three |
| FrontEnd.ClampScore | src/main.js:1572-1585 | POINT_100 ends in [0, 100], POINT_10_DECIMAL in [0, 10], other formats unchanged |
| FrontEnd.ClampScoreSpec | src/main.js:1572-1585 | in-range scores are kept, a negative is clamped as its negation, and clamping twice equals clamping once |
| FrontEnd.Pager.constructor | src/main.js:391-393 | no tab, page 0, expected page 0, more pages |
| FrontEnd.Pager.ShowTab | src/main.js:137-144 | nothing when the tab is already shown; else the tab switches and paging resets to (0, 0, true) |
| FrontEnd.Pager.Restart | src/main.js:510-513 | a sort change resets paging to (0, 0, true) on the same tab |
| FrontEnd.Pager.RequestPage | src/main.js:397-401 | a page is accepted iff more pages exist and it is the expected one, and then exactly one more page is expected |
| FrontEnd.Pager.ReceivePage | src/main.js:418-435 | an answer for the current tab advances the page and clears "more pages" when shorter than 50; an answer for another tab changes nothing |
| FrontEnd.JsRem | src/main.js:1418 | JavaScript `%`: the Euclidean remainder on non-negative numbers, strictly between −len and len |
| FrontEnd.Neighbours | src/main.js:1417-1422 | for a listed index, previous is len−1 at 0 and index−1 otherwise, next is (index+1) % len, both within [0, len) |
| FrontEnd.NeighboursInverse | src/main.js:1417-1422 | next of previous, and previous of next, is the index |
| FrontEnd.NeighboursOfMissing | src/main.js:1417-1422 | an id not in the list (index −1) gives next 0 and, for more than two entries, previous −2 |
| FrontEnd.Insert | src/main.js:1784-1787 | insertion adds exactly the element to the multiset |
| FrontEnd.InsertSorted | src/main.js:1784-1787 | insertion into a sorted list keeps it sorted |
| FrontEnd.SortBy | src/main.js:1784-1787 | sorting gives a sorted permutation |
| FrontEnd.DistinctByMultiset | src/main.js:1784-1787 | a permutation of a duplicate-free list is duplicate-free |
| FrontEnd.CountAtMostOne | src/main.js:1773-1781 | a duplicate-free list holds each element at most once |
| FrontEnd.CountsDistinct | src/main.js:1773-1781 | a list holding each element at most once is duplicate-free |
| FrontEnd.StringOrder | src/main.js:1784 | the default `sort()` order is a total preorder |
| FrontEnd.Descending | src/main.js:1785-1787 | the `b-a` comparator is a total preorder, largest first |
| FrontEnd.TorrentFilterOptions | src/main.js:1770-1787 | the options are exactly the feed's sub-groups and resolutions, without duplicates, sub-groups ascending and resolutions descending |
| Rss.ParseI32 | src-tauri/src/rss_parser.rs:59 | `parse::<i32>` succeeds only on a sign or digit start, within the 32-bit range |
| Rss.ParseI32OfNat | src-tauri/src/rss_parser.rs:59 | the decimal text of every number in range parses back to it |
| Rss.SetField | src-tauri/src/rss_parser.rs:54-63 | text for an element stored into the field of that name; `SetFieldGetField` and `SetFieldOverwrites` state its effect |
| Rss.CurrentName | src-tauri/src/rss_parser.rs:50-51 | the name text goes to after a run of events: the last start tag's name, or "" once an end tag follows it (line 71); `Fold` states that the loop tracks it |
| Rss.Step | src-tauri/src/rss_parser.rs:50-73 | one event of the loop; `FoldAppend`, `ItemEndPushes`, `TextAfterEndIgnored` and `TextGoesToCurrentElement` state each kind of step |
| Rss.SetFieldGetField | src-tauri/src/rss_parser.rs:54-63 | text sets exactly the named field, `downloads` parsed; unknown names change nothing |
| Rss.SetFieldOverwrites | src-tauri/src/rss_parser.rs:54-63 | later text for the same element overwrites earlier text |
| Rss.DownloadsParsePrefix | src-tauri/src/rss_parser.rs:59 | the "downloads text parses" condition holds for every prefix of the feed |
| Rss.Fold | src-tauri/src/rss_parser.rs:44-75 | the fold tracks the most recent start tag (cleared by an end tag) and pushes one entry per `</item>` |
| Rss.FoldAppend | src-tauri/src/rss_parser.rs:48-75 | one more event is one more step of the loop |
| Rss.ItemEndPushes | src-tauri/src/rss_parser.rs:67-70 | `</item>` pushes the working entry and resets it to the default |
| Rss.TextAfterEndIgnored | src-tauri/src/rss_parser.rs:71 | text after an end tag, before any start tag, is ignored |
| Rss.TextGoesToCurrentElement | src-tauri/src/rss_parser.rs:50-64 | text goes to the field named by the most recent start tag and pushes nothing |
| Rss.EntriesOnlyGrow | src-tauri/src/rss_parser.rs:68 | entries already pushed are never changed |
| Rss.ReadItems | src-tauri/src/rss_parser.rs:44-75 | the loop computes the fold's entries, one per `</item>` |
| Rss.RequestUrl | src-tauri/src/rss_parser.rs:32 | the URL is the fixed prefix, the search with each space made `+`, and the fixed suffix |
| Rss.CleanResponse | src-tauri/src/rss_parser.rs:34-36 | no line feed or tab is left, and every other character is kept in order |
| AniList.ChunkCountBound | src-tauri/src/api_calls.rs:494-497 | chunk c exists iff c·19 is below the length, so there are ceil(len/19) chunks |
| AniList.SplitIds | src-tauri/src/api_calls.rs:494-502 | the loop fills chunk c with ids c·19 up to (c+1)·19 |
| AniList.SplitStep | src-tauri/src/api_calls.rs:499-502 | pushing id i onto list i / 19 keeps every list equal to its slice of the ids pushed so far |
| AniList.Chunk | src-tauri/src/api_calls.rs:494-502 | chunk c is ids c·19 up to (c+1)·19 or the end; `ChunkSizes`, `IdInChunk` and `SplitFlattens` state its size, positions and that the chunks rejoin to the ids |
| AniList.ChunkSizes | src-tauri/src/api_calls.rs:494-502 | every chunk holds between 1 and 19 ids |
| AniList.IdInChunk | src-tauri/src/api_calls.rs:499-500 | id i is at position i % 19 of chunk i / 19 |
| AniList.FlattenPrefix | src-tauri/src/api_calls.rs:499-502 | the first c chunks concatenated are the first c·19 ids |
| AniList.SplitFlattens | src-tauri/src/api_calls.rs:499-502 | the chunks concatenated are the input, in order |
| AniList.TailTitleHasNoZero | src-tauri/src/api_calls.rs:521 | the title part of the media block has no `0` for the renaming to touch |
| AniList.TailSeasonHasNoZero | src-tauri/src/api_calls.rs:521 | the season part of the media block has no `0` |
| AniList.TailScoreHasNoZero | src-tauri/src/api_calls.rs:521 | the score part of the media block has no `0` |
| AniList.TailDateHasNoZero | src-tauri/src/api_calls.rs:521 | the date part of the media block has no `0` |
| AniList.JoinedContains | src-tauri/src/api_calls.rs:531-533 | each appended piece occurs in the joined text at the length of the pieces before it |
| AniList.TemplateReplace | src-tauri/src/api_calls.rs:532 | `replace("0", k)` on the block template gives the block with alias `Rk` and variable `$idk` |
| AniList.QueryText | src-tauri/src/api_calls.rs:519-534 | the query for n ids: front, declarations, back, n media blocks, end; `QueryDeclaresId` and `QueryHasBlock` state that it declares every id and holds every block |
| AniList.BuildQuery | src-tauri/src/api_calls.rs:519-534 | the loops build `QueryText(n)`: the declarations of `$id0`…`$id(n−1)`, then n media blocks |
| AniList.DigitPrefixUnique | src-tauri/src/api_calls.rs:532 | digit runs followed by a non-digit are determined by the text |
| AniList.DigitsAfterHead | src-tauri/src/api_calls.rs:532 | a block's two number slots determine the number |
| AniList.MediaBlockInjective | src-tauri/src/api_calls.rs:532 | blocks for different ids are different texts |
| AniList.FrontDeclaresFirstId | src-tauri/src/api_calls.rs:519 | the query front declares `$id0: Int` |
| AniList.OccursInMiddle | src-tauri/src/api_calls.rs:519-534 | text found in a middle part is found in the whole at the shifted position |
| AniList.BlockInBlocks | src-tauri/src/api_calls.rs:531-533 | block k occurs in the block list after the first k blocks |
| AniList.QueryDeclaresFirstId | src-tauri/src/api_calls.rs:519-534 | every query declares `$id0: Int` |
| AniList.QueryDeclaresId | src-tauri/src/api_calls.rs:525-529 | for 1 ≤ k < n the query declares `, $idk: Int` in order |
| AniList.QueryHasBlock | src-tauri/src/api_calls.rs:531-533 | for k < n the query holds the media block of id k |
| AniList.VarNameInjective | src-tauri/src/api_calls.rs:540-543 | different indices give different variable names |
| AniList.BuildVariables | src-tauri/src/api_calls.rs:538-544 | exactly the keys id0…id(n−1), with idK ↦ anime[K] |
| AniList.BuildRequest | src-tauri/src/api_calls.rs:519-550 | the request carries `QueryText(n)` and exactly those variables |
| AniList.InsertAll | src-tauri/src/api_calls.rs:587-595 | each media record of a reply stored under its id, in reply order; `InsertAllSpec` states the keys and values that result |
| AniList.InsertAllSpec | src-tauri/src/api_calls.rs:587-595 | storing a reply adds exactly its ids, each with its last record, and keeps every other entry |
| AniList.AnimeCache.constructor | src-tauri/src/api_calls.rs:575-594 | the cache that `anilist_get_anime_info` fills with `insert` starts empty (the declaration of `GLOBAL_ANIME_DATA` is not part of this model, so an empty start is assumed) |
| AniList.AnimeCache.GetAnimeInfo | src-tauri/src/api_calls.rs:512-597 | an empty batch succeeds and changes nothing; otherwise success iff the reply has data, whose media are stored; an error reply stores nothing |
| AniList.Applied | src-tauri/src/api_calls.rs:490-509 | the store after the first k replies, an error reply leaving it as it was; `GetAnimeInfoSplit` states that the cache ends as `Applied` |
| AniList.AnimeCache.GetAnimeInfoSplit | src-tauri/src/api_calls.rs:490-509 | requests go out chunk by chunk, at most ceil(len/19), stopping right after the first error reply; the cache holds what the sent replies stored |
| AniList.Key | src-tauri/src/api_calls.rs:430 | every mutation variable has a non-empty name |
| AniList.TemplateHoldsAll | src-tauri/src/api_calls.rs:430-431 | the mutation template holds every declaration and argument part |
| AniList.Remove | src-tauri/src/api_calls.rs:693-694 | removing a part keeps exactly the other parts |
| AniList.RenderAppend | src-tauri/src/api_calls.rs:430-431 | the text of joined parts is the joined texts |
| AniList.RemoveOutside | src-tauri/src/api_calls.rs:693 | removing an absent part changes nothing |
| AniList.RemoveAppend | src-tauri/src/api_calls.rs:693 | removal distributes over concatenation |
| AniList.RemoveOnce | src-tauri/src/api_calls.rs:693 | a part that occurs once is cut out at its position |
| AniList.RemoveCutsText | src-tauri/src/api_calls.rs:693-694 | removing a unique part cuts its text out of the mutation text and keeps the rest around it |
| AniList.TrimMutation | src-tauri/src/api_calls.rs:687-705 | the mutation is exactly header, start declaration if started, end declaration if completed, call, start argument if started, end argument if completed, selection, in that order; a part is kept exactly when its date is present |
| AniList.TrimStart | src-tauri/src/api_calls.rs:692-695 | removing both start-date parts from the template leaves the other five in order |
| AniList.TrimEnd | src-tauri/src/api_calls.rs:702-705 | removing both completion-date parts leaves the rest in order, with or without the start-date parts |
| AniList.RemoveOnly | src-tauri/src/api_calls.rs:693 | removing a part that occurs once between `a` and `b` leaves `a + b` |
| AniList.UpdateEntryRequest | src-tauri/src/api_calls.rs:687-712 | the mutation is the template with exactly the absent dates' declaration and argument parts removed, the rest in template order; the variables are id, status, score and progress plus the three parts of each present date, with their values |
| AniList.MutationMatchesVariables | src-tauri/src/api_calls.rs:687-712 | every variable a kept part uses is set, and every date variable set belongs to a kept part |

## Left out

- HTTP and the network. The model leaves out the AniList and MyAnimeList clients, the token exchange, `pull_updates`, the feed download, `read_files`, `get_anime_data`, `get_anime_list_data`, `update_anime_data` and `get_prequel_data`. A server reply is a parameter (`Reply`, `replies`).
- File I/O and the desktop shell: JSON persistence, the `WalkDir` walk and path hashing of `scan_folders`/`scan_folder` around the insertion block, `play_episode`, and file existence (a predicate parameter of `RemoveMissingFiles`).
- Concurrency: the global mutexes and the UI-refresh flags.
- The clock: `Local::now` is the `today` parameter of `SetUserData` and `IncrementEpisode`.
- The similarity measure: `strsim::normalized_levenshtein` is the parameter `sim`. Only its comparisons matter.
- HashMap iteration order: an explicit `order` parameter that lists the keys (`IdentifyMediaId`, `GetExistingFiles`).
- The `regex` crate is replaced by hand-written matchers for the fixed patterns. `\d` is read as an ASCII digit.
- Patterns.MatchAt: the matchers state where a match lies and what it captures. They do not state that they agree with the `regex` crate's leftmost-first semantics for every input, which would need a regex semantics.
- `USER_STATUSES` and `USER_LISTS` are not among the constants available to this model. They are parameters of the `UserData` constructor.
- The f32 recommendation math (`tally_recommendations`, `related_recommendations`, `score_to_rating_modifier`), the `sort_list` comparators and `recommendations.rs`. The model keeps only `filter_anime`.
- `file_name_recognition.rs` is commented out, so the derived values of the feed (`rss_parser.rs:77-93`) that call it are not part of this model.
- Integer widths. Ids, episodes, progress and scores are unbounded integers or reals. The i32 overflow of `parse().unwrap()` and of `anime.episode -= episodes` is not modelled. The panics of `unwrap` on numbers too large for i32 are absent.
- AnimeLibrary.AnimeData.ReplaceWithSequel, AnimeLibrary.AnimeData.FirstSeason, AnimeLibrary.AnimeData.SequelWalk and AnimeLibrary.AnimeData.IdentifyAnime require the entries the walks reach to be well formed, and no others. The entries the walk back may visit form a ghost map `rank`, closed under PREQUEL hops to known TV entries. From each of those entries, such a hop must find a format and an episode count and must lower the rank. The entries the walk forward may visit form a ghost set `seasons`, closed under the SEQUEL hops taken. A season that hops on must have a count above 0. The source panics on a missing format or count, and loops forever on a PREQUEL cycle or on a SEQUEL cycle of seasons with no episodes. IdentifyAnime requires this for every entry the search may return.
- AnimeLibrary.AnimeData.IdentifyMediaId and AnimeLibrary.AnimeData.IdentifyAnime require non-empty title variants for the first-letter filter. The source panics on an empty title there (`unwrap` of the first character).
- AnimeLibrary.AnimeData.IdentifyAnime states the extension gate, the title properties and the single-episode fix. The episode, sub-group and match it computes are stated by `Identify.CutAtEpisode`, `Identify.SplitSubGroup`, `AnimeData.IdentifyMediaId` and `AnimeData.ReplaceWithSequel`, which it calls.
- AnimeLibrary.RemoveInfoTokens states only that characters are deleted. `RemoveEach` states the exact result token by token, but the 200-token `REMOVE_INFO` list is not written into any proof.
- AnimeLibrary.AnimeData.GetExistingFiles states the episodes as a set without duplicates. Their order is the `order` parameter's.
- AnimeLibrary.Filtered and AnimeLibrary.AnimeData.FilterAnime require every recommended id to be known when a filter is set. The source panics on an unknown id (`unwrap`).
- UserLists.UserData.GetList requires a valid list name to be present in the map. The source panics when it is missing.
- UserLists.UserData.IncrementEpisode requires `Valid()`, meaning every entry is stored under its own media id. The error message printed when the entry or its maximum is missing is left out.
- UserLists.UserData.SetUserData treats a missing start date as "not empty": the source only prints an error message there.
- FrontEnd.EpisodesOnDiskString matches `OnDiskText` only for non-negative episodes (and for lists of at most one). The source's `-1` sentinel for "no run open" would collide with an episode −1.
- FrontEnd.Neighbours: an empty list (length 0) gives `NaN` indices in JavaScript. It is excluded by a precondition.
- FrontEnd.StringOrder orders strings by code point. JavaScript's default `sort()` compares UTF-16 code units, which differ only outside the Basic Multilingual Plane.
- FrontEnd.ClampScore: scores are reals, not IEEE doubles. The `NaN` of an unparsable `parseFloat` is not modelled.
- Strings.ParseInt does not skip leading white space as JavaScript `parseInt` does, and it does not read a `0x` or `0X` prefix as hexadecimal: JavaScript gives 16 for `"0x10"`, the model gives `Some(0)`. The date inputs it reads are decimal digits without spaces or prefixes.
- DateText.ParseDateInput: a part that `parseInt` cannot read is `None`, because JavaScript's `NaN` reaches the backend as JSON `null`.
- The DOM, canvas drawing, timers, themes and the settings window of the front end.
- The response handling of `anilist_get_anime_info`: the renaming of JSON keys to snake case, the `serde_json` parse and its panics. A reply is a parameter that is either an error or a list of (id, record) pairs in order.
- AniList.UpdateEntryRequest models `str::replace` on the mutation text as the removal of parts from a list of parts, whose texts are the template's. `RemoveCutsText` proves that removing a part cuts exactly its text. Variable names are the `Var` datatype, with their JSON names given by `Key`.
- AniList.AnimeCache.GetAnimeInfo builds the request (`BuildRequest` states it) but does not return it, since sending it is not modelled.
- Rss.ReadItems requires every `downloads` text to parse as an i32. The source panics otherwise.
