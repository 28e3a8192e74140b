/** The torrent feed reader of `rss_parser.rs`: the request URL, the clean-up
    of the response text, and the fold over XML reader events that builds one
    `RssEntry` per `<item>` of an RSS 2.0 feed (RSS 2.0 specification,
    "Elements of <item>", plus the feed's own `nyaa:` fields). The HTTP
    request and the XML tokenizer are not part of this model. */
module Rss {
  import opened Wrappers
  import opened Strings

  /** `RssEntry`, without the derived values computed after the fold. */
  datatype RssEntry = RssEntry(title: string, link: string, guid: string, pubDate: string, downloads: int,
                               infoHash: string, categoryId: string, size: string)

  /** `RssEntry::default()`. */
  const DefaultEntry := RssEntry("", "", "", "", 0, "", "", "")

  /** The reader events the fold looks at; every other event (and a reader
      error) is `OtherEvent`. Names are local names. */
  datatype XmlEvent = StartElement(name: string) | Characters(text: string) | EndElement(name: string) | OtherEvent

  const I32Min: int := -0x8000_0000
  const I32Max: int := 0x7fff_ffff

  /** `str::parse::<i32>`: an optional sign and at least one decimal digit,
      nothing else, within the 32-bit range. */
  function ParseI32(s: string): (r: Option<int>)
    ensures r.Some? ==> I32Min <= r.value <= I32Max
    ensures r.Some? ==> |s| > 0 && (IsDigit(s[0]) || s[0] in "+-")
  {
    var start := if |s| > 0 && (s[0] == '-' || s[0] == '+') then 1 else 0;
    if start == |s| || !AllDigits(s[start..]) then None
    else
      var v: int := DigitsValue(s[start..]);
      var n := if s[0] == '-' then -v else v;
      if I32Min <= n <= I32Max then Some(n) else None
  }

  /** The text of every decimal number in range parses back to it. */
  lemma ParseI32OfNat(n: nat)
    requires n <= I32Max
    ensures ParseI32(NatToString(n)) == Some(n)
  {
    var s := NatToString(n);
    assert s[0..] == s;
    NatToStringRoundTrip(n);
  }

  /** The element names whose text is kept. */
  const FieldNames: set<string> := {"title", "link", "guid", "pubDate", "downloads", "infoHash", "categoryId", "size"}

  /** Text for element `name` stored into the working entry: the field of
      that name takes it (`downloads` parsed), any other name is ignored. */
  function SetField(e: RssEntry, name: string, text: string): RssEntry
    requires name == "downloads" ==> ParseI32(text).Some?
  {
    match name
    case "title" => e.(title := text)
    case "link" => e.(link := text)
    case "guid" => e.(guid := text)
    case "pubDate" => e.(pubDate := text)
    case "downloads" => e.(downloads := ParseI32(text).value)
    case "infoHash" => e.(infoHash := text)
    case "categoryId" => e.(categoryId := text)
    case "size" => e.(size := text)
    case _ => e
  }

  /** The text field of an entry named `name` ("" for any other name). */
  function TextField(e: RssEntry, name: string): string
  {
    match name
    case "title" => e.title
    case "link" => e.link
    case "guid" => e.guid
    case "pubDate" => e.pubDate
    case "infoHash" => e.infoHash
    case "categoryId" => e.categoryId
    case "size" => e.size
    case _ => ""
  }

  /** Storing text sets exactly the named field: reading that field gives the
      text, every other field keeps its value, and an unknown name changes
      nothing. */
  lemma SetFieldGetField(e: RssEntry, name: string, text: string, other: string)
    requires name == "downloads" ==> ParseI32(text).Some?
    ensures name in FieldNames && name != "downloads" ==> TextField(SetField(e, name, text), name) == text
    ensures other != name ==> TextField(SetField(e, name, text), other) == TextField(e, other)
    ensures name == "downloads" ==> SetField(e, name, text).downloads == ParseI32(text).value
    ensures name != "downloads" ==> SetField(e, name, text).downloads == e.downloads
    ensures name !in FieldNames ==> SetField(e, name, text) == e
  {
  }

  /** Later text for the same element overwrites earlier text. */
  lemma SetFieldOverwrites(e: RssEntry, name: string, first: string, second: string)
    requires name == "downloads" ==> ParseI32(first).Some? && ParseI32(second).Some?
    ensures SetField(SetField(e, name, first), name, second) == SetField(e, name, second)
  {
  }

  /** The state of the fold: `element_name`, the working `entry` and the
      entries pushed so far. */
  datatype Reader = Reader(elementName: string, entry: RssEntry, entries: seq<RssEntry>)

  const Initial := Reader("", DefaultEntry, [])

  /** The name text is currently stored under after `events`: the last
      start tag's name, or "" once an end tag has followed it. */
  function CurrentName(events: seq<XmlEvent>): string
  {
    if events == [] then ""
    else
      match events[|events| - 1]
      case StartElement(name) => name
      case EndElement(_) => ""
      case _ => CurrentName(events[..|events| - 1])
  }

  /** The number of `</item>` events. */
  function CountItemEnds(events: seq<XmlEvent>): nat
  {
    if events == [] then 0
    else CountItemEnds(events[..|events| - 1]) + (if events[|events| - 1] == EndElement("item") then 1 else 0)
  }

  /** The source panics on `downloads` text that is not an `i32`, so every
      such text must parse. */
  predicate DownloadsParse(events: seq<XmlEvent>)
  {
    events == [] ||
    (var init := events[..|events| - 1];
     var last := events[|events| - 1];
     DownloadsParse(init) && (last.Characters? && CurrentName(init) == "downloads" ==> ParseI32(last.text).Some?))
  }

  /** Every prefix of a feed whose `downloads` texts parse has the same
      property. */
  lemma {:induction false} DownloadsParsePrefix(events: seq<XmlEvent>, n: nat)
    requires DownloadsParse(events) && n <= |events|
    ensures DownloadsParse(events[..n])
    decreases |events|
  {
    if n < |events| {
      var init := events[..|events| - 1];
      assert init[..n] == events[..n];
      DownloadsParsePrefix(init, n);
    } else {
      assert events[..n] == events;
    }
  }

  /** One event of the loop. */
  function Step(r: Reader, ev: XmlEvent): Reader
    requires ev.Characters? && r.elementName == "downloads" ==> ParseI32(ev.text).Some?
  {
    match ev
    case StartElement(name) => r.(elementName := name)
    case Characters(text) => r.(entry := SetField(r.entry, r.elementName, text))
    case EndElement(name) =>
      if name == "item" then Reader("", DefaultEntry, r.entries + [r.entry])
      else r.(elementName := "")
    case OtherEvent => r
  }

  /** The fold over all events. The element name it tracks is `CurrentName`,
      and it pushes one entry per `</item>`. */
  function Fold(events: seq<XmlEvent>): (r: Reader)
    requires DownloadsParse(events)
    ensures r.elementName == CurrentName(events)
    ensures |r.entries| == CountItemEnds(events)
  {
    if events == [] then Initial
    else Step(Fold(events[..|events| - 1]), events[|events| - 1])
  }

  lemma FoldAppend(events: seq<XmlEvent>, ev: XmlEvent)
    requires DownloadsParse(events + [ev])
    ensures DownloadsParse(events)
    ensures Fold(events + [ev]) == Step(Fold(events), ev)
  {
    var all := events + [ev];
    assert all[..|all| - 1] == events;
  }

  /** An `</item>` pushes the working entry and starts a fresh one. */
  lemma ItemEndPushes(events: seq<XmlEvent>)
    requires DownloadsParse(events + [EndElement("item")])
    ensures DownloadsParse(events)
    ensures Fold(events + [EndElement("item")])
            == Reader("", DefaultEntry, Fold(events).entries + [Fold(events).entry])
  {
    FoldAppend(events, EndElement("item"));
  }

  /** Text after an end tag, before any start tag, is ignored. */
  lemma TextAfterEndIgnored(events: seq<XmlEvent>, text: string)
    requires DownloadsParse(events + [Characters(text)])
    requires CurrentName(events) == ""
    ensures DownloadsParse(events)
    ensures Fold(events + [Characters(text)]) == Fold(events)
  {
    FoldAppend(events, Characters(text));
    var r := Fold(events);
    assert SetField(r.entry, "", text) == r.entry;
    assert Step(r, Characters(text)) == r;
  }

  /** Text goes to the field named by the most recent start tag. */
  lemma TextGoesToCurrentElement(events: seq<XmlEvent>, text: string)
    requires DownloadsParse(events + [Characters(text)])
    ensures DownloadsParse(events)
    ensures Fold(events + [Characters(text)]).entry == SetField(Fold(events).entry, CurrentName(events), text)
    ensures Fold(events + [Characters(text)]).entries == Fold(events).entries
  {
    FoldAppend(events, Characters(text));
    assert (events + [Characters(text)])[..|events|] == events;
  }

  /** Pushed entries are never changed by later events. */
  lemma {:induction false} EntriesOnlyGrow(events: seq<XmlEvent>, more: seq<XmlEvent>)
    requires DownloadsParse(events + more)
    ensures DownloadsParse(events)
    ensures Fold(events).entries <= Fold(events + more).entries
    decreases |more|
  {
    if more == [] {
      assert events + more == events;
    } else {
      var init := more[..|more| - 1];
      assert events + more == (events + init) + [more[|more| - 1]];
      FoldAppend(events + init, more[|more| - 1]);
      EntriesOnlyGrow(events, init);
    }
  }

  /** The event loop of `get_rss`. */
  method ReadItems(events: seq<XmlEvent>) returns (entries: seq<RssEntry>)
    requires DownloadsParse(events)
    ensures entries == Fold(events).entries
    ensures |entries| == CountItemEnds(events)
  {
    var entry := DefaultEntry;
    entries := [];
    var elementName := "";
    for i := 0 to |events|
      invariant DownloadsParse(events[..i])
      invariant Reader(elementName, entry, entries) == Fold(events[..i])
    {
      assert events[..i + 1] == events[..i] + [events[i]];
      DownloadsParsePrefix(events, i + 1);
      FoldAppend(events[..i], events[i]);
      ghost var before := Reader(elementName, entry, entries);
      match events[i] {
        case StartElement(name) =>
          elementName := name;
        case Characters(text) =>
          entry := SetField(entry, elementName, text);
        case EndElement(name) =>
          if name == "item" {
            entries := entries + [entry];
            entry := DefaultEntry;
          }
          elementName := "";
        case OtherEvent =>
      }
      assert Reader(elementName, entry, entries) == Step(before, events[i]);
    }
    assert events[..|events|] == events;
  }

  const UrlPrefix: string := "https://nyaa.si/?page=rss&q="
  const UrlSuffix: string := "&c=1_2&f=0"

  /** The request URL for a search: the search text with every space made a
      '+'. */
  function RequestUrl(search: string): (url: string)
    ensures |url| == |UrlPrefix| + |search| + |UrlSuffix|
    ensures url[..|UrlPrefix|] == UrlPrefix && url[|UrlPrefix| + |search|..] == UrlSuffix
    ensures forall i :: 0 <= i < |search| ==>
      url[|UrlPrefix| + i] == (if search[i] == ' ' then '+' else search[i])
  {
    ReplaceCharPointwise(search, ' ', '+');
    UrlPrefix + ReplaceAll(search, " ", "+") + UrlSuffix
  }

  /** The response text handed to the reader: line feeds and tabs removed,
      every other character kept in order. */
  function CleanResponse(text: string): (r: string)
    ensures '\n' !in r && '\t' !in r
    ensures r == WithoutChar(WithoutChar(text, '\n'), '\t')
    ensures forall c :: c != '\n' && c != '\t' ==> (c in r <==> c in text)
  {
    var once := ReplaceAll(text, "\n", "");
    RemoveCharIsFilter(text, '\n');
    RemoveCharIsFilter(once, '\t');
    WithoutCharKeeps(text, '\n', '\t');
    forall c | c != '\n' && c != '\t' ensures (c in ReplaceAll(once, "\t", "") <==> c in text) {
      WithoutCharKeeps(text, '\n', c);
      WithoutCharKeeps(once, '\t', c);
    }
    ReplaceAll(once, "\t", "")
  }
}
