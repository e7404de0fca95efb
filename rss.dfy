/** Feed-entry normalisation (src/rss.ts): turning an RSS or Atom document,
    already parsed into a tree, into feed items. */
module Rss {
  import opened Wrappers
  import opened Strings
  import opened Seqs
  import opened Types

  /** A value of the parsed XML tree: text, an element with named children and
      `@_`-prefixed attributes (text content under `#text`), a list of repeated
      elements, or a number or boolean the parser produced, with its JavaScript
      truthiness. An absent property (`undefined`) is `None` of `Option<Node>`. */
  datatype Node = Str(text: string) | Obj(fields: map<string, Node>) | Arr(elems: seq<Node>) | Other(truthy: bool)

  /** `value[key]` on a possibly absent value: present only on an element that has the child. */
  function Field(value: Option<Node>, key: string): (r: Option<Node>)
    ensures r.Some? <==> value.Some? && value.value.Obj? && key in value.value.fields
  {
    if value.Some? && value.value.Obj? && key in value.value.fields then Some(value.value.fields[key]) else None
  }

  /** JavaScript truthiness: `undefined`, `""` and falsy numbers are false,
      elements and lists are true. */
  predicate Truthy(value: Option<Node>) {
    match value
    case None => false
    case Some(Str(s)) => s != ""
    case Some(Obj(_)) => true
    case Some(Arr(_)) => true
    case Some(Other(t)) => t
  }

  /** `a || b` on tree values. */
  function Or(a: Option<Node>, b: Option<Node>): (r: Option<Node>)
    ensures Truthy(a) ==> r == a
    ensures !Truthy(a) ==> r == b
  {
    if Truthy(a) then a else b
  }

  /** `a || b` on `string | null`: the first non-empty text. */
  function TextOr(a: Option<string>, b: Option<string>): (r: Option<string>)
    ensures a.Some? && a.value != "" ==> r == a
    ensures !(a.Some? && a.value != "") ==> r == b
  {
    if a.Some? && a.value != "" then a else b
  }

  /** `normalizeText`: the trimmed text of a string, or of an element whose
      `#text` is a string; `null` for everything else. */
  function NormalizeText(value: Option<Node>): (r: Option<string>)
    ensures r.Some? ==> IsTrimmed(r.value)
  {
    match value
    case Some(Str(s)) => Some(Trim(s))
    case Some(Obj(m)) =>
      if "#text" in m then (if m["#text"].Str? then Some(Trim(m["#text"].text)) else None)
      else None
    case _ => None
  }

  /** The three cases of `normalizeText`. */
  lemma NormalizeTextCases(value: Option<Node>)
    ensures value.Some? && value.value.Str? ==> NormalizeText(value) == Some(Trim(value.value.text))
    ensures Field(value, "#text").Some? && Field(value, "#text").value.Str? ==>
              NormalizeText(value) == Some(Trim(Field(value, "#text").value.text))
    ensures NormalizeText(value).Some? <==>
              (value.Some? && value.value.Str?) || (Field(value, "#text").Some? && Field(value, "#text").value.Str?)
  {
  }

  /** `pickLink` on a present value. */
  function PickLink(value: Node): (r: Option<string>)
    decreases value, 1
  {
    match value
    case Str(s) => Some(Trim(s))
    case Other(_) => None
    case Arr(es) => FirstLink(es)
    case Obj(m) =>
      if "@_href" in m && m["@_href"].Str? then Some(Trim(m["@_href"].text))
      else if "#text" in m then NormalizeText(Some(value))
      else None
  }

  /** The `for … of` search of `pickLink`: the first entry whose link is non-empty. */
  function FirstLink(es: seq<Node>): (r: Option<string>)
    ensures r.Some? ==> r.value != ""
    decreases es, 0
  {
    if es == [] then None
    else
      var link := PickLink(es[0]);
      if link.Some? && link.value != "" then link else FirstLink(es[1..])
  }

  /** `pickLink(value)` where the value may be absent. */
  function PickLinkOf(value: Option<Node>): Option<string> {
    if value.None? then None else PickLink(value.value)
  }

  /** An entry of a list that gives a non-empty link. */
  predicate GivesLink(value: Node) {
    PickLink(value).Some? && PickLink(value).value != ""
  }

  /** A link picked from a list is the link of the first entry that gives a
      non-empty one. */
  lemma {:induction false} FirstLinkAt(es: seq<Node>, i: int)
    requires 0 <= i < |es| && GivesLink(es[i])
    requires forall k :: 0 <= k < i ==> !GivesLink(es[k])
    ensures FirstLink(es) == PickLink(es[i])
  {
    if i > 0 {
      assert FirstLink(es) == FirstLink(es[1..]) by {
        assert !GivesLink(es[0]);
      }
      forall k | 0 <= k < i - 1 ensures !GivesLink(es[1..][k]) {
        assert es[1..][k] == es[k + 1];
      }
      FirstLinkAt(es[1..], i - 1);
    }
  }

  /** When no entry gives a non-empty link, the list has none, and the other
      way round. */
  lemma {:induction false} FirstLinkNone(es: seq<Node>)
    ensures FirstLink(es).None? <==> forall k :: 0 <= k < |es| ==> !GivesLink(es[k])
  {
    if es != [] {
      FirstLinkNone(es[1..]);
      assert forall k :: 1 <= k < |es| ==> es[k] == es[1..][k - 1];
    }
  }

  /** A string `@_href` wins over the element's text. */
  lemma HrefFirst(m: map<string, Node>)
    requires "@_href" in m && m["@_href"].Str?
    ensures PickLink(Obj(m)) == Some(Trim(m["@_href"].text))
  {
  }

  /** A falsy value has no link. */
  lemma FalsyHasNoLink(value: Option<Node>)
    requires !Truthy(value)
    requires !(value.Some? && value.value.Str?)
    ensures PickLinkOf(value).None?
  {
  }

  /** Every picked link is trimmed. */
  lemma {:induction false} PickLinkTrimmed(value: Node)
    ensures PickLink(value).Some? ==> IsTrimmed(PickLink(value).value)
    decreases value, 1
  {
    if value.Arr? {
      FirstLinkTrimmed(value.elems);
    }
  }

  lemma {:induction false} FirstLinkTrimmed(es: seq<Node>)
    ensures FirstLink(es).Some? ==> IsTrimmed(FirstLink(es).value)
    decreases es, 0
  {
    if es != [] {
      PickLinkTrimmed(es[0]);
      FirstLinkTrimmed(es[1..]);
    }
  }

  /** `pickLink` as the source runs it: a recursive search that returns from
      inside its loop over a list. */
  method FindLink(value: Node) returns (r: Option<string>)
    ensures r == PickLink(value)
    decreases value
  {
    match value {
      case Str(s) =>
        return Some(Trim(s));
      case Other(_) =>
        return None;
      case Arr(es) =>
        for i := 0 to |es|
          invariant FirstLink(es) == FirstLink(es[i..])
        {
          assert es[i..][1..] == es[i + 1..];
          var link := FindLink(es[i]);
          if link.Some? && link.value != "" {
            return link;
          }
        }
        return None;
      case Obj(m) =>
        if "@_href" in m && m["@_href"].Str? {
          return Some(Trim(m["@_href"].text));
        }
        if "#text" in m {
          return NormalizeText(Some(value));
        }
        return None;
    }
  }

  /** `parseDate` over the date parser `new Date(text)`, which yields a time
      in milliseconds or `None` where the date is invalid. */
  function ParseDate(value: Option<Node>, parseTime: string -> Option<int>): (r: Option<int>)
    ensures !Truthy(value) ==> r == None
    ensures NormalizeText(value).None? || NormalizeText(value) == Some("") ==> r == None
    ensures Truthy(value) && NormalizeText(value).Some? && NormalizeText(value).value != "" ==>
              r == parseTime(NormalizeText(value).value)
  {
    if !Truthy(value) then None
    else
      var text := NormalizeText(value);
      if text.None? || text.value == "" then None
      else parseTime(text.value)
  }

  /** `Array.isArray(raw) ? raw : [raw]` */
  function Entries(raw: Node): (r: seq<Node>)
    ensures !raw.Arr? ==> r == [raw]
    ensures raw.Arr? ==> r == raw.elems
  {
    if raw.Arr? then raw.elems else [raw]
  }

  /** An item kept by `.filter((item) => item.link || item.title)`. */
  predicate HasLinkOrTitle(item: FeedItem) {
    item.link != "" || item.title != ""
  }

  /** The item built from one RSS `<item>`. */
  function RssItem(source: FeedSource, entry: Node, parseTime: string -> Option<int>): (r: FeedItem)
    ensures r.title != ""
    ensures r.summary != Some("")
    ensures r.source == source.name && r.category == source.category
  {
    var e := Some(entry);
    FeedItem(
      TextOr(NormalizeText(Field(e, "title")), Some("(untitled)")).value,
      TextOr(PickLinkOf(Field(e, "link")), Some("")).value,
      ParseDate(Or(Field(e, "pubDate"), Field(e, "date")), parseTime),
      TextOr(NormalizeText(Field(e, "description")), TextOr(NormalizeText(Field(e, "content:encoded")), None)),
      source.name,
      source.category)
  }

  /** The item built from one Atom `<entry>`. */
  function AtomItem(source: FeedSource, entry: Node, parseTime: string -> Option<int>): (r: FeedItem)
    ensures r.title != ""
    ensures r.summary != Some("")
    ensures r.source == source.name && r.category == source.category
  {
    var e := Some(entry);
    FeedItem(
      TextOr(NormalizeText(Field(e, "title")), Some("(untitled)")).value,
      TextOr(PickLinkOf(Field(e, "link")), Some("")).value,
      ParseDate(Or(Field(e, "published"), Field(e, "updated")), parseTime),
      TextOr(NormalizeText(Field(e, "summary")), TextOr(NormalizeText(Field(e, "content")), None)),
      source.name,
      source.category)
  }

  /** `parseRssItems` */
  function ParseRssItems(source: FeedSource, channel: Node, parseTime: string -> Option<int>): seq<FeedItem> {
    var raw := Field(Some(channel), "item");
    if !Truthy(raw) then []
    else
      var entries := Entries(raw.value);
      Filter(seq(|entries|, i requires 0 <= i < |entries| => RssItem(source, entries[i], parseTime)), HasLinkOrTitle)
  }

  /** `parseAtomItems` */
  function ParseAtomItems(source: FeedSource, feed: Node, parseTime: string -> Option<int>): seq<FeedItem> {
    var raw := Field(Some(feed), "entry");
    if !Truthy(raw) then []
    else
      var entries := Entries(raw.value);
      Filter(seq(|entries|, i requires 0 <= i < |entries| => AtomItem(source, entries[i], parseTime)), HasLinkOrTitle)
  }

  /** Every RSS item keeps its place: titles are never empty, so the
      link-or-title filter drops nothing and there is one item per entry. */
  lemma ParseRssItemsOnePerEntry(source: FeedSource, channel: Node, parseTime: string -> Option<int>)
    ensures var raw := Field(Some(channel), "item");
            var r := ParseRssItems(source, channel, parseTime);
            && (!Truthy(raw) ==> r == [])
            && (Truthy(raw) ==>
                  && |r| == |Entries(raw.value)|
                  && forall i :: 0 <= i < |r| ==> r[i] == RssItem(source, Entries(raw.value)[i], parseTime))
  {
    var raw := Field(Some(channel), "item");
    if Truthy(raw) {
      var entries := Entries(raw.value);
      var built := seq(|entries|, i requires 0 <= i < |entries| => RssItem(source, entries[i], parseTime));
      forall x | x in built ensures HasLinkOrTitle(x) {
        var j :| 0 <= j < |built| && built[j] == x;
      }
      assert ParseRssItems(source, channel, parseTime) == built by {
        FilterAll(built, HasLinkOrTitle);
      }
    }
  }

  /** The same for Atom entries. */
  lemma ParseAtomItemsOnePerEntry(source: FeedSource, feed: Node, parseTime: string -> Option<int>)
    ensures var raw := Field(Some(feed), "entry");
            var r := ParseAtomItems(source, feed, parseTime);
            && (!Truthy(raw) ==> r == [])
            && (Truthy(raw) ==>
                  && |r| == |Entries(raw.value)|
                  && forall i :: 0 <= i < |r| ==> r[i] == AtomItem(source, Entries(raw.value)[i], parseTime))
  {
    var raw := Field(Some(feed), "entry");
    if Truthy(raw) {
      var entries := Entries(raw.value);
      var built := seq(|entries|, i requires 0 <= i < |entries| => AtomItem(source, entries[i], parseTime));
      forall x | x in built ensures HasLinkOrTitle(x) {
        var j :| 0 <= j < |built| && built[j] == x;
      }
      assert ParseAtomItems(source, feed, parseTime) == built by {
        FilterAll(built, HasLinkOrTitle);
      }
    }
  }

  /** The dispatch at the end of `fetchFeed`: RSS when `rss.channel` is
      truthy, else Atom when `feed` is, else nothing. */
  function ParseFeed(source: FeedSource, data: Node, parseTime: string -> Option<int>): (r: seq<FeedItem>)
    ensures Truthy(Field(Field(Some(data), "rss"), "channel")) ==>
              r == ParseRssItems(source, Field(Field(Some(data), "rss"), "channel").value, parseTime)
    ensures !Truthy(Field(Field(Some(data), "rss"), "channel")) && Truthy(Field(Some(data), "feed")) ==>
              r == ParseAtomItems(source, Field(Some(data), "feed").value, parseTime)
    ensures !Truthy(Field(Field(Some(data), "rss"), "channel")) && !Truthy(Field(Some(data), "feed")) ==> r == []
  {
    var channel := Field(Field(Some(data), "rss"), "channel");
    if Truthy(channel) then ParseRssItems(source, channel.value, parseTime)
    else
      var feed := Field(Some(data), "feed");
      if Truthy(feed) then ParseAtomItems(source, feed.value, parseTime)
      else []
  }

  /** Every item of a parsed feed has a title, a summary that is absent or
      non-empty, and the source's name and category. */
  lemma ParseFeedItems(source: FeedSource, data: Node, parseTime: string -> Option<int>)
    ensures forall it :: it in ParseFeed(source, data, parseTime) ==>
              it.title != "" && it.summary != Some("") && it.source == source.name && it.category == source.category
  {
    var channel := Field(Field(Some(data), "rss"), "channel");
    var feed := Field(Some(data), "feed");
    if Truthy(channel) {
      ParseRssItemsOnePerEntry(source, channel.value, parseTime);
    } else if Truthy(feed) {
      ParseAtomItemsOnePerEntry(source, feed.value, parseTime);
    }
  }
}
