/** The plain-text and HTML digest (src/digest.ts). */
module Digest {
  import opened Wrappers
  import opened Strings
  import opened Seqs
  import opened Types
  import opened Utils

  datatype DigestSection = DigestSection(title: string, category: FeedCategory)

  /** The sections, in the order they are rendered. */
  const SECTIONS: seq<DigestSection> := [
    DigestSection("Hiring News", Hiring),
    DigestSection("Tech News", Tech),
    DigestSection("AI / Research Breakthroughs", Research)
  ]

  datatype RenderedDigest = RenderedDigest(text: string, html: string)

  /** `formatDate`: the `YYYY-MM-DD` prefix of the ISO form of the date, or
      `""` without one. `isoString` is `Date.prototype.toISOString` on a time
      in milliseconds. */
  function FormatDate(published: Option<int>, isoString: int -> string): (r: string)
    ensures published.None? ==> r == ""
    ensures published.Some? ==> |r| <= 10 && |r| <= |isoString(published.value)| && r == isoString(published.value)[..|r|]
    ensures published.Some? && |isoString(published.value)| >= 10 ==> |r| == 10
  {
    if published.None? then "" else Take(isoString(published.value), 10)
  }

  /** `` ` (${date})` `` when there is a date, otherwise nothing. */
  function DateSuffix(item: FeedItem, isoString: int -> string): string {
    var date := FormatDate(item.published, isoString);
    if date != "" then " (" + date + ")" else ""
  }

  /** First line of a text item: `- [source] title (YYYY-MM-DD)`. */
  function ItemHead(item: FeedItem, isoString: int -> string): string {
    "- [" + item.source + "] " + item.title + DateSuffix(item, isoString)
  }

  /** Second line of a text item: the link, indented by two spaces. */
  function ItemLinkLine(item: FeedItem): string {
    "  " + item.link
  }

  /** One text item: its heading line and its link line. */
  function ItemLine(item: FeedItem, isoString: int -> string): string {
    ItemHead(item, isoString) + "\n" + ItemLinkLine(item)
  }

  /** `renderList`: the items' text lines joined with newlines. */
  function RenderList(items: seq<FeedItem>, isoString: int -> string): string {
    Join(seq(|items|, i requires 0 <= i < |items| => ItemLine(items[i], isoString)), "\n")
  }

  /** A dated item carries ` (YYYY-MM-DD)` after its title and an undated one
      carries nothing there. */
  lemma ItemHeadDate(item: FeedItem, isoString: int -> string)
    ensures item.published.None? ==> ItemHead(item, isoString) == "- [" + item.source + "] " + item.title
    ensures item.published.Some? && |isoString(item.published.value)| >= 10 ==>
              ItemHead(item, isoString) ==
                "- [" + item.source + "] " + item.title + " (" + isoString(item.published.value)[..10] + ")"
  {
  }

  /** No newline inside any of the item's own fields or its date. */
  predicate SingleLineFields(item: FeedItem, isoString: int -> string) {
    '\n' !in item.source && '\n' !in item.title && '\n' !in item.link && '\n' !in DateSuffix(item, isoString)
  }

  /** The lines of the text rendering of `items`: two per item. */
  function ListLines(items: seq<FeedItem>, isoString: int -> string): seq<string> {
    if items == [] then []
    else [ItemHead(items[0], isoString), ItemLinkLine(items[0])] + ListLines(items[1..], isoString)
  }

  /** `join("\n")` peels off the first item's lines. */
  lemma RenderListCons(items: seq<FeedItem>, isoString: int -> string)
    requires items != []
    ensures |items| == 1 ==> RenderList(items, isoString) == ItemLine(items[0], isoString)
    ensures |items| > 1 ==> RenderList(items, isoString) == ItemLine(items[0], isoString) + "\n" + RenderList(items[1..], isoString)
  {
    var lines := seq(|items|, i requires 0 <= i < |items| => ItemLine(items[i], isoString));
    assert lines[1..] == seq(|items[1..]|, i requires 0 <= i < |items[1..]| => ItemLine(items[1..][i], isoString));
  }

  /** When no field holds a newline, the text list reads back, line by line,
      as the heading line and the link line of every item in turn. */
  lemma {:induction false} RenderListLines(items: seq<FeedItem>, isoString: int -> string)
    requires items != []
    requires forall i :: 0 <= i < |items| ==> SingleLineFields(items[i], isoString)
    ensures Split(RenderList(items, isoString), '\n') == ListLines(items, isoString)
    decreases |items|, 1
  {
    var head := ItemHead(items[0], isoString);
    var link := ItemLinkLine(items[0]);
    assert SingleLineFields(items[0], isoString);
    RenderListCons(items, isoString);
    if |items| == 1 {
      SplitPrefix(head, '\n', link);
      SplitNoSeparator(link, '\n');
      assert ListLines(items[1..], isoString) == [];
    } else {
      RenderListLinesCons(items, isoString);
    }
  }

  lemma {:induction false} RenderListLinesCons(items: seq<FeedItem>, isoString: int -> string)
    requires |items| > 1
    requires forall i :: 0 <= i < |items| ==> SingleLineFields(items[i], isoString)
    ensures Split(RenderList(items, isoString), '\n') == ListLines(items, isoString)
    decreases |items|, 0
  {
    var head := ItemHead(items[0], isoString);
    var link := ItemLinkLine(items[0]);
    assert '\n' !in head && '\n' !in link by {
      assert SingleLineFields(items[0], isoString);
    }
    var rest := RenderList(items[1..], isoString);
    assert RenderList(items, isoString) == head + ['\n'] + (link + ['\n'] + rest) by {
      RenderListCons(items, isoString);
    }
    assert Split(rest, '\n') == ListLines(items[1..], isoString) by {
      forall i | 0 <= i < |items[1..]| ensures SingleLineFields(items[1..][i], isoString) {
        assert items[1..][i] == items[i + 1];
      }
      RenderListLines(items[1..], isoString);
    }
    calc {
      Split(RenderList(items, isoString), '\n');
    == { SplitPrefix(head, '\n', link + ['\n'] + rest); }
      [head] + Split(link + ['\n'] + rest, '\n');
    == { SplitPrefix(link, '\n', rest); }
      [head] + ([link] + ListLines(items[1..], isoString));
    == 
      ListLines(items, isoString);
    }
  }

  /** Each text list has exactly two lines per item. */
  lemma {:induction false} ListLinesCount(items: seq<FeedItem>, isoString: int -> string)
    ensures |ListLines(items, isoString)| == 2 * |items|
  {
    if items != [] {
      ListLinesCount(items[1..], isoString);
    }
  }

  /** One pass of a global single-character `replace`. */
  function ReplaceChar(s: string, c: char, rep: string): string {
    if s == [] then []
    else (if s[0] == c then rep else [s[0]]) + ReplaceChar(s[1..], c, rep)
  }

  lemma {:induction false} ReplaceCharConcat(a: string, b: string, c: char, rep: string)
    ensures ReplaceChar(a + b, c, rep) == ReplaceChar(a, c, rep) + ReplaceChar(b, c, rep)
  {
    if a == [] {
      assert a + b == b;
    } else {
      assert (a + b)[1..] == a[1..] + b;
      ReplaceCharConcat(a[1..], b, c, rep);
    }
  }

  lemma {:induction false} ReplaceCharAbsent(s: string, c: char, rep: string)
    requires c !in s
    ensures ReplaceChar(s, c, rep) == s
  {
    if s != [] {
      ReplaceCharAbsent(s[1..], c, rep);
    }
  }

  /** `escapeHtml`: five global replacements, `&` first. */
  function EscapeHtml(s: string): string {
    var s1 := ReplaceChar(s, '&', "&amp;");
    var s2 := ReplaceChar(s1, '<', "&lt;");
    var s3 := ReplaceChar(s2, '>', "&gt;");
    var s4 := ReplaceChar(s3, '"', "&quot;");
    ReplaceChar(s4, '\'', "&#39;")
  }

  /** The entity each character is written as. */
  function EscapeChar(c: char): string {
    if c == '&' then "&amp;"
    else if c == '<' then "&lt;"
    else if c == '>' then "&gt;"
    else if c == '"' then "&quot;"
    else if c == '\'' then "&#39;"
    else [c]
  }

  /** Escaping character by character, the reference that `escapeHtml` meets. */
  function EscapeEach(s: string): string {
    if s == [] then [] else EscapeChar(s[0]) + EscapeEach(s[1..])
  }

  lemma EscapeHtmlConcat(a: string, b: string)
    ensures EscapeHtml(a + b) == EscapeHtml(a) + EscapeHtml(b)
  {
    var a1, b1 := ReplaceChar(a, '&', "&amp;"), ReplaceChar(b, '&', "&amp;");
    ReplaceCharConcat(a, b, '&', "&amp;");
    var a2, b2 := ReplaceChar(a1, '<', "&lt;"), ReplaceChar(b1, '<', "&lt;");
    ReplaceCharConcat(a1, b1, '<', "&lt;");
    var a3, b3 := ReplaceChar(a2, '>', "&gt;"), ReplaceChar(b2, '>', "&gt;");
    ReplaceCharConcat(a2, b2, '>', "&gt;");
    var a4, b4 := ReplaceChar(a3, '"', "&quot;"), ReplaceChar(b3, '"', "&quot;");
    ReplaceCharConcat(a3, b3, '"', "&quot;");
    ReplaceCharConcat(a4, b4, '\'', "&#39;");
  }

  lemma ReplaceCharSingle(c: char, rep: string)
    ensures ReplaceChar([c], c, rep) == rep
  {
    assert [c][1..] == [];
  }

  lemma EscapeAmp()
    ensures EscapeHtml("&") == "&amp;"
  {
    var s1 := ReplaceChar("&", '&', "&amp;");
    assert s1 == "&amp;" by { ReplaceCharSingle('&', "&amp;"); }
    assert '<' !in s1 && '>' !in s1 && '"' !in s1 && '\'' !in s1;
    ReplaceCharAbsent(s1, '<', "&lt;");
    ReplaceCharAbsent(s1, '>', "&gt;");
    ReplaceCharAbsent(s1, '"', "&quot;");
    ReplaceCharAbsent(s1, '\'', "&#39;");
  }

  lemma EscapeLt()
    ensures EscapeHtml("<") == "&lt;"
  {
    var s1 := ReplaceChar("<", '&', "&amp;");
    assert s1 == "<" by { ReplaceCharAbsent("<", '&', "&amp;"); }
    var s2 := ReplaceChar(s1, '<', "&lt;");
    assert s2 == "&lt;" by { ReplaceCharSingle('<', "&lt;"); }
    var s3 := ReplaceChar(s2, '>', "&gt;");
    assert s3 == "&lt;" by { ReplaceCharAbsent(s2, '>', "&gt;"); }
    var s4 := ReplaceChar(s3, '"', "&quot;");
    assert s4 == "&lt;" by { ReplaceCharAbsent(s3, '"', "&quot;"); }
    assert ReplaceChar(s4, '\'', "&#39;") == "&lt;" by { ReplaceCharAbsent(s4, '\'', "&#39;"); }
  }

  lemma EscapeGt()
    ensures EscapeHtml(">") == "&gt;"
  {
    var s1 := ReplaceChar(">", '&', "&amp;");
    assert s1 == ">" by { ReplaceCharAbsent(">", '&', "&amp;"); }
    var s2 := ReplaceChar(s1, '<', "&lt;");
    assert s2 == ">" by { ReplaceCharAbsent(s1, '<', "&lt;"); }
    var s3 := ReplaceChar(s2, '>', "&gt;");
    assert s3 == "&gt;" by { ReplaceCharSingle('>', "&gt;"); }
    var s4 := ReplaceChar(s3, '"', "&quot;");
    assert s4 == "&gt;" by { ReplaceCharAbsent(s3, '"', "&quot;"); }
    assert ReplaceChar(s4, '\'', "&#39;") == "&gt;" by { ReplaceCharAbsent(s4, '\'', "&#39;"); }
  }

  lemma EscapeQuot()
    ensures EscapeHtml("\"") == "&quot;"
  {
    var s1 := ReplaceChar("\"", '&', "&amp;");
    assert s1 == "\"" by { ReplaceCharAbsent("\"", '&', "&amp;"); }
    var s2 := ReplaceChar(s1, '<', "&lt;");
    assert s2 == "\"" by { ReplaceCharAbsent(s1, '<', "&lt;"); }
    var s3 := ReplaceChar(s2, '>', "&gt;");
    assert s3 == "\"" by { ReplaceCharAbsent(s2, '>', "&gt;"); }
    var s4 := ReplaceChar(s3, '"', "&quot;");
    assert s4 == "&quot;" by { ReplaceCharSingle('"', "&quot;"); }
    assert ReplaceChar(s4, '\'', "&#39;") == "&quot;" by { ReplaceCharAbsent(s4, '\'', "&#39;"); }
  }

  lemma EscapeApos()
    ensures EscapeHtml("'") == "&#39;"
  {
    var s1 := ReplaceChar("'", '&', "&amp;");
    assert s1 == "'" by { ReplaceCharAbsent("'", '&', "&amp;"); }
    var s2 := ReplaceChar(s1, '<', "&lt;");
    assert s2 == "'" by { ReplaceCharAbsent(s1, '<', "&lt;"); }
    var s3 := ReplaceChar(s2, '>', "&gt;");
    assert s3 == "'" by { ReplaceCharAbsent(s2, '>', "&gt;"); }
    var s4 := ReplaceChar(s3, '"', "&quot;");
    assert s4 == "'" by { ReplaceCharAbsent(s3, '"', "&quot;"); }
    assert ReplaceChar(s4, '\'', "&#39;") == "&#39;" by { ReplaceCharSingle('\'', "&#39;"); }
  }

  lemma EscapePlain(c: char)
    requires c != '&' && c != '<' && c != '>' && c != '"' && c != '\''
    ensures EscapeHtml([c]) == [c]
  {
    var s1 := ReplaceChar([c], '&', "&amp;");
    assert s1 == [c] by { ReplaceCharAbsent([c], '&', "&amp;"); }
    var s2 := ReplaceChar(s1, '<', "&lt;");
    assert s2 == [c] by { ReplaceCharAbsent(s1, '<', "&lt;"); }
    var s3 := ReplaceChar(s2, '>', "&gt;");
    assert s3 == [c] by { ReplaceCharAbsent(s2, '>', "&gt;"); }
    var s4 := ReplaceChar(s3, '"', "&quot;");
    assert s4 == [c] by { ReplaceCharAbsent(s3, '"', "&quot;"); }
    assert ReplaceChar(s4, '\'', "&#39;") == [c] by { ReplaceCharAbsent(s4, '\'', "&#39;"); }
  }

  /** Because `&` is replaced first, every character is escaped exactly once:
      an entity produced by one pass is left alone by the later ones. */
  lemma EscapeHtmlChar(c: char)
    ensures EscapeHtml([c]) == EscapeChar(c)
  {
    if c == '&' {
      EscapeAmp();
    } else if c == '<' {
      EscapeLt();
    } else if c == '>' {
      EscapeGt();
    } else if c == '"' {
      EscapeQuot();
    } else if c == '\'' {
      EscapeApos();
    } else {
      EscapePlain(c);
    }
  }

  /** `escapeHtml` escapes each character on its own. */
  lemma {:induction false} EscapeHtmlIsEscapeEach(s: string)
    ensures EscapeHtml(s) == EscapeEach(s)
  {
    if s == [] {
      assert ReplaceChar(s, '&', "&amp;") == [];
    } else {
      assert s == [s[0]] + s[1..];
      EscapeHtmlConcat([s[0]], s[1..]);
      EscapeHtmlChar(s[0]);
      EscapeHtmlIsEscapeEach(s[1..]);
    }
  }

  lemma {:induction false} EscapeEachNoMarkup(s: string)
    ensures '<' !in EscapeEach(s) && '>' !in EscapeEach(s) && '"' !in EscapeEach(s) && '\'' !in EscapeEach(s)
  {
    if s != [] {
      var e, rest := EscapeChar(s[0]), EscapeEach(s[1..]);
      assert '<' !in e && '>' !in e && '"' !in e && '\'' !in e;
      EscapeEachNoMarkup(s[1..]);
      assert EscapeEach(s) == e + rest;
    }
  }

  /** Escaped text holds no raw `<`, `>`, `"` or `'`. */
  lemma EscapeHtmlNoMarkup(s: string)
    ensures '<' !in EscapeHtml(s) && '>' !in EscapeHtml(s) && '"' !in EscapeHtml(s) && '\'' !in EscapeHtml(s)
  {
    EscapeHtmlIsEscapeEach(s);
    EscapeEachNoMarkup(s);
  }

  /** Reading the five entities back. */
  function Unescape(t: string): string
    decreases |t|
  {
    if t == [] then []
    else if |t| >= 5 && t[..5] == "&amp;" then "&" + Unescape(t[5..])
    else if |t| >= 4 && t[..4] == "&lt;" then "<" + Unescape(t[4..])
    else if |t| >= 4 && t[..4] == "&gt;" then ">" + Unescape(t[4..])
    else if |t| >= 6 && t[..6] == "&quot;" then "\"" + Unescape(t[6..])
    else if |t| >= 5 && t[..5] == "&#39;" then "'" + Unescape(t[5..])
    else [t[0]] + Unescape(t[1..])
  }

  // Each entity reads back as its character; its second character tells it
  // apart from the entities tried before it.
  lemma UnescapeAmp(rest: string)
    ensures Unescape("&amp;" + rest) == "&" + Unescape(rest)
  {
    var t := "&amp;" + rest;
    assert t[..5] == "&amp;" && t[5..] == rest;
  }

  lemma UnescapeLt(rest: string)
    ensures Unescape("&lt;" + rest) == "<" + Unescape(rest)
  {
    var t := "&lt;" + rest;
    assert t[..4] == "&lt;" && t[4..] == rest;
    assert |t| >= 5 ==> t[..5][1] == 'l';
  }

  lemma UnescapeGt(rest: string)
    ensures Unescape("&gt;" + rest) == ">" + Unescape(rest)
  {
    var t := "&gt;" + rest;
    assert t[..4] == "&gt;" && t[4..] == rest;
    assert |t| >= 5 ==> t[..5][1] == 'g';
  }

  lemma UnescapeQuot(rest: string)
    ensures Unescape("&quot;" + rest) == "\"" + Unescape(rest)
  {
    var t := "&quot;" + rest;
    assert t[..6] == "&quot;" && t[6..] == rest;
    assert t[..5][1] == 'q' && t[..4][1] == 'q';
  }

  lemma UnescapeApos(rest: string)
    ensures Unescape("&#39;" + rest) == "'" + Unescape(rest)
  {
    var t := "&#39;" + rest;
    assert t[..5] == "&#39;" && t[5..] == rest;
    assert t[..4][1] == '#';
    assert |t| >= 6 ==> t[..6][1] == '#';
  }

  /** Any character but `&` starts no entity. */
  lemma UnescapePlain(c: char, rest: string)
    requires c != '&'
    ensures Unescape([c] + rest) == [c] + Unescape(rest)
  {
    var t := [c] + rest;
    assert t[0] == c && t[1..] == rest;
    assert |t| >= 4 ==> t[..4][0] == c;
    assert |t| >= 5 ==> t[..5][0] == c;
    assert |t| >= 6 ==> t[..6][0] == c;
  }

  lemma UnescapeStep(c: char, rest: string)
    ensures Unescape(EscapeChar(c) + rest) == [c] + Unescape(rest)
  {
    if c == '&' {
      UnescapeAmp(rest);
    } else if c == '<' {
      UnescapeLt(rest);
    } else if c == '>' {
      UnescapeGt(rest);
    } else if c == '"' {
      UnescapeQuot(rest);
    } else if c == '\'' {
      UnescapeApos(rest);
    } else {
      UnescapePlain(c, rest);
    }
  }

  /** Escaping loses nothing: the entities read back as the original text. */
  lemma {:induction false} UnescapeEscape(s: string)
    ensures Unescape(EscapeHtml(s)) == s
  {
    EscapeHtmlIsEscapeEach(s);
    UnescapeEscapeEach(s);
  }

  lemma {:induction false} UnescapeEscapeEach(s: string)
    ensures Unescape(EscapeEach(s)) == s
  {
    if s != [] {
      UnescapeStep(s[0], EscapeEach(s[1..]));
      UnescapeEscapeEach(s[1..]);
    }
  }

  // The fixed pieces of the HTML template, white space included.
  const HTML_ITEM_OPEN := "\n        <li>\n          <div><strong>["
  const HTML_ITEM_LINK := "</div>\n          <div><a href=\""
  const HTML_ITEM_CLOSE := "</a></div>\n        </li>\n      "

  /** One HTML list entry, with every field escaped. */
  function HtmlItem(item: FeedItem, isoString: int -> string): string {
    HTML_ITEM_OPEN + EscapeHtml(item.source) + "]</strong> " + EscapeHtml(item.title)
      + EscapeHtml(DateSuffix(item, isoString)) + HTML_ITEM_LINK + EscapeHtml(item.link) + "\">"
      + EscapeHtml(item.link) + HTML_ITEM_CLOSE
  }

  /** `renderHtmlList`: the entries run together. */
  function RenderHtmlList(items: seq<FeedItem>, isoString: int -> string): string {
    Join(seq(|items|, i requires 0 <= i < |items| => HtmlItem(items[i], isoString)), "")
  }

  /** The HTML list is empty for no items, and otherwise the first item's
      entry followed by the list of the others. */
  lemma RenderHtmlListCons(items: seq<FeedItem>, isoString: int -> string)
    ensures items == [] ==> RenderHtmlList(items, isoString) == ""
    ensures items != [] ==>
              RenderHtmlList(items, isoString) == HtmlItem(items[0], isoString) + RenderHtmlList(items[1..], isoString)
  {
    if items != [] {
      var entries := seq(|items|, i requires 0 <= i < |items| => HtmlItem(items[i], isoString));
      assert entries[1..] == seq(|items[1..]|, i requires 0 <= i < |items[1..]| => HtmlItem(items[1..][i], isoString));
      JoinCons(entries);
    }
  }

  /** The HTML list of two runs of items is the list of the first run followed
      by the list of the second: each item's entry stands alone, in order. */
  lemma RenderHtmlListConcat(a: seq<FeedItem>, b: seq<FeedItem>, isoString: int -> string)
    ensures RenderHtmlList(a + b, isoString) == RenderHtmlList(a, isoString) + RenderHtmlList(b, isoString)
  {
    var ea := seq(|a|, i requires 0 <= i < |a| => HtmlItem(a[i], isoString));
    var eb := seq(|b|, i requires 0 <= i < |b| => HtmlItem(b[i], isoString));
    assert seq(|a + b|, i requires 0 <= i < |a + b| => HtmlItem((a + b)[i], isoString)) == ea + eb;
    JoinConcat(ea, eb);
  }

  /** The items of one category, most recent first, at most `maxItems` of them. */
  function SectionItems(items: seq<FeedItem>, category: FeedCategory, maxItems: int): seq<FeedItem> {
    Take(SortByPublishedDesc(Filter(items, (x: FeedItem) => x.category == category)), maxItems)
  }

  /** A section lists the first `min(n, maxItems)` of the `n` items of its
      category once they are sorted by recency; each is one of the input items. */
  lemma SectionItemsSpec(items: seq<FeedItem>, category: FeedCategory, maxItems: int)
    requires maxItems >= 0
    ensures var inCategory := Filter(items, (x: FeedItem) => x.category == category);
            var r := SectionItems(items, category, maxItems);
            && |r| == (if |inCategory| < maxItems then |inCategory| else maxItems)
            && r == SortByPublishedDesc(inCategory)[..|r|]
            && SortedByRecency(r)
            && forall i :: 0 <= i < |r| ==> r[i].category == category && r[i] in items
  {
    var inCategory := Filter(items, (x: FeedItem) => x.category == category);
    var sorted := SortByPublishedDesc(inCategory);
    var r := SectionItems(items, category, maxItems);
    forall i | 0 <= i < |r| ensures r[i].category == category && r[i] in items {
      assert r[i] == sorted[i];
      assert sorted[i] in multiset(sorted);
      assert r[i] in multiset(inCategory);
    }
  }

  /** A section is empty exactly when its cap is zero or no item has its category. */
  lemma SectionEmptyIff(items: seq<FeedItem>, category: FeedCategory, maxItems: int)
    requires maxItems >= 0
    ensures SectionItems(items, category, maxItems) == [] <==>
              maxItems == 0 || forall i :: 0 <= i < |items| ==> items[i].category != category
  {
    var inCategory := Filter(items, (x: FeedItem) => x.category == category);
    SectionItemsSpec(items, category, maxItems);
    if exists i :: 0 <= i < |items| && items[i].category == category {
      var i :| 0 <= i < |items| && items[i].category == category;
      assert items[i] in inCategory;
    }
  }

  /** One text section: its heading with the item count, then the list or `(no items)`. */
  function TextSection(section: DigestSection, list: seq<FeedItem>, isoString: int -> string): string {
    "\n\n" + section.title + " (" + IntToString(|list|) + ")\n"
      + (if |list| > 0 then RenderList(list, isoString) else "(no items)")
  }

  const HTML_SECTION_OPEN := "\n        <h2>"
  const HTML_SECTION_LIST := ")</h2>\n        <ul>\n          "
  const HTML_SECTION_CLOSE := "\n        </ul>\n      "

  /** One HTML section: its escaped heading with the count, then the list or a
      `(no items)` entry. */
  function HtmlSection(section: DigestSection, list: seq<FeedItem>, isoString: int -> string): string {
    HTML_SECTION_OPEN + EscapeHtml(section.title) + " (" + IntToString(|list|) + HTML_SECTION_LIST
      + (if |list| > 0 then RenderHtmlList(list, isoString) else "<li>(no items)</li>") + HTML_SECTION_CLOSE
  }

  const TEXT_HEADER := "Daily Tech + Hiring Digest\nGenerated: "
  const HTML_PAGE_OPEN := "\n    <html>\n      <body>\n        <h1>Daily Tech + Hiring Digest</h1>\n        <div>Generated: "
  const HTML_PAGE_CLOSE := "\n      </body>\n    </html>\n  "

  /** The text and the HTML header lines. */
  function TextHeader(generatedAt: int, isoString: int -> string): string {
    TEXT_HEADER + isoString(generatedAt)
  }

  function HtmlPage(generatedAt: int, isoString: int -> string, sections: string): string {
    HTML_PAGE_OPEN + EscapeHtml(isoString(generatedAt)) + "</div>\n        " + sections + HTML_PAGE_CLOSE
  }

  /** `buildDigest`: a function of the items, the cap and the generation time alone. */
  function BuildDigest(items: seq<FeedItem>, maxItems: int, generatedAt: int, isoString: int -> string): RenderedDigest {
    var textSections := seq(|SECTIONS|, i requires 0 <= i < |SECTIONS| =>
      TextSection(SECTIONS[i], SectionItems(items, SECTIONS[i].category, maxItems), isoString));
    var htmlSections := seq(|SECTIONS|, i requires 0 <= i < |SECTIONS| =>
      HtmlSection(SECTIONS[i], SectionItems(items, SECTIONS[i].category, maxItems), isoString));
    RenderedDigest(
      TextHeader(generatedAt, isoString) + Join(textSections, ""),
      HtmlPage(generatedAt, isoString, Join(htmlSections, "")))
  }

  lemma Join3(parts: seq<string>)
    requires |parts| == 3
    ensures Join(parts, "") == parts[0] + parts[1] + parts[2]
  {
    assert parts[1..][1..] == [parts[2]];
    assert Join(parts[1..], "") == parts[1] + "" + parts[2];
    assert parts[1] + "" + parts[2] == parts[1] + parts[2];
    assert Join(parts, "") == parts[0] + "" + (parts[1] + parts[2]);
  }

  /** The sections come in the order hiring, tech, research, and the text and
      the HTML render each from the same list of items. */
  lemma BuildDigestLayout(items: seq<FeedItem>, maxItems: int, generatedAt: int, isoString: int -> string)
    ensures var hiring := SectionItems(items, Hiring, maxItems);
            var tech := SectionItems(items, Tech, maxItems);
            var research := SectionItems(items, Research, maxItems);
            var d := BuildDigest(items, maxItems, generatedAt, isoString);
            && d.text == TextHeader(generatedAt, isoString)
                 + (TextSection(DigestSection("Hiring News", Hiring), hiring, isoString)
                 + TextSection(DigestSection("Tech News", Tech), tech, isoString)
                 + TextSection(DigestSection("AI / Research Breakthroughs", Research), research, isoString))
            && d.html == HtmlPage(generatedAt, isoString,
                 HtmlSection(DigestSection("Hiring News", Hiring), hiring, isoString)
                 + HtmlSection(DigestSection("Tech News", Tech), tech, isoString)
                 + HtmlSection(DigestSection("AI / Research Breakthroughs", Research), research, isoString))
  {
    var textSections := seq(|SECTIONS|, i requires 0 <= i < |SECTIONS| =>
      TextSection(SECTIONS[i], SectionItems(items, SECTIONS[i].category, maxItems), isoString));
    var htmlSections := seq(|SECTIONS|, i requires 0 <= i < |SECTIONS| =>
      HtmlSection(SECTIONS[i], SectionItems(items, SECTIONS[i].category, maxItems), isoString));
    Join3(textSections);
    Join3(htmlSections);
  }

  /** An empty section says so in both renderings, with a count of zero. */
  lemma EmptySectionRendering(section: DigestSection, isoString: int -> string)
    ensures TextSection(section, [], isoString) == "\n\n" + section.title + " (" + "0" + ")\n" + "(no items)"
    ensures HtmlSection(section, [], isoString) ==
              "\n        <h2>" + EscapeHtml(section.title) + " (" + "0" + ")</h2>\n        <ul>\n          "
                + "<li>(no items)</li>" + "\n        </ul>\n      "
  {
    assert IntToString(0) == "0";
  }
}
