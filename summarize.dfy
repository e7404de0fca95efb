/** The optional highlight summary (src/summarize.ts): the prompt sent to the
    language model and the reading of its JSON reply. */
module Summarize {
  import opened Wrappers
  import opened Strings
  import opened Seqs
  import opened Types
  import Config

  datatype SectionSummaryInput = SectionSummaryInput(category: FeedCategory, title: string, items: seq<FeedItem>)

  /** `Record<FeedCategory, string[]>` */
  datatype Highlights = Highlights(hiring: seq<string>, tech: seq<string>, research: seq<string>)

  /** The value `JSON.parse` produces. Numbers are integers here. */
  datatype Json = JNull | JBool(b: bool) | JNumber(n: int) | JString(s: string) | JArray(elems: seq<Json>) | JObject(fields: map<string, Json>)

  // ---------------------------------------------------------------- stripHtml

  /** The rest of `s` after its first `c`. */
  function AfterFirst(s: string, c: char): (r: string)
    requires c in s
    ensures |r| < |s| && r == s[|s| - |r|..]
  {
    if s[0] == c then s[1..] else AfterFirst(s[1..], c)
  }

  /** `s.replace(/<[^>]*>/g, " ")`: from each `<` that has a `>` after it up
      to the first such `>` becomes one space; a `<` with no `>` after it stays. */
  function TagPass(s: string): (r: string)
    ensures forall c :: c in r ==> c == ' ' || c in s
    decreases |s|
  {
    if s == [] then []
    else if s[0] == '<' && '>' in s[1..] then
      var rest := AfterFirst(s[1..], '>');
      assert forall c :: c in rest ==> c in s;
      " " + TagPass(rest)
    else [s[0]] + TagPass(s[1..])
  }

  /** No `>` comes after a `<`: nothing that still looks like a tag. */
  ghost predicate NoTag(s: string) {
    forall i, j :: 0 <= i < j < |s| && s[i] == '<' ==> s[j] != '>'
  }

  /** No two whitespace characters in a row. */
  ghost predicate NoSpaceRun(s: string) {
    forall i, j :: 0 <= i < j < |s| && j == i + 1 ==> !(IsSpace(s[i]) && IsSpace(s[j]))
  }

  lemma NoTagCons(c: char, t: string)
    requires NoTag(t)
    requires c == '<' ==> '>' !in t
    ensures NoTag([c] + t)
  {
    var s := [c] + t;
    forall i, j | 0 <= i < j < |s| && s[i] == '<' ensures s[j] != '>' {
      assert s[j] == t[j - 1];
      if i > 0 {
        assert s[i] == t[i - 1];
      }
    }
  }

  lemma {:induction false} TagPassNoTag(s: string)
    ensures NoTag(TagPass(s))
    decreases |s|
  {
    if s != [] {
      if s[0] == '<' && '>' in s[1..] {
        var rest := AfterFirst(s[1..], '>');
        TagPassNoTag(rest);
        NoTagCons(' ', TagPass(rest));
      } else {
        TagPassNoTag(s[1..]);
        NoTagCons(s[0], TagPass(s[1..]));
      }
    }
  }

  /** Collapsing whitespace runs creates no tag. */
  lemma {:induction false} ReplaceRunsNoTag(s: string)
    requires NoTag(s)
    ensures NoTag(ReplaceRuns(s, IsSpace))
  {
    if s != [] {
      var t := s[1..];
      assert NoTag(t) by {
        forall i, j | 0 <= i < j < |t| && t[i] == '<' ensures t[j] != '>' {
          assert s[i + 1] == t[i] && s[j + 1] == t[j];
        }
      }
      ReplaceRunsNoTag(t);
      ReplaceRunsChars(t, IsSpace);
      var c := if !IsSpace(s[0]) then s[0] else ' ';
      if s[0] == '<' {
        forall k | 0 <= k < |t| ensures t[k] != '>' {
          assert s[k + 1] == t[k];
        }
      }
      NoTagCons(c, ReplaceRuns(t, IsSpace));
    }
  }

  /** A contiguous piece of a string keeps both properties. */
  lemma SliceProperties(s: string, r: string, k: nat)
    requires k + |r| <= |s| && r == s[k..k + |r|]
    ensures NoTag(s) ==> NoTag(r)
    ensures NoSpaceRun(s) ==> NoSpaceRun(r)
  {
    assert forall m :: 0 <= m < |r| ==> r[m] == s[k + m];
  }

  /** `stripHtml`: tags become spaces, whitespace runs one space, then trimmed. */
  function StripHtml(value: string): string {
    Trim(ReplaceRuns(TagPass(value), IsSpace))
  }

  /** Stripped text is trimmed, has no two whitespace characters in a row
      and has no `>` after any `<`. */
  lemma StripHtmlClean(value: string)
    ensures IsTrimmed(StripHtml(value)) && NoSpaceRun(StripHtml(value)) && NoTag(StripHtml(value))
  {
    var tagless := TagPass(value);
    var spaced := ReplaceRuns(tagless, IsSpace);
    TagPassNoTag(value);
    ReplaceRunsNoTag(tagless);
    ReplaceRunsSeparated(tagless, IsSpace);
    var r := Trim(spaced);
    var k: nat :| TrimmedAt(spaced, r, k);
    SliceProperties(spaced, r, k);
  }

  // ---------------------------------------------------------------- buildPrompt

  // The fixed text of the instruction lines.
  const INTRO := "You are writing a concise daily tech digest."
  const CAP_OPEN := "For each section, write up to "
  const CAP_CLOSE := " bullet highlights (each <= 20 words)."
  const NO_SPECULATION := "Use only the provided items; no speculation."
  const REPLY_FORMAT := "Return JSON: {\"hiring\":[...],\"tech\":[...],\"research\":[...] }."

  /** The four instruction lines that open every prompt. */
  function Instructions(maxPerSection: int): (r: seq<string>)
    ensures |r| == 4
  {
    [ INTRO,
      CAP_OPEN + IntToString(maxPerSection) + CAP_CLOSE,
      NO_SPECULATION,
      REPLY_FORMAT ]
  }

  /** The blank line and the heading that open a section. */
  function SectionHeading(section: SectionSummaryInput): (r: seq<string>)
    ensures |r| == 2 && r[0] == ""
  {
    ["", "SECTION: " + section.title + " (" + CategoryName(section.category) + ")"]
  }

  /** `` ` — ` `` and the first 240 characters of the stripped summary, or
      nothing when there is no summary or it strips to nothing. */
  function Snippet(item: FeedItem): (r: string)
    ensures r == "" <==> item.summary.None? || item.summary.value == "" || StripHtml(item.summary.value) == ""
    ensures r != "" ==>
              var stripped := StripHtml(item.summary.value);
              && |r| == 3 + (if |stripped| < 240 then |stripped| else 240)
              && r == " \U{2014} " + stripped[..|r| - 3]
  {
    var summary := if item.summary.Some? && item.summary.value != "" then StripHtml(item.summary.value) else "";
    if summary != "" then " \U{2014} " + Take(summary, 240) else ""
  }

  /** The prompt line of the item at `index` in its section. */
  function ItemPromptLine(item: FeedItem, index: nat): string {
    Trim(IntToString(index + 1) + ". " + item.title + " [" + item.source + "]" + Snippet(item))
  }

  function SectionLines(section: SectionSummaryInput): seq<string> {
    SectionHeading(section) + MapIndexed(section.items, |section.items|, ItemPromptLine)
  }

  /** The lines of all sections, in order. */
  function AllSectionLines(sections: seq<SectionSummaryInput>): seq<string> {
    FlatMap(sections, SectionLines)
  }

  /** The lines of the prompt. */
  function PromptLines(sections: seq<SectionSummaryInput>, maxPerSection: int): seq<string> {
    Instructions(maxPerSection) + AllSectionLines(sections)
  }

  /** `section.items.forEach(...)`: one line per item, in order. */
  method ItemLinesOf(items: seq<FeedItem>) returns (lines: seq<string>)
    ensures lines == MapIndexed(items, |items|, ItemPromptLine)
  {
    lines := [];
    for index := 0 to |items|
      invariant lines == MapIndexed(items, index, ItemPromptLine)
    {
      var line := ItemPromptLine(items[index], index);
      MapIndexedSnoc(items, index, ItemPromptLine);
      lines := lines + [line];
    }
  }

  /** One pass of the section loop of `buildPrompt` appends exactly that
      section's lines. */
  lemma SectionAdded(sections: seq<SectionSummaryInput>, s: nat, intro: seq<string>, before: seq<string>, itemLines: seq<string>)
    requires s < |sections|
    requires before == intro + AllSectionLines(sections[..s])
    requires itemLines == MapIndexed(sections[s].items, |sections[s].items|, ItemPromptLine)
    ensures before + SectionHeading(sections[s]) + itemLines == intro + AllSectionLines(sections[..s + 1])
  {
    FlatMapSnoc(sections, s, SectionLines);
  }

  /** `buildPrompt`: lines pushed in turn and joined with newlines. */
  method BuildPrompt(sections: seq<SectionSummaryInput>, maxPerSection: int) returns (prompt: string)
    ensures prompt == Prompt(sections, maxPerSection)
  {
    var lines: seq<string> := [];
    lines := lines + [INTRO];
    lines := lines + [CAP_OPEN + IntToString(maxPerSection) + CAP_CLOSE];
    lines := lines + [NO_SPECULATION];
    lines := lines + [REPLY_FORMAT];
    assert lines == Instructions(maxPerSection);
    ghost var intro := lines;
    for s := 0 to |sections|
      invariant lines == intro + AllSectionLines(sections[..s])
    {
      var section := sections[s];
      ghost var before := lines;
      lines := lines + [""];
      lines := lines + ["SECTION: " + section.title + " (" + CategoryName(section.category) + ")"];
      assert lines == before + SectionHeading(section);
      var itemLines := ItemLinesOf(section.items);
      lines := lines + itemLines;
      SectionAdded(sections, s, intro, before, itemLines);
    }
    assert sections[..|sections|] == sections;
    assert lines == PromptLines(sections, maxPerSection);
    prompt := Join(lines, "\n");
  }

  /** The text of the prompt: its lines joined with newlines. */
  function Prompt(sections: seq<SectionSummaryInput>, maxPerSection: int): string {
    Join(PromptLines(sections, maxPerSection), "\n")
  }

  /** The prompt opens with the instructions, and every section contributes
      a blank line, its heading and one line per item, in its place after the
      lines of the sections before it. */
  lemma PromptLayout(sections: seq<SectionSummaryInput>, maxPerSection: int, k: nat)
    requires k < |sections|
    ensures PromptLines(sections, maxPerSection) ==
              Instructions(maxPerSection) + AllSectionLines(sections[..k]) + SectionLines(sections[k])
                + AllSectionLines(sections[k + 1..])
  {
    FlatMapAt(sections, k, SectionLines);
  }

  /** The line of a section's heading. */
  lemma SectionLinesHeading(section: SectionSummaryInput)
    ensures SectionLines(section)[0] == ""
    ensures SectionLines(section)[1] == "SECTION: " + section.title + " (" + CategoryName(section.category) + ")"
    ensures |SectionLines(section)| == 2 + |section.items|
    ensures forall i :: 0 <= i < |section.items| ==> SectionLines(section)[2 + i] == ItemPromptLine(section.items[i], i)
  {
  }

  /** An item's line begins with its number, its title and `[source]`; the
      snippet after it is empty or the first 240 characters of the stripped
      summary. */
  lemma ItemPromptLineShape(item: FeedItem, index: nat)
    ensures var head := IntToString(index + 1) + ". " + item.title + " [" + item.source + "]";
            && |head| <= |ItemPromptLine(item, index)|
            && ItemPromptLine(item, index)[..|head|] == head
    ensures Snippet(item) != "" ==>
              && item.summary.Some?
              && var stripped := StripHtml(item.summary.value);
                 var n := |Snippet(item)| - 3;
                 && n == (if |stripped| < 240 then |stripped| else 240)
                 && Snippet(item) == " \U{2014} " + stripped[..n]
  {
    var number := IntToString(index + 1);
    var head := number + ". " + item.title + " [" + item.source + "]";
    assert number == NatToString(index + 1);
    assert head[0] == number[0];
    assert head[|head| - 1] == ']';
    TrimKeepsHead(head, Snippet(item));
  }

  // ---------------------------------------------------------------- the reply

  /** `text.indexOf(c)` */
  function IndexOf(s: string, c: char): (r: int)
    ensures -1 <= r < |s|
    ensures r == -1 <==> c !in s
    ensures r >= 0 ==> s[r] == c && forall k :: 0 <= k < r ==> s[k] != c
  {
    if s == [] then -1
    else if s[0] == c then 0
    else
      var k := IndexOf(s[1..], c);
      if k == -1 then -1 else k + 1
  }

  /** `text.lastIndexOf(c)` */
  function LastIndexOf(s: string, c: char): (r: int)
    ensures -1 <= r < |s|
    ensures r == -1 <==> c !in s
    ensures r >= 0 ==> s[r] == c && forall k :: r < k < |s| ==> s[k] != c
  {
    if s == [] then -1
    else if s[|s| - 1] == c then |s| - 1
    else LastIndexOf(s[..|s| - 1], c)
  }

  /** `extractJson` over `JSON.parse`, given as `parse`, which yields `None`
      where it throws. */
  function ExtractJson(text: string, parse: string -> Option<Json>): (r: Option<Json>)
    ensures r.Some? ==> exists i, j :: 0 <= i < j < |text| && text[i] == '{' && text[j] == '}'
  {
    var start := IndexOf(text, '{');
    var end := LastIndexOf(text, '}');
    if start == -1 || end == -1 || end <= start then None
    else
      assert text[start] == '{' && text[end] == '}';
      parse(text[start..end + 1])
  }

  /** When some `}` follows a `{`, the parsed text runs from the first `{`
      to the last `}`, both included. */
  lemma ExtractJsonSlice(text: string, parse: string -> Option<Json>, i: nat, j: nat)
    requires i < j < |text| && text[i] == '{' && text[j] == '}'
    ensures exists a, b ::
              && 0 <= a < b < |text| && text[a] == '{' && text[b] == '}'
              && (forall k :: 0 <= k < a ==> text[k] != '{')
              && (forall k :: b < k < |text| ==> text[k] != '}')
              && ExtractJson(text, parse) == parse(text[a..b + 1])
  {
    var start := IndexOf(text, '{');
    var end := LastIndexOf(text, '}');
    assert start <= i && j <= end;
    assert ExtractJson(text, parse) == parse(text[start..end + 1]);
    assert text[start] == '{' && text[end] == '}';
  }

  /** `String(value)` for the values `JSON.parse` produces. */
  function JsString(value: Json): string
    decreases value, 1
  {
    match value
    case JNull => "null"
    case JBool(b) => if b then "true" else "false"
    case JNumber(n) => IntToString(n)
    case JString(s) => s
    case JArray(es) => ArrayString(es)
    case JObject(_) => "[object Object]"
  }

  /** `Array.prototype.toString`: the elements joined with commas, `null` as nothing. */
  function ArrayString(es: seq<Json>): string
    decreases es, 0
  {
    if es == [] then ""
    else
      var first := if es[0].JNull? then "" else JsString(es[0]);
      if |es| == 1 then first else first + "," + ArrayString(es[1..])
  }

  /** `list.map((item) => String(item)).filter(Boolean)` */
  function HighlightList(es: seq<Json>): (r: seq<string>)
    ensures |r| <= |es|
    ensures forall i :: 0 <= i < |r| ==> r[i] != "" && exists j :: 0 <= j < |es| && r[i] == JsString(es[j])
    ensures forall j :: 0 <= j < |es| && JsString(es[j]) != "" ==> JsString(es[j]) in r
    ensures IsSubseq(r, JsStrings(es))
    ensures forall s :: multiset(r)[s] == if s != "" then multiset(JsStrings(es))[s] else 0
  {
    var strings := JsStrings(es);
    FilterMultiset(strings, (s: string) => s != "");
    var r := Filter(strings, (s: string) => s != "");
    assert forall i :: 0 <= i < |r| ==> r[i] in strings;
    assert forall j :: 0 <= j < |es| ==> strings[j] == JsString(es[j]);
    r
  }

  /** `arr.map((value) => String(value))`, in order. */
  function JsStrings(es: seq<Json>): (r: seq<string>)
    ensures |r| == |es| && forall j :: 0 <= j < |es| ==> r[j] == JsString(es[j])
  {
    seq(|es|, i requires 0 <= i < |es| => JsString(es[i]))
  }

  /** The field `name` of an object, when it is an array. */
  predicate HasArray(fields: map<string, Json>, name: string) {
    name in fields && fields[name].JArray?
  }

  /** `coerceHighlights`: present only for an object whose three category
      fields are all arrays. */
  function CoerceHighlights(value: Json): (r: Option<Highlights>)
    ensures r.Some? <==> value.JObject? && HasArray(value.fields, "hiring") && HasArray(value.fields, "tech") && HasArray(value.fields, "research")
    ensures r.Some? ==> r.value.hiring == HighlightList(value.fields["hiring"].elems)
    ensures r.Some? ==> r.value.tech == HighlightList(value.fields["tech"].elems)
    ensures r.Some? ==> r.value.research == HighlightList(value.fields["research"].elems)
  {
    if !value.JObject? then None
    else
      var m := value.fields;
      if HasArray(m, "hiring") && HasArray(m, "tech") && HasArray(m, "research") then
        Some(Highlights(HighlightList(m["hiring"].elems), HighlightList(m["tech"].elems), HighlightList(m["research"].elems)))
      else None
  }

  /** JavaScript truthiness of a parsed value. */
  predicate JsonTruthy(value: Json) {
    match value
    case JNull => false
    case JBool(b) => b
    case JNumber(n) => n != 0
    case JString(s) => s != ""
    case JArray(_) => true
    case JObject(_) => true
  }

  /** Reads the model's reply: the whole trimmed reply as JSON, or else the
      braces inside it. */
  function ReadReply(text: string, parse: string -> Option<Json>): (r: Option<Highlights>)
    ensures parse(text).Some? ==> r == CoerceHighlights(parse(text).value)
    ensures r.Some? && parse(text).None? ==>
              exists i, j :: 0 <= i < j < |text| && text[i] == '{' && text[j] == '}'
  {
    match parse(text)
    case Some(parsed) => CoerceHighlights(parsed)
    case None =>
      var fallback := ExtractJson(text, parse);
      if fallback.Some? && JsonTruthy(fallback.value) then CoerceHighlights(fallback.value) else None
  }

  /** The reply of the model named by the first argument to the prompt in the
      second: `Err` where the request throws, `Ok(None)` where the response
      has no `output_text`. */
  type Model = (string, string) -> Result<Option<string>>

  /** `summarizeHighlights`; `apiKey` is `OPENAI_API_KEY`. */
  function SummarizeHighlights(config: Config.Config, apiKey: Option<string>, sections: seq<SectionSummaryInput>,
                               model: Model, parse: string -> Option<Json>): (r: Option<Highlights>)
    ensures !config.summarizeEnabled ==> r == None
    ensures apiKey.None? || apiKey == Some("") ==> r == None
    ensures var reply := model(config.summarizeModel, Prompt(sections, config.summarizeTop));
            && (reply.Err? || reply.value.None? || Trim(reply.value.value) == "" ==> r == None)
            && (config.summarizeEnabled && apiKey.Some? && apiKey.value != "" &&
                reply.Ok? && reply.value.Some? && Trim(reply.value.value) != "" ==>
                  r == ReadReply(Trim(reply.value.value), parse))
  {
    if !config.summarizeEnabled then None
    else if apiKey.None? || apiKey.value == "" then None
    else
      var prompt := Prompt(sections, config.summarizeTop);
      match model(config.summarizeModel, prompt)
      case Err(_) => None
      case Ok(output) =>
        if output.None? then None
        else
          var text := Trim(output.value);
          if text == "" then None else ReadReply(text, parse)
  }
}
