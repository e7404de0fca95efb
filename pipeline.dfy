/** The digest run (src/runDigest.ts): merging the fetched feeds, the
    per-source filter, the lookback window, dedupe, sort, the summariser's
    sections and the choice between printing and sending. The fetches
    themselves happen before: each source comes with the items `fetchFeed`
    resolved to (`Rss.ParseFeed` of its response), or with `None` where
    fetching or parsing it threw. */
module Pipeline {
  import opened Wrappers
  import opened Seqs
  import opened Types
  import opened Utils
  import Filters
  import Digest
  import Config
  import Summarize

  /** `applyFeedFilter`: a source's own filter over the items of its feed. */
  function ApplyFeedFilter(source: FeedSource, items: seq<FeedItem>): (r: seq<FeedItem>)
    ensures source.filter == AllItems ==> r == items
    ensures IsSubseq(r, items)
    ensures source.filter == HiringOnly ==> forall x :: x in r <==> x in items && Filters.IsHiringNews(x)
    ensures source.filter == TechOnly ==> forall x :: x in r <==> x in items && Filters.IsTechNews(x)
    ensures source.filter == HiringOnly ==>
              forall x :: multiset(r)[x] == if Filters.IsHiringNews(x) then multiset(items)[x] else 0
    ensures source.filter == TechOnly ==>
              forall x :: multiset(r)[x] == if Filters.IsTechNews(x) then multiset(items)[x] else 0
  {
    match source.filter
    case AllItems =>
      SubseqRefl(items);
      items
    case HiringOnly =>
      FilterMultiset(items, Filters.IsHiringNews);
      Filter(items, Filters.IsHiringNews)
    case TechOnly =>
      FilterMultiset(items, Filters.IsTechNews);
      Filter(items, Filters.IsTechNews)
  }

  /** A source together with the items its fetch resolved to, or `None`
      where the request or the parser threw. */
  datatype Fetched = Fetched(source: FeedSource, items: Option<seq<FeedItem>>)

  /** What one source contributes: nothing when it failed, otherwise its
      parsed items passed through its filter. */
  function SourceItems(fetched: Fetched): (r: seq<FeedItem>)
    ensures fetched.items.None? ==> r == []
    ensures fetched.items.Some? ==> r == ApplyFeedFilter(fetched.source, fetched.items.value)
  {
    match fetched.items
    case None => []
    case Some(items) => ApplyFeedFilter(fetched.source, items)
  }

  /** `fetchAllFeeds`: the contributions of the sources, flattened in order. */
  function FetchAllFeeds(fetched: seq<Fetched>): seq<FeedItem> {
    FlatMap(fetched, SourceItems)
  }

  /** Each source's items appear as one block, after those of the sources
      before it and before those of the sources after it. */
  lemma FetchAllFeedsOrder(fetched: seq<Fetched>, k: nat)
    requires k < |fetched|
    ensures FetchAllFeeds(fetched) ==
              FetchAllFeeds(fetched[..k]) + SourceItems(fetched[k])
                + FetchAllFeeds(fetched[k + 1..])
  {
    FlatMapAt(fetched, k, SourceItems);
  }

  /** A source that failed adds nothing: the run goes on with the others. */
  lemma FailedSourceContributesNothing(before: seq<Fetched>, source: FeedSource, after: seq<Fetched>)
    ensures FetchAllFeeds(before + [Fetched(source, None)] + after) ==
              FetchAllFeeds(before) + FetchAllFeeds(after)
  {
    FlatMapEmptyPiece(before, Fetched(source, None), after, SourceItems);
  }

  /** The largest distance from the epoch, in milliseconds, that a `Date`
      can hold; beyond it `new Date(ms)` is an Invalid Date. */
  const MAX_TIME := 8_640_000_000_000_000

  /** `new Date(now - lookbackHours * 60 * 60 * 1000)`, in milliseconds, or
      `None` for the Invalid Date that a time beyond `MAX_TIME` gives. */
  function Cutoff(now: int, lookbackHours: int): (c: Option<int>)
    ensures c.Some? <==> -MAX_TIME <= now - lookbackHours * 3600000 <= MAX_TIME
    ensures c.Some? ==> now - c.value == lookbackHours * 3600000
  {
    var ms := now - lookbackHours * 60 * 60 * 1000;
    if -MAX_TIME <= ms <= MAX_TIME then Some(ms) else None
  }

  /** `withinLookback`: undated items are kept; a dated one when it is not
      older than the cutoff. Against an Invalid Date, whose time is `NaN`,
      `>=` is false. */
  predicate WithinLookback(item: FeedItem, cutoff: Option<int>) {
    item.published.None? || (cutoff.Some? && item.published.value >= cutoff.value)
  }

  /** A dated item is inside the window exactly when the cutoff is a valid
      `Date` and the item is at most `lookbackHours` hours old, the boundary
      included. */
  lemma WithinLookbackAge(item: FeedItem, now: int, lookbackHours: int)
    requires item.published.Some?
    ensures WithinLookback(item, Cutoff(now, lookbackHours)) <==>
              && -MAX_TIME <= now - lookbackHours * 3600000 <= MAX_TIME
              && now - item.published.value <= lookbackHours * 3600000
  {
  }

  /** A window so long (or so far in the future) that the cutoff is an
      Invalid Date keeps the undated items and no others. */
  lemma InvalidCutoffKeepsUndated(items: seq<FeedItem>, now: int, lookbackHours: int)
    requires now - lookbackHours * 3600000 > MAX_TIME || now - lookbackHours * 3600000 < -MAX_TIME
    ensures forall x :: x in RecentItems(items, Cutoff(now, lookbackHours)) <==> x in items && x.published.None?
  {
  }

  /** `items.filter((item) => withinLookback(item, cutoff))` */
  function RecentItems(items: seq<FeedItem>, cutoff: Option<int>): (r: seq<FeedItem>)
    ensures IsSubseq(r, items)
    ensures forall i :: 0 <= i < |r| ==> WithinLookback(r[i], cutoff)
    ensures forall x :: x in items && WithinLookback(x, cutoff) ==> x in r
  {
    Filter(items, (x: FeedItem) => WithinLookback(x, cutoff))
  }

  /** Every item inside the window is kept as often as it occurs. */
  lemma RecentItemsCounts(items: seq<FeedItem>, cutoff: Option<int>)
    ensures forall x :: multiset(RecentItems(items, cutoff))[x] == if WithinLookback(x, cutoff) then multiset(items)[x] else 0
  {
    FilterMultiset(items, (x: FeedItem) => WithinLookback(x, cutoff));
  }

  /** The stages of `runDigest` after fetching: lookback, dedupe, sort. */
  function Stages(items: seq<FeedItem>, cutoff: Option<int>, ops: UrlOps): seq<FeedItem> {
    SortByPublishedDesc(Deduped(RecentItems(items, cutoff), ops))
  }

  /** The list handed to the digest holds no two items with one key and runs
      from newest to oldest. */
  lemma StagesDistinctSorted(items: seq<FeedItem>, cutoff: Option<int>, ops: UrlOps)
    ensures DistinctKeys(Stages(items, cutoff, ops), KeyFn(ops))
    ensures SortedByRecency(Stages(items, cutoff, ops))
  {
    var recent := RecentItems(items, cutoff);
    FirstOccurrencesDistinct(recent, |recent|, KeyFn(ops));
    SortDistinct(Deduped(recent, ops), KeyFn(ops));
  }

  /** Every item of the list is an input item inside the window. */
  lemma StagesWithinWindow(items: seq<FeedItem>, cutoff: Option<int>, ops: UrlOps)
    ensures forall x :: x in Stages(items, cutoff, ops) ==> x in items && WithinLookback(x, cutoff)
  {
    var recent := RecentItems(items, cutoff);
    SortedFirstOccurrencesMembers(recent, KeyFn(ops));
    SubseqMembers(recent, items);
    forall x | x in recent ensures x in items && WithinLookback(x, cutoff) {
      var j :| 0 <= j < |recent| && recent[j] == x;
    }
  }

  /** Every key of an input item inside the window is kept by some item. */
  lemma StagesCoverKeys(items: seq<FeedItem>, cutoff: Option<int>, ops: UrlOps)
    ensures forall x :: x in items && WithinLookback(x, cutoff) ==>
              exists y :: y in Stages(items, cutoff, ops) && DedupeKey(y, ops) == DedupeKey(x, ops)
  {
    var recent := RecentItems(items, cutoff);
    SortedFirstOccurrencesCover(recent, KeyFn(ops));
    forall x | x in items && WithinLookback(x, cutoff)
      ensures exists y :: y in Stages(items, cutoff, ops) && DedupeKey(y, ops) == DedupeKey(x, ops)
    {
      var j :| 0 <= j < |recent| && recent[j] == x;
      var y :| y in Stages(items, cutoff, ops) && KeyFn(ops)(y) == KeyFn(ops)(recent[j]);
    }
  }

  /** The items of one category in the sorted list, at most `24` of them. */
  function SummaryItems(sorted: seq<FeedItem>, category: FeedCategory): seq<FeedItem> {
    Take(Filter(sorted, (x: FeedItem) => x.category == category), 24)
  }

  /** The sections handed to `summarizeHighlights`. */
  function SummarySections(sorted: seq<FeedItem>): (r: seq<Summarize.SectionSummaryInput>)
    ensures |r| == 3
  {
    [ Summarize.SectionSummaryInput(Hiring, "Hiring News", SummaryItems(sorted, Hiring)),
      Summarize.SectionSummaryInput(Tech, "Tech News", SummaryItems(sorted, Tech)),
      Summarize.SectionSummaryInput(Research, "AI / Research Breakthroughs", SummaryItems(sorted, Research)) ]
  }

  /** One category's summary items: the first `min(n, 24)` of the `n` items
      of that category, in the order of the sorted list. */
  lemma SummaryItemsSpec(sorted: seq<FeedItem>, category: FeedCategory)
    requires SortedByRecency(sorted)
    ensures var inCategory := Filter(sorted, (x: FeedItem) => x.category == category);
            var items := SummaryItems(sorted, category);
            && |items| == (if |inCategory| < 24 then |inCategory| else 24)
            && items == inCategory[..|items|]
            && SortedByRecency(items)
            && forall i :: 0 <= i < |items| ==> items[i].category == category && items[i] in sorted
  {
    var inCategory := Filter(sorted, (x: FeedItem) => x.category == category);
    var items := SummaryItems(sorted, category);
    FilterKeepsRecency(sorted, (x: FeedItem) => x.category == category);
    forall i | 0 <= i < |items|
      ensures items[i].category == category && items[i] in sorted
    {
      assert items[i] == inCategory[i];
    }
  }

  /** The summariser sees the digest's sections, in the digest's order and
      under its titles; each holds the first `min(n, 24)` of the `n` items of
      its category, in the order of the sorted list. */
  lemma SummarySectionsSpec(sorted: seq<FeedItem>, k: nat)
    requires SortedByRecency(sorted)
    requires k < 3
    ensures var section := SummarySections(sorted)[k];
            var inCategory := Filter(sorted, (x: FeedItem) => x.category == section.category);
            && section.category == Digest.SECTIONS[k].category
            && section.title == Digest.SECTIONS[k].title
            && |section.items| == (if |inCategory| < 24 then |inCategory| else 24)
            && section.items == inCategory[..|section.items|]
            && SortedByRecency(section.items)
            && forall i :: 0 <= i < |section.items| ==> section.items[i].category == section.category && section.items[i] in sorted
  {
    var section := SummarySections(sorted)[k];
    assert section.items == SummaryItems(sorted, section.category);
    SummaryItemsSpec(sorted, section.category);
  }

  /** What the run ends in: the text printed in a dry run, or the mail sent. */
  datatype Delivery =
    | Printed(text: string)
    | Sent(subject: string, text: string, html: string, to: seq<string>)

  /** A completed run: what the summariser returned, and the delivery. */
  datatype Run = Run(highlights: Option<Summarize.Highlights>, delivery: Delivery)

  /** The dry-run branch of `runDigest`: print the text, or send the mail. */
  function Deliver(config: Config.Config, digest: Digest.RenderedDigest): (d: Delivery)
    ensures d.Printed? <==> config.dryRun
    ensures d.Printed? ==> d.text == digest.text
    ensures d.Sent? ==> d == Sent(config.subject, digest.text, digest.html, config.to)
  {
    if config.dryRun then Printed(digest.text)
    else Sent(config.subject, digest.text, digest.html, config.to)
  }

  /** The stages of `runDigest` once the configuration is loaded. */
  function RunWith(config: Config.Config, apiKey: Option<string>, now: int, fetched: seq<Fetched>,
                     ops: UrlOps, isoString: int -> string,
                   model: Summarize.Model, parse: string -> Option<Summarize.Json>): Run
  {
    var sorted := RunItems(config, now, fetched, ops);
    var highlights := Summarize.SummarizeHighlights(config, apiKey, SummarySections(sorted), model, parse);
    Run(highlights, Deliver(config, Digest.BuildDigest(sorted, config.maxItemsPerSection, now, isoString)))
  }

  /** `runDigest`: `Err` where loading the configuration throws. `now` is
      the clock in milliseconds. */
  function RunDigest(env: Config.Env, toNumber: string -> Option<int>, now: int, fetched: seq<Fetched>,
                     ops: UrlOps, isoString: int -> string,
                     model: Summarize.Model, parse: string -> Option<Summarize.Json>): (r: Result<Run>)
    ensures r.Err? <==> Config.LoadConfig(env, toNumber).Err?
    ensures r.Err? ==> r.error == Config.LoadConfig(env, toNumber).error
  {
    var config :- Config.LoadConfig(env, toNumber);
    Ok(RunWith(config, Config.Lookup(env, "OPENAI_API_KEY"), now, fetched, ops, isoString, model, parse))
  }

  /** The list the digest is built from: the items fetched in the window,
      deduplicated and sorted. */
  function RunItems(config: Config.Config, now: int, fetched: seq<Fetched>, ops: UrlOps): seq<FeedItem>
  {
    Stages(FetchAllFeeds(fetched), Cutoff(now, config.lookbackHours), ops)
  }

  /** A dry run prints and sends nothing; otherwise the mail goes, under the
      configured subject, to the configured recipients, of which there is at
      least one. */
  lemma RunDigestDryRun(env: Config.Env, toNumber: string -> Option<int>, now: int, fetched: seq<Fetched>,
                     ops: UrlOps, isoString: int -> string,
                        model: Summarize.Model, parse: string -> Option<Summarize.Json>)
    requires Config.LoadConfig(env, toNumber).Ok?
    ensures var config := Config.LoadConfig(env, toNumber).value;
            var r := RunDigest(env, toNumber, now, fetched, ops, isoString, model, parse);
            && r.Ok?
            && (r.value.delivery.Printed? <==> config.dryRun)
            && (r.value.delivery.Sent? ==>
                  r.value.delivery.subject == config.subject && r.value.delivery.to == config.to && config.to != [])
  {
  }

  /** The text printed or sent is the digest of the run's items; the summary
      plays no part in it, so any two summarisers give the same delivery. */
  lemma RunDigestDelivery(env: Config.Env, toNumber: string -> Option<int>, now: int, fetched: seq<Fetched>,
                     ops: UrlOps, isoString: int -> string,
                          model: Summarize.Model, parse: string -> Option<Summarize.Json>,
                          otherModel: Summarize.Model, otherParse: string -> Option<Summarize.Json>)
    requires Config.LoadConfig(env, toNumber).Ok?
    ensures var config := Config.LoadConfig(env, toNumber).value;
            var digest := Digest.BuildDigest(RunItems(config, now, fetched, ops),
                                             config.maxItemsPerSection, now, isoString);
            var r := RunDigest(env, toNumber, now, fetched, ops, isoString, model, parse);
            && r.Ok?
            && r.value.delivery.text == digest.text
            && (r.value.delivery.Sent? ==> r.value.delivery.html == digest.html)
            && r.value.delivery ==
                 RunDigest(env, toNumber, now, fetched, ops, isoString, otherModel, otherParse).value.delivery
  {
  }
}
