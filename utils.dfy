/** Link canonicalisation, de-duplication and the recency sort (src/utils.ts). */
module Utils {
  import opened Wrappers
  import opened Strings
  import opened Seqs
  import opened Types

  /** Query parameters that only track the reader. */
  const DROP_PARAMS: set<string> := {
    "utm_source", "utm_medium", "utm_campaign", "utm_content", "utm_term",
    "gclid", "fbclid", "mc_cid", "mc_eid", "ref", "spm", "igshid"
  }

  /** One name/value pair of `url.searchParams`. */
  datatype QueryParam = QueryParam(name: string, value: string)

  /** A URL as the WHATWG parser holds it, reduced to what the canonicaliser
      touches. `params` is the `searchParams` list in order; `rest` stands for
      every other component; `queryEdited` records that the list has been
      written back into the query, which `searchParams.delete` does and which
      changes how the query is serialised. */
  datatype Url = Url(rest: string, params: seq<QueryParam>, queryEdited: bool)

  /** The WHATWG URL parser (`new URL(s)`, `None` where it throws) and its
      serialiser (`url.toString()`), both left abstract. */
  datatype UrlOps = UrlOps(parse: string -> Option<Url>, serialize: Url -> string)

  predicate IsTracking(p: QueryParam) {
    p.name in DROP_PARAMS
  }

  /** The parameters whose name is not in `names`, in their order. */
  function Without(ps: seq<QueryParam>, names: set<string>): seq<QueryParam> {
    Filter(ps, (p: QueryParam) => p.name !in names)
  }

  lemma {:induction false} WithoutUnion(ps: seq<QueryParam>, a: set<string>, b: set<string>)
    ensures Without(Without(ps, a), b) == Without(ps, a + b)
  {
    if ps != [] {
      WithoutUnion(ps[1..], a, b);
      if ps[0].name !in a {
        assert Without(ps, a) == [ps[0]] + Without(ps[1..], a);
        assert Without(ps, a)[1..] == Without(ps[1..], a);
      }
    }
  }

  /** Only the names that occur in the list matter. */
  lemma {:induction false} WithoutOccurring(ps: seq<QueryParam>, a: set<string>, b: set<string>)
    requires forall i :: 0 <= i < |ps| ==> (ps[i].name in a <==> ps[i].name in b)
    ensures Without(ps, a) == Without(ps, b)
  {
    if ps != [] {
      WithoutOccurring(ps[1..], a, b);
    }
  }

  /** `url.searchParams.keys()`: the names, with repetitions, in order. */
  function Names(ps: seq<QueryParam>): (r: seq<string>)
    ensures |r| == |ps| && forall i :: 0 <= i < |ps| ==> r[i] == ps[i].name
  {
    seq(|ps|, i requires 0 <= i < |ps| => ps[i].name)
  }

  /** `url.searchParams.delete(name)`. */
  function Delete(u: Url, name: string): Url {
    u.(params := Without(u.params, {name}), queryEdited := true)
  }

  /** What the deletion loop leaves of a URL: no tracking parameter, every other
      parameter kept in its order, the other components untouched. */
  function StripTracking(u: Url): (v: Url)
    ensures v.rest == u.rest
    ensures forall i :: 0 <= i < |v.params| ==> !IsTracking(v.params[i])
    ensures IsSubseq(v.params, u.params)
    ensures forall i :: 0 <= i < |u.params| && !IsTracking(u.params[i]) ==> u.params[i] in v.params
    ensures v.queryEdited <==> u.queryEdited || exists i :: 0 <= i < |u.params| && IsTracking(u.params[i])
  {
    u.(params := Without(u.params, DROP_PARAMS),
       queryEdited := u.queryEdited || exists i :: 0 <= i < |u.params| && IsTracking(u.params[i]))
  }

  /** Every parameter that does not track is kept as often as it occurs. */
  lemma StripTrackingCounts(u: Url)
    ensures forall p :: multiset(StripTracking(u).params)[p] == if IsTracking(p) then 0 else multiset(u.params)[p]
  {
    FilterMultiset(u.params, (p: QueryParam) => p.name !in DROP_PARAMS);
  }

  /** Stripping the tracking parameters a second time changes nothing. */
  lemma StripTrackingIdempotent(u: Url)
    ensures StripTracking(StripTracking(u)) == StripTracking(u)
  {
    WithoutUnion(u.params, DROP_PARAMS, DROP_PARAMS);
    assert DROP_PARAMS + DROP_PARAMS == DROP_PARAMS;
  }

  /** `s.endsWith("?") ? s.slice(0, -1) : s` */
  function DropTrailingQuestionMark(s: string): (r: string)
    ensures if s != [] && s[|s| - 1] == '?' then s == r + "?" else r == s
  {
    if s != [] && s[|s| - 1] == '?' then s[..|s| - 1] else s
  }

  /** The canonical form of a link: empty for an empty link; for a parseable URL
      its serialisation without tracking parameters and without a trailing `?`;
      otherwise the trimmed, lower-cased text. */
  function CanonicalLink(link: string, ops: UrlOps): (r: string)
    ensures link == "" ==> r == ""
    ensures link != "" && ops.parse(link).None? ==> r == Lower(Trim(link))
    ensures link != "" && ops.parse(link).Some? ==>
              var s := ops.serialize(StripTracking(ops.parse(link).value));
              if s != [] && s[|s| - 1] == '?' then s == r + "?" else r == s
  {
    if link == "" then ""
    else match ops.parse(link)
      case None => Lower(Trim(link))
      case Some(u) => DropTrailingQuestionMark(ops.serialize(StripTracking(u)))
  }

  /** The names in `keys[..n]` that are tracking parameters. */
  ghost function DroppedNames(keys: seq<string>, n: nat): set<string>
    requires n <= |keys|
  {
    set j | 0 <= j < n && keys[j] in DROP_PARAMS :: keys[j]
  }

  lemma DroppedNamesStep(keys: seq<string>, i: nat)
    requires i < |keys|
    ensures DroppedNames(keys, i + 1) == DroppedNames(keys, i) + (if keys[i] in DROP_PARAMS then {keys[i]} else {})
  {
  }

  /** Once every listed name has been seen, exactly the tracking names occurring in the list were dropped. */
  lemma DroppedNamesAll(ps: seq<QueryParam>)
    ensures forall i :: 0 <= i < |ps| ==> (ps[i].name in DroppedNames(Names(ps), |ps|) <==> ps[i].name in DROP_PARAMS)
    ensures DroppedNames(Names(ps), |ps|) != {} <==> exists i :: 0 <= i < |ps| && IsTracking(ps[i])
  {
    var keys := Names(ps);
    if exists i :: 0 <= i < |ps| && IsTracking(ps[i]) {
      var i :| 0 <= i < |ps| && IsTracking(ps[i]);
      assert keys[i] in DroppedNames(keys, |ps|);
    }
  }

  /** The URL after the deletion loop has looked at `keys[..n]`. */
  ghost function DeletedUpTo(original: Url, keys: seq<string>, n: nat): Url
    requires n <= |keys|
  {
    original.(params := Without(original.params, DroppedNames(keys, n)),
              queryEdited := original.queryEdited || DroppedNames(keys, n) != {})
  }

  /** Before the loop nothing is deleted. */
  lemma DeletedUpToStart(original: Url, keys: seq<string>)
    ensures DeletedUpTo(original, keys, 0) == original
  {
    assert DroppedNames(keys, 0) == {};
    FilterAll(original.params, (p: QueryParam) => p.name !in DroppedNames(keys, 0));
  }

  /** One turn of the loop deletes `keys[n]` exactly when it is a tracking name. */
  lemma DeletedUpToStep(original: Url, keys: seq<string>, n: nat)
    requires n < |keys|
    ensures DeletedUpTo(original, keys, n + 1) ==
            if keys[n] in DROP_PARAMS then Delete(DeletedUpTo(original, keys, n), keys[n])
            else DeletedUpTo(original, keys, n)
  {
    DroppedNamesStep(keys, n);
    if keys[n] in DROP_PARAMS {
      WithoutUnion(original.params, DroppedNames(keys, n), {keys[n]});
      assert DroppedNames(keys, n + 1) == DroppedNames(keys, n) + {keys[n]};
    } else {
      assert DroppedNames(keys, n + 1) == DroppedNames(keys, n);
    }
  }

  /** Once every listed name has been looked at, the loop has stripped the tracking parameters. */
  lemma DeletedUpToEnd(original: Url)
    ensures DeletedUpTo(original, Names(original.params), |original.params|) == StripTracking(original)
  {
    var keys := Names(original.params);
    DroppedNamesAll(original.params);
    WithoutOccurring(original.params, DroppedNames(keys, |keys|), DROP_PARAMS);
  }

  /** `normalizeLink`: deletes, one name at a time, every tracking parameter
      that `keys()` listed when the loop started. */
  method NormalizeLink(link: string, ops: UrlOps) returns (r: string)
    ensures r == CanonicalLink(link, ops)
  {
    if link == "" {
      return "";
    }
    var parsed := ops.parse(link);
    if parsed.None? {
      return Lower(Trim(link));
    }
    var url := parsed.value;
    ghost var original := parsed.value;
    var keys := Names(url.params);
    var i := 0;
    DeletedUpToStart(original, keys);
    while i < |keys|
      invariant 0 <= i <= |keys|
      invariant url == DeletedUpTo(original, keys, i)
    {
      DeletedUpToStep(original, keys, i);
      if keys[i] in DROP_PARAMS {
        url := Delete(url, keys[i]);
      }
      i := i + 1;
    }
    DeletedUpToEnd(original);
    var normalized := ops.serialize(url);
    r := DropTrailingQuestionMark(normalized);
  }

  /** The identity used for de-duplication: the canonical link, or the
      lower-cased title when the canonical link is empty. */
  function DedupeKey(item: FeedItem, ops: UrlOps): (k: string)
    ensures CanonicalLink(item.link, ops) != "" ==> k == CanonicalLink(item.link, ops)
    ensures CanonicalLink(item.link, ops) == "" ==> k == Lower(item.title)
  {
    var c := CanonicalLink(item.link, ops);
    if c != "" then c else Lower(item.title)
  }

  /** `DedupeKey` as a function value, so that the de-duplication lemmas speak of any key. */
  function KeyFn(ops: UrlOps): (f: FeedItem -> string)
    ensures forall x :: f(x) == DedupeKey(x, ops)
  {
    (x: FeedItem) => DedupeKey(x, ops)
  }

  /** No earlier item has the key of `items[i]`. */
  predicate IsFirstWithKey(items: seq<FeedItem>, i: nat, key: FeedItem -> string)
    requires i < |items|
  {
    forall j :: 0 <= j < i ==> key(items[j]) != key(items[i])
  }

  /** The first occurrences among `items[..n]`, in input order. */
  function FirstOccurrences(items: seq<FeedItem>, n: nat, key: FeedItem -> string): seq<FeedItem>
    requires n <= |items|
  {
    if n == 0 then []
    else FirstOccurrences(items, n - 1, key) + (if IsFirstWithKey(items, n - 1, key) then [items[n - 1]] else [])
  }

  /** The result `dedupeItems` promises: every item whose key was not seen before. */
  function Deduped(items: seq<FeedItem>, ops: UrlOps): seq<FeedItem> {
    FirstOccurrences(items, |items|, KeyFn(ops))
  }

  /** The keys of `items[..n]`. */
  ghost function KeysOf(items: seq<FeedItem>, n: nat, key: FeedItem -> string): set<string>
    requires n <= |items|
  {
    set j | 0 <= j < n :: key(items[j])
  }

  /** One step of `dedupeItems`: an item is kept exactly when its key has not
      been seen, and its key is seen from then on. */
  lemma DedupeStep(items: seq<FeedItem>, i: nat, key: FeedItem -> string, seen: set<string>)
    requires i < |items| && seen == KeysOf(items, i, key)
    ensures KeysOf(items, i + 1, key) == seen + {key(items[i])}
    ensures key(items[i]) in seen ==> FirstOccurrences(items, i + 1, key) == FirstOccurrences(items, i, key)
    ensures key(items[i]) !in seen ==> FirstOccurrences(items, i + 1, key) == FirstOccurrences(items, i, key) + [items[i]]
  {
    if key(items[i]) in seen {
      var j :| 0 <= j < i && key(items[j]) == key(items[i]);
      assert !IsFirstWithKey(items, i, key);
    } else {
      forall j | 0 <= j < i ensures key(items[j]) != key(items[i]) {
        assert key(items[j]) in seen;
      }
    }
  }

  /** `normalizeLink(item.link) || item.title.toLowerCase()` */
  method ItemKey(item: FeedItem, ops: UrlOps) returns (key: string)
    ensures key == DedupeKey(item, ops)
  {
    key := NormalizeLink(item.link, ops);
    if key == "" {
      key := Lower(item.title);
    }
  }

  /** `dedupeItems`: a `seen` set and a growing result, in one pass. */
  method DedupeItems(items: seq<FeedItem>, ops: UrlOps) returns (result: seq<FeedItem>)
    ensures result == Deduped(items, ops)
  {
    ghost var k := KeyFn(ops);
    var seen: set<string> := {};
    result := [];
    for i := 0 to |items|
      invariant result == FirstOccurrences(items, i, k)
      invariant seen == KeysOf(items, i, k)
    {
      var item := items[i];
      var key := ItemKey(item, ops);
      DedupeStep(items, i, k, seen);
      if key !in seen {
        seen := seen + {key};
        result := result + [item];
      }
    }
  }

  /** The first occurrences form a subsequence of the input. */
  lemma {:induction false} FirstOccurrencesSubseq(items: seq<FeedItem>, n: nat, key: FeedItem -> string)
    requires n <= |items|
    ensures IsSubseq(FirstOccurrences(items, n, key), items[..n])
  {
    if n == 0 {
      assert IsSubseq<FeedItem>([], []);
    } else {
      var prev := FirstOccurrences(items, n - 1, key);
      FirstOccurrencesSubseq(items, n - 1, key);
      assert items[..n] == items[..n - 1] + [items[n - 1]];
      if IsFirstWithKey(items, n - 1, key) {
        assert FirstOccurrences(items, n, key) == prev + [items[n - 1]];
        SubseqSnoc(prev, items[..n - 1], items[n - 1]);
      } else {
        assert FirstOccurrences(items, n, key) == prev;
        SubseqSnocRight(prev, items[..n - 1], items[n - 1]);
      }
    }
  }

  /** Every kept key is a key of `items[..n]`. */
  lemma {:induction false} FirstOccurrencesKeysIn(items: seq<FeedItem>, n: nat, key: FeedItem -> string)
    requires n <= |items|
    ensures forall i :: 0 <= i < |FirstOccurrences(items, n, key)| ==>
              exists j :: 0 <= j < n && key(FirstOccurrences(items, n, key)[i]) == key(items[j])
  {
    if n > 0 {
      FirstOccurrencesKeysIn(items, n - 1, key);
      var prev := FirstOccurrences(items, n - 1, key);
      var r := FirstOccurrences(items, n, key);
      var tail := if IsFirstWithKey(items, n - 1, key) then [items[n - 1]] else [];
      assert r == prev + tail;
      forall i | 0 <= i < |r| ensures exists j :: 0 <= j < n && key(r[i]) == key(items[j]) {
        if i < |prev| {
          assert r[i] == prev[i];
          var j :| 0 <= j < n - 1 && key(prev[i]) == key(items[j]);
        } else {
          assert r[i] == items[n - 1];
        }
      }
    } else {
      assert FirstOccurrences(items, 0, key) == [];
    }
  }

  /** Every key of `items[..n]` is the key of a kept item. */
  lemma {:induction false} FirstOccurrencesCover(items: seq<FeedItem>, n: nat, key: FeedItem -> string)
    requires n <= |items|
    ensures forall j :: 0 <= j < n ==>
              exists i :: 0 <= i < |FirstOccurrences(items, n, key)| && key(FirstOccurrences(items, n, key)[i]) == key(items[j])
  {
    if n > 0 {
      FirstOccurrencesCover(items, n - 1, key);
      var prev := FirstOccurrences(items, n - 1, key);
      var r := FirstOccurrences(items, n, key);
      var tail := if IsFirstWithKey(items, n - 1, key) then [items[n - 1]] else [];
      assert r == prev + tail;
      forall j | 0 <= j < n ensures exists i :: 0 <= i < |r| && key(r[i]) == key(items[j]) {
        if j < n - 1 {
          var i :| 0 <= i < |prev| && key(prev[i]) == key(items[j]);
          assert r[i] == prev[i];
          assert 0 <= i < |r| && key(r[i]) == key(items[j]);
        } else if IsFirstWithKey(items, n - 1, key) {
          assert r[|r| - 1] == items[j];
          assert key(r[|r| - 1]) == key(items[j]);
        } else {
          var k :| 0 <= k < n - 1 && key(items[k]) == key(items[n - 1]);
          var i :| 0 <= i < |prev| && key(prev[i]) == key(items[k]);
          assert r[i] == prev[i];
          assert 0 <= i < |r| && key(r[i]) == key(items[j]);
        }
      }
      assert r == FirstOccurrences(items, n, key);
    }
  }

  /** No two kept items share a key. */
  lemma {:induction false} FirstOccurrencesDistinct(items: seq<FeedItem>, n: nat, key: FeedItem -> string)
    requires n <= |items|
    ensures forall i, k :: 0 <= i < k < |FirstOccurrences(items, n, key)| ==>
              key(FirstOccurrences(items, n, key)[i]) != key(FirstOccurrences(items, n, key)[k])
  {
    if n > 0 {
      FirstOccurrencesDistinct(items, n - 1, key);
      FirstOccurrencesKeysIn(items, n - 1, key);
      var prev := FirstOccurrences(items, n - 1, key);
      if IsFirstWithKey(items, n - 1, key) {
        var r := prev + [items[n - 1]];
        assert FirstOccurrences(items, n, key) == r;
        forall i, k | 0 <= i < k < |r| ensures key(r[i]) != key(r[k]) {
          assert r[i] == prev[i];
          if k == |r| - 1 {
            assert r[k] == items[n - 1];
            var j :| 0 <= j < n - 1 && key(prev[i]) == key(items[j]);
          } else {
            assert r[k] == prev[k];
          }
        }
      }
    }
  }

  /** Each first occurrence is kept. */
  lemma {:induction false} FirstOccurrencesKept(items: seq<FeedItem>, n: nat, key: FeedItem -> string)
    requires n <= |items|
    ensures forall j :: 0 <= j < n && IsFirstWithKey(items, j, key) ==> items[j] in FirstOccurrences(items, n, key)
  {
    if n > 0 {
      FirstOccurrencesKept(items, n - 1, key);
      var prev := FirstOccurrences(items, n - 1, key);
      var tail := if IsFirstWithKey(items, n - 1, key) then [items[n - 1]] else [];
      assert FirstOccurrences(items, n, key) == prev + tail;
      forall j | 0 <= j < n && IsFirstWithKey(items, j, key) ensures items[j] in prev + tail {
        if j < n - 1 {
          assert items[j] in prev;
        } else {
          assert items[j] in tail;
        }
      }
    }
  }

  /** Everything kept is a first occurrence. */
  lemma {:induction false} FirstOccurrencesOnlyFirst(items: seq<FeedItem>, n: nat, key: FeedItem -> string)
    requires n <= |items|
    ensures forall x :: x in FirstOccurrences(items, n, key) ==>
              exists j :: 0 <= j < n && IsFirstWithKey(items, j, key) && items[j] == x
  {
    if n > 0 {
      FirstOccurrencesOnlyFirst(items, n - 1, key);
      var prev := FirstOccurrences(items, n - 1, key);
      var tail := if IsFirstWithKey(items, n - 1, key) then [items[n - 1]] else [];
      assert FirstOccurrences(items, n, key) == prev + tail;
      forall x | x in prev + tail ensures exists j :: 0 <= j < n && IsFirstWithKey(items, j, key) && items[j] == x {
        if x in prev {
          var j :| 0 <= j < n - 1 && IsFirstWithKey(items, j, key) && items[j] == x;
        } else {
          assert x in tail;
          assert IsFirstWithKey(items, n - 1, key) && items[n - 1] == x;
        }
      }
    }
  }

  /** What `dedupeItems` promises, stated on its result: a subsequence of the
      input with pairwise distinct keys, holding every first occurrence and
      nothing else, and covering every key of the input. */
  lemma DedupedProperties(items: seq<FeedItem>, ops: UrlOps)
    ensures var r := Deduped(items, ops);
            && IsSubseq(r, items)
            && (forall i, k :: 0 <= i < k < |r| ==> DedupeKey(r[i], ops) != DedupeKey(r[k], ops))
            && (forall j :: 0 <= j < |items| && IsFirstWithKey(items, j, KeyFn(ops)) ==> items[j] in r)
            && (forall x :: x in r ==> exists j :: 0 <= j < |items| && IsFirstWithKey(items, j, KeyFn(ops)) && items[j] == x)
            && (forall j :: 0 <= j < |items| ==> exists i :: 0 <= i < |r| && DedupeKey(r[i], ops) == DedupeKey(items[j], ops))
  {
    var k := KeyFn(ops);
    FirstOccurrencesSubseq(items, |items|, k);
    assert items[..|items|] == items;
    FirstOccurrencesCover(items, |items|, k);
    FirstOccurrencesDistinct(items, |items|, k);
    FirstOccurrencesKept(items, |items|, k);
    FirstOccurrencesOnlyFirst(items, |items|, k);
  }

  /** Two items with the same non-empty canonical link: the first one wins,
      whatever their titles. */
  lemma DedupeSameLink(a: FeedItem, b: FeedItem, ops: UrlOps)
    requires CanonicalLink(a.link, ops) == CanonicalLink(b.link, ops) != ""
    ensures Deduped([a, b], ops) == [a]
  {
    var k := KeyFn(ops);
    assert k([a, b][0]) == k([a, b][1]);
    assert !IsFirstWithKey([a, b], 1, k);
    assert IsFirstWithKey([a, b], 0, k);
    assert FirstOccurrences([a, b], 1, k) == [a];
  }

  /** Two items without links whose titles differ only in case collapse into
      the first one ("Foo" and "foo"). */
  lemma DedupeTitleFallback(a: FeedItem, b: FeedItem, ops: UrlOps)
    requires a.link == "" && b.link == ""
    requires a.title == "Foo" && b.title == "foo"
    ensures Deduped([a, b], ops) == [a]
  {
    assert Lower("Foo") == "foo" by {
      assert Lower("Foo")[0] == 'f';
    }
    assert Lower("foo") == "foo";
    var k := KeyFn(ops);
    assert k([a, b][0]) == k([a, b][1]);
    assert !IsFirstWithKey([a, b], 1, k);
    assert IsFirstWithKey([a, b], 0, k);
    assert FirstOccurrences([a, b], 1, k) == [a];
  }

  /** `item.published ? item.published.getTime() : 0` */
  function PublishedTime(item: FeedItem): int {
    item.published.GetOr(0)
  }

  predicate SortedByRecency(s: seq<FeedItem>) {
    forall i, j :: 0 <= i < j < |s| ==> PublishedTime(s[i]) >= PublishedTime(s[j])
  }

  /** Puts `x` in front of the first item that is not more recent than it. */
  function InsertByRecency(x: FeedItem, s: seq<FeedItem>): (r: seq<FeedItem>)
    ensures multiset(r) == multiset(s) + multiset{x}
  {
    if s == [] || PublishedTime(s[0]) <= PublishedTime(x) then [x] + s
    else
      assert s == [s[0]] + s[1..];
      [s[0]] + InsertByRecency(x, s[1..])
  }

  lemma {:induction false} InsertSorted(x: FeedItem, s: seq<FeedItem>)
    requires SortedByRecency(s)
    ensures SortedByRecency(InsertByRecency(x, s))
  {
    if !(s == [] || PublishedTime(s[0]) <= PublishedTime(x)) {
      InsertSorted(x, s[1..]);
      var t := InsertByRecency(x, s[1..]);
      forall k | 0 <= k < |t| ensures PublishedTime(t[k]) <= PublishedTime(s[0]) {
        assert t[k] in multiset(s[1..]) + multiset{x};
        if t[k] != x {
          assert t[k] in s[1..];
        }
      }
      assert InsertByRecency(x, s) == [s[0]] + t;
    }
  }

  /** `sortByPublishedDesc`: a stable sort of a copy, most recent first, a
      missing date counting as 0. */
  function SortByPublishedDesc(items: seq<FeedItem>): (r: seq<FeedItem>)
    ensures SortedByRecency(r)
    ensures multiset(r) == multiset(items)
    ensures |r| == |items|
  {
    if items == [] then []
    else
      assert items == [items[0]] + items[1..];
      var rest := SortByPublishedDesc(items[1..]);
      InsertSorted(items[0], rest);
      InsertByRecency(items[0], rest)
  }

  /** The items published at time `t` (or undated, for `t == 0`), in order. */
  function AtTime(s: seq<FeedItem>, t: int): seq<FeedItem> {
    Filter(s, (x: FeedItem) => PublishedTime(x) == t)
  }

  lemma {:induction false} InsertAtTime(x: FeedItem, s: seq<FeedItem>, t: int)
    ensures AtTime(InsertByRecency(x, s), t) == (if PublishedTime(x) == t then [x] else []) + AtTime(s, t)
  {
    if s == [] || PublishedTime(s[0]) <= PublishedTime(x) {
      assert ([x] + s)[1..] == s;
    } else {
      InsertAtTime(x, s[1..], t);
      var r := InsertByRecency(x, s);
      assert r[1..] == InsertByRecency(x, s[1..]);
    }
  }

  /** Stability: items with the same time keep their input order. */
  lemma {:induction false} SortStable(items: seq<FeedItem>, t: int)
    ensures AtTime(SortByPublishedDesc(items), t) == AtTime(items, t)
  {
    if items != [] {
      SortStable(items[1..], t);
      InsertAtTime(items[0], SortByPublishedDesc(items[1..]), t);
    }
  }

  /** Re-sorting a list that is already sorted leaves it as it is. */
  lemma {:induction false} SortOfSorted(s: seq<FeedItem>)
    requires SortedByRecency(s)
    ensures SortByPublishedDesc(s) == s
  {
    if s != [] {
      SortOfSorted(s[1..]);
      assert s == [s[0]] + s[1..];
    }
  }

  /** Filtering a list sorted by recency leaves it sorted. */
  lemma {:induction false} FilterKeepsRecency(s: seq<FeedItem>, p: FeedItem -> bool)
    requires SortedByRecency(s)
    ensures SortedByRecency(Filter(s, p))
  {
    if s != [] {
      var tail := s[1..];
      var rest := Filter(tail, p);
      assert SortedByRecency(rest) by {
        FilterKeepsRecency(tail, p);
      }
      assert Filter(s, p) == if p(s[0]) then [s[0]] + rest else rest by {
        assert s == [s[0]] + tail;
        FilterCons(s[0], tail, p);
      }
      if p(s[0]) {
        var r := [s[0]] + rest;
        forall i, j | 0 <= i < j < |r| ensures PublishedTime(r[i]) >= PublishedTime(r[j]) {
          assert r[j] == rest[j - 1];
          if i == 0 {
            assert rest[j - 1] in tail;
            var k :| 0 <= k < |tail| && tail[k] == rest[j - 1];
            assert s[k + 1] == tail[k];
          } else {
            assert r[i] == rest[i - 1];
          }
        }
      }
    }
  }

  /** No two items share a key. */
  predicate DistinctKeys(s: seq<FeedItem>, key: FeedItem -> string) {
    forall i, j :: 0 <= i < j < |s| ==> key(s[i]) != key(s[j])
  }

  lemma {:induction false} InsertDistinct(x: FeedItem, s: seq<FeedItem>, key: FeedItem -> string)
    requires DistinctKeys(s, key)
    requires forall i :: 0 <= i < |s| ==> key(s[i]) != key(x)
    ensures DistinctKeys(InsertByRecency(x, s), key)
  {
    if !(s == [] || PublishedTime(s[0]) <= PublishedTime(x)) {
      InsertDistinct(x, s[1..], key);
      var t := InsertByRecency(x, s[1..]);
      forall i | 0 <= i < |t| ensures key(t[i]) != key(s[0]) {
        assert t[i] in multiset(s[1..]) + multiset{x};
      }
    }
  }

  /** Sorting keeps keys distinct. */
  lemma {:induction false} SortDistinct(items: seq<FeedItem>, key: FeedItem -> string)
    requires DistinctKeys(items, key)
    ensures DistinctKeys(SortByPublishedDesc(items), key)
  {
    if items != [] {
      SortDistinct(items[1..], key);
      var t := SortByPublishedDesc(items[1..]);
      forall i | 0 <= i < |t| ensures key(t[i]) != key(items[0]) {
        assert t[i] in multiset(items[1..]);
        var j :| 0 <= j < |items[1..]| && items[1..][j] == t[i];
        assert items[j + 1] == t[i];
      }
      InsertDistinct(items[0], t, key);
    }
  }

  /** Sorting keeps exactly the items it was given. */
  lemma SortMembers(items: seq<FeedItem>)
    ensures forall x :: x in SortByPublishedDesc(items) <==> x in items
  {
    var r := SortByPublishedDesc(items);
    forall x ensures x in r <==> x in items {
      assert x in r <==> x in multiset(r);
      assert x in items <==> x in multiset(items);
    }
  }

  /** Deduplicating by any key and then sorting keeps only input items. */
  lemma SortedFirstOccurrencesMembers(items: seq<FeedItem>, key: FeedItem -> string)
    ensures forall x :: x in SortByPublishedDesc(FirstOccurrences(items, |items|, key)) ==> x in items
  {
    var d := FirstOccurrences(items, |items|, key);
    FirstOccurrencesSubseq(items, |items|, key);
    assert items[..|items|] == items;
    SubseqMembers(d, items);
    SortMembers(d);
  }

  /** Deduplicating by any key and then sorting keeps an item for every key
      of the input. */
  lemma SortedFirstOccurrencesCover(items: seq<FeedItem>, key: FeedItem -> string)
    ensures forall j :: 0 <= j < |items| ==>
              exists x :: x in SortByPublishedDesc(FirstOccurrences(items, |items|, key)) && key(x) == key(items[j])
  {
    var d := FirstOccurrences(items, |items|, key);
    SortMembers(d);
    FirstOccurrencesCover(items, |items|, key);
    forall j | 0 <= j < |items|
      ensures exists x :: x in SortByPublishedDesc(d) && key(x) == key(items[j])
    {
      var m :| 0 <= m < |d| && key(d[m]) == key(items[j]);
      assert d[m] in SortByPublishedDesc(d);
    }
  }

  /** Undated items sort as the oldest: `[null, t2, t1]` with `t2 > t1 > 0`
      comes out as `[t2, t1, null]`. */
  lemma SortUndatedLast(a: FeedItem, b: FeedItem, c: FeedItem)
    requires a.published.None? && b.published.Some? && c.published.Some?
    requires b.published.value > c.published.value > 0
    ensures SortByPublishedDesc([a, b, c]) == [b, c, a]
  {
    assert PublishedTime(a) == 0 < PublishedTime(c) < PublishedTime(b);
    calc {
      SortByPublishedDesc([a, b, c]);
    == { assert [a, b, c][1..] == [b, c]; }
      InsertByRecency(a, SortByPublishedDesc([b, c]));
    == { assert [b, c][1..] == [c]; }
      InsertByRecency(a, InsertByRecency(b, SortByPublishedDesc([c])));
    == { assert [c][1..] == []; }
      InsertByRecency(a, InsertByRecency(b, InsertByRecency(c, [])));
    == { assert InsertByRecency(c, []) == [c] + [] == [c]; }
      InsertByRecency(a, InsertByRecency(b, [c]));
    == { assert [c][0] == c; }
      InsertByRecency(a, [b, c]);
    == { assert [b, c][1..] == [c]; }
      [b] + InsertByRecency(a, [c]);
    == { assert [c][1..] == []; }
      [b] + ([c] + [a]);
    ==
      [b, c, a];
    }
  }
}
