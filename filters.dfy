/** The keyword classifier (src/filters.ts): text normalisation and the
    hiring and tech predicates over the normalised title and summary. */
module Filters {
  import opened Wrappers
  import opened Strings
  import opened Types

  /** Terms that signal news about hiring or job cuts. */
  const HIRING_MUST: seq<string> := [
    "hiring", "layoffs", "job cuts", "hiring freeze", "workforce reduction",
    "headcount", "restructuring", "expands hiring", "staffing", "recruiting",
    "downsizing"
  ]

  /** Terms of recruitment advertising, which disqualify an item as hiring news. */
  const HIRING_EXCLUDE: seq<string> := [
    "apply now", "job posting", "job postings", "career", "careers",
    "open positions", "job board", "now hiring", "hiring now", "vacancy",
    "vacancies"
  ]

  /** Terms that signal technology news. */
  const TECH_KEYWORDS: seq<string> := [
    "ai", "artificial intelligence", "machine learning", "llm", "model", "chip",
    "semiconductor", "cloud", "data center", "robotics", "cybersecurity",
    "open source", "startup", "funding", "acquisition", "product launch",
    "release", "regulation", "policy", "platform"
  ]

  /** `[a-z0-9]` */
  predicate IsWordChar(c: char) {
    ('a' <= c <= 'z') || ('0' <= c <= '9')
  }

  /** `[^a-z0-9\s]` */
  predicate IsPunctuation(c: char) {
    !IsWordChar(c) && !IsSpace(c)
  }

  /** Only `[a-z0-9]` and whitespace. */
  predicate WordsOrSpaces(s: string) {
    forall i :: 0 <= i < |s| ==> IsWordChar(s[i]) || IsSpace(s[i])
  }

  /** Only `[a-z0-9]` and the space character. */
  predicate WordsOrBlanks(s: string) {
    forall i :: 0 <= i < |s| ==> IsWordChar(s[i]) || s[i] == ' '
  }

  /** No two adjacent spaces. */
  ghost predicate SingleSpaced(s: string) {
    forall i, j :: 0 <= i < j < |s| && j == i + 1 ==> !(s[i] == ' ' && s[j] == ' ')
  }

  /** What `normalize` may produce: `[a-z0-9 ]` only, trimmed, single spaces. */
  ghost predicate IsNormalized(s: string) {
    WordsOrBlanks(s) && IsTrimmed(s) && SingleSpaced(s)
  }

  /** After the punctuation pass only word characters and whitespace remain. */
  lemma PunctuationPass(s: string)
    ensures WordsOrSpaces(ReplaceRuns(s, IsPunctuation))
  {
    ReplaceRunsChars(s, IsPunctuation);
  }

  /** After the whitespace pass every blank is a single space character. */
  lemma {:induction false} WhitespacePass(s: string)
    requires WordsOrSpaces(s)
    ensures WordsOrBlanks(ReplaceRuns(s, IsSpace)) && SingleSpaced(ReplaceRuns(s, IsSpace))
  {
    var r := ReplaceRuns(s, IsSpace);
    ReplaceRunsChars(s, IsSpace);
    ReplaceRunsSeparated(s, IsSpace);
    forall i | 0 <= i < |r| ensures IsWordChar(r[i]) || r[i] == ' ' {
      if r[i] != ' ' {
        assert r[i] in s;
      }
    }
  }

  /** A piece of a singly spaced text of words and spaces is one as well. */
  lemma SliceClean(s: string, k: nat, m: nat)
    requires k <= m <= |s|
    requires WordsOrBlanks(s) && SingleSpaced(s)
    ensures WordsOrBlanks(s[k..m]) && SingleSpaced(s[k..m])
  {
    var r := s[k..m];
    assert WordsOrBlanks(r) by {
      forall i | 0 <= i < |r| ensures IsWordChar(r[i]) || r[i] == ' ' {
        assert r[i] == s[k + i];
      }
    }
    forall i, j | 0 <= i < j < |r| && j == i + 1 ensures !(r[i] == ' ' && r[j] == ' ') {
      assert r[i] == s[k + i] && r[j] == s[k + j];
    }
  }

  /** Trimming a singly spaced text of words and spaces normalises it. */
  lemma TrimPass(s: string)
    requires WordsOrBlanks(s) && SingleSpaced(s)
    ensures IsNormalized(Trim(s))
  {
    var r := Trim(s);
    var k: nat :| TrimmedAt(s, r, k);
    SliceClean(s, k, k + |r|);
  }

  /** `normalize`: lower-case, punctuation runs to a space, whitespace runs to
      one space, trimmed; `""` for a missing or empty value. */
  function Normalize(value: Option<string>): (r: string)
    ensures value == None || value == Some("") ==> r == ""
    ensures IsNormalized(r)
  {
    match value
    case None => ""
    case Some(v) =>
      if v == "" then ""
      else
        var words := ReplaceRuns(Lower(v), IsPunctuation);
        var spaced := ReplaceRuns(words, IsSpace);
        PunctuationPass(Lower(v));
        WhitespacePass(words);
        TrimPass(spaced);
        Trim(spaced)
  }

  /** Normalising a normalised text changes nothing. */
  lemma NormalizeIdempotent(value: Option<string>)
    ensures Normalize(Some(Normalize(value))) == Normalize(value)
  {
    var s := Normalize(value);
    if s != "" {
      NormalizeClean(s);
      TrimOfTrimmed(s);
    }
  }

  /** A text that is already lower case, free of punctuation and singly spaced
      is only trimmed. */
  lemma NormalizeClean(s: string)
    requires s != ""
    requires WordsOrBlanks(s) && SingleSpaced(s)
    ensures Normalize(Some(s)) == Trim(s)
  {
    var lowered := Lower(s);
    forall i | 0 <= i < |s| ensures lowered[i] == s[i] {
      assert !IsUpper(s[i]);
    }
    assert lowered == s;
    NormalizeCleanLowered(s);
  }

  /** A text free of punctuation and singly spaced once lower-cased is
      lower-cased and trimmed. */
  lemma NormalizeCleanLowered(s: string)
    requires s != ""
    requires WordsOrBlanks(Lower(s)) && SingleSpaced(Lower(s))
    ensures Normalize(Some(s)) == Trim(Lower(s))
  {
    CleanUnchanged(Lower(s));
  }

  /** Neither pass changes a singly spaced text of words and spaces. */
  lemma CleanUnchanged(s: string)
    requires WordsOrBlanks(s) && SingleSpaced(s)
    ensures ReplaceRuns(s, IsPunctuation) == s
    ensures ReplaceRuns(s, IsSpace) == s
  {
    ReplaceRunsUnchanged(s, IsPunctuation);
    assert forall i :: 0 <= i < |s| && IsSpace(s[i]) ==> s[i] == ' ';
    ReplaceRunsUnchanged(s, IsSpace);
  }

  /** `` `${item.title} ${item.summary ?? ""}` `` after `normalize`. */
  function ClassifiedText(item: FeedItem): string {
    Normalize(Some(item.title + " " + item.summary.GetOr("")))
  }

  /** `keywords.some((keyword) => text.includes(keyword))` */
  function ContainsAny(text: string, keywords: seq<string>): (b: bool)
    ensures b <==> exists i :: 0 <= i < |keywords| && Contains(text, keywords[i])
  {
    if keywords == [] then false
    else if Contains(text, keywords[0]) then true
    else
      var b := ContainsAny(text, keywords[1..]);
      assert forall i :: 1 <= i < |keywords| ==> keywords[i] == keywords[1..][i - 1];
      b
  }

  /** `isHiringNews` */
  function IsHiringNews(item: FeedItem): bool {
    var text := ClassifiedText(item);
    if text == "" then false
    else if ContainsAny(text, HIRING_EXCLUDE) then false
    else ContainsAny(text, HIRING_MUST)
  }

  /** `isTechNews` */
  function IsTechNews(item: FeedItem): bool {
    var text := ClassifiedText(item);
    if text == "" then false
    else ContainsAny(text, TECH_KEYWORDS)
  }

  /** A non-empty keyword never occurs in the empty text, so the emptiness
      test before a `some(includes)` search changes nothing. */
  lemma EmptyTextMatchesNothing(text: string, keywords: seq<string>)
    requires forall i :: 0 <= i < |keywords| ==> keywords[i] != ""
    requires text == ""
    ensures !ContainsAny(text, keywords)
  {
    forall i | 0 <= i < |keywords| ensures !Contains(text, keywords[i]) {
      assert |keywords[i]| > |text|;
    }
  }

  /** The hiring test on a text, for any two keyword lists. */
  lemma HiringTestIff(text: string, must: seq<string>, exclude: seq<string>)
    requires forall i :: 0 <= i < |must| ==> must[i] != ""
    ensures (if text == "" then false else if ContainsAny(text, exclude) then false else ContainsAny(text, must))
            <==> && (exists i :: 0 <= i < |must| && Contains(text, must[i]))
                 && (forall j :: 0 <= j < |exclude| ==> !Contains(text, exclude[j]))
  {
    if text == "" {
      EmptyTextMatchesNothing(text, must);
    }
  }

  /** An item is hiring news exactly when its text holds a hiring term and no
      recruitment-advertising term: exclusion wins over inclusion, and an
      empty text is never hiring news. */
  lemma IsHiringNewsIff(item: FeedItem)
    ensures IsHiringNews(item) <==>
              && (exists i :: 0 <= i < |HIRING_MUST| && Contains(ClassifiedText(item), HIRING_MUST[i]))
              && (forall j :: 0 <= j < |HIRING_EXCLUDE| ==> !Contains(ClassifiedText(item), HIRING_EXCLUDE[j]))
    ensures ClassifiedText(item) == "" ==> !IsHiringNews(item)
  {
    HiringTestIff(ClassifiedText(item), HIRING_MUST, HIRING_EXCLUDE);
  }

  /** An item is tech news exactly when its text holds a tech term; an empty
      text is never tech news. */
  lemma IsTechNewsIff(item: FeedItem)
    ensures IsTechNews(item) <==> exists i :: 0 <= i < |TECH_KEYWORDS| && Contains(ClassifiedText(item), TECH_KEYWORDS[i])
    ensures ClassifiedText(item) == "" ==> !IsTechNews(item)
  {
    var text := ClassifiedText(item);
    if text == "" {
      EmptyTextMatchesNothing(text, TECH_KEYWORDS);
    }
  }

  /** The classified text of an item without summary whose lower-cased title
      is already clean is that lower-cased title. */
  lemma ClassifiedTextOfCleanTitle(item: FeedItem, clean: string)
    requires item.summary == None
    requires Lower(item.title) == clean
    requires clean != "" && IsTrimmed(clean) && WordsOrBlanks(clean) && SingleSpaced(clean)
    ensures ClassifiedText(item) == clean
  {
    var raw := item.title + " " + item.summary.GetOr("");
    assert raw == item.title + " ";
    LowerConcat(item.title, " ");
    assert Lower(" ") == " ";
    var lowered := clean + " ";
    assert Lower(raw) == lowered;
    assert forall i :: 0 <= i < |clean| ==> lowered[i] == clean[i];
    assert lowered[|clean|] == ' ' && clean[|clean| - 1] != ' ';
    NormalizeCleanLowered(raw);
    TrimTrailingSpace(clean);
  }

  lemma LayoffsHeadlineLowered()
    ensures Lower("Company announces layoffs amid AI push") == "company announces layoffs amid ai push"
  {
    LowerPointwise("Company announces layoffs amid AI push", "company announces layoffs amid ai push");
  }

  lemma LayoffsHeadlineClean()
    ensures WordsOrBlanks("company announces layoffs amid ai push")
    ensures IsTrimmed("company announces layoffs amid ai push")
  {
  }

  lemma LayoffsHeadlineSpaced()
    ensures SingleSpaced("company announces layoffs amid ai push")
  {
  }

  lemma LayoffsHeadlineLetters()
    ensures var s := "company announces layoffs amid ai push";
            forall k :: 0 <= k < |s| ==> s[k] != 'j' && s[k] != 'r' && s[k] != 't' && s[k] != 'v' && s[k] != 'w'
  {
  }

  lemma LayoffsHeadlineTerms()
    ensures OccursAt("company announces layoffs amid ai push", "layoffs", 18)
    ensures OccursAt("company announces layoffs amid ai push", "ai", 31)
  {
    OccursAtPointwise("company announces layoffs amid ai push", "layoffs", 18);
    OccursAtPointwise("company announces layoffs amid ai push", "ai", 31);
  }

  /** The classified text of the layoffs headline. */
  lemma LayoffsHeadlineText(item: FeedItem)
    requires item.title == "Company announces layoffs amid AI push" && item.summary == None
    ensures ClassifiedText(item) == "company announces layoffs amid ai push"
  {
    LayoffsHeadlineLowered();
    LayoffsHeadlineClean();
    LayoffsHeadlineSpaced();
    ClassifiedTextOfCleanTitle(item, "company announces layoffs amid ai push");
  }

  /** A text without the letters j, r, t, v and w holds no
      recruitment-advertising term: each of them has one of those letters. */
  lemma NoAdvertWithoutLetters(text: string)
    requires forall k :: 0 <= k < |text| ==> text[k] != 'j' && text[k] != 'r' && text[k] != 't' && text[k] != 'v' && text[k] != 'w'
    ensures forall j :: 0 <= j < |HIRING_EXCLUDE| ==> !Contains(text, HIRING_EXCLUDE[j])
  {
    forall j | 0 <= j < |HIRING_EXCLUDE| ensures !Contains(text, HIRING_EXCLUDE[j]) {
      var keyword := HIRING_EXCLUDE[j];
      assert 'j' in keyword || 'r' in keyword || 't' in keyword || 'v' in keyword || 'w' in keyword;
      if 'j' in keyword {
        MissingCharNoMatch(text, keyword, 'j');
      } else if 'r' in keyword {
        MissingCharNoMatch(text, keyword, 'r');
      } else if 't' in keyword {
        MissingCharNoMatch(text, keyword, 't');
      } else if 'v' in keyword {
        MissingCharNoMatch(text, keyword, 'v');
      } else {
        MissingCharNoMatch(text, keyword, 'w');
      }
    }
  }

  lemma LayoffsHeadlineNoAdvert()
    ensures forall j :: 0 <= j < |HIRING_EXCLUDE| ==> !Contains("company announces layoffs amid ai push", HIRING_EXCLUDE[j])
  {
    LayoffsHeadlineLetters();
    NoAdvertWithoutLetters("company announces layoffs amid ai push");
  }

  /** "Company announces layoffs amid AI push" is hiring news (it holds
      "layoffs" and no advertising term) and tech news (it holds "ai"). */
  lemma LayoffsHeadlineExample(item: FeedItem)
    requires item.title == "Company announces layoffs amid AI push" && item.summary == None
    ensures IsHiringNews(item) && IsTechNews(item)
  {
    var text := ClassifiedText(item);
    assert text == "company announces layoffs amid ai push" by {
      LayoffsHeadlineText(item);
    }
    assert Contains(text, HIRING_MUST[1]) && Contains(text, TECH_KEYWORDS[0]) by {
      LayoffsHeadlineTerms();
    }
    assert forall j :: 0 <= j < |HIRING_EXCLUDE| ==> !Contains(text, HIRING_EXCLUDE[j]) by {
      LayoffsHeadlineNoAdvert();
    }
    IsHiringNewsIff(item);
    IsTechNewsIff(item);
  }

  /** The punctuation pass over `a,b! ` for texts `a` and `b` the pass leaves
      as they are: the comma and the exclamation mark each become a space. */
  lemma PunctuationMarksPass(a: string, b: string)
    requires a != [] && !IsPunctuation(a[|a| - 1]) && ReplaceRuns(a, IsPunctuation) == a
    requires b != [] && !IsPunctuation(b[0]) && !IsPunctuation(b[|b| - 1]) && ReplaceRuns(b, IsPunctuation) == b
    ensures ReplaceRuns(a + ("," + (b + ("!" + " "))), IsPunctuation) == a + (" " + (b + (" " + " ")))
  {
    calc {
      ReplaceRuns(a + ("," + (b + ("!" + " "))), IsPunctuation);
    == { ReplaceRunsConcat(a, "," + (b + ("!" + " ")), IsPunctuation); }
      a + ReplaceRuns("," + (b + ("!" + " ")), IsPunctuation);
    == { ReplaceRunsConcat(",", b + ("!" + " "), IsPunctuation); ReplaceRunsOfRun(",", IsPunctuation); }
      a + (" " + ReplaceRuns(b + ("!" + " "), IsPunctuation));
    == { ReplaceRunsConcat(b, "!" + " ", IsPunctuation); }
      a + (" " + (b + ReplaceRuns("!" + " ", IsPunctuation)));
    == { ReplaceRunsConcat("!", " ", IsPunctuation); ReplaceRunsOfRun("!", IsPunctuation); }
      a + (" " + (b + (" " + " ")));
    }
  }

  /** The whitespace pass over `a  c  ` for texts `a` and `c` the pass leaves
      as they are: each double space becomes single. */
  lemma DoubleSpacesPass(a: string, c: string)
    requires a != [] && !IsSpace(a[|a| - 1]) && ReplaceRuns(a, IsSpace) == a
    requires c != [] && !IsSpace(c[0]) && !IsSpace(c[|c| - 1]) && ReplaceRuns(c, IsSpace) == c
    ensures ReplaceRuns(a + ("  " + (c + "  ")), IsSpace) == a + (" " + (c + " "))
  {
    calc {
      ReplaceRuns(a + ("  " + (c + "  ")), IsSpace);
    == { ReplaceRunsConcat(a, "  " + (c + "  "), IsSpace); }
      a + ReplaceRuns("  " + (c + "  "), IsSpace);
    == { ReplaceRunsConcat("  ", c + "  ", IsSpace); ReplaceRunsOfRun("  ", IsSpace); }
      a + (" " + ReplaceRuns(c + "  ", IsSpace));
    == { ReplaceRunsConcat(c, "  ", IsSpace); ReplaceRunsOfRun("  ", IsSpace); }
      a + (" " + (c + " "));
    }
  }

  /** The words of the job advert are clean. */
  lemma JobAdvertWordsClean()
    ensures WordsOrBlanks("apply now for hiring") && SingleSpaced("apply now for hiring")
    ensures WordsOrBlanks(" great careers") && SingleSpaced(" great careers")
    ensures WordsOrBlanks("great careers") && SingleSpaced("great careers")
  {
  }

  /** The punctuation pass over the lower-cased job advert. */
  lemma JobAdvertPunctuationPass()
    ensures ReplaceRuns("apply now for hiring" + ("," + (" great careers" + ("!" + " "))), IsPunctuation)
         == "apply now for hiring" + (" " + (" great careers" + (" " + " ")))
  {
    JobAdvertWordsClean();
    CleanUnchanged("apply now for hiring");
    CleanUnchanged(" great careers");
    PunctuationMarksPass("apply now for hiring", " great careers");
  }

  /** The whitespace pass over the result. */
  lemma JobAdvertWhitespacePass()
    ensures ReplaceRuns("apply now for hiring" + ("  " + ("great careers" + "  ")), IsSpace)
         == "apply now for hiring" + (" " + ("great careers" + " "))
  {
    JobAdvertWordsClean();
    CleanUnchanged("apply now for hiring");
    CleanUnchanged("great careers");
    DoubleSpacesPass("apply now for hiring", "great careers");
  }

  lemma JobAdvertLowered()
    ensures Lower("Apply now for hiring, great careers!" + " ") == "apply now for hiring, great careers! "
  {
    LowerPointwise("Apply now for hiring, great careers!" + " ", "apply now for hiring, great careers! ");
  }

  lemma JobAdvertTerms()
    ensures IsTrimmed("apply now for hiring great careers")
    ensures OccursAt("apply now for hiring great careers", "apply now", 0)
    ensures OccursAt("apply now for hiring great careers", "hiring", 14)
  {
    OccursAtPointwise("apply now for hiring great careers", "apply now", 0);
    OccursAtPointwise("apply now for hiring great careers", "hiring", 14);
  }

  /** The classified text of an item without summary, pass by pass. */
  lemma ClassifiedTextByPasses(item: FeedItem, lowered: string, words: string, clean: string)
    requires item.summary == None
    requires Lower(item.title + " ") == lowered
    requires ReplaceRuns(lowered, IsPunctuation) == words
    requires ReplaceRuns(words, IsSpace) == clean + " "
    requires clean != "" && IsTrimmed(clean)
    ensures ClassifiedText(item) == clean
  {
    assert item.title + " " + item.summary.GetOr("") == item.title + " ";
    TrimTrailingSpace(clean);
  }

  /** The job advert cut at its punctuation and its spaces. */
  lemma JobAdvertPieces()
    ensures "apply now for hiring, great careers! " == "apply now for hiring" + ("," + (" great careers" + ("!" + " ")))
    ensures "apply now for hiring" + (" " + (" great careers" + (" " + " "))) == "apply now for hiring" + ("  " + ("great careers" + "  "))
    ensures "apply now for hiring" + (" " + ("great careers" + " ")) == "apply now for hiring great careers" + " "
  {
  }

  /** The classified text of the job advert. */
  lemma JobAdvertText(item: FeedItem)
    requires item.title == "Apply now for hiring, great careers!" && item.summary == None
    ensures ClassifiedText(item) == "apply now for hiring great careers"
  {
    JobAdvertLowered();
    JobAdvertPieces();
    JobAdvertPunctuationPass();
    JobAdvertWhitespacePass();
    JobAdvertTerms();
    ClassifiedTextByPasses(item, "apply now for hiring" + ("," + (" great careers" + ("!" + " "))),
      "apply now for hiring" + ("  " + ("great careers" + "  ")), "apply now for hiring great careers");
  }

  /** "Apply now for hiring, great careers!" holds the hiring term "hiring",
      but also "apply now", so it is not hiring news: exclusion wins. */
  lemma JobAdvertExample(item: FeedItem)
    requires item.title == "Apply now for hiring, great careers!" && item.summary == None
    ensures Contains(ClassifiedText(item), "hiring")
    ensures !IsHiringNews(item)
  {
    JobAdvertText(item);
    JobAdvertTerms();
    var text := ClassifiedText(item);
    assert Contains(text, HIRING_EXCLUDE[0]);
    assert Contains(text, "hiring");
  }
}
