/** The JavaScript string primitives the digest code relies on: `\s` and
    `trim`, ASCII `toLowerCase`, `includes`, `split` on one character,
    `join`, and the decimal rendering of integers used by template strings. */
module Strings {

  /** The code points matched by the regular-expression class `\s` and removed
      by `String.prototype.trim`: ECMAScript WhiteSpace and LineTerminator. */
  predicate IsSpace(c: char) {
    || c == '\t' || c == '\n' || c == '\U{0B}' || c == '\U{0C}' || c == '\r' || c == ' '
    || c == '\U{A0}' || c == '\U{1680}' || ('\U{2000}' <= c <= '\U{200A}')
    || c == '\U{2028}' || c == '\U{2029}' || c == '\U{202F}' || c == '\U{205F}'
    || c == '\U{3000}' || c == '\U{FEFF}'
  }

  predicate IsUpper(c: char) {
    'A' <= c <= 'Z'
  }

  function LowerChar(c: char): (d: char)
    ensures !IsUpper(d)
    ensures !IsUpper(c) ==> d == c
    ensures IsSpace(d) <==> IsSpace(c)
  {
    if IsUpper(c) then (c as int + 32) as char else c
  }

  /** `toLowerCase`, for the ASCII letters only. */
  function Lower(s: string): (r: string)
    ensures |r| == |s|
    ensures forall i :: 0 <= i < |s| ==> r[i] == LowerChar(s[i])
  {
    if s == [] then [] else [LowerChar(s[0])] + Lower(s[1..])
  }

  lemma {:induction false} LowerConcat(a: string, b: string)
    ensures Lower(a + b) == Lower(a) + Lower(b)
  {
    if a == [] {
      assert a + b == b;
    } else {
      assert (a + b)[1..] == a[1..] + b;
      LowerConcat(a[1..], b);
    }
  }

  /** `Lower` computed one character at a time. */
  lemma LowerPointwise(s: string, t: string)
    requires |s| == |t| && forall i :: 0 <= i < |s| ==> LowerChar(s[i]) == t[i]
    ensures Lower(s) == t
  {
  }

  /** No whitespace at either end: what `trim` produces. */
  predicate IsTrimmed(s: string) {
    s == [] || (!IsSpace(s[0]) && !IsSpace(s[|s| - 1]))
  }

  /** `trimStart`: the suffix left after dropping leading whitespace. */
  function TrimStart(s: string): (r: string)
    ensures |r| <= |s| && r == s[|s| - |r|..]
    ensures forall i :: 0 <= i < |s| - |r| ==> IsSpace(s[i])
    ensures r != [] ==> !IsSpace(r[0])
  {
    if s != [] && IsSpace(s[0]) then TrimStart(s[1..]) else s
  }

  /** `trimEnd`: the prefix left after dropping trailing whitespace. */
  function TrimEnd(s: string): (r: string)
    ensures |r| <= |s| && r == s[..|r|]
    ensures forall i :: |r| <= i < |s| ==> IsSpace(s[i])
    ensures r != [] ==> !IsSpace(r[|r| - 1])
  {
    if s != [] && IsSpace(s[|s| - 1]) then TrimEnd(s[..|s| - 1]) else s
  }

  /** `r` is `s` with `k` characters of whitespace cut off the front and
      whitespace only cut off the back. */
  predicate TrimmedAt(s: string, r: string, k: nat) {
    && k + |r| <= |s| && r == s[k..k + |r|]
    && (forall i :: 0 <= i < k ==> IsSpace(s[i]))
    && (forall i :: k + |r| <= i < |s| ==> IsSpace(s[i]))
  }

  /** `trim`: a contiguous piece of `s`, with only whitespace cut off either end. */
  function Trim(s: string): (r: string)
    ensures IsTrimmed(r)
    ensures exists k: nat :: TrimmedAt(s, r, k)
  {
    var t := TrimStart(s);
    var r := TrimEnd(t);
    assert TrimmedAt(s, r, |s| - |t|);
    r
  }

  /** Trimming adds no character. */
  lemma TrimChars(s: string)
    ensures forall c :: c in Trim(s) ==> c in s
  {
    var r := Trim(s);
    var k: nat :| TrimmedAt(s, r, k);
    forall c | c in r ensures c in s {
      var m :| 0 <= m < |r| && r[m] == c;
      assert s[k + m] == c;
    }
  }

  /** Trimming keeps a head that neither starts nor ends with whitespace. */
  lemma TrimKeepsHead(head: string, rest: string)
    requires head != [] && !IsSpace(head[0]) && !IsSpace(head[|head| - 1])
    ensures |head| <= |Trim(head + rest)| && Trim(head + rest)[..|head|] == head
  {
    var s := head + rest;
    assert s[0] == head[0];
    assert TrimStart(s) == s;
    var r := TrimEnd(s);
    assert s[|head| - 1] == head[|head| - 1];
    assert r == s[..|r|];
    assert r[..|head|] == s[..|head|] == head;
  }

  /** Trimming a trimmed string changes nothing. */
  lemma TrimOfTrimmed(s: string)
    requires IsTrimmed(s)
    ensures Trim(s) == s
  {
    assert TrimStart(s) == s;
  }

  /** Trimming a trimmed string followed by one space gives the string back. */
  lemma TrimTrailingSpace(s: string)
    requires IsTrimmed(s) && s != ""
    ensures Trim(s + " ") == s
  {
    var t := s + " ";
    assert TrimStart(t) == t;
    assert t[..|t| - 1] == s;
    assert TrimEnd(t) == TrimEnd(s);
  }

  /** `pattern` occurs in `text` starting at index `i`. */
  predicate OccursAt(text: string, pattern: string, i: nat) {
    i + |pattern| <= |text| && text[i..i + |pattern|] == pattern
  }

  /** An occurrence checked one character at a time. */
  lemma OccursAtPointwise(text: string, pattern: string, i: nat)
    requires i + |pattern| <= |text|
    requires forall k :: 0 <= k < |pattern| ==> text[i + k] == pattern[k]
    ensures OccursAt(text, pattern, i)
  {
    assert text[i..i + |pattern|] == pattern;
  }

  /** `text.includes(pattern)`. */
  function Contains(text: string, pattern: string): (b: bool)
    ensures b <==> exists i: nat :: OccursAt(text, pattern, i)
  {
    if |pattern| > |text| then false
    else if text[..|pattern|] == pattern then assert OccursAt(text, pattern, 0); true
    else
      var b := Contains(text[1..], pattern);
      assert forall i: nat :: OccursAt(text, pattern, i + 1) <==> OccursAt(text[1..], pattern, i) by {
        forall i: nat ensures OccursAt(text, pattern, i + 1) <==> OccursAt(text[1..], pattern, i) {
          if i + 1 + |pattern| <= |text| {
            var u, v := text[i + 1..i + 1 + |pattern|], text[1..][i..i + |pattern|];
            assert forall j :: 0 <= j < |pattern| ==> u[j] == v[j];
            assert u == v;
          }
        }
      }
      assert !OccursAt(text, pattern, 0);
      assert (exists i: nat :: OccursAt(text, pattern, i)) ==> exists i: nat :: OccursAt(text[1..], pattern, i) by {
        if exists i: nat :: OccursAt(text, pattern, i) {
          var i: nat :| OccursAt(text, pattern, i);
          assert OccursAt(text[1..], pattern, i - 1);
        }
      }
      b
  }

  /** A pattern holding a character the text lacks does not occur in it. */
  lemma MissingCharNoMatch(text: string, pattern: string, c: char)
    requires c in pattern
    requires forall k :: 0 <= k < |text| ==> text[k] != c
    ensures !Contains(text, pattern)
  {
    var j :| 0 <= j < |pattern| && pattern[j] == c;
    forall i: nat | i + |pattern| <= |text| ensures !OccursAt(text, pattern, i) {
      assert text[i..i + |pattern|][j] == text[i + j];
    }
  }

  /** `s.replace(/X+/g, " ")` where `p` is the class `X`: every maximal run of
      characters of the class becomes one space. Read left to right, a class
      character followed by another one is dropped and the last one of a run
      becomes the space. */
  function ReplaceRuns(s: string, p: char -> bool): (r: string)
    ensures s != [] ==> r != []
  {
    if s == [] then []
    else if !p(s[0]) then [s[0]] + ReplaceRuns(s[1..], p)
    else if |s| > 1 && p(s[1]) then ReplaceRuns(s[1..], p)
    else " " + ReplaceRuns(s[1..], p)
  }

  /** Each character of the result is the replacement space or a character of
      the input outside the class. */
  lemma {:induction false} ReplaceRunsChars(s: string, p: char -> bool)
    ensures forall c :: c in ReplaceRuns(s, p) ==> c == ' ' || (!p(c) && c in s)
  {
    if s != [] {
      ReplaceRunsChars(s[1..], p);
      assert forall c :: c in s[1..] ==> c in s;
    }
  }

  /** A result starts with the input's first character when that one is
      outside the class. */
  lemma ReplaceRunsHead(s: string, p: char -> bool)
    requires s != [] && !p(s[0])
    ensures ReplaceRuns(s, p)[0] == s[0]
  {
  }

  /** A class character left in the result (the replacement space, when the
      space belongs to the class) is followed by a character outside the class. */
  lemma {:induction false} ReplaceRunsSeparated(s: string, p: char -> bool)
    ensures forall i, j :: 0 <= i < j < |ReplaceRuns(s, p)| && j == i + 1 && p(ReplaceRuns(s, p)[i]) ==> !p(ReplaceRuns(s, p)[j])
  {
    if s != [] {
      var r := ReplaceRuns(s, p);
      var rest := ReplaceRuns(s[1..], p);
      ReplaceRunsSeparated(s[1..], p);
      if p(s[0]) && |s| > 1 && p(s[1]) {
        assert r == rest;
      } else {
        assert r == (if p(s[0]) then " " else [s[0]]) + rest;
        if |s| > 1 && !p(s[1]) {
          ReplaceRunsHead(s[1..], p);
        }
        forall i, j | 0 <= i < j < |r| && j == i + 1 && p(r[i]) ensures !p(r[j]) {
          if i > 0 {
            assert r[i] == rest[i - 1] && r[j] == rest[j - 1];
          } else {
            assert r[j] == rest[0];
          }
        }
      }
    }
  }

  /** The replacement works piece by piece when no run straddles the cut. */
  lemma {:induction false} ReplaceRunsConcat(a: string, b: string, p: char -> bool)
    requires a == [] || b == [] || !p(a[|a| - 1]) || !p(b[0])
    ensures ReplaceRuns(a + b, p) == ReplaceRuns(a, p) + ReplaceRuns(b, p)
  {
    if a == [] {
      assert a + b == b;
    } else {
      var t := a[1..];
      assert (a + b)[1..] == t + b;
      assert t != [] ==> t[|t| - 1] == a[|a| - 1];
      ReplaceRunsConcat(t, b, p);
      if |a| == 1 && b != [] {
        assert (a + b)[1] == b[0];
      } else if |a| > 1 {
        assert (a + b)[1] == a[1];
      }
    }
  }

  /** A non-empty run of class characters becomes one space. */
  lemma {:induction false} ReplaceRunsOfRun(s: string, p: char -> bool)
    requires s != []
    requires forall i :: 0 <= i < |s| ==> p(s[i])
    ensures ReplaceRuns(s, p) == " "
  {
    if |s| > 1 {
      ReplaceRunsOfRun(s[1..], p);
    }
  }

  /** A string whose class characters are single spaces, each followed by a
      character outside the class, is left as it is. */
  lemma {:induction false} ReplaceRunsUnchanged(s: string, p: char -> bool)
    requires forall i :: 0 <= i < |s| && p(s[i]) ==> s[i] == ' '
    requires forall i, j :: 0 <= i < j < |s| && j == i + 1 && p(s[i]) ==> !p(s[j])
    ensures ReplaceRuns(s, p) == s
  {
    if s != [] {
      var t := s[1..];
      assert forall i :: 0 <= i < |t| ==> t[i] == s[i + 1];
      ReplaceRunsUnchanged(t, p);
      assert |s| > 1 && p(s[0]) ==> !p(s[1]);
    }
  }

  /** `parts.join(sep)`. */
  function Join(parts: seq<string>, sep: string): string {
    if |parts| == 0 then ""
    else if |parts| == 1 then parts[0]
    else parts[0] + sep + Join(parts[1..], sep)
  }

  /** With no separator, joining runs the parts together: a join of two runs of
      parts is the join of the first followed by the join of the second. */
  lemma {:induction false} JoinConcat(p: seq<string>, q: seq<string>)
    ensures Join(p + q, "") == Join(p, "") + Join(q, "")
  {
    if p == [] {
      assert p + q == q;
    } else if |p| == 1 {
      if q != [] {
        assert (p + q)[1..] == q;
      }
    } else {
      assert (p + q)[1..] == p[1..] + q;
      JoinConcat(p[1..], q);
    }
  }

  /** With no separator, the join of non-empty parts is the first part
      followed by the join of the others. */
  lemma JoinCons(parts: seq<string>)
    requires parts != []
    ensures Join(parts, "") == parts[0] + Join(parts[1..], "")
  {
    if |parts| == 1 {
      assert parts[0] + Join(parts[1..], "") == parts[0] + "";
    }
  }

  /** `s.split(sep)` for a one-character separator: never empty, no part holds the separator. */
  function Split(s: string, sep: char): (r: seq<string>)
    ensures |r| >= 1
    ensures forall i :: 0 <= i < |r| ==> sep !in r[i]
  {
    if s == [] then [""]
    else
      var rest := Split(s[1..], sep);
      if s[0] == sep then [""] + rest
      else [[s[0]] + rest[0]] + rest[1..]
  }

  /** Joining the pieces of a split with the separator gives back the string. */
  lemma {:induction false} JoinSplit(s: string, sep: char)
    ensures Join(Split(s, sep), [sep]) == s
  {
    if s != [] {
      var rest := Split(s[1..], sep);
      JoinSplit(s[1..], sep);
      if s[0] == sep {
        assert ([""] + rest)[1..] == rest;
      } else if |rest| > 1 {
        var parts := [[s[0]] + rest[0]] + rest[1..];
        assert parts[1..] == rest[1..];
        assert Join(rest, [sep]) == rest[0] + [sep] + Join(rest[1..], [sep]);
      }
    }
  }

  lemma {:induction false} SplitPrefix(a: string, sep: char, t: string)
    requires sep !in a
    ensures Split(a + [sep] + t, sep) == [a] + Split(t, sep)
  {
    if a != [] {
      assert (a + [sep] + t)[1..] == a[1..] + [sep] + t;
      SplitPrefix(a[1..], sep, t);
      var rest := [a[1..]] + Split(t, sep);
      assert rest[0] == a[1..] && rest[1..] == Split(t, sep);
      assert [a[0]] + a[1..] == a;
    } else {
      assert (a + [sep] + t)[1..] == t;
    }
  }

  lemma {:induction false} SplitNoSeparator(a: string, sep: char)
    requires sep !in a
    ensures Split(a, sep) == [a]
  {
    if a != [] {
      SplitNoSeparator(a[1..], sep);
      assert [a[0]] + a[1..] == a;
    }
  }

  /** Splitting a join of separator-free parts gives back the parts. */
  lemma {:induction false} SplitJoin(parts: seq<string>, sep: char)
    requires |parts| >= 1
    requires forall i :: 0 <= i < |parts| ==> sep !in parts[i]
    ensures Split(Join(parts, [sep]), sep) == parts
  {
    if |parts| == 1 {
      SplitNoSeparator(parts[0], sep);
    } else {
      SplitJoin(parts[1..], sep);
      SplitPrefix(parts[0], sep, Join(parts[1..], [sep]));
    }
  }

  function DigitChar(d: nat): (c: char)
    requires d < 10
    ensures '0' <= c <= '9'
  {
    ('0' as int + d) as char
  }

  /** The decimal numeral of a natural number, as JavaScript prints it. */
  function NatToString(n: nat): (r: string)
    ensures |r| >= 1
    ensures forall i :: 0 <= i < |r| ==> '0' <= r[i] <= '9'
    ensures r[0] == '0' ==> n == 0
  {
    if n < 10 then [DigitChar(n)] else NatToString(n / 10) + [DigitChar(n % 10)]
  }

  /** The value of a string of decimal digits. */
  function DecimalValue(s: string): nat
    requires forall i :: 0 <= i < |s| ==> '0' <= s[i] <= '9'
  {
    if s == [] then 0 else DecimalValue(s[..|s| - 1]) * 10 + (s[|s| - 1] as int - '0' as int)
  }

  /** Reading back a printed numeral gives the number. */
  lemma {:induction false} DecimalValueOfNatToString(n: nat)
    ensures DecimalValue(NatToString(n)) == n
  {
    if n >= 10 {
      DecimalValueOfNatToString(n / 10);
      var r := NatToString(n);
      assert r[..|r| - 1] == NatToString(n / 10);
    }
  }

  /** The decimal rendering of an integer, as string concatenation prints it. */
  function IntToString(i: int): (r: string)
    ensures |r| >= 1
    ensures i >= 0 ==> r == NatToString(i)
    ensures i < 0 ==> r == "-" + NatToString(-i)
  {
    if i < 0 then "-" + NatToString(-i) else NatToString(i)
  }
}
