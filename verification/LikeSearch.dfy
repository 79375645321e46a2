/** Escaping user text for SQL `LIKE` and for quoted full-text phrases. */
module LikeSearch {

  // ----- LIKE with backslash as the escape character

  function Fold(c: char): char
  {
    if 'A' <= c <= 'Z' then (c as int + 32) as char else c
  }

  /** SQLite compares ASCII letters without regard to case, everything else exactly. */
  predicate Same(a: char, b: char) { Fold(a) == Fold(b) }

  predicate Like(pattern: string, s: string)
    decreases |pattern|, |s|
  {
    if pattern == "" then s == ""
    else if pattern[0] == '%' then Like(pattern[1..], s) || (s != "" && Like(pattern, s[1..]))
    else if pattern[0] == '_' then s != "" && Like(pattern[1..], s[1..])
    else if pattern[0] == '\\' then
      |pattern| >= 2 && s != "" && Same(pattern[1], s[0]) && Like(pattern[2..], s[1..])
    else s != "" && Same(pattern[0], s[0]) && Like(pattern[1..], s[1..])
  }

  predicate Special(c: char) { c == '%' || c == '_' || c == '\\' }

  function Escaped(needle: string): string
  {
    if needle == "" then "" else (if Special(needle[0]) then ['\\', needle[0]] else [needle[0]]) + Escaped(needle[1..])
  }

  /** Wrap the needle in wildcards, escaping the ones it contains. */
  method LikePattern(needle: string) returns (out: string)
    ensures out == "%" + Escaped(needle) + "%"
    ensures forall s: string :: Like(out, s) <==> Contains(needle, s)
  {
    out := "%";
    var i := 0;
    while i < |needle|
      invariant 0 <= i <= |needle|
      invariant out + Escaped(needle[i..]) == "%" + Escaped(needle)
    {
      var ch := needle[i];
      ghost var before := out;
      assert needle[i..][1..] == needle[i + 1..];
      if Special(ch) {
        out := out + ['\\'];
      }
      out := out + [ch];
      assert out + Escaped(needle[i + 1..]) == before + Escaped(needle[i..]);
      i := i + 1;
    }
    assert needle[i..] == "";
    assert out == "%" + Escaped(needle);
    out := out + "%";
    forall s: string
      ensures Like(out, s) <==> Contains(needle, s)
    {
      LikeMeansContains(needle, s);
    }
  }

  // ----- what the pattern is meant to say

  ghost predicate StartsWith(needle: string, s: string)
  {
    |needle| <= |s| && forall k | 0 <= k < |needle| :: Same(needle[k], s[k])
  }

  /** The needle occurs in `s` as one contiguous piece, up to ASCII case. */
  ghost predicate Contains(needle: string, s: string)
  {
    exists i :: 0 <= i <= |s| && StartsWith(needle, s[i..])
  }

  lemma {:induction false} PercentMatchesAll(s: string)
    ensures Like("%", s)
  {
    if s != "" {
      PercentMatchesAll(s[1..]);
    } else {
      assert Like("%"[1..], s);
    }
  }

  lemma {:induction false} LiteralThenPercent(needle: string, s: string)
    ensures Like(Escaped(needle) + "%", s) <==> StartsWith(needle, s)
  {
    var p := Escaped(needle) + "%";
    if needle == "" {
      assert p == "%";
      PercentMatchesAll(s);
    } else {
      var rest := Escaped(needle[1..]) + "%";
      assert p[if Special(needle[0]) then 2 else 1..] == rest;
      if s != "" {
        LiteralThenPercent(needle[1..], s[1..]);
        StartsWithStep(needle, s);
      }
    }
  }

  lemma StartsWithStep(needle: string, s: string)
    requires needle != "" && s != ""
    ensures StartsWith(needle, s) <==> Same(needle[0], s[0]) && StartsWith(needle[1..], s[1..])
  {
    if Same(needle[0], s[0]) && StartsWith(needle[1..], s[1..]) {
      forall k | 0 <= k < |needle|
        ensures Same(needle[k], s[k])
      {
        assert k > 0 ==> Same(needle[1..][k - 1], s[1..][k - 1]);
      }
    }
  }

  /** A leading percent sign tries every suffix. */
  lemma {:induction false} PercentTriesSuffixes(rest: string, s: string)
    ensures Like("%" + rest, s) <==> exists i :: 0 <= i <= |s| && Like(rest, s[i..])
  {
    var p := "%" + rest;
    assert p[1..] == rest;
    assert s[0..] == s;
    if s == "" {
      assert forall i | 0 <= i <= |s| :: s[i..] == s;
    } else {
      PercentTriesSuffixes(rest, s[1..]);
      assert forall i | 0 < i <= |s| :: s[i..] == s[1..][i - 1..];
      if exists i :: 0 <= i <= |s| && Like(rest, s[i..]) {
        var i :| 0 <= i <= |s| && Like(rest, s[i..]);
        if i > 0 {
          assert Like(rest, s[1..][i - 1..]);
        }
      }
      if Like(p, s) && !Like(rest, s) {
        var j :| 0 <= j <= |s[1..]| && Like(rest, s[1..][j..]);
        assert s[j + 1..] == s[1..][j..];
      }
    }
  }

  /** The escaped pattern matches exactly the texts that contain the needle. */
  lemma LikeMeansContains(needle: string, s: string)
    ensures Like("%" + Escaped(needle) + "%", s) <==> Contains(needle, s)
  {
    var rest := Escaped(needle) + "%";
    assert "%" + Escaped(needle) + "%" == "%" + rest;
    PercentTriesSuffixes(rest, s);
    forall i | 0 <= i <= |s|
      ensures Like(rest, s[i..]) <==> StartsWith(needle, s[i..])
    {
      LiteralThenPercent(needle, s[i..]);
    }
  }

  // ----- quoted full-text phrases

  function Doubled(term: string): string
  {
    if term == "" then "" else (if term[0] == '"' then "\"\"" else [term[0]]) + Doubled(term[1..])
  }

  function QuoteTerm(term: string): string { "\"" + Doubled(term) + "\"" }

  datatype Phrase = Unterminated | Phrase(text: string, rest: string)

  /** How a full-text query reads a string behind its opening quote: two quotes stand for one, a lone quote ends it. */
  function ReadPhrase(s: string): Phrase
    decreases |s|
  {
    if s == "" then Unterminated
    else if s[0] != '"' then Prefixed(s[0], ReadPhrase(s[1..]))
    else if |s| > 1 && s[1] == '"' then Prefixed('"', ReadPhrase(s[2..]))
    else Phrase("", s[1..])
  }

  function Prefixed(c: char, p: Phrase): Phrase
  {
    if p.Unterminated? then Unterminated else Phrase([c] + p.text, p.rest)
  }

  /** Whatever follows the quoted term, reading it back gives the term and stops exactly at its end. */
  lemma {:induction false} QuoteRoundTrip(term: string, rest: string)
    requires rest == "" || rest[0] != '"'
    ensures QuoteTerm(term) != "" && QuoteTerm(term)[0] == '"'
    ensures ReadPhrase((QuoteTerm(term) + rest)[1..]) == Phrase(term, rest)
  {
    assert (QuoteTerm(term) + rest)[1..] == Closed(term, rest);
    ReadsBack(term, rest);
  }

  /** A quoted term behind its opening quote, and what follows it. */
  function Closed(term: string, rest: string): string { Doubled(term) + "\"" + rest }

  lemma {:induction false} ReadsBack(term: string, rest: string)
    requires rest == "" || rest[0] != '"'
    ensures ReadPhrase(Closed(term, rest)) == Phrase(term, rest)
  {
    if term == "" {
      assert Closed(term, rest)[1..] == rest;
    } else {
      ReadsBack(term[1..], rest);
      ClosedStep(term, rest);
      assert term == [term[0]] + term[1..];
    }
  }

  lemma ClosedStep(term: string, rest: string)
    requires term != ""
    ensures var step := if term[0] == '"' then 2 else 1;
            var body := Closed(term, rest);
            && step < |body| && body[step..] == Closed(term[1..], rest)
            && body[0] == term[0] && (term[0] == '"' ==> body[1] == '"')
  {
    var head, tail := if term[0] == '"' then "\"\"" else [term[0]], Closed(term[1..], rest);
    ClosedSplits(term, rest, head);
    BehindHead(head, tail);
  }

  lemma ClosedSplits(term: string, rest: string, head: string)
    requires term != "" && head == if term[0] == '"' then "\"\"" else [term[0]]
    ensures Closed(term, rest) == head + Closed(term[1..], rest) && Closed(term[1..], rest) != ""
  {
    var tail := Doubled(term[1..]);
    assert Doubled(term) == head + tail;
    Regroup(head, tail, "\"", rest);
  }

  lemma Regroup(a: string, b: string, c: string, d: string)
    ensures (a + b) + c + d == a + (b + c + d)
  {
  }

  lemma BehindHead(head: string, tail: string)
    ensures (head + tail)[|head|..] == tail
  {
  }
}
