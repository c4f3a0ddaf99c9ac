/** Characters and strings as the lexer and the field-modifier parser see them. */
module Text {
  /** The Unicode White_Space property. */
  predicate IsWhitespace(c: char) {
    || '\U{0009}' <= c <= '\U{000D}'
    || c == ' ' || c == '\U{0085}' || c == '\U{00A0}' || c == '\U{1680}'
    || '\U{2000}' <= c <= '\U{200A}'
    || c == '\U{2028}' || c == '\U{2029}' || c == '\U{202F}' || c == '\U{205F}' || c == '\U{3000}'
  }

  predicate AllWhitespace(s: string) {
    forall i :: 0 <= i < |s| ==> IsWhitespace(s[i])
  }

  function LowerAscii(c: char): char {
    if 'A' <= c <= 'Z' then (c as int + 32) as char else c
  }

  predicate EqIgnoreCase(s: string, t: string) {
    |s| == |t| && forall i :: 0 <= i < |s| ==> LowerAscii(s[i]) == LowerAscii(t[i])
  }

  /** Drops exactly the leading whitespace run. */
  function TrimStart(s: string): (r: string)
    ensures |r| <= |s|
    ensures r == "" || !IsWhitespace(r[0])
  {
    if s == "" || !IsWhitespace(s[0]) then s else TrimStart(s[1..])
  }

  function TrimEnd(s: string): string {
    if s == "" || !IsWhitespace(s[|s| - 1]) then s else TrimEnd(s[..|s| - 1])
  }

  function Trim(s: string): string {
    TrimEnd(TrimStart(s))
  }

  /** A leading whitespace run is dropped, whatever it is. */
  lemma {:induction false} TrimStartGap(gap: string, s: string)
    requires AllWhitespace(gap)
    requires s == "" || !IsWhitespace(s[0])
    ensures TrimStart(gap + s) == s
  {
    if gap == "" {
      assert gap + s == s;
    } else {
      assert (gap + s)[1..] == gap[1..] + s;
      TrimStartGap(gap[1..], s);
    }
  }

  // ----- letter case and whitespace, spelled out

  const UPPER := "ABCDEFGHIJKLMNOPQRSTUVWXYZ"
  const LOWER := "abcdefghijklmnopqrstuvwxyz"

  /** The same letter in its two cases. */
  ghost predicate CasePair(c: char, d: char) {
    exists k :: 0 <= k < 26 && UPPER[k] == c && LOWER[k] == d
  }

  /** The same text but for the case of its letters. */
  ghost predicate SameLetters(s: string, t: string) {
    |s| == |t| && forall i :: 0 <= i < |s| ==> s[i] == t[i] || CasePair(s[i], t[i]) || CasePair(t[i], s[i])
  }

  lemma Alphabet(k: nat)
    requires k < 26
    ensures UPPER[k] == ('A' as int + k) as char && LOWER[k] == ('a' as int + k) as char
  {
  }

  lemma LowerAsciiPairs(c: char)
    ensures LowerAscii(c) == c || CasePair(c, LowerAscii(c))
    ensures forall d :: CasePair(c, d) ==> LowerAscii(c) == d
    ensures forall d :: CasePair(d, c) ==> LowerAscii(c) == c
  {
    if 'A' <= c <= 'Z' {
      Alphabet(c as int - 'A' as int);
    }
    forall k | 0 <= k < 26 ensures LowerAscii(UPPER[k]) == LOWER[k] == LowerAscii(LOWER[k]) {
      Alphabet(k);
    }
  }

  /** Ignoring case identifies the two cases of each letter and nothing else. */
  lemma EqIgnoreCaseIsSameLetters(s: string, t: string)
    ensures EqIgnoreCase(s, t) <==> SameLetters(s, t)
  {
    forall i | 0 <= i < |s| == |t|
      ensures LowerAscii(s[i]) == LowerAscii(t[i])
              <==> s[i] == t[i] || CasePair(s[i], t[i]) || CasePair(t[i], s[i])
    {
      LowerAsciiPairs(s[i]);
      LowerAsciiPairs(t[i]);
    }
  }

  lemma {:induction false} TrimStartIs(s: string) returns (gap: string)
    ensures AllWhitespace(gap) && s == gap + TrimStart(s)
  {
    if s == "" || !IsWhitespace(s[0]) {
      gap := "";
      assert "" + s == s;
    } else {
      var rest := TrimStartIs(s[1..]);
      gap := [s[0]] + rest;
      assert s == [s[0]] + s[1..];
    }
  }

  lemma {:induction false} TrimEndIs(s: string) returns (gap: string)
    ensures AllWhitespace(gap) && s == TrimEnd(s) + gap
    ensures TrimEnd(s) == "" || !IsWhitespace(TrimEnd(s)[|TrimEnd(s)| - 1])
  {
    if s == "" || !IsWhitespace(s[|s| - 1]) {
      gap := "";
      assert s + "" == s;
    } else {
      var rest := TrimEndIs(s[..|s| - 1]);
      gap := rest + [s[|s| - 1]];
      assert s == s[..|s| - 1] + [s[|s| - 1]];
    }
  }

  lemma {:induction false} TrimEndGap(s: string, gap: string)
    requires AllWhitespace(gap)
    requires s == "" || !IsWhitespace(s[|s| - 1])
    ensures TrimEnd(s + gap) == s
    decreases |gap|
  {
    if gap == "" {
      assert s + gap == s;
    } else {
      var n := |gap| - 1;
      assert (s + gap)[..|s| + n] == s + gap[..n];
      TrimEndGap(s, gap[..n]);
    }
  }

  /** A word: not empty, without whitespace at its ends. */
  predicate Tight(s: string) {
    s != "" && !IsWhitespace(s[0]) && !IsWhitespace(s[|s| - 1])
  }

  /** Whitespace around a word goes, and only that. */
  lemma TrimAround(before: string, word: string, after: string)
    requires AllWhitespace(before) && AllWhitespace(after) && Tight(word)
    ensures Trim(before + (word + after)) == word
  {
    TrimStartGap(before, word + after);
    TrimEndGap(word, after);
  }

  lemma TrimIs(s: string) returns (before: string, after: string)
    ensures AllWhitespace(before) && AllWhitespace(after) && s == before + (Trim(s) + after)
    ensures Trim(s) == "" || Tight(Trim(s))
  {
    before := TrimStartIs(s);
    var t := TrimStart(s);
    after := TrimEndIs(t);
    if Trim(s) != "" {
      assert Trim(s)[0] == t[0];
    }
  }

  /** The whitespace characters. */
  lemma WhitespaceCharacters(c: char)
    ensures IsWhitespace(c)
            <==> c in "\t\n\U{000B}\U{000C}\r \U{0085}\U{00A0}\U{1680}\U{2028}\U{2029}\U{202F}\U{205F}\U{3000}"
                      + "\U{2000}\U{2001}\U{2002}\U{2003}\U{2004}\U{2005}\U{2006}\U{2007}\U{2008}\U{2009}\U{200A}"
  {
  }
}
