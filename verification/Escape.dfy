/** Escaping Sigma patterns for glob matching: the reverse buffer writer (`src/pattern/escape.rs`), the push-and-reverse
    copy (`src/pattern/string_matcher.rs`), what both compute, and that it keeps the pattern's meaning. */
module Escaping {

  predicate IsWildcard(c: char) {
    c == '*' || c == '?'
  }

  predicate IsBracket(c: char) {
    c == '[' || c == ']' || c == '{' || c == '}'
  }

  /** The length of the backslash run a text starts with. */
  function Run(s: string): (n: nat)
    ensures n <= |s| && (n < |s| ==> s[n] != '\\')
    ensures forall i :: 0 <= i < n ==> s[i] == '\\'
  {
    if s == "" || s[0] != '\\' then 0 else 1 + Run(s[1..])
  }

  /** A wildcard directly follows the leading run. */
  predicate WildcardNext(s: string) {
    Run(s) < |s| && IsWildcard(s[Run(s)])
  }

  /** Forward specification: a backslash run that no wildcard follows is rounded up to an even length, a bracket gets a
      backslash in front, everything else stays. */
  function Escaped(s: string): string
    decreases |s|
  {
    if s == "" then ""
    else if s[0] == '\\' then
      var n := Run(s);
      (if n % 2 == 1 && !WildcardNext(s) then "\\" else "") + (s[..n] + Escaped(s[n..]))
    else if IsBracket(s[0]) then "\\" + ([s[0]] + Escaped(s[1..]))
    else [s[0]] + Escaped(s[1..])
  }

  // ----- scanning backwards

  /** What has been written once a suffix is scanned: its leading run is still as it was. */
  function Written(s: string): string {
    s[..Run(s)] + Escaped(s[Run(s)..])
  }

  /** How many backslashes of the leading run are still to be balanced. */
  function Pending(s: string): nat {
    if WildcardNext(s) then 0 else Run(s)
  }

  lemma {:induction false} BalancingCompletes(s: string)
    ensures Escaped(s) == (if Pending(s) % 2 == 1 then "\\" else "") + Written(s)
  {
    if s == "" || s[0] != '\\' {
      assert s[..0] == "" && s[0..] == s;
      assert "" + Escaped(s) == Escaped(s);
    }
  }

  /** The output, balancing included, fits in twice the input. */
  lemma {:induction false} WrittenFits(s: string)
    ensures |Written(s)| + Pending(s) % 2 == |Escaped(s)| <= 2 * |s|
    decreases |s|
  {
    BalancingCompletes(s);
    if s == "" {
    } else if s[0] == '\\' {
      WrittenFits(s[Run(s)..]);
    } else {
      WrittenFits(s[1..]);
    }
  }

  /** One more character in front: a backslash is written as it is. */
  lemma WriteBackslash(s: string)
    ensures var t := ['\\'] + s;
      Written(t) == ['\\'] + Written(s) && Run(t) == Run(s) + 1 && WildcardNext(t) == WildcardNext(s)
  {
    var t := ['\\'] + s;
    assert t[1..] == s;
    assert t[..Run(t)] == ['\\'] + s[..Run(s)];
    assert t[Run(t)..] == s[Run(s)..];
    assert t[Run(t)..] == "" || t[Run(t)] == s[Run(s)];
  }

  /** Any other character first completes the run behind it. */
  lemma WriteOther(c: char, s: string)
    requires c != '\\'
    ensures var t := [c] + s;
      && Written(t) == (if IsBracket(c) then "\\" + ([c] + Escaped(s)) else [c] + Escaped(s))
      && Run(t) == 0 && WildcardNext(t) == IsWildcard(c)
  {
    var t := [c] + s;
    assert t[1..] == s && t[..0] == "" && t[0..] == t;
    assert "" + Escaped(t) == Escaped(t);
  }

  /** Writes one character just below what is written. */
  method Put(buffer: array<char>, x: int, c: char)
    requires 0 <= x < buffer.Length
    modifies buffer
    ensures buffer[x..] == [c] + old(buffer[x + 1..])
  {
    buffer[x] := c;
  }

  /** Writes one scanned character: first the backslash an odd run still needs, then the character, then the backslash
      of a bracket. */
  method WriteCharacter(buffer: array<char>, x: int, ch: char, slashCount: nat) returns (x': int, slashCount': nat)
    requires -1 <= x < buffer.Length
    requires x + 1 >= 1 + (if IsBracket(ch) then 1 else 0) + (if ch != '\\' && slashCount % 2 == 1 then 1 else 0)
    modifies buffer
    ensures slashCount' == if ch != '\\' then 0 else slashCount
    ensures -1 <= x' < buffer.Length
    ensures var balance := if ch != '\\' && slashCount % 2 == 1 then "\\" else "";
      var written := [ch] + (balance + old(buffer[x + 1..]));
      buffer[x' + 1..] == if IsBracket(ch) then "\\" + written else written
  {
    x', slashCount' := x, slashCount;
    if ch != '\\' && slashCount' > 0 {
      if slashCount' % 2 != 0 {
        Put(buffer, x', '\\');
        x' := x' - 1;
      }
      slashCount' := 0;
    }

    Put(buffer, x', ch);
    x' := x' - 1;

    if IsBracket(ch) {
      Put(buffer, x', '\\');
      x' := x' - 1;
    }
  }

  /** The scan's variables. */
  datatype Scan = Scan(written: string, pending: nat, wildcard: bool)

  /** One more character read. */
  function ScanCharacter(ch: char, scan: Scan): Scan {
    var balance := if ch != '\\' && scan.pending % 2 == 1 then "\\" else "";
    var written := [ch] + (balance + scan.written);
    Scan(if IsBracket(ch) then "\\" + written else written,
         if ch != '\\' || scan.wildcard then 0 else scan.pending + 1,
         if ch == '\\' then scan.wildcard else IsWildcard(ch))
  }

  /** The variables once `s[i..]` is scanned; at most two characters are written for each one read. */
  function ScanBack(s: string, i: nat): (scan: Scan)
    requires i <= |s|
    ensures scan.wildcard ==> scan.pending == 0
    ensures |scan.written| + scan.pending % 2 <= 2 * (|s| - i)
    decreases |s| - i
  {
    if i == |s| then Scan("", 0, false) else ScanCharacter(s[i], ScanBack(s, i + 1))
  }

  /** What the scan is meant to have found in a suffix. */
  function Scanned(s: string): Scan {
    Scan(Written(s), Pending(s), WildcardNext(s))
  }

  lemma ScannedCharacter(ch: char, t: string)
    ensures Scanned([ch] + t) == ScanCharacter(ch, Scanned(t))
  {
    if ch == '\\' {
      WriteBackslash(t);
      assert "" + Written(t) == Written(t);
    } else {
      WriteOther(ch, t);
      BalancingCompletes(t);
    }
  }

  /** The scan has written what the forward specification says of the suffix, its leading run pending. */
  lemma {:induction false} ScanWrites(s: string, i: nat)
    requires i <= |s|
    ensures ScanBack(s, i) == Scanned(s[i..])
    decreases |s| - i
  {
    if i < |s| {
      ScanWrites(s, i + 1);
      ScannedCharacter(s[i], s[i + 1..]);
      assert s[i..] == [s[i]] + s[i + 1..];
    }
  }

  /** The whole text scanned and its leading run balanced. */
  lemma ScanCompletes(s: string)
    ensures Escaped(s) == (if ScanBack(s, 0).pending % 2 == 1 then "\\" else "") + ScanBack(s, 0).written
  {
    ScanWrites(s, 0);
    assert s[0..] == s;
    BalancingCompletes(s);
  }

  /** `escape_sigma_for_glob_owned`: a buffer of twice the length is written from its end downwards. The length bound
      is that of the `i32` cursor. */
  method EscapeOwned(s: string) returns (r: string)
    requires 2 * |s| <= 0x7FFF_FFFF
    ensures r == Escaped(s)
  {
    var len := |s|;
    var x: int := len * 2 - 1;
    var buffer := new char[len * 2](_ => '\0');
    var wildcard, slashCount := false, 0;
    for i := len downto 0
      invariant -1 <= x < buffer.Length && Scan(buffer[x + 1..], slashCount, wildcard) == ScanBack(s, i)
    {
      var ch := s[i];
      if IsWildcard(ch) {
        wildcard := true;
      } else if ch == '\\' {
        if !wildcard {
          slashCount := slashCount + 1;
        }
      } else {
        wildcard := false;
      }
      x, slashCount := WriteCharacter(buffer, x, ch, slashCount);
    }
    ScanCompletes(s);
    if slashCount % 2 != 0 {
      Put(buffer, x, '\\');
    } else {
      x := x + 1;
    }
    r := buffer[x..];
  }

  /** Borrowed is the input itself, owned a new text. */
  datatype Cow = Borrowed(text: string) | Owned(text: string)

  predicate NeedsEscaping(s: string) {
    exists i :: 0 <= i < |s| && (IsBracket(s[i]) || s[i] == '\\')
  }

  /** The fast path is right to skip the scan. */
  lemma {:induction false} NothingToEscape(s: string)
    requires !NeedsEscaping(s)
    ensures Escaped(s) == s
  {
    if s != "" {
      assert forall i :: 0 <= i < |s| - 1 ==> s[1..][i] == s[i + 1];
      NothingToEscape(s[1..]);
    }
  }

  lemma WhatNeedsEscaping(s: string)
    ensures NeedsEscaping(s) <==> exists c :: c in s && c in "\\[]{}"
  {
    if i :| 0 <= i < |s| && (IsBracket(s[i]) || s[i] == '\\') {
      assert s[i] in s && s[i] in "\\[]{}";
    }
    if c :| c in s && c in "\\[]{}" {
      var i :| 0 <= i < |s| && s[i] == c;
      assert IsBracket(s[i]) || s[i] == '\\';
    }
  }

  /** `escape_sigma_for_glob_cow`. */
  method EscapeCow(s: string) returns (r: Cow)
    requires 2 * |s| <= 0x7FFF_FFFF
    ensures r.text == Escaped(s)
    ensures r.Borrowed? <==> forall c :: c in s ==> c !in "\\[]{}"
  {
    WhatNeedsEscaping(s);
    if s == "" {
      return Borrowed(s);
    }
    if !NeedsEscaping(s) {
      NothingToEscape(s);
      return Borrowed(s);
    }
    var owned := EscapeOwned(s);
    r := Owned(owned);
  }

  function Reversed(s: string): string {
    if s == "" then "" else Reversed(s[1..]) + [s[0]]
  }

  lemma {:induction false} ReversedPush(s: string, c: char)
    ensures Reversed(s + [c]) == [c] + Reversed(s)
  {
    if s == "" {
      assert s + [c] == [c] && [c][1..] == "";
    } else {
      assert (s + [c])[1..] == s[1..] + [c];
      ReversedPush(s[1..], c);
    }
  }

  /** Pushes one scanned character: the backslash an odd run still needs, the character, the backslash of a bracket. */
  method PushCharacter(result: string, ch: char, slashCount: nat) returns (result': string, slashCount': nat)
    ensures slashCount' == if ch != '\\' then 0 else slashCount
    ensures var balance := if ch != '\\' && slashCount % 2 == 1 then "\\" else "";
      var written := [ch] + (balance + Reversed(result));
      Reversed(result') == if IsBracket(ch) then "\\" + written else written
  {
    result', slashCount' := result, slashCount;
    assert "" + Reversed(result) == Reversed(result);
    if ch != '\\' && slashCount > 0 {
      if slashCount % 2 != 0 {
        ReversedPush(result', '\\');
        result' := result' + ['\\'];
      }
      slashCount' := 0;
    }

    ReversedPush(result', ch);
    result' := result' + [ch];

    if IsBracket(ch) {
      ReversedPush(result', '\\');
      result' := result' + ['\\'];
    }
  }

  /** The copy in `string_matcher.rs`: the same scan, pushing onto a vector that is reversed at the end. */
  method EscapeByPushing(s: string) returns (r: string)
    ensures r == Escaped(s)
  {
    if s == "" {
      return "";
    }
    var result: string := "";
    var i := |s|;
    var wildcard, slashCount := false, 0;
    while i > 0
      invariant 0 <= i <= |s|
      invariant Scan(Reversed(result), slashCount, wildcard) == ScanBack(s, i)
    {
      i := i - 1;
      var ch := s[i];

      if IsWildcard(ch) {
        wildcard := true;
      } else if ch == '\\' {
        if !wildcard {
          slashCount := slashCount + 1;
        }
      } else {
        wildcard := false;
      }

      result, slashCount := PushCharacter(result, ch, slashCount);
    }
    ScanCompletes(s);
    if slashCount % 2 != 0 {
      ReversedPush(result, '\\');
      result := result + ['\\'];
    }
    r := Reversed(result);
  }

  // ----- meaning

  datatype Element = Literal(c: char) | AnySequence | AnyCharacter | Special(c: char)

  /** A Sigma pattern: `*` and `?` are wildcards, a backslash escapes one of them or a backslash and otherwise stands
      for itself. */
  function SigmaReading(s: string): (r: seq<Element>)
    ensures forall i :: 0 <= i < |r| ==> !r[i].Special?
  {
    if s == "" then []
    else if s[0] == '\\' then
      if |s| > 1 && (s[1] == '\\' || s[1] == '*' || s[1] == '?') then [Literal(s[1])] + SigmaReading(s[2..])
      else [Literal('\\')] + SigmaReading(s[1..])
    else if s[0] == '*' then [AnySequence] + SigmaReading(s[1..])
    else if s[0] == '?' then [AnyCharacter] + SigmaReading(s[1..])
    else [Literal(s[0])] + SigmaReading(s[1..])
  }

  /** A backslash-escaped glob: a backslash makes whatever follows it literal, a bare bracket is special. */
  function GlobReading(s: string): seq<Element> {
    if s == "" then []
    else if s[0] == '\\' then
      if |s| > 1 then [Literal(s[1])] + GlobReading(s[2..]) else [Literal('\\')]
    else if s[0] == '*' then [AnySequence] + GlobReading(s[1..])
    else if s[0] == '?' then [AnyCharacter] + GlobReading(s[1..])
    else if s[0] == '[' || s[0] == ']' || s[0] == '{' || s[0] == '}' then [Special(s[0])] + GlobReading(s[1..])
    else [Literal(s[0])] + GlobReading(s[1..])
  }

  function Wildcard(c: char): Element {
    if c == '*' then AnySequence else AnyCharacter
  }

  /** One more backslash in front: kept before a wildcard, absorbed by an odd run, doubled otherwise. */
  lemma EscapedBackslash(s: string)
    ensures Run(['\\'] + s) == Run(s) + 1 && WildcardNext(['\\'] + s) == WildcardNext(s)
    ensures Escaped(['\\'] + s) ==
      if WildcardNext(s) then ['\\'] + Escaped(s)
      else if Run(s) % 2 == 1 then Escaped(s)
      else ['\\'] + (['\\'] + Escaped(s))
  {
    var t := ['\\'] + s;
    WriteBackslash(s);
    BalancingCompletes(s);
    BalancingCompletes(t);
    assert Pending(s) == if WildcardNext(s) then 0 else Run(s);
    assert Pending(t) == if WildcardNext(s) then 0 else Run(s) + 1;
    BalanceOneMore(Escaped(s), Escaped(t), Written(s), Pending(s), Pending(t), WildcardNext(s), Run(s));
  }

  /** The balancing backslash of a run, and of the run with one more backslash in front. */
  lemma BalanceOneMore(escaped: string, escaped': string, written: string, pending: nat, pending': nat, wildcard: bool,
                       run: nat)
    requires pending == (if wildcard then 0 else run)
    requires pending' == (if wildcard then 0 else run + 1)
    requires escaped == (if pending % 2 == 1 then "\\" else "") + written
    requires escaped' == (if pending' % 2 == 1 then "\\" else "") + (['\\'] + written)
    ensures escaped' == if wildcard then ['\\'] + escaped
                        else if run % 2 == 1 then escaped
                        else ['\\'] + (['\\'] + escaped)
  {
    assert "" + written == written && "" + (['\\'] + written) == ['\\'] + written;
  }

  /** Rounding a run works pair by pair. */
  lemma EscapedPair(s: string)
    ensures Escaped(['\\'] + (['\\'] + s)) == ['\\'] + (['\\'] + Escaped(s))
  {
    EscapedBackslash(s);
    EscapedBackslash(['\\'] + s);
  }

  /** A lone backslash is doubled. */
  lemma LoneBackslash(s: string)
    requires s == "" || (s[0] != '\\' && !IsWildcard(s[0]))
    ensures Escaped(['\\'] + s) == ['\\'] + (['\\'] + Escaped(s))
  {
    EscapedBackslash(s);
  }

  lemma EscapedPlain(c: char, s: string)
    requires c != '\\'
    ensures Escaped([c] + s) == if IsBracket(c) then ['\\'] + ([c] + Escaped(s)) else [c] + Escaped(s)
  {
    assert ([c] + s)[1..] == s;
  }

  lemma GlobEscape(c: char, s: string)
    ensures GlobReading(['\\'] + ([c] + s)) == [Literal(c)] + GlobReading(s)
  {
    assert (['\\'] + ([c] + s))[2..] == s;
  }

  lemma GlobPlain(c: char, s: string)
    requires c != '\\' && !IsBracket(c)
    ensures GlobReading([c] + s) == [if IsWildcard(c) then Wildcard(c) else Literal(c)] + GlobReading(s)
  {
    assert ([c] + s)[1..] == s;
  }

  lemma SigmaEscape(c: char, s: string)
    requires c == '\\' || IsWildcard(c)
    ensures SigmaReading(['\\'] + ([c] + s)) == [Literal(c)] + SigmaReading(s)
  {
    assert (['\\'] + ([c] + s))[2..] == s;
  }

  lemma SigmaPlain(c: char, s: string)
    requires c == '\\' ==> s == "" || (s[0] != '\\' && !IsWildcard(s[0]))
    ensures SigmaReading([c] + s) == [if IsWildcard(c) then Wildcard(c) else Literal(c)] + SigmaReading(s)
  {
    assert ([c] + s)[1..] == s;
  }

  lemma Reassociate(a: char, b: char, s: string, t: string)
    ensures [a] + s + t == [a] + (s + t)
    ensures [a] + ([b] + s) + t == [a] + ([b] + (s + t))
  {
  }

  /** A wildcard is escaped by the backslash before it. */
  lemma EscapedWildcard(c: char, s: string)
    requires IsWildcard(c)
    ensures Escaped(['\\'] + ([c] + s)) == ['\\'] + ([c] + Escaped(s))
  {
    EscapedBackslash([c] + s);
    EscapedPlain(c, s);
    WriteOther(c, s);
  }

  /** An escaped character is read as itself, whatever is read after it. */
  lemma PreservesEscape(c: char, escaped: string, after: string, reading: seq<Element>)
    requires GlobReading(escaped + after) == reading + GlobReading(after)
    ensures GlobReading(['\\'] + ([c] + escaped) + after) == ([Literal(c)] + reading) + GlobReading(after)
  {
    Reassociate('\\', c, escaped, after);
    GlobEscape(c, escaped + after);
    assert ([Literal(c)] + reading) + GlobReading(after) == [Literal(c)] + (reading + GlobReading(after));
  }

  /** Escaping preserves meaning: whatever follows it, the output reads as a glob the way the input reads as a Sigma
      pattern; in particular no bracket of the output is special. */
  lemma {:induction false} EscapingPreservesMeaning(s: string, after: string)
    ensures GlobReading(Escaped(s) + after) == SigmaReading(s) + GlobReading(after)
    decreases |s|
  {
    if s == "" {
      assert Escaped(s) + after == after;
    } else if s[0] == '\\' && |s| > 1 && (s[1] == '\\' || IsWildcard(s[1])) {
      var c, t := s[1], s[2..];
      assert s == ['\\'] + ([c] + t);
      EscapingPreservesMeaning(t, after);
      if c == '\\' {
        EscapedPair(t);
      } else {
        EscapedWildcard(c, t);
      }
      SigmaEscape(c, t);
      PreservesEscape(c, Escaped(t), after, SigmaReading(t));
    } else {
      EscapingPreservesMeaning(s[1..], after);
      PreservesCharacter(s[0], s[1..], after);
      assert s == [s[0]] + s[1..];
    }
  }

  lemma PreservesCharacter(c: char, t: string, after: string)
    requires c == '\\' ==> t == "" || (t[0] != '\\' && !IsWildcard(t[0]))
    requires GlobReading(Escaped(t) + after) == SigmaReading(t) + GlobReading(after)
    ensures GlobReading(Escaped([c] + t) + after) == SigmaReading([c] + t) + GlobReading(after)
  {
    SigmaPlain(c, t);
    if c == '\\' {
      LoneBackslash(t);
      PreservesEscape(c, Escaped(t), after, SigmaReading(t));
    } else {
      EscapedPlain(c, t);
      if IsBracket(c) {
        PreservesEscape(c, Escaped(t), after, SigmaReading(t));
      } else {
        PreservesPlain(c, Escaped(t), after, SigmaReading(t));
      }
    }
  }

  /** Any other character is read as it is. */
  lemma PreservesPlain(c: char, escaped: string, after: string, reading: seq<Element>)
    requires c != '\\' && !IsBracket(c)
    requires GlobReading(escaped + after) == reading + GlobReading(after)
    ensures var e := if IsWildcard(c) then Wildcard(c) else Literal(c);
      GlobReading(([c] + escaped) + after) == ([e] + reading) + GlobReading(after)
  {
    Reassociate(c, c, escaped, after);
    GlobPlain(c, escaped + after);
    var e := if IsWildcard(c) then Wildcard(c) else Literal(c);
    assert ([e] + reading) + GlobReading(after) == [e] + (reading + GlobReading(after));
  }

  /** The pattern a "contains" matcher compiles reads as the Sigma pattern between two free ends. */
  lemma ContainsPatternMeaning(s: string)
    ensures GlobReading("*" + Escaped(s) + "*") == [AnySequence] + SigmaReading(s) + [AnySequence]
    ensures GlobReading(Escaped(s)) == SigmaReading(s)
  {
    EscapingPreservesMeaning(s, "*");
    assert ("*" + Escaped(s) + "*")[1..] == Escaped(s) + "*";
    assert "*"[1..] == "" && GlobReading("*") == [AnySequence];
    EscapingPreservesMeaning(s, "");
    assert Escaped(s) + "" == Escaped(s);
  }
}
