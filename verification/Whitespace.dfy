/** How whitespace is handled on both sides of a comparison: in an event's text every run becomes one space
    (`src/pattern/whitespace.rs`), in a rule's value the outer runs go as well (`process_string_value` in
    `src/parser/mod.rs`). */
module Whitespace {
  import opened Text
  import opened Patterns
  import opened Detections

  /** Words with whitespace before, between and after them. */
  function Spread(words: seq<string>, gaps: seq<string>): string
    requires |gaps| == |words| + 1
  {
    if words == [] then gaps[0] else gaps[0] + (words[0] + Spread(words[1..], gaps[1..]))
  }

  ghost predicate IsBareWord(s: string) {
    s != "" && forall i :: 0 <= i < |s| ==> !IsWhitespace(s[i])
  }

  /** Words are kept apart by whitespace. */
  ghost predicate Apart(words: seq<string>, gaps: seq<string>) {
    && |gaps| == |words| + 1
    && (forall i :: 0 <= i < |words| ==> IsBareWord(words[i]))
    && (forall i :: 0 <= i < |gaps| ==> AllWhitespace(gaps[i]))
    && (forall i :: 0 < i < |words| ==> gaps[i] != "")
  }

  function OneSpace(gap: string): string {
    if gap == "" then "" else " "
  }

  function OneSpaces(gaps: seq<string>): (r: seq<string>)
    ensures |r| == |gaps| && forall i :: 0 <= i < |gaps| ==> r[i] == OneSpace(gaps[i])
  {
    seq(|gaps|, i requires 0 <= i < |gaps| => OneSpace(gaps[i]))
  }

  lemma ApartTail(words: seq<string>, gaps: seq<string>)
    requires Apart(words, gaps) && words != []
    ensures Apart(words[1..], gaps[1..])
    ensures var tail := Spread(words[1..], gaps[1..]); tail == "" || IsWhitespace(tail[0])
  {
    var tail := Spread(words[1..], gaps[1..]);
    assert |words| > 1 ==> gaps[1..][0] == gaps[1] != "";
    assert |words| == 1 ==> tail == gaps[1];
  }

  lemma {:induction false} CollapseWord(word: string, tail: string)
    requires forall i :: 0 <= i < |word| ==> !IsWhitespace(word[i])
    ensures CollapseWhitespace(word + tail) == word + CollapseWhitespace(tail)
    decreases |word|
  {
    if word == "" {
      assert word + tail == tail;
      assert "" + CollapseWhitespace(tail) == CollapseWhitespace(tail);
    } else {
      assert (word + tail)[1..] == word[1..] + tail;
      CollapseWord(word[1..], tail);
      assert word == [word[0]] + word[1..];
    }
  }

  lemma CollapseGap(gap: string, tail: string)
    requires AllWhitespace(gap) && (tail == "" || !IsWhitespace(tail[0]))
    ensures CollapseWhitespace(gap + tail) == OneSpace(gap) + CollapseWhitespace(tail)
  {
    TrimStartGap(gap, tail);
    if gap == "" {
      assert gap + tail == tail;
      assert "" + CollapseWhitespace(tail) == CollapseWhitespace(tail);
    } else {
      assert (gap + tail)[0] == gap[0];
    }
  }

  /** In an event's text every whitespace run becomes one space, the outer ones too. */
  lemma {:induction false} CollapseSpread(words: seq<string>, gaps: seq<string>)
    requires Apart(words, gaps)
    ensures CollapseWhitespace(Spread(words, gaps)) == Spread(words, OneSpaces(gaps))
    decreases |words|
  {
    if words == [] {
      assert gaps[0] + "" == gaps[0];
      CollapseGap(gaps[0], "");
      assert OneSpace(gaps[0]) + "" == OneSpace(gaps[0]);
    } else {
      var tail := Spread(words[1..], gaps[1..]);
      ApartTail(words, gaps);
      assert IsBareWord(words[0]);
      CollapseGap(gaps[0], words[0] + tail);
      CollapseWord(words[0], tail);
      CollapseSpread(words[1..], gaps[1..]);
      assert OneSpaces(gaps)[1..] == OneSpaces(gaps[1..]);
    }
  }

  lemma {:induction false} WordLengthIs(word: string, tail: string)
    requires (forall i :: 0 <= i < |word| ==> !IsWhitespace(word[i])) && (tail == "" || IsWhitespace(tail[0]))
    ensures WordLength(word + tail) == |word|
    decreases |word|
  {
    if word == "" {
      assert word + tail == tail;
    } else {
      assert (word + tail)[1..] == word[1..] + tail;
      WordLengthIs(word[1..], tail);
    }
  }

  /** A rule's value is split into its words. */
  lemma {:induction false} SplitSpread(words: seq<string>, gaps: seq<string>)
    requires Apart(words, gaps)
    ensures SplitWhitespace(Spread(words, gaps)) == words
    decreases |words|
  {
    if words == [] {
      assert gaps[0] + "" == gaps[0];
      TrimStartGap(gaps[0], "");
    } else {
      var word, tail := words[0], Spread(words[1..], gaps[1..]);
      ApartTail(words, gaps);
      assert IsBareWord(word);
      TrimStartGap(gaps[0], word + tail);
      WordLengthIs(word, tail);
      assert (word + tail)[..|word|] == word && (word + tail)[|word|..] == tail;
      SplitSpread(words[1..], gaps[1..]);
      assert [word] + words[1..] == words;
    }
  }

  /** One space between the words, none outside. */
  function InnerSpaces(n: nat): (gaps: seq<string>)
    ensures |gaps| == n + 1 && forall i :: 0 <= i <= n ==> gaps[i] == if 0 < i < n then " " else ""
  {
    seq(n + 1, i => if 0 < i < n then " " else "")
  }

  lemma {:induction false} JoinIsSpread(words: seq<string>, gaps: seq<string>)
    requires |gaps| == |words| + 1 && gaps[|words|] == "" && forall i :: 0 < i < |words| ==> gaps[i] == " "
    requires words == [] || gaps[0] == "" || gaps[0] == " "
    ensures Spread(words, gaps) == if words == [] then "" else gaps[0] + Join(words)
    decreases |words|
  {
    if words != [] {
      var tail := Spread(words[1..], gaps[1..]);
      JoinIsSpread(words[1..], gaps[1..]);
      if |words| == 1 {
        assert tail == "" && words[0] + tail == words[0];
      } else {
        assert tail == " " + Join(words[1..]);
      }
    }
  }

  /** In a rule's value the words are joined by single spaces. */
  lemma ProcessSpread(cfg: Config, words: seq<string>, gaps: seq<string>)
    requires Apart(words, gaps) && !cfg.noCollapseWs
    ensures Processed(cfg, Spread(words, gaps)) == Spread(words, InnerSpaces(|words|))
  {
    SplitSpread(words, gaps);
    JoinIsSpread(words, InnerSpaces(|words|));
    assert words != [] ==> "" + Join(words) == Join(words);
  }

  /** Every text is words kept apart by whitespace. */
  lemma {:induction false} EveryTextSpreads(s: string) returns (words: seq<string>, gaps: seq<string>)
    ensures Apart(words, gaps) && s == Spread(words, gaps)
    decreases |s|
  {
    if s == "" {
      words, gaps := [], [""];
    } else {
      var words', gaps' := EveryTextSpreads(s[1..]);
      assert s == [s[0]] + s[1..];
      if IsWhitespace(s[0]) {
        words, gaps := words', [[s[0]] + gaps'[0]] + gaps'[1..];
        SpreadFront([s[0]], words', gaps');
      } else if words' != [] && gaps'[0] == "" {
        words, gaps := [[s[0]] + words'[0]] + words'[1..], gaps';
        assert IsBareWord(words'[0]);
        WordFront(s[0], words', gaps');
      } else {
        words, gaps := [[s[0]]] + words', [""] + gaps';
        assert words[1..] == words' && gaps[1..] == gaps';
      }
    }
  }

  lemma SpreadFront(front: string, words: seq<string>, gaps: seq<string>)
    requires |gaps| == |words| + 1
    ensures Spread(words, [front + gaps[0]] + gaps[1..]) == front + Spread(words, gaps)
  {
    assert ([front + gaps[0]] + gaps[1..])[1..] == gaps[1..];
    if words != [] {
      var tail := words[0] + Spread(words[1..], gaps[1..]);
      assert (front + gaps[0]) + tail == front + (gaps[0] + tail);
    }
  }

  lemma WordFront(c: char, words: seq<string>, gaps: seq<string>)
    requires |gaps| == |words| + 1 && words != [] && gaps[0] == ""
    ensures Spread([[c] + words[0]] + words[1..], gaps) == [c] + Spread(words, gaps)
  {
    var tail := Spread(words[1..], gaps[1..]);
    assert ([[c] + words[0]] + words[1..])[1..] == words[1..];
    assert "" + (([c] + words[0]) + tail) == [c] + ("" + (words[0] + tail));
  }

  // ----- the shortcut for texts without irregular whitespace

  lemma {:induction false} RegularStays(s: string)
    requires !HasIrregularWhitespace(s)
    ensures CollapseWhitespace(s) == s
    decreases |s|
  {
    if s != "" {
      var rest := s[1..];
      assert forall i :: 0 <= i < |rest| ==> rest[i] == s[i + 1];
      RegularStays(rest);
      assert s == [s[0]] + rest;
      if IsWhitespace(s[0]) {
        assert s[0] == ' ' && (rest != "" ==> rest[0] == s[1] && !(s[0] == ' ' && s[1] == ' '));
        TrimStartGap([s[0]], rest);
      }
    }
  }

  /** Whether or not the shortcut is taken, whitespace runs become single spaces unless that is switched off. */
  lemma WhitespaceIsHandled(s: string, noCollapseWs: bool)
    ensures HandleWhitespace(s, noCollapseWs) == if noCollapseWs then s else CollapseWhitespace(s)
  {
    if !HasIrregularWhitespace(s) {
      RegularStays(s);
    }
  }

  // ----- both sides compared

  /** Handled as an event's text and as a rule's value, a text comes out the same exactly when it is empty or has no
      whitespace at its ends, or when collapsing is switched off. */
  lemma BothSidesAgree(cfg: Config, s: string)
    ensures HandleWhitespace(s, cfg.noCollapseWs) == Processed(cfg, s)
            <==> cfg.noCollapseWs || s == "" || (!IsWhitespace(s[0]) && !IsWhitespace(s[|s| - 1]))
  {
    WhitespaceIsHandled(s, cfg.noCollapseWs);
    if !cfg.noCollapseWs && s != "" {
      var words, gaps := EveryTextSpreads(s);
      CollapseSpread(words, gaps);
      ProcessSpread(cfg, words, gaps);
      EndsOfSpread(words, gaps);
      SpreadLength(words, OneSpaces(gaps), InnerSpaces(|words|));
      if gaps[0] == "" && gaps[|words|] == "" {
        assert forall i :: 0 <= i < |gaps| ==> OneSpaces(gaps)[i] == InnerSpaces(|words|)[i];
        assert OneSpaces(gaps) == InnerSpaces(|words|);
      }
    }
  }

  lemma {:induction false} EndsOfSpread(words: seq<string>, gaps: seq<string>)
    requires Apart(words, gaps) && Spread(words, gaps) != ""
    ensures var s := Spread(words, gaps);
      && (IsWhitespace(s[0]) <==> gaps[0] != "")
      && (IsWhitespace(s[|s| - 1]) <==> gaps[|words|] != "")
    decreases |words|
  {
    var s := Spread(words, gaps);
    if words == [] {
      assert s == gaps[0];
    } else {
      var tail := Spread(words[1..], gaps[1..]);
      assert IsBareWord(words[0]);
      ApartTail(words, gaps);
      if tail != "" {
        EndsOfSpread(words[1..], gaps[1..]);
        assert s[|s| - 1] == tail[|tail| - 1];
      }
    }
  }

  /** More whitespace in every gap makes a longer text. */
  lemma {:induction false} SpreadLength(words: seq<string>, gaps: seq<string>, gaps': seq<string>)
    requires |gaps| == |gaps'| == |words| + 1 && forall i :: 0 <= i < |gaps| ==> |gaps'[i]| <= |gaps[i]|
    ensures |Spread(words, gaps')| <= |Spread(words, gaps)|
    ensures |gaps'[0]| < |gaps[0]| || |gaps'[|words|]| < |gaps[|words|]|
            ==> |Spread(words, gaps')| < |Spread(words, gaps)|
    decreases |words|
  {
    if words != [] {
      SpreadLength(words[1..], gaps[1..], gaps'[1..]);
    }
  }
}
