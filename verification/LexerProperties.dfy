/** What the items of a text are: they end once, they spell the text, and they are read back from any layout. */
module LexerProperties {
  import opened Text
  import opened Tokens
  import opened Validation
  import opened Lexing

  ghost predicate EndsOnce(items: seq<Item>) {
    && |items| > 0 && items[|items| - 1] == END
    && forall i :: 0 <= i < |items| - 1 ==> items[i].token != LitEof
  }

  lemma EndsOnceAfter(before: seq<Item>, items: seq<Item>)
    requires EndsOnce(items)
    requires forall i :: 0 <= i < |before| ==> before[i].token != LitEof
    ensures EndsOnce(before + items)
  {
  }

  /** The end token is sent exactly once, after everything else. */
  lemma {:induction false} EndTokenOnceAndLast(acc: string, rest: string)
    ensures EndsOnce(Lex(acc, rest))
    decreases |rest|
  {
    if ONE_OF <= rest {
      EndTokenOnceAndLast("", rest[4..]);
      EndsOnceAfter([Item(StmtOneOf, acc + ONE_OF)], Lex("", rest[4..]));
    } else if ALL_OF <= rest {
      EndTokenOnceAndLast("", rest[6..]);
      EndsOnceAfter([Item(StmtAllOf, acc + ALL_OF)], Lex("", rest[6..]));
    } else if rest == "" {
      EndsOnceAfter(Word(acc), [END]);
    } else if rest[0] == ')' {
      EndTokenOnceAndLast("", rest[1..]);
      EndsOnceAfter([Item(SepRpar, ")")], Lex("", rest[1..]));
      EndsOnceAfter(Word(acc), [Item(SepRpar, ")")] + Lex("", rest[1..]));
    } else if rest[0] == '(' {
      EndTokenOnceAndLast("", rest[1..]);
      EndsOnceAfter([Item(SepLpar, acc + "(")], Lex("", rest[1..]));
    } else if rest[0] == '|' {
    } else if IsWhitespace(rest[0]) {
      EndTokenOnceAndLast("", TrimStart(rest));
      EndsOnceAfter(Word(acc), Lex("", TrimStart(rest)));
    } else {
      EndTokenOnceAndLast(acc + [rest[0]], rest[1..]);
    }
  }

  /** The items' values with text between them: one gap before each item and one after the last. */
  function Layout(items: seq<Item>, gaps: seq<string>): string
    requires |gaps| == |items| + 1
  {
    if items == [] then gaps[0] else gaps[0] + (items[0].value + Layout(items[1..], gaps[1..]))
  }

  ghost predicate Gaps(gaps: seq<string>) {
    forall i :: 0 <= i < |gaps| ==> AllWhitespace(gaps[i])
  }

  // ----- the values spell the text

  ghost predicate Spells(items: seq<Item>, text: string) {
    exists gaps: seq<string> :: |gaps| == |items| + 1 && Gaps(gaps) && Layout(items, gaps) == text
  }

  lemma SpellsNothing()
    ensures Spells([], "")
  {
    assert Layout([], [""]) == "";
  }

  lemma SpellsItem(item: Item, items: seq<Item>, text: string)
    requires Spells(items, text)
    ensures Spells([item] + items, item.value + text)
  {
    var gaps: seq<string> :| |gaps| == |items| + 1 && Gaps(gaps) && Layout(items, gaps) == text;
    var wider := [""] + gaps;
    assert wider[1..] == gaps && ([item] + items)[1..] == items;
    assert Layout([item] + items, wider) == "" + (item.value + text);
  }

  lemma SpellsGap(gap: string, items: seq<Item>, text: string)
    requires AllWhitespace(gap) && Spells(items, text)
    ensures Spells(items, gap + text)
  {
    var gaps: seq<string> :| |gaps| == |items| + 1 && Gaps(gaps) && Layout(items, gaps) == text;
    var wider := [gap + gaps[0]] + gaps[1..];
    assert wider[1..] == gaps[1..];
    assert Layout(items, wider) == gap + Layout(items, gaps);
  }

  lemma {:induction false} TrimStartSplits(s: string) returns (gap: string)
    ensures AllWhitespace(gap) && s == gap + TrimStart(s)
  {
    if s == "" || !IsWhitespace(s[0]) {
      gap := "";
    } else {
      var g := TrimStartSplits(s[1..]);
      gap := [s[0]] + g;
    }
  }

  /** One item takes `acc` and the next `n` characters. */
  lemma SpellsTaken(item: Item, items: seq<Item>, acc: string, rest: string, n: nat)
    requires n <= |rest| && item.value == acc + rest[..n]
    requires Spells(items, rest[n..])
    ensures Spells([item] + items, acc + rest)
  {
    SpellsItem(item, items, rest[n..]);
    assert acc + rest == item.value + rest[n..];
  }

  /** Nothing but whitespace is dropped: the values sent, with whitespace between them, are the text. */
  lemma {:induction false} ItemsSpellText(acc: string, rest: string)
    ensures Spells(Lex(acc, rest), acc + rest)
    decreases |rest|, 2
  {
    if ONE_OF <= rest {
      ItemsSpellRest(rest[4..]);
      SpellsTaken(Item(StmtOneOf, acc + ONE_OF), Lex("", rest[4..]), acc, rest, 4);
    } else if ALL_OF <= rest {
      ItemsSpellRest(rest[6..]);
      SpellsTaken(Item(StmtAllOf, acc + ALL_OF), Lex("", rest[6..]), acc, rest, 6);
    } else if rest == "" {
      SpellsEnd();
      SpellsWord(acc, [END], "");
    } else if rest[0] == '|' {
      SpellsAggregation(acc, rest);
    } else {
      ItemsSpellChar(acc, rest);
    }
  }

  lemma {:induction false} ItemsSpellChar(acc: string, rest: string)
    requires rest != "" && rest[0] != '|' && !(ONE_OF <= rest) && !(ALL_OF <= rest)
    ensures Spells(Lex(acc, rest), acc + rest)
    decreases |rest|, 1
  {
    if rest[0] != ')' && rest[0] != '(' {
      ItemsSpellLetter(acc, rest);
    } else if rest[0] == ')' {
      ItemsSpellRest(rest[1..]);
      SpellsClosing(acc, rest, Lex("", rest[1..]));
    } else {
      ItemsSpellRest(rest[1..]);
      assert rest[..1] == "(";
      SpellsTaken(Item(SepLpar, acc + "("), Lex("", rest[1..]), acc, rest, 1);
    }
  }

  lemma {:induction false} ItemsSpellLetter(acc: string, rest: string)
    requires rest != "" && rest[0] != '|' && rest[0] != ')' && rest[0] != '(' && !(ONE_OF <= rest) && !(ALL_OF <= rest)
    ensures Spells(Lex(acc, rest), acc + rest)
    decreases |rest|, 0
  {
    if IsWhitespace(rest[0]) {
      ItemsSpellRest(TrimStart(rest));
      SpellsTrimmed(acc, rest, Lex("", TrimStart(rest)));
    } else {
      ItemsSpellText(acc + [rest[0]], rest[1..]);
      assert acc + rest == (acc + [rest[0]]) + rest[1..];
    }
  }

  lemma SpellsClosing(acc: string, rest: string, items: seq<Item>)
    requires rest != "" && rest[0] == ')' && Spells(items, rest[1..])
    ensures Spells(Word(acc) + ([Item(SepRpar, ")")] + items), acc + rest)
  {
    assert rest[..1] == ")" && "" + rest[..1] == ")" && "" + rest == rest;
    SpellsTaken(Item(SepRpar, ")"), items, "", rest, 1);
    SpellsWord(acc, [Item(SepRpar, ")")] + items, rest);
  }

  lemma SpellsTrimmed(acc: string, rest: string, items: seq<Item>)
    requires Spells(items, TrimStart(rest))
    ensures Spells(Word(acc) + items, acc + rest)
  {
    var gap := TrimStartSplits(rest);
    SpellsGap(gap, items, TrimStart(rest));
    SpellsWord(acc, items, rest);
  }

  lemma {:induction false} ItemsSpellRest(rest: string)
    ensures Spells(Lex("", rest), rest)
    decreases |rest|, 3
  {
    ItemsSpellText("", rest);
    assert "" + rest == rest;
  }

  lemma SpellsEnd()
    ensures Spells([END], "")
  {
    SpellsNothing();
    SpellsItem(END, [], "");
    assert [END] + [] == [END];
  }

  lemma SpellsAggregation(acc: string, rest: string)
    requires rest != "" && rest[0] == '|'
    ensures Spells([Item(SepPipe, acc + "|"), Item(Unsupported, rest[1..]), END], acc + rest)
  {
    SpellsEnd();
    SpellsItem(Item(Unsupported, rest[1..]), [END], "");
    SpellsItem(Item(SepPipe, acc + "|"), [Item(Unsupported, rest[1..])] + [END], rest[1..] + "");
    assert acc + rest == (acc + "|") + (rest[1..] + "");
    assert [Item(SepPipe, acc + "|")] + ([Item(Unsupported, rest[1..])] + [END])
      == [Item(SepPipe, acc + "|"), Item(Unsupported, rest[1..]), END];
  }

  lemma SpellsWord(acc: string, items: seq<Item>, text: string)
    requires Spells(items, text)
    ensures Spells(Word(acc) + items, acc + text)
  {
    if acc == "" {
      assert acc + text == text && Word(acc) + items == items;
    } else {
      SpellsItem(Item(CheckKeyword(acc), acc), items, text);
    }
  }

  // ----- the text is read back

  predicate IsWord(s: string) {
    s != "" && forall i :: 0 <= i < |s| ==> !IsWhitespace(s[i]) && s[i] != '(' && s[i] != ')' && s[i] != '|'
  }

  predicate IsWordToken(t: Token) {
    t in {Identifier, IdentifierWithWildcard, IdentifierAll, KeywordAnd, KeywordOr, KeywordNot}
  }

  /** An item that stands for itself: a word of its own kind, a parenthesis or a statement. */
  predicate ProperItem(item: Item) {
    match item.token
    case SepLpar => item.value == "("
    case SepRpar => item.value == ")"
    case StmtOneOf => item.value == ONE_OF
    case StmtAllOf => item.value == ALL_OF
    case _ => IsWordToken(item.token) && IsWord(item.value) && CheckKeyword(item.value) == item.token
  }

  ghost predicate ProperItems(items: seq<Item>) {
    forall i :: 0 <= i < |items| ==> ProperItem(items[i])
  }

  /** Whitespace everywhere, and some of it after a word unless a closing parenthesis follows. */
  ghost predicate Spaced(items: seq<Item>, gaps: seq<string>) {
    && |gaps| == |items| + 1
    && Gaps(gaps)
    && forall i :: 0 < i < |items| ==> gaps[i] != "" || !IsWordToken(items[i - 1].token) || items[i].token == SepRpar
  }

  lemma LexGap(gap: string, text: string)
    requires AllWhitespace(gap)
    requires text == "" || !IsWhitespace(text[0])
    ensures Lex("", gap + text) == Lex("", text)
  {
    if gap == "" {
      assert gap + text == text;
    } else {
      TrimStartGap(gap, text);
      assert (gap + text)[0] == gap[0];
      ConcatEmpty(Lex("", text));
    }
  }

  lemma LexAfterWord(acc: string, tail: string)
    requires tail == "" || IsWhitespace(tail[0]) || tail[0] == ')'
    ensures Lex(acc, tail) == Word(acc) + Lex("", tail)
  {
    if tail != "" {
      if tail[0] == ')' {
        ConcatEmpty([Item(SepRpar, ")")] + Lex("", tail[1..]));
      } else {
        ConcatEmpty(Lex("", TrimStart(tail)));
      }
    }
  }

  lemma PrefixSplits(p: string, w: string, tail: string)
    ensures p <= w + tail && |w| <= |p| ==> w == p[..|w|] && p[|w|..] <= tail
    ensures p <= w + tail && |p| < |w| ==> p <= w
  {
    if p <= w + tail {
      assert forall i :: 0 <= i < |p| ==> p[i] == (w + tail)[i];
    }
  }

  /** No statement starts inside a word, nor inside a word and continues after it. */
  lemma NoStatementInWord(w: string, tail: string)
    requires IsWord(w)
    requires tail == "" || IsWhitespace(tail[0]) || tail[0] == ')'
    requires w[|w| - 1] in {'1', 'l'} ==> !(" of" <= tail)
    ensures !(ONE_OF <= w + tail) && !(ALL_OF <= w + tail)
  {
    PrefixSplits(ONE_OF, w, tail);
    PrefixSplits(ALL_OF, w, tail);
    assert ONE_OF[1] == ' ' && ALL_OF[3] == ' ' && IsWhitespace(' ');
    assert ONE_OF[1..] == " of" && ALL_OF[3..] == " of";
    assert ALL_OF[1..] == "ll of" && ALL_OF[2..] == "l of" && !IsWhitespace('l');
  }

  /** A word is gathered whole. */
  lemma {:induction false} LexWord(acc: string, w: string, tail: string)
    requires IsWord(w)
    requires tail == "" || IsWhitespace(tail[0]) || tail[0] == ')'
    requires w[|w| - 1] in {'1', 'l'} ==> !(" of" <= tail)
    ensures Lex(acc, w + tail) == Lex(acc + w, tail)
    decreases |w|
  {
    NoStatementInWord(w, tail);
    assert (w + tail)[0] == w[0];
    if |w| == 1 {
      assert (w + tail)[1..] == tail && acc + [w[0]] == acc + w;
    } else {
      assert (w + tail)[1..] == w[1..] + tail && (acc + [w[0]]) + w[1..] == acc + w;
      LexWord(acc + [w[0]], w[1..], tail);
    }
  }

  lemma KeywordEnds(w: string)
    requires CheckKeyword(w) in {KeywordAnd, KeywordOr, KeywordNot}
    ensures |w| > 0 && w[|w| - 1] !in {'1', 'l'}
    ensures w[0] == 'o' ==> |w| == 2 && w[1] != 'f'
  {
    assert LowerAscii(w[|w| - 1]) in {'d', 'r', 't'};
    assert LowerAscii(w[0]) == 'o' ==> LowerAscii(w[1]) == 'r';
  }

  /** After a word of a valid sequence no text can continue a statement: what follows is a keyword or a `)`. */
  lemma NoOfAfterWord(item: Item, items: seq<Item>, gaps: seq<string>)
    requires ProperItem(item) && ProperItems(items) && IsWordToken(item.token)
    requires PairsOk(item.token, items)
    requires |gaps| == |items| + 1 && Gaps(gaps)
    ensures item.value[|item.value| - 1] in {'1', 'l'} ==> !(" of" <= Layout(items, gaps))
  {
    assert !IsWhitespace('o') && " of"[1] == 'o' && " of"[2] == 'f';
    if item.token in {KeywordAnd, KeywordOr, KeywordNot} {
      KeywordEnds(item.value);
    } else if items == [] {
      assert Layout(items, gaps) == gaps[0];
    } else {
      assert ProperItem(items[0]);
      NoOfAfterGap(gaps[0], items[0], Layout(items[1..], gaps[1..]));
    }
  }

  lemma NoOfAfterGap(gap: string, item: Item, rest: string)
    requires AllWhitespace(gap) && ProperItem(item) && item.token in {KeywordAnd, KeywordOr, SepRpar}
    ensures !(" of" <= gap + (item.value + rest))
  {
    var v, tail := item.value, gap + (item.value + rest);
    assert !IsWhitespace('o') && IsWhitespace(' ') && " of"[0] == ' ' && " of"[1] == 'o' && " of"[2] == 'f';
    if item.token != SepRpar {
      KeywordEnds(v);
    }
    if |gap| == 0 {
      assert tail[0] == v[0];
    } else if |gap| == 1 {
      assert tail[1] == v[0];
      if v[0] == 'o' {
        assert tail[2] == v[1];
      }
    } else {
      assert tail[1] == gap[1];
    }
  }

  /** Round trip: a valid sequence of proper items is read back exactly, whatever the layout, followed by one
      end token. */
  lemma {:induction false} LexReadsLayout(items: seq<Item>, gaps: seq<string>)
    requires ProperItems(items) && Spaced(items, gaps)
    requires items == [] || PairsOk(items[0].token, items[1..])
    ensures Lex("", Layout(items, gaps)) == items + [END]
  {
    if items == [] {
      assert gaps[0] + "" == gaps[0];
      LexGap(gaps[0], "");
    } else {
      var item, rest := items[0], items[1..];
      var tail := Layout(rest, gaps[1..]);
      assert ProperItem(item);
      assert ProperItems(rest) && Spaced(rest, gaps[1..]);
      LexReadsLayout(rest, gaps[1..]);
      LexGap(gaps[0], item.value + tail);
      LexItem(item, rest, gaps[1..]);
      assert items == [item] + rest;
      assert [item] + (rest + [END]) == items + [END];
    }
  }

  lemma LexItem(item: Item, items: seq<Item>, gaps: seq<string>)
    requires ProperItem(item) && ProperItems(items)
    requires |gaps| == |items| + 1 && Gaps(gaps)
    requires items != [] && IsWordToken(item.token) && items[0].token != SepRpar ==> gaps[0] != ""
    requires PairsOk(item.token, items)
    ensures Lex("", item.value + Layout(items, gaps)) == [item] + Lex("", Layout(items, gaps))
  {
    var tail := Layout(items, gaps);
    if IsWordToken(item.token) {
      assert tail == "" || IsWhitespace(tail[0]) || tail[0] == ')' by {
        if items != [] && gaps[0] == "" {
          assert items[0].value == ")";
        }
      }
      NoOfAfterWord(item, items, gaps);
      LexWord("", item.value, tail);
      assert "" + item.value == item.value;
      LexAfterWord(item.value, tail);
    } else {
      LexSymbol(item, tail);
    }
  }

  lemma LexSymbol(item: Item, tail: string)
    requires ProperItem(item) && !IsWordToken(item.token)
    ensures Lex("", item.value + tail) == [item] + Lex("", tail)
  {
    var text := item.value + tail;
    assert text[0] == item.value[0] && text[|item.value|..] == tail;
    assert "" + item.value == item.value;
    assert "" + "(" == "(" && "" + ONE_OF == ONE_OF && "" + ALL_OF == ALL_OF;
    if item.token == SepRpar {
      ConcatEmpty([item] + Lex("", tail));
    }
  }
}
