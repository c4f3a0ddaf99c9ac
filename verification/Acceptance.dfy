/** Which texts the parser accepts, and that an accepted text means what the grammar reads in it. */
module Acceptance {
  import opened Wrappers
  import opened Text
  import opened Errors
  import opened Tokens
  import opened Validation
  import opened Lexing
  import opened LexerProperties
  import opened Grammar
  import opened LocalChecks
  import opened Nodes
  import opened Building
  import opened Parsing
  import opened Compilation
  import opened EndToEnd

  // ----- building looks at token kinds and identifier values only

  lemma {:induction false} SplitCanonical(ts: seq<Item>, balance: nat)
    requires balance > 0
    ensures SplitGroup(CanonicalAll(ts), balance)
            == match SplitGroup(ts, balance)
               case None => None
               case Some((g, rest)) => Some((CanonicalAll(g), CanonicalAll(rest)))
    decreases |ts|
  {
    if ts == [] || (ts[0].token == SepRpar && balance == 1) {
      assert CanonicalAll([]) == [];
      assert ts != [] ==> CanonicalAll(ts)[1..] == CanonicalAll(ts[1..]);
    } else {
      assert CanonicalAll(ts)[1..] == CanonicalAll(ts[1..]);
      var balance' := match ts[0].token case SepLpar => balance + 1 case SepRpar => balance - 1 case _ => balance;
      SplitCanonical(ts[1..], balance');
      var split := SplitGroup(ts[1..], balance');
      if split.Some? {
        CanonicalCons(ts[0], split.value.0);
      }
    }
  }

  lemma CanonicalCons(item: Item, ts: seq<Item>)
    ensures CanonicalAll([item] + ts) == [Canonical(item)] + CanonicalAll(ts)
  {
    assert ([item] + ts)[1..] == ts;
  }

  lemma {:induction false} ThemsCanonical(ts: seq<Item>)
    ensures Thems(CanonicalAll(ts)) == Thems(ts)
  {
    if ts != [] {
      assert CanonicalAll(ts)[1..] == CanonicalAll(ts[1..]);
      ThemsCanonical(ts[1..]);
    }
  }

  lemma {:induction false} BuildCanonical(env: Env, ts: seq<Item>, depth: nat)
    ensures Build(env, CanonicalAll(ts), depth) == Build(env, ts, depth)
    decreases |ts|, 1
  {
    BuildLoopCanonical(env, ts, START, depth);
  }

  lemma {:induction false} BuildLoopCanonical(env: Env, ts: seq<Item>, st: State, depth: nat)
    ensures BuildLoop(env, CanonicalAll(ts), st, depth) == BuildLoop(env, ts, st, depth)
    decreases |ts|, 0
  {
    if ts != [] {
      assert CanonicalAll(ts)[1..] == CanonicalAll(ts[1..]);
      if ts[0].token == SepLpar {
        SplitCanonical(ts[1..], 1);
        var split := SplitGroup(ts[1..], 1);
        if split.Some? {
          var (group, rest) := split.value;
          BuildCanonical(env, group, depth + 1);
          var node := Build(env, group, depth + 1);
          if node.Ok? {
            ThemsCanonical(group);
            BuildLoopCanonical(env.Skip(Thems(group)), rest, Push(st, node.value), depth);
          }
        }
      } else {
        StepCanonical(env, ts[0], st);
        var st' := Step(env, ts[0], st);
        if st'.Ok? {
          BuildLoopCanonical(env.Skip(Draws(ts[0])), ts[1..], st'.value, depth);
        }
      }
    }
  }

  lemma StepCanonical(env: Env, item: Item, st: State)
    ensures Step(env, Canonical(item), st) == Step(env, item, st)
  {
  }

  /** A list that passes the local checks is built into what its reading compiles to. */
  lemma CheckedListBuilds(env: Env, ts: seq<Item>)
    requires PassesLocalChecks(ts)
    ensures Parse(ts).Some? && Build(env, ts, 0) == CompileCond(env, Parse(ts).value)
  {
    LocalChecksCharacteriseTheGrammar(ts);
    var c := Parse(ts).value;
    CanonicalPasses(ts);
    PrintingPasses(c);
    BuildCanonical(env, ts, 0);
    BuildPrinting(env, c, 0);
  }

  // ----- building refuses undisciplined lists

  /** A statement is not directly followed by a plain identifier. */
  predicate NoStatementBeforeName(prev: Token, ts: seq<Item>)
    decreases |ts|
  {
    ts == [] || (!(IsStatement(prev) && ts[0].token == Identifier) && NoStatementBeforeName(ts[0].token, ts[1..]))
  }

  /** What holds along a list holds along its parts. */
  lemma {:induction false} AlongParts(prev: Token, ts: seq<Item>, n: nat)
    requires n < |ts| && PairsOk(prev, ts) && NoStatementBeforeName(prev, ts)
    ensures PairsOk(prev, ts[..n]) && NoStatementBeforeName(prev, ts[..n])
    ensures PairsOk(ts[n].token, ts[n + 1..]) && NoStatementBeforeName(ts[n].token, ts[n + 1..])
    decreases n
  {
    if n > 0 {
      AlongParts(ts[0].token, ts[1..], n - 1);
      assert ts[..n][1..] == ts[1..][..n - 1] && ts[1..][n..] == ts[n + 1..];
    }
  }

  lemma {:induction false} DisciplinedParts(prev: Token, ts: seq<Item>, n: nat)
    requires n < |ts| && Disciplined(prev, ts[..n]) && Disciplined(ts[n].token, ts[n + 1..])
    requires Neighbours(if n == 0 then prev else ts[n - 1].token, ts[n].token)
    ensures Disciplined(prev, ts)
    decreases n
  {
    if n > 0 {
      assert ts[..n][1..] == ts[1..][..n - 1] && ts[1..][n..] == ts[n + 1..];
      DisciplinedParts(ts[0].token, ts[1..], n - 1);
    }
  }

  /** The builder never ends on an opening parenthesis. */
  lemma {:induction false} BuiltEnds(env: Env, ts: seq<Item>, st: State, depth: nat)
    requires ts != [] && BuildLoop(env, ts, st, depth).Ok?
    ensures ts[|ts| - 1].token != SepLpar
    decreases |ts|
  {
    if ts[0].token == SepLpar {
      var (group, rest) := SplitGroup(ts[1..], 1).value;
      GroupShape(ts[1..], 1);
      if rest != [] {
        BuiltEnds(env.Skip(Thems(group)), rest, Push(st, Build(env, group, depth + 1).value), depth);
        assert rest == ts[|group| + 2..];
      }
    } else if |ts| > 1 {
      BuiltEnds(env.Skip(Draws(ts[0])), ts[1..], Step(env, ts[0], st).value, depth);
    }
  }

  /** The loop succeeds only where every wildcard follows its statement and no group is empty. */
  lemma {:induction false} BuiltIsDisciplined(env: Env, prev: Token, ts: seq<Item>, st: State, depth: nat)
    requires PairsOk(prev, ts) && NoStatementBeforeName(prev, ts)
    requires st.wildcard.Some? <==> IsStatement(prev)
    requires BuildLoop(env, ts, st, depth).Ok?
    ensures Disciplined(prev, ts)
    decreases |ts|
  {
    if ts == [] {
    } else if ts[0].token == SepLpar {
      BuiltGroupIsDisciplined(env, ts, st, depth);
    } else {
      StepKeepsContext(env, prev, ts[0], st);
      BuiltIsDisciplined(env.Skip(Draws(ts[0])), ts[0].token, ts[1..], Step(env, ts[0], st).value, depth);
    }
  }

  lemma StepKeepsContext(env: Env, prev: Token, item: Item, st: State)
    requires ValidTokenSequence(prev, item.token) && !(IsStatement(prev) && item.token == Identifier)
    requires st.wildcard.Some? <==> IsStatement(prev)
    requires Step(env, item, st).Ok?
    ensures Neighbours(prev, item.token)
    ensures Step(env, item, st).value.wildcard.Some? <==> IsStatement(item.token)
  {
  }

  lemma {:induction false} BuiltGroupIsDisciplined(env: Env, ts: seq<Item>, st: State, depth: nat)
    requires NextIs(ts, SepLpar) && st.wildcard == None
    requires PairsOk(SepLpar, ts[1..]) && NoStatementBeforeName(SepLpar, ts[1..])
    requires BuildLoop(env, ts, st, depth).Ok?
    ensures Disciplined(SepLpar, ts[1..])
    decreases |ts|, 0
  {
    var tail := ts[1..];
    var (group, rest) := SplitGroup(tail, 1).value;
    BuiltGroupParts(env, ts, st, depth);
    BuiltIsDisciplined(env, SepLpar, group, START, depth + 1);
    BuiltIsDisciplined(env.Skip(Thems(group)), SepRpar, rest, Push(st, Build(env, group, depth + 1).value), depth);
    DisciplinedGroup(tail, group, rest);
  }

  lemma BuiltGroupParts(env: Env, ts: seq<Item>, st: State, depth: nat)
    requires NextIs(ts, SepLpar) && BuildLoop(env, ts, st, depth).Ok?
    requires PairsOk(SepLpar, ts[1..]) && NoStatementBeforeName(SepLpar, ts[1..])
    ensures SplitGroup(ts[1..], 1).Some?
    ensures var (group, rest) := SplitGroup(ts[1..], 1).value;
      && |group| + |rest| + 1 < |ts| && group != [] && group[|group| - 1].token != SepLpar
      && PairsOk(SepLpar, group) && NoStatementBeforeName(SepLpar, group)
      && PairsOk(SepRpar, rest) && NoStatementBeforeName(SepRpar, rest)
      && Build(env, group, depth + 1).Ok? && BuildLoop(env, group, START, depth + 1).Ok?
      && BuildLoop(env.Skip(Thems(group)), rest, Push(st, Build(env, group, depth + 1).value), depth).Ok?
  {
    AfterGroup(env, ts, ts[1..], st, depth);
    var (group, rest) := SplitGroup(ts[1..], 1).value;
    GroupNeighbours(ts[1..], group, rest);
    GroupEnds(env, group, depth + 1);
  }

  lemma GroupNeighbours(tail: seq<Item>, group: seq<Item>, rest: seq<Item>)
    requires SplitGroup(tail, 1) == Some((group, rest)) && PairsOk(SepLpar, tail)
             && NoStatementBeforeName(SepLpar, tail)
    ensures PairsOk(SepLpar, group) && NoStatementBeforeName(SepLpar, group)
    ensures PairsOk(SepRpar, rest) && NoStatementBeforeName(SepRpar, rest)
  {
    GroupShape(tail, 1);
    AlongParts(SepLpar, tail, |group|);
  }

  lemma GroupEnds(env: Env, group: seq<Item>, depth: nat)
    requires Build(env, group, depth).Ok?
    ensures group != [] && group[|group| - 1].token != SepLpar
  {
    if group != [] {
      BuiltEnds(env, group, START, depth);
    }
  }

  lemma DisciplinedGroup(tail: seq<Item>, group: seq<Item>, rest: seq<Item>)
    requires SplitGroup(tail, 1) == Some((group, rest)) && group != [] && group[|group| - 1].token != SepLpar
    requires Disciplined(SepLpar, group) && Disciplined(SepRpar, rest)
    ensures Disciplined(SepLpar, tail)
  {
    GroupShape(tail, 1);
    assert tail[|group| - 1] == group[|group| - 1];
    DisciplinedParts(SepLpar, tail, |group|);
  }

  // ----- acceptance

  /** The items of a text before the end token. */
  function TokensOf(text: string): seq<Item> {
    var items := Lex("", text);
    if items == [] then [] else items[..|items| - 1]
  }

  /** No token is spelled like the marker the parser puts before the first. */
  predicate NoMarker(ts: seq<Item>) {
    forall i :: 0 <= i < |ts| ==> ts[i].value != BEGIN.value
  }

  /** What the parser does not look at everywhere: that the first token can begin a condition, that every pair is
      allowed, and that no statement stands before a plain identifier. */
  predicate WellBegun(ts: seq<Item>) {
    && ts != [] && BeginLegal(ts[0].token) && NoStatementBeforeName(Nil, ts)
    && PairsOk(ts[0].token, ts[1..] + [END])
  }

  lemma CollectedText(limits: Limits, text: string)
    ensures var ts := TokensOf(text);
      && Lex("", text) == ts + [END]
      && (Collected(limits, text).Ok?
          <==> NoneOf(ts, Unsupported) && ChainOk(BEGIN, ts + [END]) && Fits(limits, 0, 0, ts))
      && (Collected(limits, text).Ok? ==> Collected(limits, text).value == ts)
  {
    var ts := TokensOf(text);
    EndTokenOnceAndLast("", text);
    CollectDecides(limits, BEGIN, [], 0, ts);
    assert [] + ts == ts;
  }

  lemma {:induction false} DisciplinedNames(prev: Token, ts: seq<Item>)
    requires Disciplined(prev, ts)
    ensures NoStatementBeforeName(prev, ts)
    decreases |ts|
  {
    if ts != [] {
      DisciplinedNames(ts[0].token, ts[1..]);
    }
  }

  /** What an accepted text's tokens have gone through. */
  lemma AcceptedTokens(limits: Limits, env: Env, text: string)
    ensures var ts := TokensOf(text);
      RunResult(limits, env, text).Ok?
      ==> && ts != [] && RunResult(limits, env, text) == Build(env, ts, 0)
          && ParenCheck(ts, 0, MAX_RECURSION_DEPTH) == None && Fits(limits, 0, 0, ts) && ChainOk(BEGIN, ts + [END])
  {
    CollectedText(limits, text);
  }

  /** Which accepted texts are conditions: among the texts the parser accepts, exactly the well-begun ones pass the
      local checks, that is, read as a condition. */
  lemma AcceptedTextIsACondition(limits: Limits, env: Env, text: string)
    requires RunResult(limits, env, text).Ok?
    ensures PassesLocalChecks(TokensOf(text)) <==> WellBegun(TokensOf(text))
  {
    var ts := TokensOf(text);
    AcceptedTokens(limits, env, text);
    if WellBegun(ts) {
      BuiltTextPasses(env, ts);
    }
    if PassesLocalChecks(ts) {
      DisciplinedNames(Nil, ts);
    }
  }

  /** A text that is a condition within the limits is accepted exactly when the condition compiles, and its tree is that
      condition's. */
  lemma ConditionIsAccepted(limits: Limits, env: Env, text: string)
    requires Fits(limits, 0, 0, TokensOf(text)) && PassesLocalChecks(TokensOf(text))
    ensures Parse(TokensOf(text)).Some? && RunResult(limits, env, text) == CompileCond(env, Parse(TokensOf(text)).value)
  {
    var ts := TokensOf(text);
    CollectedText(limits, text);
    assert (ts + [END])[1..] == ts[1..] + [END] && (ts + [END])[0] == ts[0];
    ChainIsPairs(ts[0], ts[1..] + [END]);
    LocalChecksAreJoined(ts);
    JoinedHasNoOddTokens(SepLpar, ts);
    CheckedListBuilds(env, ts);
  }

  /** Acceptance, exactly: a text is accepted and well-begun if and only if its tokens fit the limits, pass the local
      checks and read as a condition that compiles; the tree is then the one that condition compiles to. The tokens
      spell the text. */
  lemma AcceptedExactlyWhenACondition(limits: Limits, env: Env, text: string)
    ensures Spells(TokensOf(text) + [END], text)
    ensures var ts := TokensOf(text);
      && (RunResult(limits, env, text).Ok? && WellBegun(ts)
          <==> Fits(limits, 0, 0, ts) && PassesLocalChecks(ts) && Parse(ts).Some?
               && CompileCond(env, Parse(ts).value).Ok?)
      && (RunResult(limits, env, text).Ok? && WellBegun(ts)
          ==> RunResult(limits, env, text) == CompileCond(env, Parse(ts).value))
  {
    var ts := TokensOf(text);
    ItemsSpellRest(text);
    CollectedText(limits, text);
    if Fits(limits, 0, 0, ts) && PassesLocalChecks(ts) {
      ConditionIsAccepted(limits, env, text);
      DisciplinedNames(Nil, ts);
    }
    if RunResult(limits, env, text).Ok? {
      AcceptedTokens(limits, env, text);
      AcceptedTextIsACondition(limits, env, text);
    }
  }

  lemma BuiltTextPasses(env: Env, ts: seq<Item>)
    requires ts != [] && BeginLegal(ts[0].token) && NoStatementBeforeName(Nil, ts)
    requires PairsOk(ts[0].token, ts[1..] + [END]) && ParenCheck(ts, 0, MAX_RECURSION_DEPTH) == None
    requires Build(env, ts, 0).Ok?
    ensures PassesLocalChecks(ts)
  {
    PairsOfPrefix(ts[0].token, ts[1..]);
    if ts[0].token == SepLpar {
      BuiltGroupIsDisciplined(env, ts, START, 0);
    } else {
      FirstStep(env, ts[0]);
      BuiltIsDisciplined(env.Skip(Draws(ts[0])), ts[0].token, ts[1..], Step(env, ts[0], START).value, 0);
    }
  }

  lemma FirstStep(env: Env, item: Item)
    requires BeginLegal(item.token) && item.token != SepLpar && Step(env, item, START).Ok?
    ensures Neighbours(Nil, item.token)
    ensures Step(env, item, START).value.wildcard.Some? <==> IsStatement(item.token)
  {
  }

  const NAME_A := Item(Identifier, "a")

  lemma ItemsOfAndA(text: string)
    requires text == "and a"
    ensures Lex("", text) == [AND, NAME_A] + [END]
  {
    var ts, gaps := [AND, NAME_A], ["", " ", ""];
    LayoutOfAndA();
    assert CheckKeyword("a") == Identifier && CheckKeyword("and") == KeywordAnd;
    assert ProperItem(AND) && ProperItem(NAME_A);
    assert ts[1..] == [NAME_A] && [NAME_A][1..] == [];
    LexReadsLayout(ts, gaps);
  }

  lemma LayoutOfAndA()
    ensures Layout([AND, NAME_A], ["", " ", ""]) == "and a"
  {
    assert Layout([], [""]) == "";
    assert [NAME_A][1..] == [] && [" ", ""][1..] == [""];
    assert Layout([NAME_A], [" ", ""]) == " a";
    assert [AND, NAME_A][1..] == [NAME_A] && ["", " ", ""][1..] == [" ", ""];
  }

  lemma BuildOfAndA(env: Env)
    requires env.leaf("a").Ok?
    ensures Build(env, [AND, NAME_A], 0) == env.leaf("a")
    ensures Parse([AND, NAME_A]) == None
  {
    assert [AND, NAME_A][1..] == [NAME_A] && [NAME_A][1..] == [];
    var node := env.leaf("a").value;
    assert [] + [node] == [node];
    assert BuildLoop(env, [NAME_A], START, 0) == BuildLoop(env, [], Push(START, node), 0);
    var ts := [AND, NAME_A];
    assert ParseAtom(ts) == None && ParseFactor(ts) == None && ParseConj(ts) == None;
  }

  /** The first token is not checked: "and a" is accepted and means a, although it is no condition. */
  lemma FirstTokenIsNotChecked(limits: Limits, env: Env, text: string)
    requires text == "and a"
    requires limits.maxTokens >= 2 && limits.maxMemory >= 2 * limits.itemOverhead + 4
    requires env.leaf("a").Ok?
    ensures RunResult(limits, env, text) == env.leaf("a")
    ensures TokensOf(text) == [AND, NAME_A] && Parse([AND, NAME_A]) == None
  {
    var ts := [AND, NAME_A];
    ItemsOfAndA(text);
    CollectedText(limits, text);
    assert TokensOf(text) == ts;
    var whole := ts + [END];
    assert whole[1..] == [NAME_A, END] && [NAME_A, END][1..] == [END] && [END][1..] == [];
    assert ChainOk(NAME_A, [END]) && ChainOk(AND, [NAME_A, END]);
    assert ts[1..] == [NAME_A] && [NAME_A][1..] == [];
    assert Memory(limits, [NAME_A]) == limits.itemOverhead + 1 && |AND.value| == 3;
    assert ParenCheck([NAME_A], 0, MAX_RECURSION_DEPTH) == None;
    BuildOfAndA(env);
  }

  const ONE := Item(StmtOneOf, ONE_OF)

  lemma ItemsOfOneOfA(text: string)
    requires text == "1 of a"
    ensures Lex("", text) == [ONE, NAME_A] + [END]
  {
    var ts, gaps := [ONE, NAME_A], ["", " ", ""];
    assert Layout([], [""]) == "";
    assert [NAME_A][1..] == [] && [" ", ""][1..] == [""];
    assert Layout([NAME_A], [" ", ""]) == " a";
    assert ts[1..] == [NAME_A] && gaps[1..] == [" ", ""];
    assert Layout(ts, gaps) == "1 of a";
    assert CheckKeyword("a") == Identifier;
    assert ProperItem(ONE) && ProperItem(NAME_A);
    LexReadsLayout(ts, gaps);
  }

  /** Nor is a statement before a plain name refused: "1 of a" is accepted and means a, although it is no condition. */
  lemma StatementBeforeNameIsAccepted(limits: Limits, env: Env, text: string)
    requires text == "1 of a"
    requires limits.maxTokens >= 2 && limits.maxMemory >= 2 * limits.itemOverhead + 5
    requires env.leaf("a").Ok?
    ensures RunResult(limits, env, text) == env.leaf("a")
    ensures TokensOf(text) == [ONE, NAME_A] && Parse([ONE, NAME_A]) == None
  {
    var ts := [ONE, NAME_A];
    ItemsOfOneOfA(text);
    CollectedText(limits, text);
    assert TokensOf(text) == ts;
    var whole := ts + [END];
    assert whole[1..] == [NAME_A, END] && [NAME_A, END][1..] == [END] && [END][1..] == [];
    assert ChainOk(NAME_A, [END]) && ChainOk(ONE, [NAME_A, END]);
    assert ts[1..] == [NAME_A] && [NAME_A][1..] == [];
    assert Memory(limits, [NAME_A]) == limits.itemOverhead + 1 && |ONE.value| == 4;
    assert ParenCheck([NAME_A], 0, MAX_RECURSION_DEPTH) == None;
    BuildOfOneOfA(env);
  }

  lemma BuildOfOneOfA(env: Env)
    requires env.leaf("a").Ok?
    ensures Build(env, [ONE, NAME_A], 0) == env.leaf("a")
    ensures Parse([ONE, NAME_A]) == None
  {
    var ts, pending := [ONE, NAME_A], START.(wildcard := Some(false));
    assert ts[1..] == [NAME_A] && [NAME_A][1..] == [];
    var node := env.leaf("a").value;
    assert [] + [node] == [node];
    assert BuildLoop(env, [NAME_A], pending, 0) == BuildLoop(env, [], Push(pending, node), 0);
    assert ParseAtom(ts) == None && ParseFactor(ts) == None && ParseConj(ts) == None;
  }

  lemma LexTwoWords(w: string, v: string)
    requires IsWord(w) && w[|w| - 1] !in {'1', 'l'}
    requires IsWord(v) && v[|v| - 1] !in {'1', 'l'}
    ensures Lex("", w + (" " + v)) == Word(w) + (Word(v) + [END])
  {
    assert "" + w == w && "" + v == v && v + "" == v;
    LexWord("", w, " " + v);
    LexAfterWord(w, " " + v);
    LexGap(" ", v);
    LexWord("", v, "");
    LexAfterWord(v, "");
    LexNothing();
  }

  lemma LexNothing()
    ensures Lex("", "") == [END]
  {
    assert Word("") == [];
    assert [] + [END] == [END];
  }

  lemma ItemsAfterTheMarker(text: string)
    requires text == BEGIN.value + (" " + "a")
    ensures Lex("", text) == [BEGIN] + ([NAME_A] + [END])
  {
    MarkerIsAName(BEGIN.value);
    LexTwoWords(BEGIN.value, "a");
    assert CheckKeyword("a") == Identifier;
  }

  lemma MarkerIsAName(mark: string)
    requires mark == "<begin>"
    ensures IsWord(mark) && mark[|mark| - 1] == '>' && CheckKeyword(mark) == Identifier
  {
    assert mark[0] == '<' && |mark| == 7;
  }

  /** The pair after a token spelled like the begin marker is not checked: "<begin> a" is accepted, although two names
      in a row are no condition. */
  lemma MarkerHidesAPair(limits: Limits, env: Env, text: string)
    requires text == BEGIN.value + (" " + "a")
    requires limits.maxTokens >= 2 && limits.maxMemory >= 2 * limits.itemOverhead + 8
    requires env.leaf(BEGIN.value).Ok? && env.leaf("a").Ok?
    ensures TokensOf(text) == [BEGIN, NAME_A]
    ensures RunResult(limits, env, text) == Ok(Node.And(env.leaf(BEGIN.value).value, env.leaf("a").value))
    ensures !WellBegun([BEGIN, NAME_A])
  {
    var ts := [BEGIN, NAME_A];
    ItemsAfterTheMarker(text);
    CollectedText(limits, text);
    var whole := ts + [END];
    assert whole == [BEGIN] + ([NAME_A] + [END]);
    assert TokensOf(text) == ts;
    assert whole[1..] == [NAME_A, END] && [NAME_A, END][1..] == [END] && [END][1..] == [];
    assert ChainOk(NAME_A, [END]) && ChainOk(BEGIN, [NAME_A, END]);
    assert ts[1..] == [NAME_A] && [NAME_A][1..] == [];
    assert Memory(limits, [NAME_A]) == limits.itemOverhead + 1 && |BEGIN.value| == 7;
    assert ParenCheck([NAME_A], 0, MAX_RECURSION_DEPTH) == None;
    assert (ts[1..] + [END])[0] == NAME_A;
    BuildOfTwoNames(env);
  }

  lemma BuildOfTwoNames(env: Env)
    requires env.leaf(BEGIN.value).Ok? && env.leaf("a").Ok?
    ensures Build(env, [BEGIN, NAME_A], 0) == Ok(Node.And(env.leaf(BEGIN.value).value, env.leaf("a").value))
  {
    var ts, x, y := [BEGIN, NAME_A], env.leaf(BEGIN.value).value, env.leaf("a").value;
    assert ts[1..] == [NAME_A] && [NAME_A][1..] == [];
    assert BuildLoop(env, [NAME_A], Push(START, x), 0) == BuildLoop(env, [], Push(Push(START, x), y), 0);
    assert Push(Push(START, x), y).ands == [x, y];
  }

  // ----- letter case, whitespace and the pipe, on texts

  const ALL_THEM: seq<Item> := [Item(StmtAllOf, "all of"), Item(IdentifierAll, "them")]
  const OR_NOT_B: seq<Item> := [Item(KeywordOr, "OR"), Item(KeywordNot, "Not"), Item(Identifier, "b")]

  /** Keywords are read in any letter case, and any whitespace character keeps words apart. */
  lemma KeywordsInAnyCase(text: string)
    requires text == "all of them OR\nNot\tb"
    ensures Lex("", text) == (ALL_THEM + OR_NOT_B) + [END]
  {
    var ts, gaps := ALL_THEM + OR_NOT_B, ["", " ", " ", "\n", "\t", ""];
    LayoutOfAllThem();
    WordsInAnyCase();
    assert forall i :: 0 <= i < |ts| ==> ts[i] == if i < 2 then ALL_THEM[i] else OR_NOT_B[i - 2];
    PairsInAnyCase();
    assert ts[1..] == [ALL_THEM[1]] + OR_NOT_B;
    LexReadsLayout(ts, gaps);
  }

  lemma WordsInAnyCase()
    ensures forall i :: 0 <= i < 2 ==> ProperItem(ALL_THEM[i])
    ensures forall i :: 0 <= i < 3 ==> ProperItem(OR_NOT_B[i])
  {
    ProperOr();
    ProperNot();
    ProperThem();
    ProperB();
  }

  lemma ProperB()
    ensures ProperItem(OR_NOT_B[2])
  {
    assert CheckKeyword("b") == Identifier;
  }

  lemma ProperOr()
    ensures ProperItem(OR_NOT_B[0])
  {
    assert EqIgnoreCase("OR", "or") && CheckKeyword("OR") == KeywordOr;
  }

  lemma ProperNot()
    ensures ProperItem(OR_NOT_B[1])
  {
    assert LowerAscii("Not"[0]) != LowerAscii("and"[0]) && EqIgnoreCase("Not", "not");
    assert CheckKeyword("Not") == KeywordNot;
  }

  lemma ProperThem()
    ensures ProperItem(ALL_THEM[1])
  {
    assert CheckKeyword("them") == IdentifierAll;
  }

  lemma PairsInAnyCase()
    ensures PairsOk(StmtAllOf, [ALL_THEM[1]] + OR_NOT_B)
  {
    assert OR_NOT_B[1..][1..] == [OR_NOT_B[2]] && [OR_NOT_B[2]][1..] == [];
    assert PairsOk(KeywordOr, OR_NOT_B[1..]);
    assert ([ALL_THEM[1]] + OR_NOT_B)[1..] == OR_NOT_B;
  }

  lemma LayoutOfOrNotB()
    ensures Layout(OR_NOT_B, [" ", "\n", "\t", ""]) == " OR\nNot\tb"
  {
    assert Layout([], [""]) == "";
    assert [OR_NOT_B[2]][1..] == [] && ["\t", ""][1..] == [""];
    assert Layout([OR_NOT_B[2]], ["\t", ""]) == "\tb";
    assert OR_NOT_B[1..][1..] == [OR_NOT_B[2]] && ["\n", "\t", ""][1..] == ["\t", ""];
    assert Layout(OR_NOT_B[1..], ["\n", "\t", ""]) == "\nNot\tb";
    assert [" ", "\n", "\t", ""][1..] == ["\n", "\t", ""];
  }

  lemma LayoutOfAllThem()
    ensures Layout(ALL_THEM + OR_NOT_B, ["", " ", " ", "\n", "\t", ""]) == "all of them OR\nNot\tb"
  {
    var ts, gaps := ALL_THEM + OR_NOT_B, ["", " ", " ", "\n", "\t", ""];
    LayoutOfOrNotB();
    assert ts[1..][1..] == OR_NOT_B && gaps[1..][1..] == [" ", "\n", "\t", ""];
    assert Layout(ts[1..], gaps[1..]) == " them OR\nNot\tb";
  }

  const PIPED: seq<Item> := [Item(SepPipe, "|"), Item(Unsupported, " b"), END]

  lemma ItemsOfPiped(text: string)
    requires text == "a | b"
    ensures Lex("", text) == [NAME_A] + PIPED
  {
    var gap, tail := " | b", "| b";
    assert "" + "|" == "|" && tail[1..] == " b" && Lex("", tail) == PIPED;
    assert gap == " " + tail;
    TrimStartGap(" ", tail);
    assert CheckKeyword("a") == Identifier && Word("a") == [NAME_A];
    assert Lex("a", gap) == [NAME_A] + PIPED;
    assert text[1..] == gap && "" + [text[0]] == "a";
  }

  /** A pipe ends the condition: what follows it is unsupported, and the text is refused. */
  lemma PipeIsRefused(limits: Limits, env: Env, text: string)
    requires text == "a | b"
    requires limits.maxTokens >= 2 && limits.maxMemory >= 2 * limits.itemOverhead + 2
    ensures Lex("", text) == [NAME_A] + [Item(SepPipe, "|"), Item(Unsupported, " b"), END]
    ensures RunResult(limits, env, text) == Err(UnsupportedItem(" b"))
  {
    ItemsOfPiped(text);
    CollectName(limits, PIPED);
    PipedIsRefused(limits, limits.itemOverhead + 1);
  }

  lemma CollectName(limits: Limits, items: seq<Item>)
    requires limits.maxTokens >= 1 && limits.maxMemory >= limits.itemOverhead + 1
    ensures CollectFrom(limits, BEGIN, [], 0, [NAME_A] + items)
            == CollectFrom(limits, NAME_A, [NAME_A], limits.itemOverhead + 1, items)
  {
    assert ([NAME_A] + items)[1..] == items && [] + [NAME_A] == [NAME_A];
  }

  lemma PipedIsRefused(limits: Limits, memory: nat)
    requires limits.maxTokens >= 2 && limits.maxMemory >= memory + limits.itemOverhead + 1
    ensures CollectFrom(limits, NAME_A, [NAME_A], memory, PIPED) == Err(UnsupportedItem(" b"))
  {
    assert PIPED[1..] == [PIPED[1], END];
  }
}
