/** Acceptance without assuming where statements stand. The parser lets a statement stand before a plain name and keeps
    it pending; so an accepted text is the condition that comes out when every statement is moved to the target that
    uses it up. */
module Statements {
  import opened Wrappers
  import opened Tokens
  import opened Validation
  import opened Lexing
  import opened Grammar
  import opened LocalChecks
  import opened Building
  import opened Parsing
  import opened Compilation
  import opened EndToEnd
  import opened Acceptance

  function Pending(statement: Option<Item>): seq<Item> {
    if statement.Some? then [statement.value] else []
  }

  /** Every statement moved directly before the next target of its group; dropped if another or none follows. */
  function Attach(ts: seq<Item>, pending: Option<Item>): seq<Item>
    decreases |ts|
  {
    if ts == [] then []
    else if ts[0].token == SepLpar then
      match SplitGroup(ts[1..], 1)
      case None => ts
      case Some((group, rest)) => [ts[0]] + (Attach(group, None) + ([RPAR] + Attach(rest, pending)))
    else if IsStatement(ts[0].token) then Attach(ts[1..], Some(ts[0]))
    else if IsTarget(ts[0].token) then Pending(pending) + ([ts[0]] + Attach(ts[1..], None))
    else [ts[0]] + Attach(ts[1..], pending)
  }

  /** What the list after an opening parenthesis consists of. */
  lemma GroupParts(ts: seq<Item>, pending: Option<Item>, limit: nat)
    requires ts != [] && ts[0].token == SepLpar && ParenCheck(ts, 0, limit) == None
    ensures limit > 0 && SplitGroup(ts[1..], 1).Some?
    ensures var (group, rest) := SplitGroup(ts[1..], 1).value;
      && |group| + |rest| < |ts| && ParenCheck(group, 0, limit - 1) == None && ParenCheck(rest, 0, limit) == None
      && Attach(ts, pending) == [ts[0]] + (Attach(group, None) + ([RPAR] + Attach(rest, pending)))
      && Attach(ts, pending)[1..] == Attach(group, None) + ([RPAR] + Attach(rest, pending))
  {
    GroupIsBalanced(ts[1..], 1, 1, limit);
    GroupShape(ts[1..], 1);
  }

  // ----- parentheses stay as they are

  /** A balanced list in front of a closing parenthesis is the group it closes. */
  lemma {:induction false} SplitBalanced(ts: seq<Item>, k: seq<Item>, depth: nat, limit: nat)
    requires ParenCheck(ts, depth, limit) == None
    ensures SplitGroup(ts + ([RPAR] + k), depth + 1) == Some((ts, k))
    decreases |ts|
  {
    var all := ts + ([RPAR] + k);
    if ts == [] {
      assert all == [RPAR] + k && ([RPAR] + k)[1..] == k;
    } else {
      var depth' := if ts[0].token == SepLpar then depth + 1 else if ts[0].token == SepRpar then depth - 1 else depth;
      assert all[1..] == ts[1..] + ([RPAR] + k);
      SplitBalanced(ts[1..], k, depth', limit);
      assert [ts[0]] + ts[1..] == ts;
    }
  }

  lemma {:induction false} ParensAround(ts: seq<Item>, k: seq<Item>, depth: nat, limit: nat)
    requires ParenCheck(ts, depth, limit) == None
    ensures ParenCheck(ts + ([RPAR] + k), depth + 1, limit + 1) == ParenCheck(k, 0, limit + 1)
    decreases |ts|
  {
    var all := ts + ([RPAR] + k);
    if ts == [] {
      assert all == [RPAR] + k && ([RPAR] + k)[1..] == k;
    } else {
      var depth' := if ts[0].token == SepLpar then depth + 1 else if ts[0].token == SepRpar then depth - 1 else depth;
      assert all[1..] == ts[1..] + ([RPAR] + k);
      ParensAround(ts[1..], k, depth', limit);
    }
  }

  predicate IsPending(pending: Option<Item>) {
    pending.Some? ==> IsStatement(pending.value.token)
  }

  lemma ParensFree(items: seq<Item>, k: seq<Item>, depth: nat, limit: nat)
    requires |items| <= 1 && (items != [] ==> items[0].token != SepLpar && items[0].token != SepRpar)
    ensures ParenCheck(items + k, depth, limit) == ParenCheck(k, depth, limit)
  {
    assert items == [] ==> items + k == k;
    assert items != [] ==> (items + k)[1..] == k;
  }

  lemma {:induction false} AttachKeepsBalance(ts: seq<Item>, pending: Option<Item>, limit: nat)
    requires ParenCheck(ts, 0, limit) == None && IsPending(pending)
    ensures ParenCheck(Attach(ts, pending), 0, limit) == None
    decreases |ts|, 1
  {
    if ts == [] {
    } else if ts[0].token == SepLpar {
      AttachKeepsGroupBalance(ts, pending, limit);
    } else if IsStatement(ts[0].token) {
      AttachKeepsBalance(ts[1..], Some(ts[0]), limit);
    } else {
      var kept := if IsTarget(ts[0].token) then None else pending;
      AttachKeepsBalance(ts[1..], kept, limit);
      ParensFree([ts[0]], Attach(ts[1..], kept), 0, limit);
      ParensFree(Pending(pending), [ts[0]] + Attach(ts[1..], kept), 0, limit);
    }
  }

  lemma {:induction false} AttachKeepsGroupBalance(ts: seq<Item>, pending: Option<Item>, limit: nat)
    requires ts != [] && ts[0].token == SepLpar && ParenCheck(ts, 0, limit) == None && IsPending(pending)
    ensures ParenCheck(Attach(ts, pending), 0, limit) == None
    decreases |ts|, 0
  {
    GroupParts(ts, pending, limit);
    var (group, rest) := SplitGroup(ts[1..], 1).value;
    AttachKeepsBalance(group, None, limit - 1);
    AttachKeepsBalance(rest, pending, limit);
    ParensAround(Attach(group, None), Attach(rest, pending), 0, limit - 1);
  }

  // ----- building does not notice

  function Wildcard(pending: Option<Item>): Option<bool> {
    if pending.Some? then Some(pending.value.token == StmtAllOf) else None
  }

  lemma {:induction false} ThemsAround(ts: seq<Item>, k: seq<Item>)
    ensures Thems(ts + k) == Thems(ts) + Thems(k)
  {
    if ts == [] {
      assert ts + k == k;
    } else {
      assert (ts + k)[1..] == ts[1..] + k;
      ThemsAround(ts[1..], k);
    }
  }

  lemma {:induction false} AttachKeepsThems(ts: seq<Item>, pending: Option<Item>)
    requires IsPending(pending)
    ensures Thems(Attach(ts, pending)) == Thems(ts)
    decreases |ts|
  {
    if ts == [] {
    } else if ts[0].token == SepLpar {
      var split := SplitGroup(ts[1..], 1);
      if split.Some? {
        var (group, rest) := split.value;
        GroupThems(ts[1..], group, rest);
        AttachKeepsThems(group, None);
        AttachKeepsThems(rest, pending);
        ThemsAround([RPAR], Attach(rest, pending));
        ThemsAround(Attach(group, None), [RPAR] + Attach(rest, pending));
        ThemsAround([ts[0]], Attach(group, None) + ([RPAR] + Attach(rest, pending)));
      }
    } else if IsStatement(ts[0].token) {
      AttachKeepsThems(ts[1..], Some(ts[0]));
    } else if IsTarget(ts[0].token) {
      AttachKeepsThems(ts[1..], None);
      ThemsAround([ts[0]], Attach(ts[1..], None));
      ThemsAround(Pending(pending), [ts[0]] + Attach(ts[1..], None));
    } else {
      AttachKeepsThems(ts[1..], pending);
      ThemsAround([ts[0]], Attach(ts[1..], pending));
    }
  }

  /** Building the moved list is building the list with the pending statement in the loop's variable. */
  lemma {:induction false} BuildAttached(env: Env, ts: seq<Item>, pending: Option<Item>, st: State, depth: nat,
                                         limit: nat)
    requires ParenCheck(ts, 0, limit) == None && IsPending(pending) && st.wildcard == None
    ensures BuildLoop(env, Attach(ts, pending), st, depth)
            == BuildLoop(env, ts, st.(wildcard := Wildcard(pending)), depth)
    decreases |ts|, 1
  {
    if ts == [] {
    } else if ts[0].token == SepLpar {
      BuildAttachedGroup(env, ts, pending, st, depth, limit);
    } else if IsStatement(ts[0].token) {
      BuildAttached(env, ts[1..], Some(ts[0]), st, depth, limit);
    } else if IsTarget(ts[0].token) {
      AttachedTarget(env, ts[0], Attach(ts[1..], None), pending, st, depth);
      var pushed := Step(env, ts[0], st.(wildcard := Wildcard(pending)));
      if pushed.Ok? {
        BuildAttached(env.Skip(Draws(ts[0])), ts[1..], None, pushed.value, depth, limit);
        assert pushed.value.(wildcard := None) == pushed.value;
      }
    } else {
      AttachedPlain(env, ts[0], Attach(ts[1..], pending), pending, st, depth);
      var next := Step(env, ts[0], st);
      if next.Ok? {
        BuildAttached(env, ts[1..], pending, next.value, depth, limit);
      }
    }
  }

  lemma AttachedTarget(env: Env, item: Item, k: seq<Item>, pending: Option<Item>, st: State, depth: nat)
    requires IsTarget(item.token) && IsPending(pending) && st.wildcard == None
    ensures var pushed := Step(env, item, st.(wildcard := Wildcard(pending)));
      && (pushed.Ok? ==> pushed.value.wildcard == None)
      && BuildLoop(env, Pending(pending) + ([item] + k), st, depth)
         == if pushed.Err? then Err(pushed.error) else BuildLoop(env.Skip(Draws(item)), k, pushed.value, depth)
  {
    var tail := [item] + k;
    assert tail[1..] == k;
    if pending == None {
      assert [] + tail == tail;
      assert st.(wildcard := None) == st;
    } else {
      assert ([pending.value] + tail)[1..] == tail;
    }
  }

  lemma AttachedPlain(env: Env, item: Item, k: seq<Item>, pending: Option<Item>, st: State, depth: nat)
    requires item.token != SepLpar && !IsStatement(item.token) && !IsTarget(item.token) && st.wildcard == None
    ensures var next, other := Step(env, item, st), Step(env, item, st.(wildcard := Wildcard(pending)));
      && BuildLoop(env, [item] + k, st, depth)
         == (if next.Err? then Err(next.error) else BuildLoop(env, k, next.value, depth))
      && (if next.Err? then other == next
          else next.value.wildcard == None && other == Ok(next.value.(wildcard := Wildcard(pending))))
  {
    assert ([item] + k)[1..] == k;
  }

  lemma {:induction false} BuildAttachedGroup(env: Env, ts: seq<Item>, pending: Option<Item>, st: State, depth: nat,
                                              limit: nat)
    requires ts != [] && ts[0].token == SepLpar
    requires ParenCheck(ts, 0, limit) == None && IsPending(pending) && st.wildcard == None
    ensures BuildLoop(env, Attach(ts, pending), st, depth)
            == BuildLoop(env, ts, st.(wildcard := Wildcard(pending)), depth)
    decreases |ts|, 0
  {
    GroupParts(ts, pending, limit);
    var (group, rest) := SplitGroup(ts[1..], 1).value;
    var st' := st.(wildcard := Wildcard(pending));
    AttachedSplit(ts, pending, limit);
    AttachKeepsThems(group, None);
    AttachedBuild(env, group, depth + 1, limit - 1);
    var node := Build(env, group, depth + 1);
    if node.Ok? {
      BuildAttached(env.Skip(Thems(group)), rest, pending, Push(st, node.value), depth, limit);
      assert Push(st, node.value).(wildcard := Wildcard(pending)) == Push(st', node.value);
    }
    GroupsBuildAlike(env, Attach(ts, pending), ts, st, st', depth);
  }

  /** Loops on two groups that build alike and go on alike. */
  lemma GroupsBuildAlike(env: Env, ts: seq<Item>, ts': seq<Item>, st: State, st': State, depth: nat)
    requires NextIs(ts, SepLpar) && NextIs(ts', SepLpar)
    requires SplitGroup(ts[1..], 1).Some? && SplitGroup(ts'[1..], 1).Some?
    requires Build(env, SplitGroup(ts[1..], 1).value.0, depth + 1)
             == Build(env, SplitGroup(ts'[1..], 1).value.0, depth + 1)
    requires Thems(SplitGroup(ts[1..], 1).value.0) == Thems(SplitGroup(ts'[1..], 1).value.0)
    requires GoOnAlike(env, ts, ts', st, st', depth)
    ensures BuildLoop(env, ts, st, depth) == BuildLoop(env, ts', st', depth)
  {
    AfterGroup(env, ts, ts[1..], st, depth);
    AfterGroup(env, ts', ts'[1..], st', depth);
  }

  ghost predicate GoOnAlike(env: Env, ts: seq<Item>, ts': seq<Item>, st: State, st': State, depth: nat)
    requires NextIs(ts, SepLpar) && NextIs(ts', SepLpar)
    requires SplitGroup(ts[1..], 1).Some? && SplitGroup(ts'[1..], 1).Some?
  {
    var (group, rest) := SplitGroup(ts[1..], 1).value;
    var node, rest' := Build(env, group, depth + 1), SplitGroup(ts'[1..], 1).value.1;
    node.Ok? ==>
      BuildLoop(env.Skip(Thems(group)), rest, Push(st, node.value), depth)
      == BuildLoop(env.Skip(Thems(group)), rest', Push(st', node.value), depth)
  }

  lemma AttachedSplit(ts: seq<Item>, pending: Option<Item>, limit: nat)
    requires ts != [] && ts[0].token == SepLpar && ParenCheck(ts, 0, limit) == None
    requires SplitGroup(ts[1..], 1).Some? && Attach(ts, pending) != []
    ensures var (group, rest) := SplitGroup(ts[1..], 1).value;
      SplitGroup(Attach(ts, pending)[1..], 1) == Some((Attach(group, None), Attach(rest, pending)))
  {
    GroupParts(ts, pending, limit);
    var (group, rest) := SplitGroup(ts[1..], 1).value;
    AttachKeepsBalance(group, None, limit - 1);
    SplitBalanced(Attach(group, None), Attach(rest, pending), 0, limit - 1);
  }

  lemma {:induction false} AttachedBuild(env: Env, ts: seq<Item>, depth: nat, limit: nat)
    requires ParenCheck(ts, 0, limit) == None
    ensures Build(env, Attach(ts, None), depth) == Build(env, ts, depth)
    decreases |ts|, 2
  {
    BuildAttached(env, ts, None, START, depth, limit);
    assert START.(wildcard := None) == START;
  }

  /** Moving statements changes neither the tree nor the error. */
  lemma BuildIgnoresPosition(env: Env, ts: seq<Item>)
    requires ParenCheck(ts, 0, MAX_RECURSION_DEPTH) == None
    ensures Build(env, Attach(ts, None), 0) == Build(env, ts, 0)
  {
    AttachedBuild(env, ts, 0, MAX_RECURSION_DEPTH);
  }

  // ----- neighbours stay allowed

  /** The token a moved list follows: where a statement has been taken out, the one before it. */
  predicate Stands(prev: Token, prev': Token, pending: Option<Item>) {
    && IsPending(pending)
    && (if IsStatement(prev) then pending.Some? && Opens(prev') else prev' == prev)
  }

  lemma {:induction false} PairsAround(prev: Token, ts: seq<Item>, item: Item, k: seq<Item>)
    requires PairsOk(prev, ts + [item]) && PairsOk(item.token, k)
    ensures PairsOk(prev, ts + ([item] + k))
    decreases |ts|
  {
    if ts == [] {
      assert ts + [item] == [item] && ts + ([item] + k) == [item] + k && ([item] + k)[1..] == k;
    } else {
      assert (ts + [item])[1..] == ts[1..] + [item] && (ts + ([item] + k))[1..] == ts[1..] + ([item] + k);
      PairsAround(ts[0].token, ts[1..], item, k);
    }
  }

  lemma PairsFront(prev: Token, item: Item, k: seq<Item>)
    ensures PairsOk(prev, [item] + k) <==> ValidTokenSequence(prev, item.token) && PairsOk(item.token, k)
  {
    assert ([item] + k)[1..] == k;
  }

  /** Neighbours that agree, up to the end of the list's group or of the text, still agree once statements are moved. */
  lemma {:induction false} AttachKeepsPairs(prev: Token, prev': Token, ts: seq<Item>, pending: Option<Item>, last: Item,
                                            limit: nat)
    requires last.token == LitEof || last.token == SepRpar
    requires PairsOk(prev, ts + [last]) && Stands(prev, prev', pending) && ParenCheck(ts, 0, limit) == None
    ensures PairsOk(prev', Attach(ts, pending) + [last])
    decreases |ts|, 1
  {
    if ts == [] {
      assert ts + [last] == [last] && Attach(ts, pending) + [last] == [last];
    } else {
      var item, rest := ts[0], ts[1..];
      assert (ts + [last])[1..] == rest + [last];
      if item.token == SepLpar {
        AttachKeepsGroupPairs(prev, ts, pending, last, limit);
      } else if IsStatement(item.token) {
        AttachKeepsPairs(item.token, prev', rest, Some(item), last, limit);
      } else if IsTarget(item.token) {
        AttachKeepsPairs(item.token, item.token, rest, None, last, limit);
        TargetPairs(prev, prev', item, Attach(rest, None), last, pending);
      } else {
        AttachKeepsPairs(item.token, item.token, rest, pending, last, limit);
        PairsBetween(prev', item, Attach(rest, pending), last);
      }
    }
  }

  lemma PairsBetween(prev: Token, item: Item, k: seq<Item>, last: Item)
    requires ValidTokenSequence(prev, item.token) && PairsOk(item.token, k + [last])
    ensures PairsOk(prev, ([item] + k) + [last])
  {
    PairsFront(prev, item, k + [last]);
    assert ([item] + k) + [last] == [item] + (k + [last]);
  }

  lemma TargetPairs(prev: Token, prev': Token, item: Item, k: seq<Item>, last: Item, pending: Option<Item>)
    requires IsTarget(item.token) && ValidTokenSequence(prev, item.token) && Stands(prev, prev', pending)
    requires PairsOk(item.token, k + [last])
    ensures PairsOk(prev', (Pending(pending) + ([item] + k)) + [last])
  {
    if pending == None {
      PairsBetween(prev', item, k, last);
      assert [] + ([item] + k) == [item] + k;
    } else {
      PairsBetween(pending.value.token, item, k, last);
      PairsBetween(prev', pending.value, [item] + k, last);
    }
  }

  lemma {:induction false} AttachKeepsGroupPairs(prev: Token, ts: seq<Item>, pending: Option<Item>, last: Item,
                                                 limit: nat)
    requires last.token == LitEof || last.token == SepRpar
    requires ts != [] && ts[0].token == SepLpar && PairsOk(prev, ts + [last]) && ParenCheck(ts, 0, limit) == None
    requires IsPending(pending)
    ensures PairsOk(prev, Attach(ts, pending) + [last])
    decreases |ts|, 0
  {
    GroupParts(ts, pending, limit);
    var (group, rest) := SplitGroup(ts[1..], 1).value;
    var inner, after := Attach(group, None), Attach(rest, pending) + [last];
    PairsFront(prev, ts[0], ts[1..] + [last]);
    assert ts + [last] == [ts[0]] + (ts[1..] + [last]);
    GroupPairs(ts, group, rest, last);
    AttachKeepsPairs(SepLpar, SepLpar, group, None, RPAR, limit - 1);
    AttachKeepsPairs(SepRpar, SepRpar, rest, pending, last, limit);
    PairsAround(SepLpar, inner, RPAR, after);
    PairsFront(prev, ts[0], inner + ([RPAR] + after));
    assert Attach(ts, pending) + [last] == [ts[0]] + (inner + ([RPAR] + after));
  }

  lemma GroupPairs(ts: seq<Item>, group: seq<Item>, rest: seq<Item>, last: Item)
    requires ts != [] && SplitGroup(ts[1..], 1) == Some((group, rest)) && PairsOk(ts[0].token, ts[1..] + [last])
    ensures PairsOk(ts[0].token, group + [RPAR]) && PairsOk(SepRpar, rest + [last])
  {
    var tail := ts[1..] + [last];
    GroupShape(ts[1..], 1);
    PairsUpTo(ts[0].token, tail, |group|);
    assert tail[..|group|] == group && tail[|group| + 1..] == rest + [last];
  }

  lemma {:induction false} PairsUpTo(prev: Token, ts: seq<Item>, n: nat)
    requires n < |ts| && PairsOk(prev, ts) && ts[n].token == SepRpar
    ensures PairsOk(prev, ts[..n] + [RPAR]) && PairsOk(SepRpar, ts[n + 1..])
    decreases n
  {
    if n == 0 {
      assert ts[..0] + [RPAR] == [RPAR];
    } else {
      PairsUpTo(ts[0].token, ts[1..], n - 1);
      assert (ts[..n] + [RPAR])[1..] == ts[1..][..n - 1] + [RPAR] && ts[1..][n..] == ts[n + 1..];
    }
  }

  // ----- no statement is left before a name

  lemma {:induction false} NamesAround(prev: Token, ts: seq<Item>, k: seq<Item>)
    requires NoStatementBeforeName(prev, ts) && NoStatementBeforeName(SepRpar, k)
    ensures NoStatementBeforeName(prev, ts + ([RPAR] + k))
    decreases |ts|
  {
    if ts == [] {
      assert ts + ([RPAR] + k) == [RPAR] + k && ([RPAR] + k)[1..] == k;
    } else {
      assert (ts + ([RPAR] + k))[1..] == ts[1..] + ([RPAR] + k);
      NamesAround(ts[0].token, ts[1..], k);
    }
  }

  lemma {:induction false} AttachedBeforeTargets(prev: Token, ts: seq<Item>, pending: Option<Item>, limit: nat)
    requires !IsStatement(prev) && IsPending(pending) && ParenCheck(ts, 0, limit) == None
    ensures NoStatementBeforeName(prev, Attach(ts, pending))
    decreases |ts|
  {
    if ts == [] {
    } else if ts[0].token == SepLpar {
      GroupParts(ts, pending, limit);
      var (group, rest) := SplitGroup(ts[1..], 1).value;
      AttachedBeforeTargets(SepLpar, group, None, limit - 1);
      AttachedBeforeTargets(SepRpar, rest, pending, limit);
      NamesAround(SepLpar, Attach(group, None), Attach(rest, pending));
    } else if IsStatement(ts[0].token) {
      AttachedBeforeTargets(prev, ts[1..], Some(ts[0]), limit);
    } else if IsTarget(ts[0].token) {
      AttachedBeforeTargets(ts[0].token, ts[1..], None, limit);
      var tail := [ts[0]] + Attach(ts[1..], None);
      assert tail[1..] == Attach(ts[1..], None);
      if pending == None {
        assert [] + tail == tail;
      } else {
        assert ([pending.value] + tail)[1..] == tail;
      }
    } else {
      AttachedBeforeTargets(ts[0].token, ts[1..], pending, limit);
      assert ([ts[0]] + Attach(ts[1..], pending))[1..] == Attach(ts[1..], pending);
    }
  }

  // ----- nothing but statements moves

  /** The tokens other than statements, in canonical spelling. */
  function WithoutStatements(ts: seq<Item>): seq<Item> {
    if ts == [] then [] else (if IsStatement(ts[0].token) then [] else [Canonical(ts[0])]) + WithoutStatements(ts[1..])
  }

  lemma {:induction false} WithoutStatementsAlong(ts: seq<Item>, k: seq<Item>)
    ensures WithoutStatements(ts + k) == WithoutStatements(ts) + WithoutStatements(k)
  {
    if ts == [] {
      assert ts + k == k;
    } else {
      assert (ts + k)[1..] == ts[1..] + k;
      WithoutStatementsAlong(ts[1..], k);
    }
  }

  lemma OthersAround(open: Item, group: seq<Item>, closing: Item, rest: seq<Item>)
    requires closing.token == SepRpar
    ensures WithoutStatements([open] + (group + ([closing] + rest)))
            == WithoutStatements([open]) + (WithoutStatements(group) + ([RPAR] + WithoutStatements(rest)))
  {
    WithoutStatementsAlong([open], group + ([closing] + rest));
    WithoutStatementsAlong(group, [closing] + rest);
    WithoutStatementsAlong([closing], rest);
    assert WithoutStatements([closing][1..]) == [];
  }

  lemma ClosingOf(ts: seq<Item>, group: seq<Item>, rest: seq<Item>) returns (closing: Item)
    requires ts != [] && SplitGroup(ts[1..], 1) == Some((group, rest))
    ensures closing.token == SepRpar && ts == [ts[0]] + (group + ([closing] + rest))
  {
    GroupShape(ts[1..], 1);
    closing := ts[1..][|group|];
    assert ts[1..] == group + ([closing] + rest);
  }

  lemma OthersOfGroup(ts: seq<Item>, group: seq<Item>, rest: seq<Item>)
    requires ts != [] && SplitGroup(ts[1..], 1) == Some((group, rest))
    ensures WithoutStatements(ts)
            == WithoutStatements([ts[0]]) + (WithoutStatements(group) + ([RPAR] + WithoutStatements(rest)))
  {
    var closing := ClosingOf(ts, group, rest);
    OthersAround(ts[0], group, closing, rest);
  }

  lemma OthersFront(pending: Option<Item>, item: Item, k: seq<Item>)
    requires IsPending(pending)
    ensures WithoutStatements(Pending(pending) + ([item] + k)) == WithoutStatements([item] + k)
    ensures WithoutStatements([item] + k) == WithoutStatements([item]) + WithoutStatements(k)
  {
    WithoutStatementsAlong([item], k);
    WithoutStatementsAlong(Pending(pending), [item] + k);
    assert WithoutStatements(Pending(pending)) == [];
  }

  /** All other tokens stay, in their order. */
  lemma {:induction false} OthersStay(ts: seq<Item>, pending: Option<Item>, limit: nat)
    requires ParenCheck(ts, 0, limit) == None && IsPending(pending)
    ensures WithoutStatements(Attach(ts, pending)) == WithoutStatements(ts)
    decreases |ts|
  {
    if ts == [] {
    } else if ts[0].token == SepLpar {
      GroupParts(ts, pending, limit);
      var (group, rest) := SplitGroup(ts[1..], 1).value;
      OthersStay(group, None, limit - 1);
      OthersStay(rest, pending, limit);
      OthersOfGroup(ts, group, rest);
      OthersAround(ts[0], Attach(group, None), RPAR, Attach(rest, pending));
    } else if IsStatement(ts[0].token) {
      OthersStay(ts[1..], Some(ts[0]), limit);
    } else {
      var kept := if IsTarget(ts[0].token) then None else pending;
      OthersStay(ts[1..], kept, limit);
      OthersFront(pending, ts[0], Attach(ts[1..], kept));
    }
  }

  // ----- acceptance of every text

  /** The tokens without a leading `and`. */
  function Body(ts: seq<Item>): seq<Item> {
    if NextIs(ts, KeywordAnd) then ts[1..] else ts
  }

  /** Every pair is allowed, the last token may end the condition, and the parentheses are balanced. */
  predicate Agree(ts: seq<Item>) {
    ts != [] && PairsOk(ts[0].token, ts[1..] + [END]) && ParenCheck(ts, 0, MAX_RECURSION_DEPTH) == None
  }

  /** What the accepted text is read as: statements moved to their targets, a leading `and` left out. */
  function Moved(ts: seq<Item>): seq<Item> {
    Body(Attach(ts, None))
  }

  /** Among the tokens that cannot begin a condition, building survives only an `and`, which it skips. */
  lemma IllegalFirstToken(env: Env, ts: seq<Item>)
    requires ts != [] && !BeginLegal(ts[0].token)
    ensures Build(env, ts, 0) == if ts[0].token == KeywordAnd then Build(env, ts[1..], 0) else Build(env, ts, 0)
    ensures ts[0].token != KeywordAnd ==> Build(env, ts, 0).Err?
  {
  }

  lemma BuildMoved(env: Env, ts: seq<Item>)
    requires Agree(ts)
    ensures Build(env, Moved(ts), 0) == Build(env, ts, 0)
  {
    BuildIgnoresPosition(env, ts);
    var moved := Attach(ts, None);
    if NextIs(moved, KeywordAnd) {
      IllegalFirstToken(env, moved);
    }
  }

  /** A list whose first token can begin a condition agrees after its statements are moved. */
  lemma AttachKeepsAgreement(prev: Token, ts: seq<Item>)
    requires Opens(prev) && PairsOk(prev, ts + [END]) && ParenCheck(ts, 0, MAX_RECURSION_DEPTH) == None
    ensures PairsOk(prev, Attach(ts, None) + [END]) && NoStatementBeforeName(Nil, Attach(ts, None))
    ensures ParenCheck(Attach(ts, None), 0, MAX_RECURSION_DEPTH) == None
  {
    AttachKeepsPairs(prev, prev, ts, None, END, MAX_RECURSION_DEPTH);
    AttachKeepsBalance(ts, None, MAX_RECURSION_DEPTH);
    AttachedBeforeTargets(Nil, ts, None, MAX_RECURSION_DEPTH);
  }

  lemma MovedPasses(env: Env, ts: seq<Item>)
    requires Agree(ts) && Build(env, ts, 0).Ok?
    ensures PassesLocalChecks(Moved(ts))
  {
    BuildMoved(env, ts);
    var item, rest := ts[0], ts[1..];
    if item.token == KeywordAnd {
      AttachKeepsAgreement(KeywordAnd, rest);
      PairsFront(KeywordAnd, item, Attach(rest, None) + [END]);
      assert Moved(ts) == Attach(rest, None);
      OpenedPasses(env, KeywordAnd, Attach(rest, None));
    } else {
      if !BeginLegal(item.token) {
        IllegalFirstToken(env, ts);
      }
      assert (ts + [END])[1..] == rest + [END];
      AttachKeepsAgreement(SepLpar, ts);
      OpenedPasses(env, SepLpar, Attach(ts, None));
    }
  }

  lemma OpenedPasses(env: Env, prev: Token, ts: seq<Item>)
    requires (prev == SepLpar || prev == KeywordAnd) && PairsOk(prev, ts + [END]) && NoStatementBeforeName(Nil, ts)
    requires ParenCheck(ts, 0, MAX_RECURSION_DEPTH) == None && Build(env, ts, 0).Ok?
    ensures PassesLocalChecks(ts) && Body(ts) == ts
  {
    assert (ts + [END])[0] == if ts == [] then END else ts[0];
    assert (ts + [END])[1..] == ts[1..] + [END];
    BuiltTextPasses(env, ts);
  }

  lemma {:induction false} PairsAreSupported(prev: Token, ts: seq<Item>)
    requires PairsOk(prev, ts + [END]) && prev != Unsupported
    ensures NoneOf(ts, Unsupported)
    decreases |ts|
  {
    if ts != [] {
      assert (ts + [END])[1..] == ts[1..] + [END];
      PairsAreSupported(ts[0].token, ts[1..]);
      NoneOfCons(ts, Unsupported);
    }
  }

  /** On a text whose neighbours and parentheses agree, only the limits and the builder decide. */
  lemma AgreeingText(limits: Limits, env: Env, text: string)
    requires Agree(TokensOf(text))
    ensures if Fits(limits, 0, 0, TokensOf(text)) then RunResult(limits, env, text) == Build(env, TokensOf(text), 0)
            else RunResult(limits, env, text).Err?
  {
    var ts := TokensOf(text);
    CollectedText(limits, text);
    assert (ts + [END])[1..] == ts[1..] + [END] && (ts + [END])[0] == ts[0];
    ChainIsPairs(ts[0], ts[1..] + [END]);
    assert ts[0].token != Unsupported by {
      assert (ts[1..] + [END])[0] == if |ts| > 1 then ts[1] else END;
    }
    PairsAreSupported(ts[0].token, ts[1..]);
    NoneOfCons(ts, Unsupported);
  }

  /** Only a token spelled like the begin marker gets neighbours past the parser that do not agree. */
  lemma AcceptedTextAgrees(limits: Limits, env: Env, text: string)
    requires RunResult(limits, env, text).Ok? && NoMarker(TokensOf(text))
    ensures Agree(TokensOf(text))
  {
    var ts := TokensOf(text);
    AcceptedTokens(limits, env, text);
    assert (ts + [END])[1..] == ts[1..] + [END] && (ts + [END])[0] == ts[0];
    var tail := ts[1..] + [END];
    assert forall i :: 0 <= i < |tail| ==> tail[i].value != BEGIN.value;
    ChainIsPairs(ts[0], tail);
  }

  /** Acceptance of every text: a text whose neighbours and parentheses agree is accepted if and only if it fits the
      limits and its tokens, every statement moved to the target that uses it up and a leading `and` left out, read as a
      condition that compiles; the tree is that condition's. Every accepted text without the begin marker agrees. */
  lemma AcceptedExactlyOnceMoved(limits: Limits, env: Env, text: string)
    ensures RunResult(limits, env, text).Ok? && NoMarker(TokensOf(text)) ==> Agree(TokensOf(text))
    ensures var ts, moved := TokensOf(text), Moved(TokensOf(text));
      Agree(ts) ==>
        && (RunResult(limits, env, text).Ok?
            <==> Fits(limits, 0, 0, ts) && PassesLocalChecks(moved) && Parse(moved).Some?
                 && CompileCond(env, Parse(moved).value).Ok?)
        && (RunResult(limits, env, text).Ok? ==> RunResult(limits, env, text) == CompileCond(env, Parse(moved).value))
  {
    var ts, moved := TokensOf(text), Moved(TokensOf(text));
    if RunResult(limits, env, text).Ok? && NoMarker(ts) {
      AcceptedTextAgrees(limits, env, text);
    }
    if Agree(ts) {
      AgreeingText(limits, env, text);
      BuildMoved(env, ts);
      if Build(env, ts, 0).Ok? {
        MovedPasses(env, ts);
      }
      if PassesLocalChecks(moved) {
        CheckedListBuilds(env, moved);
      }
    }
  }
}
