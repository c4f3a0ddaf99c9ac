/** The condition language: `not` binds tighter than `and`, `and` tighter than `or`; an atom is a name, a group or
    a quantifier over a target. Printing and a recursive-descent reading are inverse to each other. */
module Grammar {
  import opened Wrappers
  import opened Tokens

  datatype Target = Them | Pattern(pattern: string)

  datatype Atom =
    | Name(name: string)
    | Group(cond: Cond)
    | Quantified(all: bool, target: Target)

  datatype Factor = Factor(negated: bool, atom: Atom)

  datatype Conj = Single(factor: Factor) | And(factor: Factor, rest: Conj)

  datatype Cond = Term(conj: Conj) | Or(conj: Conj, rest: Cond)

  const AND := Item(KeywordAnd, "and")
  const OR := Item(KeywordOr, "or")
  const NOT := Item(KeywordNot, "not")
  const LPAR := Item(SepLpar, "(")
  const RPAR := Item(SepRpar, ")")

  function Statement(all: bool): Item {
    if all then Item(StmtAllOf, ALL_OF) else Item(StmtOneOf, ONE_OF)
  }

  function TargetItem(target: Target): Item {
    match target
    case Them => Item(IdentifierAll, "them")
    case Pattern(p) => Item(IdentifierWithWildcard, p)
  }

  // ----- printing, in front of a continuation `k`

  function PrintAtom(a: Atom, k: seq<Item>): seq<Item> {
    match a
    case Name(n) => [Item(Identifier, n)] + k
    case Group(c) => [LPAR] + PrintCond(c, [RPAR] + k)
    case Quantified(all, target) => [Statement(all)] + ([TargetItem(target)] + k)
  }

  function PrintFactor(f: Factor, k: seq<Item>): seq<Item> {
    if f.negated then [NOT] + PrintAtom(f.atom, k) else PrintAtom(f.atom, k)
  }

  function PrintConj(c: Conj, k: seq<Item>): seq<Item> {
    match c
    case Single(f) => PrintFactor(f, k)
    case And(f, rest) => PrintFactor(f, [AND] + PrintConj(rest, k))
  }

  function PrintCond(c: Cond, k: seq<Item>): seq<Item> {
    match c
    case Term(conj) => PrintConj(conj, k)
    case Or(conj, rest) => PrintConj(conj, [OR] + PrintCond(rest, k))
  }

  function Print(c: Cond): seq<Item> {
    PrintCond(c, [])
  }

  function Max(a: nat, b: nat): nat { if a < b then b else a }

  /** How deep groups are nested. */
  function Nesting(c: Cond): nat {
    match c
    case Term(conj) => NestingConj(conj)
    case Or(conj, rest) => Max(NestingConj(conj), Nesting(rest))
  }

  function NestingConj(c: Conj): nat {
    match c
    case Single(f) => NestingAtom(f.atom)
    case And(f, rest) => Max(NestingAtom(f.atom), NestingConj(rest))
  }

  function NestingAtom(a: Atom): nat {
    if a.Group? then 1 + Nesting(a.cond) else 0
  }

  /** How often `them` occurs. */
  function ThemsCond(c: Cond): nat {
    match c
    case Term(conj) => ThemsConj(conj)
    case Or(conj, rest) => ThemsConj(conj) + ThemsCond(rest)
  }

  function ThemsConj(c: Conj): nat {
    match c
    case Single(f) => ThemsAtom(f.atom)
    case And(f, rest) => ThemsAtom(f.atom) + ThemsConj(rest)
  }

  function ThemsAtom(a: Atom): nat {
    match a
    case Name(_) => 0
    case Group(c) => ThemsCond(c)
    case Quantified(_, target) => if target.Them? then 1 else 0
  }

  // ----- reading; only token kinds and identifier values are looked at

  type Parsed<T> = Option<(T, seq<Item>)>

  predicate NextIs(ts: seq<Item>, t: Token) {
    ts != [] && ts[0].token == t
  }

  function ParseAtom(ts: seq<Item>): (r: Parsed<Atom>)
    ensures r.Some? ==> |r.value.1| < |ts|
    decreases |ts|, 0
  {
    if ts == [] then None
    else match ts[0].token
      case Identifier => Some((Name(ts[0].value), ts[1..]))
      case SepLpar => (
        match ParseCond(ts[1..])
        case None => None
        case Some((c, rest)) => if NextIs(rest, SepRpar) then Some((Group(c), rest[1..])) else None)
      case StmtAllOf => ParseTarget(true, ts)
      case StmtOneOf => ParseTarget(false, ts)
      case _ => None
  }

  function ParseTarget(all: bool, ts: seq<Item>): (r: Parsed<Atom>)
    requires ts != []
    ensures r.Some? ==> |r.value.1| < |ts|
  {
    if |ts| == 1 then None
    else if ts[1].token == IdentifierAll then Some((Quantified(all, Them), ts[2..]))
    else if ts[1].token == IdentifierWithWildcard then Some((Quantified(all, Pattern(ts[1].value)), ts[2..]))
    else None
  }

  function ParseFactor(ts: seq<Item>): (r: Parsed<Factor>)
    ensures r.Some? ==> |r.value.1| < |ts|
    decreases |ts|, 1
  {
    var negated := NextIs(ts, KeywordNot);
    match ParseAtom(if negated then ts[1..] else ts)
    case None => None
    case Some((a, rest)) => Some((Factor(negated, a), rest))
  }

  function ParseConj(ts: seq<Item>): (r: Parsed<Conj>)
    ensures r.Some? ==> |r.value.1| < |ts|
    decreases |ts|, 2
  {
    match ParseFactor(ts)
    case None => None
    case Some((f, rest)) =>
      if !NextIs(rest, KeywordAnd) then Some((Single(f), rest))
      else match ParseConj(rest[1..])
        case None => None
        case Some((c, rest')) => Some((And(f, c), rest'))
  }

  function ParseCond(ts: seq<Item>): (r: Parsed<Cond>)
    ensures r.Some? ==> |r.value.1| < |ts|
    decreases |ts|, 3
  {
    match ParseConj(ts)
    case None => None
    case Some((conj, rest)) =>
      if !NextIs(rest, KeywordOr) then Some((Term(conj), rest))
      else match ParseCond(rest[1..])
        case None => None
        case Some((c, rest')) => Some((Or(conj, c), rest'))
  }

  /** The condition a whole token list stands for. */
  function Parse(ts: seq<Item>): Option<Cond> {
    match ParseCond(ts)
    case Some((c, rest)) => if rest == [] then Some(c) else None
    case None => None
  }

  // ----- reading a printing

  lemma {:induction false} ReadAtom(a: Atom, k: seq<Item>)
    ensures ParseAtom(PrintAtom(a, k)) == Some((a, k)) && !NextIs(PrintAtom(a, k), KeywordNot)
    decreases a
  {
    match a
    case Name(n) => assert PrintAtom(a, k)[1..] == k;
    case Group(c) =>
      assert PrintAtom(a, k)[1..] == PrintCond(c, [RPAR] + k);
      ReadCond(c, [RPAR] + k);
      assert ([RPAR] + k)[1..] == k;
    case Quantified(all, target) => assert PrintAtom(a, k)[2..] == k;
  }

  lemma {:induction false} ReadFactor(f: Factor, k: seq<Item>)
    ensures ParseFactor(PrintFactor(f, k)) == Some((f, k))
    decreases f
  {
    ReadAtom(f.atom, k);
    if f.negated {
      assert PrintFactor(f, k)[1..] == PrintAtom(f.atom, k);
    }
  }

  lemma {:induction false} ReadConj(c: Conj, k: seq<Item>)
    requires !NextIs(k, KeywordAnd)
    ensures ParseConj(PrintConj(c, k)) == Some((c, k))
    decreases c
  {
    match c
    case Single(f) => ReadFactor(f, k);
    case And(f, rest) =>
      var tail := [AND] + PrintConj(rest, k);
      ReadFactor(f, tail);
      assert tail[1..] == PrintConj(rest, k);
      ReadConj(rest, k);
  }

  lemma {:induction false} ReadCond(c: Cond, k: seq<Item>)
    requires !NextIs(k, KeywordAnd) && !NextIs(k, KeywordOr)
    ensures ParseCond(PrintCond(c, k)) == Some((c, k))
    decreases c
  {
    match c
    case Term(conj) => ReadConj(conj, k);
    case Or(conj, rest) =>
      var tail := [OR] + PrintCond(rest, k);
      ReadConj(conj, tail);
      assert tail[1..] == PrintCond(rest, k);
      ReadCond(rest, k);
  }

  /** Printing is read back: no two conditions print alike. */
  lemma ParsePrint(c: Cond)
    ensures Parse(Print(c)) == Some(c)
  {
    ReadCond(c, []);
  }

  // ----- printing a reading

  /** The spelling a printing uses for an item of this kind; identifiers keep their value. */
  function Canonical(item: Item): (r: Item)
    ensures r.token == item.token
  {
    match item.token
    case KeywordAnd => AND
    case KeywordOr => OR
    case KeywordNot => NOT
    case SepLpar => LPAR
    case SepRpar => RPAR
    case StmtAllOf => Statement(true)
    case StmtOneOf => Statement(false)
    case IdentifierAll => TargetItem(Them)
    case _ => item
  }

  function CanonicalAll(ts: seq<Item>): (r: seq<Item>)
    ensures |r| == |ts|
    ensures forall i :: 0 <= i < |ts| ==> r[i] == Canonical(ts[i])
  {
    if ts == [] then [] else [Canonical(ts[0])] + CanonicalAll(ts[1..])
  }

  lemma {:induction false} PrintReadAtom(ts: seq<Item>)
    requires ParseAtom(ts).Some?
    ensures var (a, rest) := ParseAtom(ts).value; PrintAtom(a, CanonicalAll(rest)) == CanonicalAll(ts)
    decreases |ts|, 0
  {
    if ts[0].token == SepLpar {
      PrintReadCond(ts[1..]);
      var (c, rest) := ParseCond(ts[1..]).value;
      assert CanonicalAll(rest) == [RPAR] + CanonicalAll(rest[1..]);
    } else if ts[0].token in {StmtAllOf, StmtOneOf} {
      PrintReadTarget(ts);
    }
  }

  lemma PrintReadTarget(ts: seq<Item>)
    requires ParseAtom(ts).Some? && ts[0].token in {StmtAllOf, StmtOneOf}
    ensures var (a, rest) := ParseAtom(ts).value; PrintAtom(a, CanonicalAll(rest)) == CanonicalAll(ts)
  {
    var all, target := ts[0].token == StmtAllOf, if ts[1].token == IdentifierAll then Them else Pattern(ts[1].value);
    assert ParseAtom(ts) == Some((Quantified(all, target), ts[2..]));
    assert ts[1..][1..] == ts[2..];
    CanonicalFront(ts);
    CanonicalFront(ts[1..]);
    assert Canonical(ts[0]) == Statement(all) && Canonical(ts[1]) == TargetItem(target);
  }

  lemma CanonicalFront(ts: seq<Item>)
    requires ts != []
    ensures CanonicalAll(ts) == [Canonical(ts[0])] + CanonicalAll(ts[1..])
  {
  }

  lemma {:induction false} PrintReadFactor(ts: seq<Item>)
    requires ParseFactor(ts).Some?
    ensures var (f, rest) := ParseFactor(ts).value; PrintFactor(f, CanonicalAll(rest)) == CanonicalAll(ts)
    decreases |ts|, 1
  {
    PrintReadAtom(if NextIs(ts, KeywordNot) then ts[1..] else ts);
  }

  lemma {:induction false} PrintReadConj(ts: seq<Item>)
    requires ParseConj(ts).Some?
    ensures var (c, rest) := ParseConj(ts).value; PrintConj(c, CanonicalAll(rest)) == CanonicalAll(ts)
    decreases |ts|, 2
  {
    PrintReadFactor(ts);
    var (f, rest) := ParseFactor(ts).value;
    if NextIs(rest, KeywordAnd) {
      CanonicalFront(rest);
      PrintReadConj(rest[1..]);
      var (c, after) := ParseConj(rest[1..]).value;
      assert ParseConj(ts) == Some((And(f, c), after));
    }
  }

  lemma {:induction false} PrintReadCond(ts: seq<Item>)
    requires ParseCond(ts).Some?
    ensures var (c, rest) := ParseCond(ts).value; PrintCond(c, CanonicalAll(rest)) == CanonicalAll(ts)
    decreases |ts|, 3
  {
    PrintReadConj(ts);
    var (conj, rest) := ParseConj(ts).value;
    if NextIs(rest, KeywordOr) {
      CanonicalFront(rest);
      PrintReadCond(rest[1..]);
    }
  }

  /** What is read prints back to the same tokens, keywords in their usual spelling. */
  lemma PrintParse(ts: seq<Item>)
    requires Parse(ts).Some?
    ensures Print(Parse(ts).value) == CanonicalAll(ts)
  {
    PrintReadCond(ts);
    assert CanonicalAll([]) == [];
  }
}
