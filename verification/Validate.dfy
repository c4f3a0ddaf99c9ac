/** Which token may follow which (`src/parser/validate.rs`), and lists all of whose neighbours agree. */
module Validation {
  import opened Tokens

  predicate ValidTokenSequence(t1: Token, t2: Token) {
    match t2
    case StmtAllOf => t1.SepLpar? || t1.KeywordAnd? || t1.KeywordOr? || t1.KeywordNot?
    case StmtOneOf => t1.SepLpar? || t1.KeywordAnd? || t1.KeywordOr? || t1.KeywordNot?
    case IdentifierAll => t1.StmtAllOf? || t1.StmtOneOf?
    case Identifier =>
      t1.SepLpar? || t1.KeywordAnd? || t1.KeywordOr? || t1.KeywordNot? || t1.StmtOneOf? || t1.StmtAllOf?
    case IdentifierWithWildcard =>
      t1.SepLpar? || t1.KeywordAnd? || t1.KeywordOr? || t1.KeywordNot? || t1.StmtOneOf? || t1.StmtAllOf?
    case KeywordAnd => t1.Identifier? || t1.IdentifierAll? || t1.IdentifierWithWildcard? || t1.SepRpar?
    case KeywordOr => t1.Identifier? || t1.IdentifierAll? || t1.IdentifierWithWildcard? || t1.SepRpar?
    case KeywordNot => t1.KeywordAnd? || t1.KeywordOr? || t1.SepLpar?
    case SepLpar => t1.KeywordAnd? || t1.KeywordOr? || t1.KeywordNot? || t1.SepLpar?
    case SepRpar => t1.Identifier? || t1.IdentifierAll? || t1.IdentifierWithWildcard? || t1.SepLpar? || t1.SepRpar?
    case LitEof => t1.Identifier? || t1.IdentifierAll? || t1.IdentifierWithWildcard? || t1.SepRpar?
    case SepPipe => t1.Identifier? || t1.IdentifierAll? || t1.IdentifierWithWildcard? || t1.SepRpar?
    case _ => false
  }

  /** The tokens a condition may begin with. */
  predicate BeginLegal(t: Token) {
    t.Identifier? || t.IdentifierWithWildcard? || t.KeywordNot? || t.SepLpar? || t.StmtAllOf? || t.StmtOneOf?
  }

  /** Every item may follow the one before it, the first one following `prev`. */
  predicate PairsOk(prev: Token, items: seq<Item>)
    decreases |items|
  {
    items == [] || (ValidTokenSequence(prev, items[0].token) && PairsOk(items[0].token, items[1..]))
  }
}
