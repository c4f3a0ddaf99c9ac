/** What the condition compiler can fail with (`src/parser/error.rs`). Message texts are not modelled; an error keeps
    the tokens, names and limits that tell failures apart. */
module Errors {
  import opened Tokens

  datatype ParseError =
    // collecting tokens
    | UnsupportedItem(value: string)
    | InvalidTokenSequence(prev: Item, next: Item)
    | TokenLimitExceeded(current: nat, limit: nat)
    | MemoryLimitExceeded(currentBytes: nat, limitBytes: nat)
    | IncompleteSequence(last: Item)
    // parentheses
    | RecursionLimitExceeded(current: nat, limit: nat)
    | UnmatchedClosingParenthesis
    | UnbalancedParentheses
    // building a branch
    | UnsupportedToken(token: Token)
    | UnexpectedToken(token: Token)
    | InvalidGlobPattern(pattern: string)
    | MissingConditionItem(key: string)
    | InvalidWildcardContext
    | WildcardCompilationError(pattern: string)
    | NoMatchingIdentifiers
    | NoDetectionFields
    | NoValidBranches
    | EmptyNode
    | TooManyBranches(count: nat)
    // building a rule
    | PatternCreationFailed
    | NoValidFieldPatterns
    | UnsupportedValue
}
