/** Identifiers and limits of the job contract, shared by the documents that use them. */
module Contract {
  const MAX_NAMES := 100
  const MAX_ALLOWED_SUFFIXES := 64
  const MIN_RENEW_BEFORE_DAYS := 1
  const MAX_RENEW_BEFORE_DAYS := 365
  const MAX_ACCOUNT_GENERATION := 1_000_000

  predicate LowerAlnum(c: char) {
    'a' <= c <= 'z' || '0' <= c <= '9'
  }

  predicate Alnum(c: char) {
    LowerAlnum(c) || 'A' <= c <= 'Z'
  }

  /** Letters, digits, hyphens and underscores, the first a letter or digit, 64 at most. */
  predicate IsIdentifier(s: string) {
    1 <= |s| <= 64 && Alnum(s[0]) && forall i | 0 <= i < |s| :: Alnum(s[i]) || s[i] == '_' || s[i] == '-'
  }

  /** Like a DNS label: lower-case letters, digits and inner hyphens, 63 at most. */
  predicate IsBindingName(s: string) {
    && 1 <= |s| <= 63 && LowerAlnum(s[0]) && LowerAlnum(s[|s| - 1])
    && forall i | 0 <= i < |s| :: LowerAlnum(s[i]) || s[i] == '-'
  }

  predicate IsGeneration(g: int) {
    1 <= g <= MAX_ACCOUNT_GENERATION
  }
}
