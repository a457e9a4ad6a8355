/** The fragment of ECMAScript regular expressions that the glob compilers emit: its concrete
    syntax (a recursive-descent parser over the source text) and its meaning (which stretch of
    a subject string an expression can match). */
module RegexSyntax {
  import opened Text

  datatype Regex =
    | Empty
    | Char(c: char)
    | AnyChar
    | NotChar(c: char)
    | Start
    | End
    | Cat(first: Regex, second: Regex)
    | Alt(left: Regex, right: Regex)
    | Optional(body: Regex)
    | Star(body: Regex)

  datatype Parsed = Parsed(regex: Regex, rest: string)

  // ---------------------------------------------------------------- meaning

  /** The characters `.` does not match. */
  predicate IsLineTerminator(c: char) {
    c == '\n' || c == '\r' || c == '\U{2028}' || c == '\U{2029}'
  }

  /** `r` can match exactly `s[i..j]`, standing inside the whole subject `s`. */
  ghost predicate Matches(r: Regex, s: string, i: nat, j: nat)
    requires i <= j <= |s|
    decreases r, j - i
  {
    match r
    case Empty => i == j
    case Char(c) => j == i + 1 && s[i] == c
    case AnyChar => j == i + 1 && !IsLineTerminator(s[i])
    case NotChar(c) => j == i + 1 && s[i] != c
    case Start => i == j == 0
    case End => i == j == |s|
    case Cat(a, b) => exists k: nat :: i <= k <= j && Matches(a, s, i, k) && Matches(b, s, k, j)
    case Alt(a, b) => Matches(a, s, i, j) || Matches(b, s, i, j)
    case Optional(a) => i == j || Matches(a, s, i, j)
    case Star(a) => i == j || exists k: nat :: i < k <= j && Matches(a, s, i, k) && Matches(r, s, k, j)
  }

  /** `RegExp.prototype.test`: some stretch of the subject matches. */
  ghost predicate Test(r: Regex, s: string) {
    exists i: nat, j: nat :: i <= j <= |s| && Matches(r, s, i, j)
  }

  // ---------------------------------------------------------------- concrete syntax

  const SYNTAX_CHARS: seq<char> := ['|', '\\', '{', '}', '(', ')', '[', ']', '^', '$', '+', '?', '.']

  /** The characters that cannot stand for themselves unescaped. */
  predicate IsSyntaxChar(c: char) {
    c in SYNTAX_CHARS || c == '*'
  }

  predicate StartsQuantifier(s: string) {
    s != "" && (s[0] == '*' || s[0] == '+' || s[0] == '?' || s[0] == '{')
  }

  function ParseDisjunction(s: string): (p: Option<Parsed>)
    ensures p.Some? ==> |p.value.rest| <= |s|
    decreases |s|, 3
  {
    match ParseAlternative(s)
    case None => None
    case Some(Parsed(a, rest)) =>
      if rest != "" && rest[0] == '|' then
        match ParseDisjunction(rest[1..])
        case None => None
        case Some(Parsed(b, rest')) => Some(Parsed(Alt(a, b), rest'))
      else Some(Parsed(a, rest))
  }

  function ParseAlternative(s: string): (p: Option<Parsed>)
    ensures p.Some? ==> |p.value.rest| <= |s|
    decreases |s|, 2
  {
    if s == "" || s[0] == '|' || s[0] == ')' then Some(Parsed(Empty, s))
    else
      match ParseTerm(s)
      case None => None
      case Some(Parsed(a, rest)) =>
        match ParseAlternative(rest)
        case None => None
        case Some(Parsed(b, rest')) => Some(Parsed(Cat(a, b), rest'))
  }

  function ParseTerm(s: string): (p: Option<Parsed>)
    ensures p.Some? ==> |p.value.rest| < |s|
    decreases |s|, 1
  {
    if s == "" then None
    else if s[0] == '^' then Some(Parsed(Start, s[1..]))
    else if s[0] == '$' then Some(Parsed(End, s[1..]))
    else
      match ParseAtom(s)
      case None => None
      case Some(Parsed(a, rest)) => ParseQuantifier(a, rest)
  }

  /** Only the greedy `*` and `?` are in the fragment; a second quantifier is not. */
  function ParseQuantifier(a: Regex, s: string): (p: Option<Parsed>)
    ensures p.Some? ==> |p.value.rest| <= |s|
  {
    if !StartsQuantifier(s) then Some(Parsed(a, s))
    else if StartsQuantifier(s[1..]) then None
    else if s[0] == '*' then Some(Parsed(Star(a), s[1..]))
    else if s[0] == '?' then Some(Parsed(Optional(a), s[1..]))
    else None
  }

  function ParseAtom(s: string): (p: Option<Parsed>)
    ensures p.Some? ==> |p.value.rest| < |s|
    decreases |s|, 0
  {
    if s == "" then None
    else if s[0] == '(' then ParseGroup(if StartsWith(s, "(?:") then s[3..] else s[1..])
    else if s[0] == '.' then Some(Parsed(AnyChar, s[1..]))
    else if s[0] == '\\' then
      if |s| >= 2 && IsSyntaxChar(s[1]) then Some(Parsed(Char(s[1]), s[2..])) else None
    else if s[0] == '[' then
      if |s| >= 4 && s[1] == '^' && !IsSyntaxChar(s[2]) && s[3] == ']'
      then Some(Parsed(NotChar(s[2]), s[4..]))
      else None
    else if IsSyntaxChar(s[0]) then None
    else Some(Parsed(Char(s[0]), s[1..]))
  }

  function ParseGroup(s: string): (p: Option<Parsed>)
    ensures p.Some? ==> |p.value.rest| <= |s|
    decreases |s|, 4
  {
    match ParseDisjunction(s)
    case None => None
    case Some(Parsed(a, rest)) =>
      if rest != "" && rest[0] == ')' then Some(Parsed(a, rest[1..])) else None
  }

  /** `new RegExp(source)`. */
  function Parse(source: string): Option<Regex> {
    match ParseDisjunction(source)
    case None => None
    case Some(Parsed(r, rest)) => if rest == "" then Some(r) else None
  }
}
