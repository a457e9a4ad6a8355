/** The two glob-to-regex compilers, of `src/config.ts` and `src/utils/files.ts`: the tokens of a glob,
    the source emitted for them, the tree that ECMAScript reads back from it, and that this tree
    matches exactly what a direct left-to-right matcher accepts. */
module Glob {
  import opened RegexSyntax
  import opened Text

  // ---------------------------------------------------------------- globs and their direct matcher

  datatype Token =
    | DeepDir       // `**/`: any number of whole directories, also none
    | Deep          // `**`
    | Shallow       // `*`
    | One           // `?`
    | Lit(c: char)

  /** The tokens of `pattern[i..]`; `question` says whether `?` is a wildcard. */
  function TokensFrom(pattern: string, i: nat, question: bool): seq<Token>
    requires i <= |pattern|
    decreases |pattern| - i
  {
    if i == |pattern| then []
    else if pattern[i] == '*' then
      if i + 2 < |pattern| && pattern[i + 1] == '*' && pattern[i + 2] == '/' then
        [DeepDir] + TokensFrom(pattern, i + 3, question)
      else if i + 1 < |pattern| && pattern[i + 1] == '*' then
        [Deep] + TokensFrom(pattern, i + 2, question)
      else
        [Shallow] + TokensFrom(pattern, i + 1, question)
    else if pattern[i] == '?' && question then [One] + TokensFrom(pattern, i + 1, question)
    else [Lit(pattern[i])] + TokensFrom(pattern, i + 1, question)
  }

  function Tokens(pattern: string, question: bool): seq<Token> {
    TokensFrom(pattern, 0, question)
  }

  /** `s[i..j]` has no line terminator, which is all a `**` can cross. */
  predicate OneLine(s: string, i: nat, j: nat)
    requires i <= j <= |s|
  {
    forall k :: i <= k < j ==> !IsLineTerminator(s[k])
  }

  /** The tokens describe `s[i..j]`. */
  predicate Describes(ts: seq<Token>, s: string, i: nat, j: nat)
    requires i <= j <= |s|
    decreases |ts|, j - i
  {
    if ts == [] then i == j
    else match ts[0]
      case Lit(c) => i < j && s[i] == c && Describes(ts[1..], s, i + 1, j)
      case One => i < j && s[i] != '/' && Describes(ts[1..], s, i + 1, j)
      case Shallow =>
        || Describes(ts[1..], s, i, j)
        || (i < j && s[i] != '/' && Describes(ts, s, i + 1, j))
      case Deep =>
        || Describes(ts[1..], s, i, j)
        || (i < j && !IsLineTerminator(s[i]) && Describes(ts, s, i + 1, j))
      case DeepDir =>
        || Describes(ts[1..], s, i, j)
        || exists k: nat ::
             i < k <= j && s[k - 1] == '/' && OneLine(s, i, k - 1) && Describes(ts[1..], s, k, j)
  }

  // ---------------------------------------------------------------- the compilers

  function EscapeRegExp(c: char): string {
    if c in SYNTAX_CHARS then ['\\', c] else [c]
  }

  function Emit(t: Token): string {
    match t
    case DeepDir => "(?:.*/)?"
    case Deep => ".*"
    case Shallow => "[^/]*"
    case One => "[^/]"
    case Lit(c) => EscapeRegExp(c)
  }

  function EmitAll(ts: seq<Token>): string {
    if ts == [] then "" else Emit(ts[0]) + EmitAll(ts[1..])
  }

  /** `globToRegExp` of `src/config.ts`, up to the call of `RegExp`. */
  method GlobToRegExp(pattern: string) returns (expression: string)
    ensures expression == "^" + EmitAll(Tokens(pattern, true)) + "$"
  {
    expression := "^";
    var index := 0;
    while index < |pattern|
      invariant index <= |pattern|
      invariant "^" + EmitAll(Tokens(pattern, true)) == expression + EmitAll(TokensFrom(pattern, index, true))
    {
      var ch := pattern[index];
      ghost var before, was := expression, index;
      if ch == '*' {
        if index + 2 < |pattern| && pattern[index + 1] == '*' && pattern[index + 2] == '/' {
          expression := expression + "(?:.*/)?";
          index := index + 2;
        } else if index + 1 < |pattern| && pattern[index + 1] == '*' {
          expression := expression + ".*";
          index := index + 1;
        } else {
          expression := expression + "[^/]*";
        }
      } else if ch == '?' {
        expression := expression + "[^/]";
      } else {
        expression := expression + EscapeRegExp(ch);
      }
      index := index + 1;
      EmitStep(pattern, was, index, true, before, expression);
    }
    expression := expression + "$";
  }

  /** `globToRegexSource` of `src/utils/files.ts`. */
  method GlobToRegexSource(value: string) returns (result: string)
    ensures result == EmitAll(Tokens(value, false))
  {
    result := "";
    var index := 0;
    while index < |value|
      invariant index <= |value|
      invariant EmitAll(Tokens(value, false)) == result + EmitAll(TokensFrom(value, index, false))
    {
      var ch := value[index];
      ghost var before, was := result, index;
      if ch == '*' {
        if index + 2 < |value| && value[index + 1] == '*' && value[index + 2] == '/' {
          result := result + "(?:.*/)?";
          index := index + 2;
        } else if index + 1 < |value| && value[index + 1] == '*' {
          result := result + ".*";
          index := index + 1;
        } else {
          result := result + "[^/]*";
        }
        index := index + 1;
        EmitStep(value, was, index, false, before, result);
        continue;
      }
      result := result + EscapeRegExp(ch);
      index := index + 1;
      EmitStep(value, was, index, false, before, result);
    }
  }

  /** One turn of either loop writes the source of one token. */
  lemma EmitStep(pattern: string, i: nat, i': nat, question: bool, before: string, after: string)
    requires i < i' <= |pattern|
    requires var ts := TokensFrom(pattern, i, question);
      ts != [] && ts[1..] == TokensFrom(pattern, i', question) && after == before + Emit(ts[0])
    ensures before + EmitAll(TokensFrom(pattern, i, question)) == after + EmitAll(TokensFrom(pattern, i', question))
  {
    var ts := TokensFrom(pattern, i, question);
    Regroup(before, Emit(ts[0]), EmitAll(ts[1..]));
  }

  lemma Regroup(a: string, b: string, c: string)
    ensures (a + b) + c == a + (b + c)
  {
  }

  // ---------------------------------------------------------------- reading the source back

  function Ast(t: Token): Regex {
    match t
    case DeepDir => Optional(Cat(Star(AnyChar), Cat(Char('/'), Empty)))
    case Deep => Star(AnyChar)
    case Shallow => Star(NotChar('/'))
    case One => NotChar('/')
    case Lit(c) => Char(c)
  }

  function AstOnto(ts: seq<Token>, tail: Regex): Regex {
    if ts == [] then tail else Cat(Ast(ts[0]), AstOnto(ts[1..], tail))
  }

  /** No token is a literal `*`, which the escaping would not protect. */
  predicate NoStar(ts: seq<Token>) {
    Lit('*') !in ts
  }

  lemma TokensNoStar(pattern: string, i: nat, question: bool)
    requires i <= |pattern|
    ensures NoStar(TokensFrom(pattern, i, question))
    decreases |pattern| - i
  {
  }

  lemma ParsePlainToken(t: Token, tail: string)
    requires t != Lit('*') && t != DeepDir && !StartsQuantifier(tail)
    ensures ParseTerm(Emit(t) + tail) == Some(Parsed(Ast(t), tail))
  {
    match t
    case Lit(c) => ParseLit(c, tail);
    case One => ParseNotSlash(tail);
    case Shallow =>
      var star := "*" + tail;
      assert star[1..] == tail;
      ParseNotSlash(star);
      assert Emit(Shallow) + tail == "[^/]" + star;
    case Deep => ParseAnyStar(tail);
  }

  lemma ParseAnyStar(tail: string)
    requires !StartsQuantifier(tail)
    ensures ParseTerm(Emit(Deep) + tail) == Some(Parsed(Ast(Deep), tail))
  {
    var s, star := Emit(Deep) + tail, "*" + tail;
    assert s[0] == '.' && s[1..] == star && star[1..] == tail;
    assert ParseAtom(s) == Some(Parsed(AnyChar, star));
  }

  lemma ParseLit(c: char, tail: string)
    requires c != '*' && !StartsQuantifier(tail)
    ensures ParseTerm(Emit(Lit(c)) + tail) == Some(Parsed(Ast(Lit(c)), tail))
  {
    var s := Emit(Lit(c)) + tail;
    assert if c in SYNTAX_CHARS then s[0] == '\\' && s[1] == c && s[2..] == tail else s[0] == c && s[1..] == tail;
  }

  lemma ParseNotSlash(rest: string)
    ensures ParseAtom("[^/]" + rest) == Some(Parsed(NotChar('/'), rest))
  {
    var s := "[^/]" + rest;
    assert s[0] == '[' && s[1] == '^' && s[2] == '/' && s[3] == ']' && s[4..] == rest;
  }

  lemma ParseDeepDirGroup(tail: string)
    ensures ParseGroup(".*/)" + tail) == Some(Parsed(Cat(Star(AnyChar), Cat(Char('/'), Empty)), tail))
  {
    var g := ".*/)" + tail;
    var g1 := "/)" + tail;
    var g2 := ")" + tail;
    assert g == Emit(Deep) + g1;
    ParsePlainToken(Deep, g1);
    assert g1[0] == '/' && g1[1..] == g2;
    assert ParseTerm(g1) == Some(Parsed(Char('/'), g2));
    assert ParseAlternative(g2) == Some(Parsed(Empty, g2));
    assert ParseAlternative(g1) == Some(Parsed(Cat(Char('/'), Empty), g2));
    assert ParseAlternative(g) == Some(Parsed(Cat(Star(AnyChar), Cat(Char('/'), Empty)), g2));
    assert g2[1..] == tail;
  }

  lemma ParseToken(t: Token, tail: string)
    requires t != Lit('*') && !StartsQuantifier(tail)
    ensures ParseTerm(Emit(t) + tail) == Some(Parsed(Ast(t), tail))
  {
    if t == DeepDir {
      var s := Emit(t) + tail;
      var optional := "?" + tail;
      ParseDeepDirGroup(optional);
      assert s[0] == '(' && s[..3] == "(?:" && s[3..] == ".*/)" + optional;
      assert optional[1..] == tail;
    } else {
      ParsePlainToken(t, tail);
    }
  }

  lemma EmitStartsPlain(ts: seq<Token>, tail: string)
    requires NoStar(ts) && !StartsQuantifier(tail)
    ensures !StartsQuantifier(EmitAll(ts) + tail)
    ensures ts != [] ==> EmitAll(ts) + tail != "" && (EmitAll(ts) + tail)[0] != '|' && (EmitAll(ts) + tail)[0] != ')'
  {
  }

  /** Parsing what was emitted for `ts` gives their tree, followed by whatever `tail` parses to. */
  lemma {:induction false} ParseEmitted(ts: seq<Token>, tail: string)
    requires NoStar(ts) && !StartsQuantifier(tail)
    ensures ParseAlternative(EmitAll(ts) + tail) ==
            match ParseAlternative(tail)
            case None => None
            case Some(Parsed(r, rest)) => Some(Parsed(AstOnto(ts, r), rest))
  {
    if ts == [] {
      assert EmitAll(ts) + tail == tail;
    } else {
      var rest := EmitAll(ts[1..]) + tail;
      assert EmitAll(ts) + tail == Emit(ts[0]) + rest;
      EmitStartsPlain(ts[1..], tail);
      EmitStartsPlain(ts, tail);
      ParseToken(ts[0], rest);
      ParseEmitted(ts[1..], tail);
    }
  }

  // ---------------------------------------------------------------- meaning of the tree

  lemma CatSplit(a: Regex, b: Regex, s: string, i: nat, j: nat) returns (k: nat)
    requires i <= j <= |s| && Matches(Cat(a, b), s, i, j)
    ensures i <= k <= j && Matches(a, s, i, k) && Matches(b, s, k, j)
  {
    k :| i <= k <= j && Matches(a, s, i, k) && Matches(b, s, k, j);
  }

  lemma StarSplit(a: Regex, s: string, i: nat, j: nat) returns (k: nat)
    requires i < j <= |s| && Matches(Star(a), s, i, j)
    ensures i < k <= j && Matches(a, s, i, k) && Matches(Star(a), s, k, j)
  {
    k :| i < k <= j && Matches(a, s, i, k) && Matches(Star(a), s, k, j);
  }

  /** The repetitions that occur: `.*` and `[^/]*`. */
  predicate Accepts(one: Regex, c: char)
    requires one.AnyChar? || one.NotChar?
  {
    if one.AnyChar? then !IsLineTerminator(c) else c != one.c
  }

  lemma {:induction false} StarMeans(one: Regex, s: string, i: nat, j: nat)
    requires i <= j <= |s|
    requires one.AnyChar? || one.NotChar?
    ensures Matches(Star(one), s, i, j) <==> forall k :: i <= k < j ==> Accepts(one, s[k])
    decreases j - i
  {
    if i < j {
      StarMeans(one, s, i + 1, j);
      if Matches(Star(one), s, i, j) {
        var k := StarSplit(one, s, i, j);
        assert k == i + 1 && Accepts(one, s[i]);
      }
      if forall k :: i <= k < j ==> Accepts(one, s[k]) {
        assert Matches(one, s, i, i + 1) && Matches(Star(one), s, i + 1, j);
      }
    }
  }

  lemma DeepDirMeans(s: string, i: nat, j: nat)
    requires i <= j <= |s|
    ensures Matches(Ast(DeepDir), s, i, j) <==> i == j || (i < j && s[j - 1] == '/' && OneLine(s, i, j - 1))
  {
    var star, slash := Star(AnyChar), Cat(Char('/'), Empty);
    if i < j {
      StarMeans(AnyChar, s, i, j - 1);
      if Matches(Cat(star, slash), s, i, j) {
        var k := CatSplit(star, slash, s, i, j);
        var m := CatSplit(Char('/'), Empty, s, k, j);
        assert k == j - 1;
      }
      if s[j - 1] == '/' && OneLine(s, i, j - 1) {
        assert Matches(Char('/'), s, j - 1, j) && Matches(Empty, s, j, j);
        assert Matches(slash, s, j - 1, j);
        assert Matches(star, s, i, j - 1);
        assert Matches(Cat(star, slash), s, i, j);
      }
    }
  }

  predicate Repeats(t: Token) {
    t == Deep || t == Shallow
  }

  /** What a token describes, the matcher takes off the front: `*` and `**` one character at a time... */
  lemma {:induction false} StarTokenSplit(ts: seq<Token>, s: string, i: nat, k: nat) returns (m: nat)
    requires i <= k <= |s| && ts != [] && Repeats(ts[0]) && Describes(ts, s, i, k)
    ensures i <= m <= k && Matches(Ast(ts[0]), s, i, m) && Describes(ts[1..], s, m, k)
    decreases k - i
  {
    if Describes(ts[1..], s, i, k) {
      m := i;
    } else {
      m := StarTokenSplit(ts, s, i + 1, k);
      StarMeans(Ast(ts[0]).body, s, i + 1, m);
      StarMeans(Ast(ts[0]).body, s, i, m);
    }
  }

  lemma {:induction false} StarTokenJoin(ts: seq<Token>, s: string, i: nat, m: nat, k: nat)
    requires i <= m <= k <= |s| && ts != [] && Repeats(ts[0])
    requires Matches(Ast(ts[0]), s, i, m) && Describes(ts[1..], s, m, k)
    ensures Describes(ts, s, i, k)
    decreases m - i
  {
    StarMeans(Ast(ts[0]).body, s, i, m);
    if i < m {
      StarMeans(Ast(ts[0]).body, s, i + 1, m);
      StarTokenJoin(ts, s, i + 1, m, k);
    }
  }

  lemma DeepDirTokenSplit(ts: seq<Token>, s: string, i: nat, k: nat) returns (m: nat)
    requires i <= k <= |s| && ts != [] && ts[0] == DeepDir && Describes(ts, s, i, k)
    ensures i <= m <= k && Describes(ts[1..], s, m, k)
    ensures i == m || (i < m && s[m - 1] == '/' && OneLine(s, i, m - 1))
  {
    if Describes(ts[1..], s, i, k) {
      m := i;
    } else {
      m :| i < m <= k && s[m - 1] == '/' && OneLine(s, i, m - 1) && Describes(ts[1..], s, m, k);
    }
  }

  lemma TokenSplit(ts: seq<Token>, s: string, i: nat, k: nat) returns (m: nat)
    requires i <= k <= |s| && ts != [] && Describes(ts, s, i, k)
    ensures i <= m <= k && Matches(Ast(ts[0]), s, i, m) && Describes(ts[1..], s, m, k)
  {
    match ts[0]
    case Deep => m := StarTokenSplit(ts, s, i, k);
    case Shallow => m := StarTokenSplit(ts, s, i, k);
    case Lit(c) => m := i + 1;
    case One => m := i + 1;
    case DeepDir =>
      m := DeepDirTokenSplit(ts, s, i, k);
      DeepDirMeans(s, i, m);
  }

  /** ... and conversely. */
  lemma TokenJoin(ts: seq<Token>, s: string, i: nat, m: nat, k: nat)
    requires i <= m <= k <= |s| && ts != []
    requires Matches(Ast(ts[0]), s, i, m) && Describes(ts[1..], s, m, k)
    ensures Describes(ts, s, i, k)
  {
    match ts[0]
    case Deep => StarTokenJoin(ts, s, i, m, k);
    case Shallow => StarTokenJoin(ts, s, i, m, k);
    case Lit(c) =>
    case One =>
    case DeepDir => DeepDirMeans(s, i, m);
  }

  lemma {:induction false} AstMeansForward(ts: seq<Token>, tail: Regex, s: string, i: nat, j: nat) returns (k: nat)
    requires i <= j <= |s| && Matches(AstOnto(ts, tail), s, i, j)
    ensures i <= k <= j && Describes(ts, s, i, k) && Matches(tail, s, k, j)
    decreases |ts|
  {
    if ts == [] {
      k := i;
    } else {
      var m := CatSplit(Ast(ts[0]), AstOnto(ts[1..], tail), s, i, j);
      k := AstMeansForward(ts[1..], tail, s, m, j);
      TokenJoin(ts, s, i, m, k);
    }
  }

  lemma {:induction false} AstMeansBackward(ts: seq<Token>, tail: Regex, s: string, i: nat, k: nat, j: nat)
    requires i <= k <= j <= |s| && Describes(ts, s, i, k) && Matches(tail, s, k, j)
    ensures Matches(AstOnto(ts, tail), s, i, j)
    decreases |ts|
  {
    if ts != [] {
      var m := TokenSplit(ts, s, i, k);
      AstMeansBackward(ts[1..], tail, s, m, k, j);
    }
  }

  // ---------------------------------------------------------------- from one end to the other

  const END_TAIL := Cat(End, Empty)

  lemma ParseAnchored(ts: seq<Token>)
    requires NoStar(ts)
    ensures Parse("^" + EmitAll(ts) + "$") == Some(Cat(Start, AstOnto(ts, END_TAIL)))
  {
    var s := "^" + EmitAll(ts) + "$";
    assert s[1..] == EmitAll(ts) + "$";
    assert "$"[1..] == "";
    assert ParseAlternative("$") == Some(Parsed(END_TAIL, ""));
    ParseEmitted(ts, "$");
    assert ParseAlternative(s) == Some(Parsed(Cat(Start, AstOnto(ts, END_TAIL)), ""));
  }

  lemma EndTailMeans(s: string, k: nat, j: nat)
    requires k <= j <= |s|
    ensures Matches(END_TAIL, s, k, j) <==> k == j == |s|
  {
    if k == j == |s| {
      assert Matches(End, s, k, k) && Matches(Empty, s, k, j);
    }
  }

  lemma TestBy(r: Regex, s: string, i: nat, j: nat)
    requires i <= j <= |s| && Matches(r, s, i, j)
    ensures Test(r, s)
  {
  }

  lemma StartThen(r: Regex, s: string)
    ensures Test(Cat(Start, r), s) <==> exists j: nat :: j <= |s| && Matches(r, s, 0, j)
  {
    if Test(Cat(Start, r), s) {
      var i: nat, j: nat :| i <= j <= |s| && Matches(Cat(Start, r), s, i, j);
      var k := CatSplit(Start, r, s, i, j);
      assert i == k == 0 && Matches(r, s, 0, j);
    }
    if exists j: nat :: j <= |s| && Matches(r, s, 0, j) {
      var j: nat :| j <= |s| && Matches(r, s, 0, j);
      assert Matches(Start, s, 0, 0);
      TestBy(Cat(Start, r), s, 0, j);
    }
  }

  lemma StartThenBy(r: Regex, s: string, j: nat)
    requires j <= |s| && Matches(r, s, 0, j)
    ensures Test(Cat(Start, r), s)
  {
    assert Matches(Start, s, 0, 0);
    TestBy(Cat(Start, r), s, 0, j);
  }
}
