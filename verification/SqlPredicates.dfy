/** Predicates of row-level-security policies (`src/scanners/supabase.ts`): finding the text between
    balanced parentheses outside single quotes, and peeling the parentheses that wrap a predicate. */
module SqlPredicates {
  import opened Text

  // ---------------------------------------------------------------- quote parity and depth

  /** An odd number of quotes in `v[o..i]`. */
  predicate InQuote(v: string, o: nat, i: nat)
    requires o <= i <= |v|
  {
    i > o && InQuote(v, o, i - 1) != (v[i - 1] == '\'')
  }

  function Turn(c: char): int {
    if c == '(' then 1 else if c == ')' then -1 else 0
  }

  /** Open minus closed parentheses in `v[o..i]`, outside quotes. */
  function Depth(v: string, o: nat, i: nat): int
    requires o <= i <= |v|
  {
    if i == o then 0
    else Depth(v, o, i - 1) + (if InQuote(v, o, i - 1) then 0 else Turn(v[i - 1]))
  }

  /** An unquoted `)` at `j` brings the depth counted from `o` back to zero. */
  predicate Closes(v: string, o: nat, j: nat) {
    o <= j < |v| && v[j] == ')' && !InQuote(v, o, j) && Depth(v, o, j + 1) == 0
  }

  ghost predicate ClosesFirst(v: string, o: nat, j: nat) {
    Closes(v, o, j) && forall k: nat :: k < j ==> !Closes(v, o, k)
  }

  /** The least `j >= i` that closes. */
  function FirstClose(v: string, o: nat, i: nat): (r: Option<nat>)
    requires o <= i <= |v|
    ensures r.Some? ==> i <= r.value && Closes(v, o, r.value) && forall k: nat :: i <= k < r.value ==> !Closes(v, o, k)
    ensures r.None? ==> forall k: nat :: i <= k ==> !Closes(v, o, k)
    decreases |v| - i
  {
    if i == |v| then None
    else if Closes(v, o, i) then Some(i)
    else FirstClose(v, o, i + 1)
  }

  function Extract(v: string, o: nat): Option<string> {
    if o > |v| then None
    else match FirstClose(v, o, o)
      case None => None
      case Some(j) =>
        assert Depth(v, o, o) == 0;
        Some(Trim(v[o + 1..j]))
  }

  /** `extractBalancedParentheses`. It jumps over a doubled quote; the parity is the same. */
  method ExtractBalancedParentheses(value: string, openParen: nat) returns (r: Option<string>)
    ensures r == Extract(value, openParen)
    ensures r.None? <==> forall j: nat :: !Closes(value, openParen, j)
    ensures r.Some? ==> exists j: nat ::
              ClosesFirst(value, openParen, j) && openParen < j && r.value == Trim(value[openParen + 1..j])
  {
    var depth := 0;
    var inSingleQuote := false;
    var index := openParen;
    while index < |value|
      invariant openParen <= index
      invariant index <= |value| ==>
                  inSingleQuote == InQuote(value, openParen, index) && depth == Depth(value, openParen, index)
      invariant index > |value| ==> index == openParen
      invariant forall k: nat :: k < index ==> !Closes(value, openParen, k)
    {
      var ch := value[index];
      if ch == '\'' && index + 1 < |value| && value[index + 1] == '\'' {
        assert InQuote(value, openParen, index + 1) == !inSingleQuote;
        index := index + 2;
        continue;
      }
      if ch == '\'' {
        inSingleQuote := !inSingleQuote;
        index := index + 1;
        continue;
      }
      if inSingleQuote {
        index := index + 1;
        continue;
      }
      if ch == '(' { depth := depth + 1; }
      if ch == ')' {
        depth := depth - 1;
        if depth == 0 {
          assert Depth(value, openParen, openParen) == 0;
          assert Closes(value, openParen, index) && ClosesFirst(value, openParen, index);
          return Some(Trim(value[openParen + 1..index]));
        }
      }
      index := index + 1;
    }
    return None;
  }

  // ---------------------------------------------------------------- what was extracted

  /** Quotes paired, parentheses outside them paired, and never more closed than opened. */
  ghost predicate Balanced(s: string) {
    && !InQuote(s, 0, |s|)
    && Depth(s, 0, |s|) == 0
    && forall i: nat :: i <= |s| ==> Depth(s, 0, i) >= 0
  }

  /** Behind an opening parenthesis the counts run as on the inner text, one level deeper. */
  lemma {:induction false} Behind(v: string, o: nat, s: string, i: nat)
    requires o + 1 + |s| <= |v| && v[o] == '(' && v[o + 1..o + 1 + |s|] == s && i <= |s|
    ensures InQuote(v, o, o + 1 + i) == InQuote(s, 0, i)
    ensures Depth(v, o, o + 1 + i) == 1 + Depth(s, 0, i)
  {
    if i > 0 {
      Behind(v, o, s, i - 1);
      assert v[o + i] == v[o + 1..o + 1 + |s|][i - 1] == s[i - 1];
    } else {
      assert !InQuote(v, o, o) && Depth(v, o, o) == 0;
    }
  }

  /** As long as nothing closes, the depth stays positive. */
  lemma {:induction false} OpenStaysOpen(v: string, o: nat, s: string, i: nat)
    requires o + 1 + |s| <= |v| && v[o] == '(' && v[o + 1..o + 1 + |s|] == s && i <= |s|
    requires forall k: nat :: k < o + 1 + i ==> !Closes(v, o, k)
    ensures Depth(s, 0, i) >= 0
  {
    if i > 0 {
      OpenStaysOpen(v, o, s, i - 1);
      Behind(v, o, s, i - 1);
      Behind(v, o, s, i);
      assert v[o + i] == v[o + 1..o + 1 + |s|][i - 1] == s[i - 1];
      assert !Closes(v, o, o + i);
    }
  }

  /** The text between `(` and its closing parenthesis is balanced. */
  lemma ExtractedIsBalanced(v: string, o: nat, j: nat)
    requires o < |v| && v[o] == '(' && ClosesFirst(v, o, j)
    ensures o < j && Balanced(v[o + 1..j])
  {
    assert Depth(v, o, o) == 0;
    var s := v[o + 1..j];
    forall i: nat | i <= |s| ensures Depth(s, 0, i) >= 0 {
      OpenStaysOpen(v, o, s, i);
    }
    Behind(v, o, s, |s|);
  }

  // ---------------------------------------------------------------- peeling

  /** One turn of the loop of `stripWrappingParens`. */
  function Peel(n: string): (inner: Option<string>)
    ensures inner.Some? ==> |n| == |inner.value| + 2
  {
    if |n| >= 2 && n[0] == '(' && n[|n| - 1] == ')' then
      var inner := Extract(n, 0);
      if inner.None? || |n| != |inner.value| + 2 then None else inner
    else None
  }

  function PeelAll(n: string): string
    decreases |n|
  {
    var inner := Peel(n);
    if inner.Some? then PeelAll(inner.value) else n
  }

  function Strip(value: string): string {
    PeelAll(Trim(value))
  }

  method StripWrappingParens(value: string) returns (normalized: string)
    ensures normalized == Strip(value)
  {
    normalized := Trim(value);
    while |normalized| >= 2 && normalized[0] == '(' && normalized[|normalized| - 1] == ')'
      invariant PeelAll(normalized) == Strip(value)
      decreases |normalized|
    {
      var inner := ExtractBalancedParentheses(normalized, 0);
      if inner.None? || |normalized| != |inner.value| + 2 { break; }
      normalized := inner.value;
    }
  }

  function Wrap(s: string): string {
    "(" + s + ")"
  }

  /** Peeling takes off exactly a pair of parentheses that wraps a trimmed, balanced text. */
  lemma PeelExactly(n: string, s: string)
    ensures Peel(n) == Some(s) <==> n == Wrap(s) && IsTrimmed(s) && Balanced(s)
  {
    if Peel(n) == Some(s) {
      var j := FirstClose(n, 0, 0).value;
      TrimShape(n[1..j]);
      assert j == |n| - 1 && s == n[1..j];
      ExtractedIsBalanced(n, 0, j);
      assert n == Wrap(s);
    }
    if n == Wrap(s) && IsTrimmed(s) && Balanced(s) {
      WrappedCloses(s);
      assert n[1..|n| - 1] == s;
      TrimShape(s);
      var j := FirstClose(n, 0, 0).value;
      assert j == |n| - 1;
    }
  }

  lemma WrappedCloses(s: string)
    requires Balanced(s)
    ensures ClosesFirst(Wrap(s), 0, |s| + 1)
  {
    var v := Wrap(s);
    assert v[1..1 + |s|] == s;
    forall k: nat | k < |s| + 1 ensures !Closes(v, 0, k) {
      if k > 0 {
        Behind(v, 0, s, k);
        assert Depth(s, 0, k) >= 0;
      } else {
        assert v[0] == '(';
      }
    }
    Behind(v, 0, s, |s|);
    assert v[|s| + 1] == ')';
  }

  function Repeat(c: char, k: nat): string {
    if k == 0 then "" else [c] + Repeat(c, k - 1)
  }

  lemma {:induction false} RepeatTwice(c: char, k: nat)
    ensures Repeat(c, k) + [c] == Repeat(c, k + 1)
  {
    if k > 0 {
      RepeatTwice(c, k - 1);
      assert Repeat(c, k) + [c] == [c] + (Repeat(c, k - 1) + [c]);
    }
  }

  lemma WrapRepeated(k: nat, s: string)
    ensures Wrap(Repeat('(', k) + s + Repeat(')', k)) == Repeat('(', k + 1) + s + Repeat(')', k + 1)
  {
    RepeatTwice(')', k);
  }

  lemma {:induction false} PeelAllShape(n: string) returns (k: nat)
    requires IsTrimmed(n)
    ensures n == Repeat('(', k) + PeelAll(n) + Repeat(')', k)
    ensures IsTrimmed(PeelAll(n)) && Peel(PeelAll(n)) == None
    decreases |n|
  {
    var inner := Peel(n);
    if inner.None? {
      k := 0;
    } else {
      var s := inner.value;
      PeelExactly(n, s);
      k := PeelAllShape(s);
      WrapRepeated(k, PeelAll(s));
      k := k + 1;
    }
  }

  /** Main result: the trimmed input is some number of opening parentheses, the result, and as many
      closing ones; stripping once more changes nothing. */
  lemma StripShape(value: string)
    ensures exists k: nat :: Trim(value) == Repeat('(', k) + Strip(value) + Repeat(')', k)
    ensures Strip(Strip(value)) == Strip(value)
  {
    TrimShape(value);
    var k := PeelAllShape(Trim(value));
    TrimShape(Strip(value));
  }

  lemma {:induction false} PeelAllShrinks(n: string)
    ensures |PeelAll(n)| <= |n|
    decreases |n|
  {
    if Peel(n).Some? { PeelAllShrinks(Peel(n).value); }
  }

  /** Main result, both ways: one more pair of parentheses makes no difference exactly when the text
      inside has no outer white space and is balanced. */
  lemma WrappingIsInvisibleExactlyWhen(p: string)
    ensures Strip(Wrap(p)) == Strip(p) <==> IsTrimmed(p) && Balanced(p)
  {
    var n := Wrap(p);
    TrimShape(n);
    TrimShape(p);
    PeelExactly(n, p);
    if Peel(n).Some? {
      var s := Peel(n).value;
      PeelExactly(n, s);
      assert s == n[1..|n| - 1] == p;
    } else {
      PeelAllShrinks(Trim(p));
      assert |Strip(p)| < |n|;
    }
  }

  // ---------------------------------------------------------------- broad predicates

  predicate AllSpace(s: string) { forall c :: c in s ==> IsSpace(c) }

  /** `x`, white space, `=`, white space, `x` again. */
  predicate SelfComparison(s: string, x: string) {
    exists a: nat, b: nat :: |x| <= a < b <= |s| && s[..|x|] == x && AllSpace(s[|x|..a]) && s[a] == '=' &&
      AllSpace(s[a + 1..b]) && s[b..] == x
  }

  predicate Quoted(x: string, quote: char) {
    |x| >= 2 && x[0] == quote == x[|x| - 1] && quote !in x[1..|x| - 1]
  }

  /** The constant predicates: `true`, a number or a quoted text compared with itself. */
  predicate IsTautology(s: string) {
    || s == "true"
    || exists n: nat :: n <= |s| && SelfComparison(s, s[..n]) &&
         ((n > 0 && forall c :: c in s[..n] ==> '0' <= c <= '9') || Quoted(s[..n], '\'') || Quoted(s[..n], '"'))
  }

  predicate IsBroadPredicate(sql: string) {
    IsTautology(Lower(Strip(sql)))
  }

  lemma OpenParenIsNoTautology(s: string)
    requires s != "" && s[0] == '('
    ensures !IsTautology(s)
  {
    assert s != "true" by { assert "true"[0] == 't'; }
    forall n: nat | 0 < n <= |s| ensures s[..n][0] == '(' && s[..n][0] in s[..n] {}
  }

  lemma WrapInjective(a: string, b: string)
    ensures Wrap(a) == Wrap(b) ==> a == b
  {
    assert Wrap(a)[1..|Wrap(a)| - 1] == a && Wrap(b)[1..|Wrap(b)| - 1] == b;
  }

  /** A pair that is not peeled stays, and hides whatever it wraps. */
  lemma UnpeeledIsKept(p: string)
    requires !(IsTrimmed(p) && Balanced(p))
    ensures Strip(Wrap(p)) == Wrap(p) && !IsBroadPredicate(Wrap(p))
  {
    var n := Wrap(p);
    TrimShape(n);
    if Peel(n).Some? {
      PeelExactly(n, Peel(n).value);
      WrapInjective(Peel(n).value, p);
    }
    assert Lower(n) == [LowerChar('(')] + Lower(n[1..]);
    OpenParenIsNoTautology(Lower(n));
  }

  /** Main result, both ways: a wrapped predicate is recognised as broad exactly if the one inside is, and
      has no outer white space, and is balanced by the parity of its single quotes. */
  lemma WrappedIsBroadExactlyWhen(p: string)
    ensures IsBroadPredicate(Wrap(p)) <==> IsBroadPredicate(p) && IsTrimmed(p) && Balanced(p)
  {
    if IsTrimmed(p) && Balanced(p) {
      WrappingIsInvisibleExactlyWhen(p);
    } else {
      UnpeeledIsKept(p);
    }
  }

  /** So tight parentheses do hide a broad predicate when a parenthesis stands in double quotes, which the
      scan does not know: `"(" = "("` is recognised, `("(" = "(")` is not. */
  lemma DoubleQuotesHideBroad()
    ensures IsTrimmed(QUOTED_PARENS) && IsBroadPredicate(QUOTED_PARENS) && !IsBroadPredicate(Wrap(QUOTED_PARENS))
  {
    var x := "\"(\"";
    assert QUOTED_PARENS == x + " = " + x;
    assert Quoted(x, '"') by { assert x[1..2] == "("; }
    QuotedComparisonIsBroad(x);
    QuotedParensAreUnbalanced();
    WrappedIsBroadExactlyWhen(QUOTED_PARENS);
  }

  lemma QuotedParensAreUnbalanced()
    ensures !Balanced(QUOTED_PARENS)
  {
    OnlyOpens(QUOTED_PARENS, |QUOTED_PARENS|);
  }

  const QUOTED_PARENS := "\"(\" = \"(\""

  lemma UnwrappedIsKept(s: string)
    requires s != "" && IsTrimmed(s) && s[0] != '('
    ensures Strip(s) == s
  {
    TrimShape(s);
  }

  lemma ComparedWithItself(x: string)
    ensures SelfComparison(x + " = " + x, x)
  {
    var p := x + " = " + x;
    assert p[..|x|] == x && p[|x| + 3..] == x && p[|x| + 1] == '=';
    assert AllSpace(p[|x|..|x| + 1]) && AllSpace(p[|x| + 1 + 1..|x| + 3]);
  }

  lemma QuotedComparisonIsBroad(x: string)
    requires Quoted(x, '"') && forall c <- x :: LowerChar(c) == c
    ensures IsTrimmed(x + " = " + x) && IsBroadPredicate(x + " = " + x)
  {
    var p := x + " = " + x;
    ComparisonIsLower(x);
    assert p[0] == '"' == p[|p| - 1];
    UnwrappedIsKept(p);
    ComparedWithItself(x);
    assert p[..|x|] == x;
  }

  lemma ComparisonIsLower(x: string)
    requires forall c <- x :: LowerChar(c) == c
    ensures Lower(x + " = " + x) == x + " = " + x
  {
    LowerKeeps(x + " = " + x);
  }

  lemma {:induction false} LowerKeeps(s: string)
    requires forall c <- s :: LowerChar(c) == c
    ensures Lower(s) == s
  {
    if s != "" { LowerKeeps(s[1..]); }
  }

  /** Without quotes and closing parentheses the depth never falls. */
  lemma {:induction false} OnlyOpens(s: string, i: nat)
    requires i <= |s| && forall k: nat :: k < |s| ==> s[k] != '\'' && s[k] != ')'
    ensures !InQuote(s, 0, i) && Depth(s, 0, i) >= 0 && (i >= 2 && s[1] == '(' ==> Depth(s, 0, i) >= 1)
  {
    if i > 0 { OnlyOpens(s, i - 1); }
  }

  // ---------------------------------------------------------------- what counts and what does not

  /** Opening minus closing parentheses, all counted. */
  function Net(s: string): int {
    if s == "" then 0
    else
      var c := s[|s| - 1];
      Net(s[..|s| - 1]) + if c == '(' then 1 else if c == ')' then -1 else 0
  }

  lemma {:induction false} WithoutQuotesAllCounts(v: string, o: nat, i: nat)
    requires o <= i <= |v| && '\'' !in v[o..i]
    ensures !InQuote(v, o, i) && Depth(v, o, i) == Net(v[o..i])
  {
    if i > o {
      assert v[o..i][..i - o - 1] == v[o..i - 1] && v[o..i][i - o - 1] == v[i - 1] && v[i - 1] in v[o..i];
      assert forall c <- v[o..i - 1] :: c in v[o..i];
      WithoutQuotesAllCounts(v, o, i - 1);
    } else {
      assert v[o..i] == "";
    }
  }

  /** Main result: parentheses in single quotes do not count, and all others do. */
  lemma {:induction false} QuotesHideParentheses(a: string, x: string, b: string, i: nat)
    requires '\'' !in a && '\'' !in x && '\'' !in b && i <= |b|
    ensures var v, e := a + "'" + x + "'" + b, |a| + |x| + 2;
      && e + i <= |v| && !InQuote(v, 0, e + i) && Depth(v, 0, e + i) == Net(a) + Net(b[..i])
      && forall j: nat :: |a| <= j < e ==> !Closes(v, 0, j)
  {
    var v, e := a + "'" + x + "'" + b, |a| + |x| + 2;
    assert v[0..|a|] == a && v[|a|] == '\'' == v[e - 1];
    WithoutQuotesAllCounts(v, 0, |a|);
    assert v[|a| + 1..|a| + 1 + |x|] == x;
    forall k: nat | |a| < k < e ensures InQuote(v, 0, k) && Depth(v, 0, k) == Net(a) {
      WithinQuotes(v, |a|, x, k - |a| - 1);
    }
    if i > 0 {
      QuotesHideParentheses(a, x, b, i - 1);
      assert v[e + i - 1] == b[i - 1] && b[i - 1] in b && b[..i][..i - 1] == b[..i - 1];
    }
  }

  lemma {:induction false} WithinQuotes(v: string, start: nat, x: string, k: nat)
    requires start + 1 + |x| <= |v| && v[start] == '\'' && v[start + 1..start + 1 + |x|] == x && '\'' !in x && k <= |x|
    requires !InQuote(v, 0, start)
    ensures InQuote(v, 0, start + 1 + k) && Depth(v, 0, start + 1 + k) == Depth(v, 0, start)
  {
    if k > 0 {
      WithinQuotes(v, start, x, k - 1);
      assert v[start + k] == v[start + 1..start + 1 + |x|][k - 1] && v[start + k] in x;
    }
  }

  // ---------------------------------------------------------------- comparisons

  predicate AllDigits(x: string) { x != "" && forall c <- x :: '0' <= c <= '9' }

  /** A number, or a text in single or double quotes. */
  predicate IsConstant(x: string) {
    AllDigits(x) || Quoted(x, '\'') || Quoted(x, '"')
  }

  /** White space, or the sign of a comparison. */
  predicate EndsConstant(c: char) { IsSpace(c) || c == '=' }

  lemma ConstantEdges(x: string)
    requires IsConstant(x)
    ensures x != "" && !EndsConstant(x[0]) && !IsSpace(x[|x| - 1]) && x[0] != '(' && x[0] != 't'
  {
    if AllDigits(x) { assert x[0] in x && x[|x| - 1] in x; }
  }

  lemma NumberIsWhole(x: string, rest: string, n: nat)
    requires AllDigits(x) && rest != "" && EndsConstant(rest[0])
    requires n < |x + rest| && IsConstant((x + rest)[..n]) && EndsConstant((x + rest)[n])
    ensures n == |x|
  {
    var s := x + rest;
    var y := s[..n];
    assert forall k :: 0 <= k < |x| ==> s[k] == x[k] && s[k] in x;
    assert forall k :: 0 <= k < n ==> y[k] == s[k] && s[k] in y;
    assert s[|x|] == rest[0];
  }

  lemma TextIsWhole(x: string, quote: char, rest: string, n: nat)
    requires quote in {'\'', '"'} && Quoted(x, quote) && n < |x + rest| && IsConstant((x + rest)[..n])
    ensures n == |x|
  {
    var s := x + rest;
    var y := s[..n];
    assert s[0] == x[0] == quote && forall k :: 0 <= k < n ==> y[k] == s[k] && s[k] in y;
    assert Quoted(y, quote) by { ConstantEdges(y); }
    assert forall k :: 0 < k < n - 1 ==> s[k] == y[1..n - 1][k - 1];
    assert forall k :: 0 < k < |x| - 1 ==> s[k] == x[1..|x| - 1][k - 1];
    assert s[|x| - 1] == quote == s[n - 1];
  }

  function Comparison(x: string, l: string, r: string, y: string): string { x + (l + ("=" + (r + y))) }

  /** The two sides of a comparison of constants are told apart in one way only. */
  lemma SidesAreTheSame(x: string, l: string, r: string, y: string, n: nat)
    requires IsConstant(x) && IsConstant(y) && AllSpace(l) && AllSpace(r)
    requires var s := Comparison(x, l, r, y); n <= |s| && IsConstant(s[..n]) && SelfComparison(s, s[..n])
    ensures x == y
  {
    var s, rest := Comparison(x, l, r, y), l + ("=" + (r + y));
    var a: nat, b: nat :| n <= a < b <= |s| && AllSpace(s[n..a]) && s[a] == '=' && AllSpace(s[a + 1..b]) &&
                     s[b..] == s[..n];
    assert EndsConstant(s[n]) by { if n < a { assert s[n] == s[n..a][0] && s[n] in s[n..a]; } }
    assert EndsConstant(rest[0]) by { if l != "" { assert rest[0] == l[0] && l[0] in l; } }
    if AllDigits(x) { NumberIsWhole(x, rest, n); }
    else if Quoted(x, '\'') { TextIsWhole(x, '\'', rest, n); }
    else { TextIsWhole(x, '"', rest, n); }
    SignIsThere(x, l, r, y, a);
    RightSideIsThere(x, l, r, y, a, b);
  }

  lemma SignIsThere(x: string, l: string, r: string, y: string, a: nat)
    requires AllSpace(l)
    requires var s := Comparison(x, l, r, y); |x| <= a < |s| && AllSpace(s[|x|..a]) && s[a] == '='
    ensures a == |x| + |l|
  {
    var s := Comparison(x, l, r, y);
    assert forall k :: |x| <= k < |x| + |l| ==> s[k] == l[k - |x|] && s[k] in l;
    assert forall k :: |x| <= k < a ==> s[k] == s[|x|..a][k - |x|] && s[k] in s[|x|..a];
    assert s[|x| + |l|] == '=';
  }

  lemma RightSideIsThere(x: string, l: string, r: string, y: string, a: nat, b: nat)
    requires IsConstant(x) && IsConstant(y) && AllSpace(r) && a == |x| + |l|
    requires var s := Comparison(x, l, r, y); a < b <= |s| && AllSpace(s[a + 1..b]) && s[b..] == x
    ensures x == y
  {
    var s, at := Comparison(x, l, r, y), a + 1 + |r|;
    ConstantEdges(x);
    ConstantEdges(y);
    assert s[at..] == y && s[at] == y[0];
    forall k | a < k < at ensures IsSpace(s[k]) { assert s[k] == r[k - a - 1] && s[k] in r; }
    forall k | a < k < b ensures IsSpace(s[k]) { assert s[k] == s[a + 1..b][k - a - 1] && s[k] in s[a + 1..b]; }
    assert s[b] == s[b..][0];
    assert b == at;
  }

  lemma {:induction false} LowerAppend(a: string, b: string)
    ensures Lower(a + b) == Lower(a) + Lower(b)
  {
    if a == "" {
      assert a + b == b;
    } else {
      assert (a + b)[1..] == a[1..] + b;
      LowerAppend(a[1..], b);
    }
  }

  lemma {:induction false} LowerAt(s: string)
    ensures |Lower(s)| == |s| && forall k :: 0 <= k < |s| ==> Lower(s)[k] == LowerChar(s[k])
  {
    if s != "" { LowerAt(s[1..]); }
  }

  lemma LowerSpace(s: string)
    requires AllSpace(s)
    ensures Lower(s) == s
  {
    LowerAt(s);
    forall k | 0 <= k < |s| ensures Lower(s)[k] == s[k] { assert s[k] in s; }
  }

  lemma LowerConstant(x: string)
    requires IsConstant(x)
    ensures IsConstant(Lower(x))
  {
    LowerAt(x);
    var y := Lower(x);
    if AllDigits(x) {
      forall k | 0 <= k < |x| ensures '0' <= y[k] <= '9' { assert x[k] in x; }
    } else {
      var quote := x[0];
      forall k | 1 <= k < |x| - 1 ensures y[k] != quote {
        assert x[1..|x| - 1][k - 1] == x[k] && x[k] in x[1..|x| - 1];
      }
      assert Quoted(y, quote);
    }
  }

  lemma LowerComparison(x: string, l: string, r: string, y: string)
    requires AllSpace(l) && AllSpace(r)
    ensures Lower(Comparison(x, l, r, y)) == Comparison(Lower(x), l, r, Lower(y))
  {
    LowerAppend(x, l + ("=" + (r + y)));
    LowerAppend(l, "=" + (r + y));
    LowerAppend("=", r + y);
    LowerAppend(r, y);
    LowerSpace(l);
    LowerSpace(r);
    LowerAt("=");
    assert Lower("=") == "=";
  }

  lemma EqualSidesCompare(x: string, l: string, r: string)
    requires IsConstant(x) && AllSpace(l) && AllSpace(r)
    ensures IsTautology(Comparison(x, l, r, x))
  {
    var s, a, b := Comparison(x, l, r, x), |x| + |l|, |x| + |l| + 1 + |r|;
    assert s[..|x|] == x && s[|x|..a] == l && s[a] == '=' && s[a + 1..b] == r && s[b..] == x;
    assert SelfComparison(s, s[..|x|]);
  }

  /** Main result, both ways: a comparison of two constants, with any white space around the sign, is broad exactly
      if the two are the same up to upper and lower case; so `1=1` is and `1=2` is not. */
  lemma ComparisonIsBroadExactlyWhen(x: string, l: string, r: string, y: string)
    requires IsConstant(x) && IsConstant(y) && AllSpace(l) && AllSpace(r)
    ensures IsBroadPredicate(Comparison(x, l, r, y)) <==> Lower(x) == Lower(y)
  {
    var s, x', y' := Comparison(x, l, r, y), Lower(x), Lower(y);
    ConstantEdges(x);
    ConstantEdges(y);
    assert s[0] == x[0] && s[|s| - 1] == y[|y| - 1];
    UnwrappedIsKept(s);
    LowerComparison(x, l, r, y);
    LowerConstant(x);
    LowerConstant(y);
    ConstantsCompare(x', l, r, y');
  }

  lemma ConstantsCompare(x: string, l: string, r: string, y: string)
    requires IsConstant(x) && IsConstant(y) && AllSpace(l) && AllSpace(r)
    ensures IsTautology(Comparison(x, l, r, y)) <==> x == y
  {
    var t := Comparison(x, l, r, y);
    ConstantEdges(x);
    assert t[0] == x[0];
    if x == y { EqualSidesCompare(x, l, r); }
    if n: nat :| n <= |t| && SelfComparison(t, t[..n]) && IsConstant(t[..n]) { SidesAreTheSame(x, l, r, y, n); }
  }

  ghost predicate IsInQuotes(x: string, quote: char) {
    exists inner: string :: quote !in inner && x == [quote] + inner + [quote]
  }

  lemma InQuotesIsQuoted(x: string, quote: char)
    ensures IsInQuotes(x, quote) <==> Quoted(x, quote)
  {
    if Quoted(x, quote) { assert x == [quote] + x[1..|x| - 1] + [quote]; }
    if inner: string :| quote !in inner && x == [quote] + inner + [quote] { assert x[1..|x| - 1] == inner; }
  }

  /** The text reads: a number or a text in quotes, white space, the sign, white space, and the same again. */
  ghost predicate ReadsAsSame(s: string, x: string, l: string, r: string) {
    && ((x != "" && forall c <- x :: '0' <= c <= '9') || IsInQuotes(x, '\'') || IsInQuotes(x, '"'))
    && AllSpace(l) && AllSpace(r) && s == Comparison(x, l, r, x)
  }

  /** Main result, both ways: of all texts, the broad ones are those that come, without their wrapping parentheses
      and in lower case, to the word `true` or to a constant compared with itself. */
  lemma BroadExactlyWhen(sql: string)
    ensures var core := Lower(Strip(sql));
      IsBroadPredicate(sql) <==> core == "true" || exists x, l, r :: ReadsAsSame(core, x, l, r)
  {
    var core := Lower(Strip(sql));
    if n: nat :| n <= |core| && SelfComparison(core, core[..n]) && IsConstant(core[..n]) { ReadsSame(core, n); }
    if x, l, r :| ReadsAsSame(core, x, l, r) {
      InQuotesIsQuoted(x, '\'');
      InQuotesIsQuoted(x, '"');
      EqualSidesCompare(x, l, r);
    }
  }

  lemma ReadsSame(s: string, n: nat)
    requires n <= |s| && SelfComparison(s, s[..n]) && IsConstant(s[..n])
    ensures exists x, l, r :: ReadsAsSame(s, x, l, r)
  {
    assert |s[..n]| == n;
    var a: nat, b: nat :| n <= a < b <= |s| && AllSpace(s[n..a]) && s[a] == '=' && AllSpace(s[a + 1..b]) &&
                     s[b..] == s[..n];
    ReadsSameAt(s, n, a, b);
  }

  lemma ReadsSameAt(s: string, n: nat, a: nat, b: nat)
    requires n <= a < b <= |s| && s[a] == '=' && s[b..] == s[..n]
    requires IsConstant(s[..n]) && AllSpace(s[n..a]) && AllSpace(s[a + 1..b])
    ensures exists x, l, r :: ReadsAsSame(s, x, l, r)
  {
    CutsUp(s, n, a, b);
    ReadsSameFrom(s, s[..n], s[n..a], s[a + 1..b]);
  }

  lemma CutsUp(s: string, n: nat, a: nat, b: nat)
    requires n <= a < b <= |s| && s[a] == '=' && s[b..] == s[..n]
    ensures s == Comparison(s[..n], s[n..a], s[a + 1..b], s[..n])
  {
    assert s == s[..n] + (s[n..a] + ([s[a]] + (s[a + 1..b] + s[b..])));
  }

  lemma ReadsSameFrom(s: string, x: string, l: string, r: string)
    requires IsConstant(x) && AllSpace(l) && AllSpace(r) && s == Comparison(x, l, r, x)
    ensures ReadsAsSame(s, x, l, r)
  {
    InQuotesIsQuoted(x, '\'');
    InQuotesIsQuoted(x, '"');
  }
}
