/** Suppression paths of the guard configuration (`src/config.ts`): the compiled expression accepts
    exactly what the pattern says, and how the compiler differs from the one of the ignore file. */
module SuppressionPaths {
  import opened Glob
  import opened RegexSyntax
  import opened Text

  function SuppressionSource(pattern: string): string {
    "^" + EmitAll(Tokens(pattern, true)) + "$"
  }

  /** Main result for `src/config.ts`: the compiled expression accepts exactly the paths that the
      pattern's tokens describe from end to end. */
  lemma {:induction false} SuppressionPreservesMeaning(pattern: string, path: string)
    ensures var r := Parse(SuppressionSource(pattern));
      r.Some? && (Test(r.value, path) <==> Describes(Tokens(pattern, true), path, 0, |path|))
  {
    var ts := Tokens(pattern, true);
    TokensNoStar(pattern, 0, true);
    ParseAnchored(ts);
    var r := AstOnto(ts, END_TAIL);
    StartThen(r, path);
    if Test(Cat(Start, r), path) {
      var j: nat :| j <= |path| && Matches(r, path, 0, j);
      var k := AstMeansForward(ts, END_TAIL, path, 0, j);
      EndTailMeans(path, k, j);
    }
    if Describes(ts, path, 0, |path|) {
      EndTailMeans(path, |path|, |path|);
      AstMeansBackward(ts, END_TAIL, path, 0, |path|, |path|);
      StartThenBy(r, path, |path|);
    }
  }

  // ---------------------------------------------------------------- where the compilers agree

  lemma {:induction false} AstOntoInjective(ts: seq<Token>, us: seq<Token>)
    requires AstOnto(ts, END_TAIL) == AstOnto(us, END_TAIL)
    ensures ts == us
  {
    if ts != [] && us != [] {
      assert Ast(ts[0]) == Ast(us[0]);
      assert ts[0] == us[0];
      AstOntoInjective(ts[1..], us[1..]);
      assert ts == [ts[0]] + ts[1..] && us == [us[0]] + us[1..];
    }
  }

  lemma {:induction false} SameTokens(pattern: string, i: nat)
    requires i <= |pattern|
    ensures TokensFrom(pattern, i, true) == TokensFrom(pattern, i, false) <==> '?' !in pattern[i..]
    decreases |pattern| - i
  {
    if i < |pattern| {
      if pattern[i] == '*' {
        var step, t := StarStep(pattern, i);
        SameTokens(pattern, i + step);
        SameRest(t, t, TokensFrom(pattern, i + step, true), TokensFrom(pattern, i + step, false));
        NoQuestion(pattern, i, step);
      } else {
        SameTokens(pattern, i + 1);
        assert pattern[i..] == [pattern[i]] + pattern[i + 1..];
        var t := if pattern[i] == '?' then One else Lit(pattern[i]);
        SameRest(t, Lit(pattern[i]), TokensFrom(pattern, i + 1, true), TokensFrom(pattern, i + 1, false));
      }
    }
  }

  /** A star is one token, the same for both compilers. */
  lemma StarStep(pattern: string, i: nat) returns (step: nat, t: Token)
    requires i < |pattern| && pattern[i] == '*'
    ensures 0 < step && i + step <= |pattern| && forall k :: i <= k < i + step ==> pattern[k] != '?'
    ensures TokensFrom(pattern, i, true) == [t] + TokensFrom(pattern, i + step, true)
    ensures TokensFrom(pattern, i, false) == [t] + TokensFrom(pattern, i + step, false)
  {
    step := if i + 2 < |pattern| && pattern[i + 1] == '*' && pattern[i + 2] == '/' then 3
            else if i + 1 < |pattern| && pattern[i + 1] == '*' then 2 else 1;
    t := if step == 3 then DeepDir else if step == 2 then Deep else Shallow;
  }

  lemma NoQuestion(pattern: string, i: nat, step: nat)
    requires i + step <= |pattern| && forall k :: i <= k < i + step ==> pattern[k] != '?'
    ensures '?' in pattern[i..] <==> '?' in pattern[i + step..]
  {
    assert pattern[i..] == pattern[i..i + step] + pattern[i + step..];
  }

  lemma SameRest(t: Token, u: Token, ts: seq<Token>, us: seq<Token>)
    ensures [t] + ts == [u] + us <==> t == u && ts == us
  {
    assert ([t] + ts)[1..] == ts && ([u] + us)[1..] == us;
    assert ([t] + ts)[0] == t && ([u] + us)[0] == u;
  }

  /** The two compilers write the same source exactly for the patterns without `?`. */
  lemma CompilersAgree(pattern: string)
    ensures EmitAll(Tokens(pattern, true)) == EmitAll(Tokens(pattern, false)) <==> '?' !in pattern
  {
    var ts, us := Tokens(pattern, true), Tokens(pattern, false);
    SameTokens(pattern, 0);
    assert pattern[0..] == pattern;
    if EmitAll(ts) == EmitAll(us) {
      TokensNoStar(pattern, 0, true);
      TokensNoStar(pattern, 0, false);
      ParseAnchored(ts);
      ParseAnchored(us);
      AstOntoInjective(ts, us);
    }
  }
}
