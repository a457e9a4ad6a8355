/** The rules of `.ai-saas-guardignore` (`src/utils/files.ts`): what a line ignores, and that the
    regular expression compiled from it ignores exactly that. */
module IgnoreRules {
  import opened Glob
  import opened RegexSyntax
  import opened Text

  datatype IgnoreRule = IgnoreRule(anchored: bool, tokens: seq<Token>, directory: bool)

  function DropSlashes(pattern: string): string {
    if pattern != "" && pattern[0] == '/' then DropSlashes(pattern[1..]) else pattern
  }

  /** What a line of the ignore file says: `dir/` and `dir/` + `**` name a directory with everything below it. */
  function ReadIgnoreRule(pattern: string): IgnoreRule {
    var anchored := StartsWith(pattern, "/");
    var normalized := DropSlashes(pattern);
    if EndsWith(normalized, "/") then
      IgnoreRule(anchored, Tokens(normalized[..|normalized| - 1], false), true)
    else if EndsWith(normalized, "/**") then
      IgnoreRule(anchored, Tokens(normalized[..|normalized| - 3], false), true)
    else
      IgnoreRule(anchored, Tokens(normalized, false), false)
  }

  function BodySource(rule: IgnoreRule): string {
    EmitAll(rule.tokens) + if rule.directory then "(?:/.*)?" else ""
  }

  function IgnoreSource(rule: IgnoreRule): string {
    if rule.anchored then "^" + BodySource(rule) + "$"
    else "(^|/)" + BodySource(rule) + "$|^" + BodySource(rule) + "(?:/|$)"
  }

  /** `ignorePatternToRegex` of `src/utils/files.ts`, up to the call of `RegExp`. */
  method IgnorePatternToRegex(pattern: string) returns (source: string)
    ensures source == IgnoreSource(ReadIgnoreRule(pattern))
  {
    var anchored := StartsWith(pattern, "/");
    var normalized := DropSlashes(pattern);
    var regexSource;
    if EndsWith(normalized, "/") {
      var core := GlobToRegexSource(normalized[..|normalized| - 1]);
      regexSource := core + "(?:/.*)?";
    } else if EndsWith(normalized, "/**") {
      var core := GlobToRegexSource(normalized[..|normalized| - 3]);
      regexSource := core + "(?:/.*)?";
    } else {
      regexSource := GlobToRegexSource(normalized);
      assert regexSource + "" == regexSource;
    }
    ghost var rule := ReadIgnoreRule(pattern);
    assert regexSource == BodySource(rule) && anchored == rule.anchored;
    source := if anchored then "^" + regexSource + "$"
              else "(^|/)" + regexSource + "$|^" + regexSource + "(?:/|$)";
  }

  /** The rule's own tokens describe `s[i..j]`, or, for a directory rule, its front up to a `/`. */
  predicate RuleDescribes(rule: IgnoreRule, s: string, i: nat, j: nat)
    requires i <= j <= |s|
  {
    || Describes(rule.tokens, s, i, j)
    || (rule.directory && exists k: nat ::
          i <= k < j && s[k] == '/' && OneLine(s, k + 1, j) && Describes(rule.tokens, s, i, k))
  }

  /** What the rule ignores: an anchored rule only whole paths; any other rule also whatever ends
      in a match that starts a path component, and whatever lies below a match at the root. */
  predicate Ignores(rule: IgnoreRule, path: string) {
    if rule.anchored then RuleDescribes(rule, path, 0, |path|)
    else
      || (exists i: nat :: i <= |path| && (i == 0 || path[i - 1] == '/') && RuleDescribes(rule, path, i, |path|))
      || (exists j: nat :: j < |path| && path[j] == '/' && RuleDescribes(rule, path, 0, j))
  }

  const BELOW_TREE := Optional(Cat(Char('/'), Cat(Star(AnyChar), Empty)))
  const BREAK_TREE := Alt(Cat(Start, Empty), Cat(Char('/'), Empty))
  const STOP_TREE := Alt(Cat(Char('/'), Empty), Cat(End, Empty))

  function BodyOnto(rule: IgnoreRule, tail: Regex): Regex {
    AstOnto(rule.tokens, if rule.directory then Cat(BELOW_TREE, tail) else tail)
  }

  lemma ParseBelow(tail: string)
    requires !StartsQuantifier(tail)
    ensures ParseTerm("(?:/.*)?" + tail) == Some(Parsed(BELOW_TREE, tail))
  {
    var s := "(?:/.*)?" + tail;
    var close := ")" + ("?" + tail);
    ParseBelowGroup(close);
    assert s[0] == '(' && s[..3] == "(?:" && s[3..] == "/" + (".*" + close);
    assert close[1..] == "?" + tail && ("?" + tail)[1..] == tail;
    assert ParseGroup(s[3..]) == Some(Parsed(BELOW_TREE.body, "?" + tail));
  }

  lemma ParseBelowGroup(close: string)
    requires close != "" && close[0] == ')'
    ensures ParseDisjunction("/" + (".*" + close)) == Some(Parsed(BELOW_TREE.body, close))
  {
    var deep := ".*" + close;
    var slash := "/" + deep;
    ParseDeepThen(close);
    assert slash[0] == '/' && slash[1..] == deep && deep[0] == '.';
    assert ParseTerm(slash) == Some(Parsed(Char('/'), deep));
    assert ParseAlternative(slash) == Some(Parsed(BELOW_TREE.body, close));
  }

  lemma ParseDeepThen(close: string)
    requires close != "" && close[0] == ')'
    ensures ParseAlternative(".*" + close) == Some(Parsed(Cat(Star(AnyChar), Empty), close))
  {
    assert ".*" + close == Emit(Deep) + close;
    ParseToken(Deep, close);
    assert ParseAlternative(close) == Some(Parsed(Empty, close));
  }

  lemma ParseSlash(rest: string)
    requires rest != "" && rest[0] == ')'
    ensures ParseDisjunction("/" + rest) == Some(Parsed(Cat(Char('/'), Empty), rest))
  {
    assert ("/" + rest)[1..] == rest;
    assert ParseTerm("/" + rest) == Some(Parsed(Char('/'), rest));
    assert ParseAlternative(rest) == Some(Parsed(Empty, rest));
  }

  lemma ParseBreakGroup(rest: string)
    requires rest != "" && rest[0] == ')'
    ensures ParseDisjunction("^" + ("|" + ("/" + rest))) == Some(Parsed(BREAK_TREE, rest))
  {
    var slash := "/" + rest;
    var bar := "|" + slash;
    ParseSlash(rest);
    assert bar[1..] == slash;
    assert ParseAlternative(bar) == Some(Parsed(Empty, bar));
    ParseStarted(bar, Empty, bar);
  }

  lemma ParseBreak(tail: string)
    requires !StartsQuantifier(tail)
    ensures ParseTerm("(^|/)" + tail) == Some(Parsed(BREAK_TREE, tail))
  {
    var s := "(^|/)" + tail;
    var close := ")" + tail;
    var group := "^" + ("|" + ("/" + close));
    ParseBreakGroup(close);
    assert s[0] == '(' && s[1] == '^' && s[1..] == group && close[1..] == tail;
    assert !StartsWith(s, "(?:") by { assert s[..3][1] == '^'; }
    assert ParseGroup(group) == Some(Parsed(BREAK_TREE, tail));
    assert ParseAtom(s) == Some(Parsed(BREAK_TREE, tail));
  }

  lemma ParseStop()
    ensures ParseAlternative("(?:/|$)") == Some(Parsed(Cat(STOP_TREE, Empty), ""))
  {
    var s := "(?:/|$)";
    assert s[..3] == "(?:" && s[3..] == "/|$)";
    assert "/|$)"[1..] == "|$)" && "|$)"[1..] == "$)" && "$)"[1..] == ")" && ")"[1..] == "";
    assert ParseTerm("/|$)") == Some(Parsed(Char('/'), "|$)"));
    assert ParseAlternative("/|$)") == Some(Parsed(Cat(Char('/'), Empty), "|$)"));
    assert ParseAlternative("$)") == Some(Parsed(Cat(End, Empty), ")"));
    assert ParseDisjunction("$)") == Some(Parsed(Cat(End, Empty), ")"));
    assert ParseDisjunction("/|$)") == Some(Parsed(STOP_TREE, ")"));
    assert ParseGroup("/|$)") == Some(Parsed(STOP_TREE, ""));
    assert ParseTerm(s) == Some(Parsed(STOP_TREE, ""));
  }

  lemma ParseBody(rule: IgnoreRule, tail: string, r: Regex, rest: string)
    requires NoStar(rule.tokens) && !StartsQuantifier(tail)
    requires ParseAlternative(tail) == Some(Parsed(r, rest))
    ensures ParseAlternative(BodySource(rule) + tail) == Some(Parsed(BodyOnto(rule, r), rest))
    ensures !StartsQuantifier(BodySource(rule) + tail)
  {
    if rule.directory {
      var below := "(?:/.*)?" + tail;
      ParseBelow(tail);
      assert ParseAlternative(below) == Some(Parsed(Cat(BELOW_TREE, r), rest));
      assert BodySource(rule) + tail == EmitAll(rule.tokens) + below;
      ParseEmitted(rule.tokens, below);
      EmitStartsPlain(rule.tokens, below);
    } else {
      assert BodySource(rule) + tail == EmitAll(rule.tokens) + tail;
      ParseEmitted(rule.tokens, tail);
      EmitStartsPlain(rule.tokens, tail);
    }
  }

  function RuleTree(rule: IgnoreRule): Regex {
    if rule.anchored then Cat(Start, BodyOnto(rule, END_TAIL))
    else Alt(Cat(BREAK_TREE, BodyOnto(rule, END_TAIL)), Cat(Start, BodyOnto(rule, Cat(STOP_TREE, Empty))))
  }

  lemma ParseEnd(rest: string)
    requires rest == "" || rest[0] == '|'
    ensures ParseAlternative("$" + rest) == Some(Parsed(END_TAIL, rest))
  {
  }

  lemma ParseStarted(s: string, r: Regex, rest: string)
    requires ParseAlternative(s) == Some(Parsed(r, rest))
    ensures ParseAlternative("^" + s) == Some(Parsed(Cat(Start, r), rest))
  {
  }

  lemma ParseAlternatives(s: string, a: Regex, t: string, b: Regex)
    requires ParseAlternative(s) == Some(Parsed(a, "|" + t))
    requires ParseAlternative(t) == Some(Parsed(b, ""))
    ensures Parse(s) == Some(Alt(a, b))
  {
    assert ("|" + t)[1..] == t;
    assert ParseDisjunction(t) == Some(Parsed(b, ""));
  }

  lemma ParseAnywhere(s: string, r: Regex, rest: string)
    requires ParseAlternative(s) == Some(Parsed(r, rest)) && !StartsQuantifier(s)
    ensures ParseAlternative("(^|/)" + s) == Some(Parsed(Cat(BREAK_TREE, r), rest))
  {
    ParseBreak(s);
  }

  lemma ParseLeft(rule: IgnoreRule, rest: string)
    requires NoStar(rule.tokens) && (rest == "" || rest[0] == '|')
    ensures ParseAlternative("(^|/)" + (BodySource(rule) + ("$" + rest))) ==
            Some(Parsed(Cat(BREAK_TREE, BodyOnto(rule, END_TAIL)), rest))
  {
    ParseEnd(rest);
    ParseBody(rule, "$" + rest, END_TAIL, rest);
    ParseAnywhere(BodySource(rule) + ("$" + rest), BodyOnto(rule, END_TAIL), rest);
  }

  lemma ParseRight(rule: IgnoreRule)
    requires NoStar(rule.tokens)
    ensures ParseAlternative("^" + (BodySource(rule) + "(?:/|$)")) ==
            Some(Parsed(Cat(Start, BodyOnto(rule, Cat(STOP_TREE, Empty))), ""))
  {
    ParseStop();
    ParseBody(rule, "(?:/|$)", Cat(STOP_TREE, Empty), "");
    ParseStarted(BodySource(rule) + "(?:/|$)", BodyOnto(rule, Cat(STOP_TREE, Empty)), "");
  }

  lemma ParseAnchoredRule(rule: IgnoreRule)
    requires NoStar(rule.tokens)
    ensures Parse("^" + (BodySource(rule) + "$")) == Some(Cat(Start, BodyOnto(rule, END_TAIL)))
  {
    assert "$" + "" == "$";
    ParseEnd("");
    ParseBody(rule, "$", END_TAIL, "");
    ParseStarted(BodySource(rule) + "$", BodyOnto(rule, END_TAIL), "");
  }

  lemma ParseUnanchoredRule(rule: IgnoreRule)
    requires NoStar(rule.tokens) && !rule.anchored
    ensures Parse("(^|/)" + (BodySource(rule) + ("$" + ("|" + ("^" + (BodySource(rule) + "(?:/|$)")))))) ==
            Some(RuleTree(rule))
  {
    var right := "^" + (BodySource(rule) + "(?:/|$)");
    ParseRight(rule);
    ParseLeft(rule, "|" + right);
    ParseAlternatives("(^|/)" + (BodySource(rule) + ("$" + ("|" + right))), RuleTree(rule).left, right,
                      RuleTree(rule).right);
  }

  lemma UnanchoredShape(body: string)
    ensures "(^|/)" + body + "$|^" + body + "(?:/|$)" == "(^|/)" + (body + ("$" + ("|" + ("^" + (body + "(?:/|$)")))))
  {
  }

  /** The emitted source of a rule reads back as `RuleTree`. */
  lemma ParseRule(rule: IgnoreRule)
    requires NoStar(rule.tokens)
    ensures Parse(IgnoreSource(rule)) == Some(RuleTree(rule))
  {
    if rule.anchored {
      ParseAnchoredRule(rule);
      assert IgnoreSource(rule) == "^" + (BodySource(rule) + "$");
    } else {
      ParseUnanchoredRule(rule);
      UnanchoredShape(BodySource(rule));
    }
  }

  lemma BelowMeans(s: string, k: nat, j: nat)
    requires k <= j <= |s|
    ensures Matches(BELOW_TREE, s, k, j) <==> k == j || (s[k] == '/' && OneLine(s, k + 1, j))
  {
    if k < j {
      var below := Cat(Star(AnyChar), Empty);
      StarMeans(AnyChar, s, k + 1, j);
      if Matches(BELOW_TREE, s, k, j) {
        var m := CatSplit(Char('/'), below, s, k, j);
        var n := CatSplit(Star(AnyChar), Empty, s, m, j);
      }
      if s[k] == '/' && OneLine(s, k + 1, j) {
        assert Matches(Char('/'), s, k, k + 1) && Matches(Empty, s, j, j) && Matches(Star(AnyChar), s, k + 1, j);
        assert Matches(below, s, k + 1, j);
        assert Matches(BELOW_TREE.body, s, k, j);
      }
    }
  }

  lemma BodyMeansForward(rule: IgnoreRule, tail: Regex, s: string, i: nat, j: nat) returns (k: nat)
    requires i <= j <= |s| && Matches(BodyOnto(rule, tail), s, i, j)
    ensures i <= k <= j && RuleDescribes(rule, s, i, k) && Matches(tail, s, k, j)
  {
    if rule.directory {
      var m := AstMeansForward(rule.tokens, Cat(BELOW_TREE, tail), s, i, j);
      k := CatSplit(BELOW_TREE, tail, s, m, j);
      BelowMeans(s, m, k);
    } else {
      k := AstMeansForward(rule.tokens, tail, s, i, j);
    }
  }

  lemma BodyMeansBackward(rule: IgnoreRule, tail: Regex, s: string, i: nat, k: nat, j: nat)
    requires i <= k <= j <= |s| && RuleDescribes(rule, s, i, k) && Matches(tail, s, k, j)
    ensures Matches(BodyOnto(rule, tail), s, i, j)
  {
    if rule.directory {
      var m: nat := k;
      if !Describes(rule.tokens, s, i, k) {
        m :| i <= m < k && s[m] == '/' && OneLine(s, m + 1, k) && Describes(rule.tokens, s, i, m);
      }
      BelowMeans(s, m, k);
      assert Matches(Cat(BELOW_TREE, tail), s, m, j);
      AstMeansBackward(rule.tokens, Cat(BELOW_TREE, tail), s, i, m, j);
    } else {
      AstMeansBackward(rule.tokens, tail, s, i, k, j);
    }
  }

  lemma StopMeans(s: string, k: nat, j: nat)
    requires k <= j <= |s|
    ensures Matches(Cat(STOP_TREE, Empty), s, k, j) <==> (k == j == |s|) || (j == k + 1 && s[k] == '/')
  {
    if Matches(Cat(STOP_TREE, Empty), s, k, j) {
      var m := CatSplit(STOP_TREE, Empty, s, k, j);
      if Matches(Cat(Char('/'), Empty), s, k, m) {
        var n := CatSplit(Char('/'), Empty, s, k, m);
      } else {
        var n := CatSplit(End, Empty, s, k, m);
      }
    }
    if k == j == |s| {
      assert Matches(End, s, k, k) && Matches(Empty, s, k, k);
      assert Matches(Cat(End, Empty), s, k, k);
      assert Matches(STOP_TREE, s, k, k);
    }
    if j == k + 1 && s[k] == '/' {
      assert Matches(Char('/'), s, k, j) && Matches(Empty, s, j, j);
      assert Matches(Cat(Char('/'), Empty), s, k, j);
      assert Matches(STOP_TREE, s, k, j);
    }
  }

  lemma BreakMeans(s: string, i: nat, k: nat)
    requires i <= k <= |s|
    ensures Matches(BREAK_TREE, s, i, k) <==> (i == k == 0) || (k == i + 1 && s[i] == '/')
  {
    if Matches(BREAK_TREE, s, i, k) {
      if Matches(Cat(Start, Empty), s, i, k) {
        var n := CatSplit(Start, Empty, s, i, k);
      } else {
        var n := CatSplit(Char('/'), Empty, s, i, k);
      }
    }
    if i == k == 0 {
      assert Matches(Start, s, 0, 0) && Matches(Empty, s, 0, 0);
      assert Matches(Cat(Start, Empty), s, 0, 0);
    }
    if k == i + 1 && s[i] == '/' {
      assert Matches(Char('/'), s, i, k) && Matches(Empty, s, k, k);
      assert Matches(Cat(Char('/'), Empty), s, i, k);
    }
  }

  /** Start of the path, then the rule, then `tail`. */
  ghost predicate RootedThen(rule: IgnoreRule, tail: Regex, s: string) {
    exists k: nat, j: nat :: k <= j <= |s| && RuleDescribes(rule, s, 0, k) && Matches(tail, s, k, j)
  }

  lemma RootedMeans(rule: IgnoreRule, tail: Regex, s: string)
    ensures Test(Cat(Start, BodyOnto(rule, tail)), s) <==> RootedThen(rule, tail, s)
  {
    StartThen(BodyOnto(rule, tail), s);
    if Test(Cat(Start, BodyOnto(rule, tail)), s) {
      var j: nat :| j <= |s| && Matches(BodyOnto(rule, tail), s, 0, j);
      var k := BodyMeansForward(rule, tail, s, 0, j);
      assert RootedThen(rule, tail, s);
    }
    if RootedThen(rule, tail, s) {
      var k: nat, j: nat :| k <= j <= |s| && RuleDescribes(rule, s, 0, k) && Matches(tail, s, k, j);
      BodyMeansBackward(rule, tail, s, 0, k, j);
      StartThenBy(BodyOnto(rule, tail), s, j);
    }
  }

  lemma AnywhereMeans(rule: IgnoreRule, s: string)
    ensures Test(Cat(BREAK_TREE, BodyOnto(rule, END_TAIL)), s) <==>
            exists i: nat :: i <= |s| && (i == 0 || s[i - 1] == '/') && RuleDescribes(rule, s, i, |s|)
  {
    var body := BodyOnto(rule, END_TAIL);
    if Test(Cat(BREAK_TREE, body), s) {
      var i: nat, j: nat :| i <= j <= |s| && Matches(Cat(BREAK_TREE, body), s, i, j);
      var m := CatSplit(BREAK_TREE, body, s, i, j);
      BreakMeans(s, i, m);
      var k := BodyMeansForward(rule, END_TAIL, s, m, j);
      EndTailMeans(s, k, j);
    }
    if exists i: nat :: i <= |s| && (i == 0 || s[i - 1] == '/') && RuleDescribes(rule, s, i, |s|) {
      var i: nat :| i <= |s| && (i == 0 || s[i - 1] == '/') && RuleDescribes(rule, s, i, |s|);
      EndTailMeans(s, |s|, |s|);
      BodyMeansBackward(rule, END_TAIL, s, i, |s|, |s|);
      var h: nat := if i == 0 then 0 else i - 1;
      BreakMeans(s, h, i);
      TestBy(Cat(BREAK_TREE, body), s, h, |s|);
    }
  }

  /** Main result for the ignore file: a rule's regular expression tests true exactly on the
      paths the rule ignores. */
  lemma RulePreservesMeaning(rule: IgnoreRule, path: string)
    requires NoStar(rule.tokens)
    ensures Parse(IgnoreSource(rule)) == Some(RuleTree(rule))
    ensures Test(RuleTree(rule), path) <==> Ignores(rule, path)
  {
    ParseRule(rule);
    if rule.anchored {
      RootedMeans(rule, END_TAIL, path);
      forall k: nat, j: nat | k <= j <= |path|
        ensures Matches(END_TAIL, path, k, j) <==> k == j == |path|
      {
        EndTailMeans(path, k, j);
      }
      if Ignores(rule, path) {
        assert Matches(END_TAIL, path, |path|, |path|);
      }
    } else {
      var left, right := RuleTree(rule).left, RuleTree(rule).right;
      assert Test(RuleTree(rule), path) <==> Test(left, path) || Test(right, path) by {
        TestAlt(left, right, path);
      }
      AnywhereMeans(rule, path);
      RootedMeans(rule, Cat(STOP_TREE, Empty), path);
      UnanchoredStop(rule, path);
    }
  }

  lemma TestAlt(a: Regex, b: Regex, s: string)
    ensures Test(Alt(a, b), s) <==> Test(a, s) || Test(b, s)
  {
    if Test(Alt(a, b), s) {
      var i: nat, j: nat :| i <= j <= |s| && Matches(Alt(a, b), s, i, j);
      assert Matches(a, s, i, j) || Matches(b, s, i, j);
    }
    if Test(a, s) {
      var i: nat, j: nat :| i <= j <= |s| && Matches(a, s, i, j);
      assert Matches(Alt(a, b), s, i, j);
    }
    if Test(b, s) {
      var i: nat, j: nat :| i <= j <= |s| && Matches(b, s, i, j);
      assert Matches(Alt(a, b), s, i, j);
    }
  }

  lemma UnanchoredStop(rule: IgnoreRule, s: string)
    ensures RootedThen(rule, Cat(STOP_TREE, Empty), s) <==>
            RuleDescribes(rule, s, 0, |s|) || exists j: nat :: j < |s| && s[j] == '/' && RuleDescribes(rule, s, 0, j)
  {
    var stop := Cat(STOP_TREE, Empty);
    if RootedThen(rule, stop, s) {
      var k: nat, j: nat :| k <= j <= |s| && RuleDescribes(rule, s, 0, k) && Matches(stop, s, k, j);
      StopMeans(s, k, j);
    }
    if RuleDescribes(rule, s, 0, |s|) {
      StopMeans(s, |s|, |s|);
    }
    if exists j: nat :: j < |s| && s[j] == '/' && RuleDescribes(rule, s, 0, j) {
      var j: nat :| j < |s| && s[j] == '/' && RuleDescribes(rule, s, 0, j);
      StopMeans(s, j, j + 1);
    }
  }

  /** ... in particular for every line of the ignore file. */
  lemma IgnorePreservesMeaning(pattern: string, path: string)
    ensures var rule := ReadIgnoreRule(pattern);
      var r := Parse(IgnoreSource(rule));
      r.Some? && (Test(r.value, path) <==> Ignores(rule, path))
  {
    var normalized := DropSlashes(pattern);
    TokensNoStar(normalized, 0, false);
    if |normalized| >= 1 { TokensNoStar(normalized[..|normalized| - 1], 0, false); }
    if |normalized| >= 3 { TokensNoStar(normalized[..|normalized| - 3], 0, false); }
    RulePreservesMeaning(ReadIgnoreRule(pattern), path);
  }

  /** `isIgnored`. */
  predicate IsIgnored(path: string, rules: seq<IgnoreRule>) {
    exists k :: 0 <= k < |rules| && Ignores(rules[k], path)
  }
}
