/** What the patterns mean, said on their text: how a glob reads a path, and what a line of the ignore file and
    a suppression path accept. The compiled expressions accept exactly that. */
module GlobMeaning {
  import opened Glob
  import opened IgnoreRules
  import opened RegexSyntax
  import opened SuppressionPaths
  import opened Text

  predicate NoBreak(s: string) { forall c <- s :: c !in {'\n', '\r', '\U{2028}', '\U{2029}'} }

  /** What a star reads: `*` any text without a slash, `**` any text of one line, and `**` with a slash behind it
      any number of whole directories, also none. */
  predicate Crosses(star: Token, s: string) {
    match star
    case Shallow => '/' !in s
    case Deep => NoBreak(s)
    case DeepDir => s == "" || (s[|s| - 1] == '/' && NoBreak(s[..|s| - 1]))
    case _ => false
  }

  /** The pattern reads the text from end to end, its stars as said, `?` (where it is a wildcard) as one
      character but a slash, and every other character as itself. */
  predicate Fits(pattern: string, question: bool, s: string)
    decreases |pattern|
  {
    if pattern == "" then s == ""
    else if |pattern| >= 3 && pattern[..3] == "**/" then
      exists k: nat :: k <= |s| && Crosses(DeepDir, s[..k]) && Fits(pattern[3..], question, s[k..])
    else if |pattern| >= 2 && pattern[..2] == "**" then
      exists k: nat :: k <= |s| && Crosses(Deep, s[..k]) && Fits(pattern[2..], question, s[k..])
    else if pattern[0] == '*' then
      exists k: nat :: k <= |s| && Crosses(Shallow, s[..k]) && Fits(pattern[1..], question, s[k..])
    else if pattern[0] == '?' && question then s != "" && s[0] != '/' && Fits(pattern[1..], question, s[1..])
    else s != "" && s[0] == pattern[0] && Fits(pattern[1..], question, s[1..])
  }

  // ---------------------------------------------------------------- tokens read the same

  /** The star, then the tokens. */
  ghost predicate StarThen(star: Token, ts: seq<Token>, s: string, i: nat, j: nat)
    requires i <= j <= |s|
  {
    exists k: nat :: i <= k <= j && Crosses(star, s[i..k]) && Describes(ts, s, k, j)
  }

  lemma {:induction false} ShallowReads(ts: seq<Token>, s: string, i: nat, j: nat)
    requires i <= j <= |s|
    ensures Describes([Shallow] + ts, s, i, j) <==> StarThen(Shallow, ts, s, i, j)
    decreases j - i
  {
    assert ([Shallow] + ts)[1..] == ts;
    if i < j { ShallowReads(ts, s, i + 1, j); }
    if Describes([Shallow] + ts, s, i, j) {
      if Describes(ts, s, i, j) {
        assert s[i..i] == "";
      } else {
        var k: nat :| i + 1 <= k <= j && Crosses(Shallow, s[i + 1..k]) && Describes(ts, s, k, j);
        assert s[i..k] == [s[i]] + s[i + 1..k];
      }
    }
    if k: nat :| i <= k <= j && Crosses(Shallow, s[i..k]) && Describes(ts, s, k, j) {
      if k > i {
        assert s[i..k] == [s[i]] + s[i + 1..k] && s[i] in s[i..k];
        assert StarThen(Shallow, ts, s, i + 1, j);
      }
    }
  }

  lemma NoBreakFirst(c: char, t: string)
    ensures NoBreak([c] + t) <==> !IsLineTerminator(c) && NoBreak(t)
  {
    assert c in [c] + t && forall x <- t :: x in [c] + t;
  }

  lemma {:induction false} DeepReads(ts: seq<Token>, s: string, i: nat, j: nat)
    requires i <= j <= |s|
    ensures Describes([Deep] + ts, s, i, j) <==> StarThen(Deep, ts, s, i, j)
    decreases j - i
  {
    assert ([Deep] + ts)[1..] == ts;
    if i < j { DeepReads(ts, s, i + 1, j); }
    if Describes([Deep] + ts, s, i, j) {
      if Describes(ts, s, i, j) {
        assert s[i..i] == "";
      } else {
        var k: nat :| i + 1 <= k <= j && Crosses(Deep, s[i + 1..k]) && Describes(ts, s, k, j);
        assert s[i..k] == [s[i]] + s[i + 1..k];
        NoBreakFirst(s[i], s[i + 1..k]);
      }
    }
    if k: nat :| i <= k <= j && Crosses(Deep, s[i..k]) && Describes(ts, s, k, j) {
      if k > i {
        assert s[i..k] == [s[i]] + s[i + 1..k];
        NoBreakFirst(s[i], s[i + 1..k]);
        assert Crosses(Deep, s[i + 1..k]) && Describes(ts, s, k, j);
      }
    }
  }

  lemma DeepDirReads(ts: seq<Token>, s: string, i: nat, j: nat)
    requires i <= j <= |s|
    ensures Describes([DeepDir] + ts, s, i, j) <==> StarThen(DeepDir, ts, s, i, j)
  {
    assert ([DeepDir] + ts)[1..] == ts && s[i..i] == "";
    forall k: nat | i < k <= j ensures Crosses(DeepDir, s[i..k]) <==> s[k - 1] == '/' && OneLine(s, i, k - 1) {
      OneLineIsNoBreak(s, i, k - 1);
      assert s[i..k][..k - i - 1] == s[i..k - 1] && s[i..k][k - i - 1] == s[k - 1];
    }
  }

  lemma OneLineIsNoBreak(s: string, i: nat, j: nat)
    requires i <= j <= |s|
    ensures OneLine(s, i, j) <==> NoBreak(s[i..j])
  {
    if OneLine(s, i, j) {
      forall c <- s[i..j] ensures c !in {'\n', '\r', '\U{2028}', '\U{2029}'} {
        var k :| 0 <= k < j - i && s[i..j][k] == c;
        assert s[i + k] == c;
      }
    }
    if NoBreak(s[i..j]) {
      forall k | i <= k < j ensures !IsLineTerminator(s[k]) { assert s[k] == s[i..j][k - i] && s[k] in s[i..j]; }
    }
  }

  /** The rest of the pattern reads every rest of the text as its tokens do. */
  ghost predicate RestAgrees(pattern: string, i: nat, question: bool, s: string, b: nat)
    requires i <= |pattern| && b <= |s|
  {
    forall k: nat :: k <= b ==>
      (Describes(TokensFrom(pattern, i, question), s, k, b) <==> Fits(pattern[i..], question, s[k..b]))
  }

  /** The star, then the pattern. */
  ghost predicate StarFits(star: Token, rest: string, question: bool, t: string) {
    exists k: nat :: k <= |t| && Crosses(star, t[..k]) && Fits(rest, question, t[k..])
  }

  lemma StarsAgree(star: Token, pattern: string, i: nat, question: bool, s: string, a: nat, b: nat)
    requires i <= |pattern| && a <= b <= |s| && RestAgrees(pattern, i, question, s, b)
    ensures StarThen(star, TokensFrom(pattern, i, question), s, a, b) <==>
            StarFits(star, pattern[i..], question, s[a..b])
  {
    var ts, t := TokensFrom(pattern, i, question), s[a..b];
    forall k: nat | a <= k <= b ensures t[..k - a] == s[a..k] && t[k - a..] == s[k..b] {}
    if k: nat :| a <= k <= b && Crosses(star, s[a..k]) && Describes(ts, s, k, b) {
      assert Crosses(star, t[..k - a]) && Fits(pattern[i..], question, t[k - a..]);
    }
    if k: nat :| k <= |t| && Crosses(star, t[..k]) && Fits(pattern[i..], question, t[k..]) {
      assert t[..k] == s[a..a + k] && t[k..] == s[a + k..b];
      assert Crosses(star, s[a..a + k]) && Describes(ts, s, a + k, b);
    }
  }

  lemma StarAgrees(pattern: string, i: nat, question: bool, s: string, a: nat, b: nat)
    requires i < |pattern| && a <= b <= |s| && pattern[i] == '*' && RestAgrees(pattern, i + 1, question, s, b)
    requires !(i + 1 < |pattern| && pattern[i + 1] == '*')
    ensures Describes(TokensFrom(pattern, i, question), s, a, b) <==> Fits(pattern[i..], question, s[a..b])
  {
    ShallowReads(TokensFrom(pattern, i + 1, question), s, a, b);
    StarsAgree(Shallow, pattern, i + 1, question, s, a, b);
    OneStar(pattern[i..], question, s[a..b]);
    assert pattern[i..][1..] == pattern[i + 1..];
  }

  lemma OneStar(p: string, question: bool, t: string)
    requires p != "" && p[0] == '*' && (|p| >= 2 ==> p[1] != '*')
    ensures Fits(p, question, t) <==> StarFits(Shallow, p[1..], question, t)
  {
    if |p| >= 2 { assert p[..2][1] == p[1]; }
    if |p| >= 3 { assert p[..3][1] == p[1]; }
  }

  lemma DoubleStarAgrees(pattern: string, i: nat, question: bool, s: string, a: nat, b: nat)
    requires i + 1 < |pattern| && a <= b <= |s| && pattern[i] == '*' == pattern[i + 1]
    requires !(i + 2 < |pattern| && pattern[i + 2] == '/') && RestAgrees(pattern, i + 2, question, s, b)
    ensures Describes(TokensFrom(pattern, i, question), s, a, b) <==> Fits(pattern[i..], question, s[a..b])
  {
    DeepReads(TokensFrom(pattern, i + 2, question), s, a, b);
    StarsAgree(Deep, pattern, i + 2, question, s, a, b);
    TwoStars(pattern[i..], question, s[a..b]);
    assert pattern[i..][2..] == pattern[i + 2..];
  }

  lemma TwoStars(p: string, question: bool, t: string)
    requires |p| >= 2 && p[0] == '*' == p[1] && (|p| >= 3 ==> p[2] != '/')
    ensures Fits(p, question, t) <==> StarFits(Deep, p[2..], question, t)
  {
    assert p[..2] == "**";
    if |p| >= 3 { assert p[..3][2] == p[2]; }
  }

  lemma DirectoriesAgree(pattern: string, i: nat, question: bool, s: string, a: nat, b: nat)
    requires i + 2 < |pattern| && a <= b <= |s| && pattern[i] == '*' == pattern[i + 1] && pattern[i + 2] == '/'
    requires RestAgrees(pattern, i + 3, question, s, b)
    ensures Describes(TokensFrom(pattern, i, question), s, a, b) <==> Fits(pattern[i..], question, s[a..b])
  {
    DeepDirReads(TokensFrom(pattern, i + 3, question), s, a, b);
    StarsAgree(DeepDir, pattern, i + 3, question, s, a, b);
    StarsAndSlash(pattern[i..], question, s[a..b]);
    assert pattern[i..][3..] == pattern[i + 3..];
  }

  lemma StarsAndSlash(p: string, question: bool, t: string)
    requires |p| >= 3 && p[0] == '*' == p[1] && p[2] == '/'
    ensures Fits(p, question, t) <==> StarFits(DeepDir, p[3..], question, t)
  {
    assert p[..3] == "**/";
  }

  lemma CharacterAgrees(pattern: string, i: nat, question: bool, s: string, a: nat, b: nat)
    requires i < |pattern| && a <= b <= |s| && pattern[i] != '*' && RestAgrees(pattern, i + 1, question, s, b)
    ensures Describes(TokensFrom(pattern, i, question), s, a, b) <==> Fits(pattern[i..], question, s[a..b])
  {
    var rest := pattern[i..];
    assert rest[1..] == pattern[i + 1..] && rest[0] == pattern[i];
    if |rest| >= 2 { assert rest[..2][0] == pattern[i]; }
    if |rest| >= 3 { assert rest[..3][0] == pattern[i]; }
    if a < b { assert s[a..b][1..] == s[a + 1..b] && s[a..b][0] == s[a]; }
  }

  /** Main result: the tokens of a pattern describe a stretch of text exactly if the pattern reads it. */
  lemma {:induction false} TokensReadAsPattern(pattern: string, i: nat, question: bool, s: string, a: nat, b: nat)
    requires i <= |pattern| && a <= b <= |s|
    ensures Describes(TokensFrom(pattern, i, question), s, a, b) <==> Fits(pattern[i..], question, s[a..b])
    decreases |pattern| - i
  {
    if i < |pattern| {
      var two := i + 1 < |pattern| && pattern[i] == '*' == pattern[i + 1];
      var three := two && i + 2 < |pattern| && pattern[i + 2] == '/';
      var next := if three then i + 3 else if two then i + 2 else i + 1;
      forall k: nat | k <= b
        ensures Describes(TokensFrom(pattern, next, question), s, k, b) <==> Fits(pattern[next..], question, s[k..b])
      {
        TokensReadAsPattern(pattern, next, question, s, k, b);
      }
      if three { DirectoriesAgree(pattern, i, question, s, a, b); }
      else if two { DoubleStarAgrees(pattern, i, question, s, a, b); }
      else if pattern[i] == '*' { StarAgrees(pattern, i, question, s, a, b); }
      else { CharacterAgrees(pattern, i, question, s, a, b); }
    }
  }

  /** Main result for `src/config.ts`, both ways: the compiled expression of a pattern, read back, tests true
      exactly on the paths the pattern reads. */
  lemma SuppressionReadsAsPattern(pattern: string, path: string)
    ensures var r := Parse(SuppressionSource(pattern)); r.Some? && (Test(r.value, path) <==> Fits(pattern, true, path))
  {
    SuppressionPreservesMeaning(pattern, path);
    TokensReadAsPattern(pattern, 0, true, path, 0, |path|);
    assert pattern[0..] == pattern && path[0..|path|] == path;
  }

  // ---------------------------------------------------------------- lines of the ignore file

  /** `name` reads the text, or, for a directory, the text in front of a slash. */
  predicate FitsPart(name: string, directory: bool, s: string) {
    || Fits(name, false, s)
    || (directory && exists k: nat :: k < |s| && s[k] == '/' && NoBreak(s[k + 1..]) && Fits(name, false, s[..k]))
  }

  /** What a line with this name ignores. */
  predicate NameIgnores(name: string, directory: bool, anchored: bool, path: string) {
    if anchored then FitsPart(name, directory, path)
    else
      || (exists i: nat :: i <= |path| && (i == 0 || path[i - 1] == '/') && FitsPart(name, directory, path[i..]))
      || (exists j: nat :: j < |path| && path[j] == '/' && FitsPart(name, directory, path[..j]))
  }

  /** `line` is `name`, behind any number of slashes if the rule is anchored, and before `/` or `/` and `**` if
      it is that of a directory. */
  ghost predicate Says(line: string, slashes: nat, name: string, ending: string) {
    && slashes <= |line| && (forall k :: 0 <= k < slashes ==> line[k] == '/') && line[slashes..] == name + ending
    && (name + ending != "" ==> (name + ending)[0] != '/')
    && (ending == "/" || ending == "/**" || (ending == "" && !EndsWith(name, "/") && !EndsWith(name, "/**")))
  }

  lemma {:induction false} DropsSlashes(line: string, slashes: nat)
    requires slashes <= |line| && (forall k :: 0 <= k < slashes ==> line[k] == '/')
    requires line[slashes..] != "" ==> line[slashes] != '/'
    ensures DropSlashes(line) == line[slashes..]
  {
    if slashes > 0 {
      assert line[1..][slashes - 1..] == line[slashes..];
      DropsSlashes(line[1..], slashes - 1);
    } else {
      assert line[0..] == line;
    }
  }

  lemma PartAgrees(name: string, rule: IgnoreRule, s: string, i: nat, j: nat)
    requires i <= j <= |s| && rule.tokens == Tokens(name, false)
    ensures RuleDescribes(rule, s, i, j) <==> FitsPart(name, rule.directory, s[i..j])
  {
    WholeAgrees(name, s, i, j);
    if RuleDescribes(rule, s, i, j) { PartForward(name, rule, s, i, j); }
    if FitsPart(name, rule.directory, s[i..j]) { PartBackward(name, rule, s, i, j); }
  }

  lemma WholeAgrees(name: string, s: string, i: nat, j: nat)
    requires i <= j <= |s|
    ensures Describes(Tokens(name, false), s, i, j) <==> Fits(name, false, s[i..j])
  {
    TokensReadAsPattern(name, 0, false, s, i, j);
    assert name[0..] == name;
  }

  lemma PartForward(name: string, rule: IgnoreRule, s: string, i: nat, j: nat)
    requires i <= j <= |s| && rule.tokens == Tokens(name, false) && RuleDescribes(rule, s, i, j)
    ensures FitsPart(name, rule.directory, s[i..j])
  {
    WholeAgrees(name, s, i, j);
    if !Describes(rule.tokens, s, i, j) {
      var k: nat :| i <= k < j && s[k] == '/' && OneLine(s, k + 1, j) && Describes(rule.tokens, s, i, k);
      FrontFits(name, rule, s, i, j, k - i);
    }
  }

  lemma PartBackward(name: string, rule: IgnoreRule, s: string, i: nat, j: nat)
    requires i <= j <= |s| && rule.tokens == Tokens(name, false) && FitsPart(name, rule.directory, s[i..j])
    ensures RuleDescribes(rule, s, i, j)
  {
    var t := s[i..j];
    WholeAgrees(name, s, i, j);
    if !Fits(name, false, t) {
      var k: nat :| k < |t| && t[k] == '/' && NoBreak(t[k + 1..]) && Fits(name, false, t[..k]);
      FrontFits(name, rule, s, i, j, k);
    }
  }

  /** The front, up to a slash. */
  lemma FrontFits(name: string, rule: IgnoreRule, s: string, i: nat, j: nat, k: nat)
    requires i + k < j <= |s| && rule.tokens == Tokens(name, false)
    ensures s[i + k] == '/' && OneLine(s, i + k + 1, j) && Describes(rule.tokens, s, i, i + k) && rule.directory ==>
              FitsPart(name, rule.directory, s[i..j])
    ensures var t := s[i..j];
      t[k] == '/' && NoBreak(t[k + 1..]) && Fits(name, false, t[..k]) && rule.directory ==> RuleDescribes(rule, s, i, j)
  {
    FrontAgrees(name, s, i, j, k);
  }

  lemma FrontAgrees(name: string, s: string, i: nat, j: nat, k: nat)
    requires i + k < j <= |s|
    ensures var t := s[i..j];
      && t[k] == s[i + k] && (OneLine(s, i + k + 1, j) <==> NoBreak(t[k + 1..]))
      && (Describes(Tokens(name, false), s, i, i + k) <==> Fits(name, false, t[..k]))
  {
    var t := s[i..j];
    assert t[..k] == s[i..i + k] && t[k + 1..] == s[i + k + 1..j];
    WholeAgrees(name, s, i, i + k);
    OneLineIsNoBreak(s, i + k + 1, j);
  }

  lemma ReadsLine(line: string, slashes: nat, name: string, ending: string)
    requires Says(line, slashes, name, ending)
    ensures ReadIgnoreRule(line) == IgnoreRule(slashes > 0, Tokens(name, false), ending != "")
  {
    DropsSlashes(line, slashes);
    var rest := name + ending;
    assert StartsWith(line, "/") <==> slashes > 0 by {
      if slashes > 0 { assert line[..1] == "/"; }
      if slashes == 0 && line != "" { assert line[0..] == line && line[..1][0] == rest[0]; }
    }
    if ending == "/" {
      assert rest[|rest| - 1..] == "/" && rest[..|rest| - 1] == name;
    } else if ending == "/**" {
      assert rest[|rest| - 3..] == "/**" && rest[..|rest| - 3] == name;
      assert rest[|rest| - 1..] != "/" by { assert rest[|rest| - 1..][0] == '*'; }
    } else {
      assert rest == name;
    }
  }

  /** Main result for the ignore file, both ways: the compiled expression of a line, read back, tests true exactly
      on the paths that the name on the line says. */
  lemma LineReadsAsName(line: string, slashes: nat, name: string, ending: string, path: string)
    requires Says(line, slashes, name, ending)
    ensures var r := Parse(IgnoreSource(ReadIgnoreRule(line)));
      r.Some? && (Test(r.value, path) <==> NameIgnores(name, ending != "", slashes > 0, path))
  {
    ReadsLine(line, slashes, name, ending);
    var rule := ReadIgnoreRule(line);
    IgnorePreservesMeaning(line, path);
    PartAgrees(name, rule, path, 0, |path|);
    assert path[0..|path|] == path;
    forall i: nat | i <= |path|
      ensures RuleDescribes(rule, path, i, |path|) <==> FitsPart(name, rule.directory, path[i..])
    {
      PartAgrees(name, rule, path, i, |path|);
    }
    forall j: nat | j < |path| ensures RuleDescribes(rule, path, 0, j) <==> FitsPart(name, rule.directory, path[..j]) {
      PartAgrees(name, rule, path, 0, j);
    }
  }

  // ---------------------------------------------------------------- plain names

  lemma {:induction false} PlainReadsItself(name: string, s: string)
    requires '*' !in name
    ensures Fits(name, false, s) <==> s == name
  {
    if name != "" {
      assert name[0] in name && name[0] != '*';
      assert |name| >= 2 ==> name[..2] != "**" by { if |name| >= 2 { assert name[..2][0] == name[0]; } }
      assert |name| >= 3 ==> name[..3] != "**/" by { if |name| >= 3 { assert name[..3][0] == name[0]; } }
      assert name == [name[0]] + name[1..];
      if s != "" {
        PlainReadsItself(name[1..], s[1..]);
        assert s == [s[0]] + s[1..];
      }
    }
  }

  /** At the end of the path, or in front of a slash. */
  lemma EndsExactlyWhen(path: string, name: string)
    ensures EndsWith(path, "/" + name) || path == name <==>
            exists i: nat :: i <= |path| && (i == 0 || path[i - 1] == '/') && path[i..] == name
  {
    if EndsWith(path, "/" + name) {
      var i: nat := |path| - |name|;
      assert path[i - 1..] == "/" + name && path[i - 1] == path[i - 1..][0] && path[i..] == path[i - 1..][1..];
    }
    if path == name { assert path[0..] == name; }
    if i: nat :| i <= |path| && (i == 0 || path[i - 1] == '/') && path[i..] == name {
      if i > 0 { assert path[i - 1..] == [path[i - 1]] + path[i..]; } else { assert path[0..] == path; }
    }
  }

  lemma StartsExactlyWhen(path: string, name: string)
    ensures StartsWith(path, name + "/") <==> exists j: nat :: j < |path| && path[j] == '/' && path[..j] == name
  {
    if StartsWith(path, name + "/") {
      var j := |name|;
      assert path[..j + 1][j] == '/' && path[..j] == path[..j + 1][..j];
    }
    if j: nat :| j < |path| && path[j] == '/' && path[..j] == name {
      assert path[..j + 1] == path[..j] + [path[j]];
    }
  }

  lemma PlainNameIgnores(name: string, path: string)
    requires '*' !in name
    ensures NameIgnores(name, false, false, path) <==>
            path == name || EndsWith(path, "/" + name) || StartsWith(path, name + "/")
    ensures NameIgnores(name, false, true, path) <==> path == name
  {
    forall t: string ensures FitsPart(name, false, t) <==> t == name { PlainReadsItself(name, t); }
    EndsExactlyWhen(path, name);
    StartsExactlyWhen(path, name);
  }

  /** Main result, both ways: a line that is a name without a star ignores, wherever it stands, the files and
      directories of that name, and all that lies in one at the root; with a slash in front it ignores just
      that path. */
  lemma PlainLineIgnores(name: string, path: string)
    requires '*' !in name && name != "" && name[0] != '/' && name[|name| - 1] != '/'
    ensures var r := Parse(IgnoreSource(ReadIgnoreRule(name)));
      r.Some? && (Test(r.value, path) <==> path == name || EndsWith(path, "/" + name) || StartsWith(path, name + "/"))
    ensures var r := Parse(IgnoreSource(ReadIgnoreRule("/" + name)));
      r.Some? && (Test(r.value, path) <==> path == name)
  {
    NoEnding(name);
    assert name + "" == name && name[0..] == name;
    LineReadsAsName(name, 0, name, "", path);
    LineReadsAsName("/" + name, 1, name, "", path);
    PlainNameIgnores(name, path);
  }

  lemma NoEnding(name: string)
    requires name != "" && '*' !in name && name[|name| - 1] != '/'
    ensures !EndsWith(name, "/") && !EndsWith(name, "/**")
  {
    if |name| >= 1 { assert name[|name| - 1..][0] == name[|name| - 1]; }
    if |name| >= 3 { assert name[|name| - 3..][2] == name[|name| - 1] && name[|name| - 1] in name; }
  }

  /** The path itself, or something in it. */
  predicate LiesIn(path: string, name: string) {
    path == name || StartsWith(path, name + "/")
  }

  lemma BreakFree(path: string, i: nat, j: nat)
    requires NoBreak(path) && i <= j <= |path|
    ensures NoBreak(path[i..j])
  {
    forall c <- path[i..j] ensures c in path {
      var k :| 0 <= k < j - i && path[i..j][k] == c;
      assert path[i + k] == c;
    }
  }

  lemma DirectoryNameIgnores(name: string, path: string)
    requires '*' !in name && NoBreak(path)
    ensures NameIgnores(name, true, false, path) <==>
            exists i: nat :: i <= |path| && (i == 0 || path[i - 1] == '/') && LiesIn(path[i..], name)
    ensures NameIgnores(name, true, true, path) <==> LiesIn(path, name)
  {
    DirectoryPart(name, path);
    forall i: nat | i <= |path| ensures FitsPart(name, true, path[i..]) <==> LiesIn(path[i..], name) {
      BreakFree(path, i, |path|);
      assert path[i..|path|] == path[i..];
      DirectoryPart(name, path[i..]);
    }
    if j: nat :| j < |path| && path[j] == '/' && FitsPart(name, true, path[..j]) {
      BreakFree(path, 0, j);
      assert path[0..j] == path[..j];
      DirectoryPart(name, path[..j]);
      FurtherIn(path, j, name);
      assert path[0..] == path;
    }
  }

  /** Main result, both ways: a line that names a directory ignores it and everything in it, wherever it stands;
      with a slash in front only at the root. */
  lemma DirectoryLineIgnores(name: string, path: string)
    requires '*' !in name && name != "" && name[0] != '/' && NoBreak(path)
    ensures var r := Parse(IgnoreSource(ReadIgnoreRule(name + "/")));
      r.Some? && (Test(r.value, path) <==>
        exists i: nat :: i <= |path| && (i == 0 || path[i - 1] == '/') && LiesIn(path[i..], name))
    ensures var r := Parse(IgnoreSource(ReadIgnoreRule("/" + (name + "/"))));
      r.Some? && (Test(r.value, path) <==> LiesIn(path, name))
  {
    assert (name + "/")[0..] == name + "/" && ("/" + (name + "/"))[1..] == name + "/";
    LineReadsAsName(name + "/", 0, name, "/", path);
    LineReadsAsName("/" + (name + "/"), 1, name, "/", path);
    DirectoryNameIgnores(name, path);
  }

  lemma DirectoryPart(name: string, t: string)
    requires '*' !in name && NoBreak(t)
    ensures FitsPart(name, true, t) <==> LiesIn(t, name)
  {
    PlainReadsItself(name, t);
    StartsExactlyWhen(t, name);
    forall k: nat | k < |t| ensures (Fits(name, false, t[..k]) <==> t[..k] == name) && NoBreak(t[k + 1..]) {
      PlainReadsItself(name, t[..k]);
      BreakFree(t, k + 1, |t|);
      assert t[k + 1..|t|] == t[k + 1..];
    }
  }

  lemma FurtherIn(path: string, j: nat, name: string)
    requires j < |path| && path[j] == '/' && LiesIn(path[..j], name)
    ensures LiesIn(path, name)
  {
    if path[..j] == name {
      assert path[..j + 1] == path[..j] + [path[j]];
    } else {
      assert path[..|name| + 1] == path[..j][..|name| + 1];
    }
  }
}
