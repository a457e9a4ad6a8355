/** Finding the bracket that closes an opener in TypeScript text (`findMatchingBrace` of
    `src/scanners/silentSuccess.ts`, `findMatchingParen` of `src/scanners/apiRoutes.ts`): two
    instances of one scanner that knows three kinds of quotes and a one-character escape. */
module BracketScan {
  import opened Text

  datatype Mode = Code | Single | Double | Template

  /** How an escape is recognised: the code looks back one character; `Parity` is what the language
      means, where a backslash can itself be escaped. */
  datatype Rule = Lookback | Parity

  predicate Escaped(rule: Rule, s: string, i: nat)
    requires i <= |s|
  {
    i > 0 && s[i - 1] == '\\' && (rule == Lookback || !Escaped(rule, s, i - 1))
  }

  function Toggle(m: Mode, c: char): Mode {
    match m
    case Code => if c == '\'' then Single else if c == '"' then Double else if c == '`' then Template else Code
    case Single => if c == '\'' then Code else Single
    case Double => if c == '"' then Code else Double
    case Template => if c == '`' then Code else Template
  }

  /** Which quote is open before index `i` when reading starts at `o`. */
  function ModeAt(rule: Rule, s: string, o: nat, i: nat): Mode
    requires o <= i <= |s|
  {
    if i == o then Code
    else if Escaped(rule, s, i - 1) then ModeAt(rule, s, o, i - 1)
    else Toggle(ModeAt(rule, s, o, i - 1), s[i - 1])
  }

  /** Index `i` holds a character of code: not quoted and not escaped. */
  predicate Plain(rule: Rule, s: string, o: nat, i: nat)
    requires o <= i < |s|
  {
    !Escaped(rule, s, i) && ModeAt(rule, s, o, i) == Code
  }

  datatype Pair = Pair(open: char, close: char)

  function Turn(p: Pair, c: char): int {
    if c == p.open then 1 else if c == p.close then -1 else 0
  }

  /** Plain openers minus plain closers in `s[o..i]`. */
  function Level(rule: Rule, p: Pair, s: string, o: nat, i: nat): int
    requires o <= i <= |s|
  {
    if i == o then 0
    else Level(rule, p, s, o, i - 1) + (if Plain(rule, s, o, i - 1) then Turn(p, s[i - 1]) else 0)
  }

  predicate Closes(rule: Rule, p: Pair, s: string, o: nat, j: nat) {
    o <= j < |s| && s[j] == p.close && Plain(rule, s, o, j) && Level(rule, p, s, o, j + 1) == 0
  }

  /** `r` is the first index that closes, or -1 if none does. */
  ghost predicate IsMatch(rule: Rule, p: Pair, s: string, o: nat, r: int) {
    if r < 0 then r == -1 && forall j: nat :: !Closes(rule, p, s, o, j)
    else Closes(rule, p, s, o, r) && forall j: nat :: j < r ==> !Closes(rule, p, s, o, j)
  }

  predicate IsQuote(c: char) { c == '\'' || c == '"' || c == '`' }

  predicate IsBracketPair(p: Pair) {
    p.open != p.close && !IsQuote(p.open) && !IsQuote(p.close) && p.open != '\\' && p.close != '\\'
  }

  method FindMatching(p: Pair, content: string, open: nat) returns (r: int)
    requires IsBracketPair(p)
    ensures IsMatch(Lookback, p, content, open, r)
  {
    var depth := 0;
    var inSingle, inDouble, inTemplate := false, false, false;
    var index := open;
    while index < |content|
      invariant open <= index && (index <= |content| || index == open)
      invariant index <= |content| ==> depth == Level(Lookback, p, content, open, index)
      invariant index <= |content| ==> (ModeAt(Lookback, content, open, index) ==
        if inSingle then Single else if inDouble then Double else if inTemplate then Template else Code)
      invariant !(inSingle && inDouble) && !(inSingle && inTemplate) && !(inDouble && inTemplate)
      invariant forall j: nat :: j < index ==> !Closes(Lookback, p, content, open, j)
    {
      var c := content[index];
      if index > 0 && content[index - 1] == '\\' {
        index := index + 1;
        continue;
      }
      if c == '\'' && !inDouble && !inTemplate { inSingle := !inSingle; }
      if c == '"' && !inSingle && !inTemplate { inDouble := !inDouble; }
      if c == '`' && !inSingle && !inDouble { inTemplate := !inTemplate; }
      if inSingle || inDouble || inTemplate {
        index := index + 1;
        continue;
      }
      if c == p.open { depth := depth + 1; }
      if c == p.close {
        depth := depth - 1;
        if depth == 0 {
          return index;
        }
      }
      index := index + 1;
    }
    return -1;
  }

  method FindMatchingBrace(content: string, openBrace: nat) returns (r: int)
    ensures IsMatch(Lookback, Pair('{', '}'), content, openBrace, r)
  {
    r := FindMatching(Pair('{', '}'), content, openBrace);
  }

  /** Called with what `indexOf` returned, so the index may be -1. */
  method FindMatchingParen(content: string, openParen: int) returns (r: int)
    ensures openParen < 0 ==> r == -1
    ensures openParen >= 0 ==> IsMatch(Lookback, Pair('(', ')'), content, openParen, r)
  {
    if openParen < 0 { return -1; }
    r := FindMatching(Pair('(', ')'), content, openParen);
  }

  /** Main result: from an opener that is not escaped, the block up to the match is balanced and is
      not balanced any earlier; without a match the opener is never closed. */
  lemma {:induction false} BlockIsOpen(rule: Rule, p: Pair, s: string, o: nat, r: int, i: nat)
    requires IsBracketPair(p) && o < |s| && s[o] == p.open && !Escaped(rule, s, o)
    requires IsMatch(rule, p, s, o, r)
    requires o < i <= if r < 0 then |s| else r
    ensures Level(rule, p, s, o, i) >= 1
  {
    assert ModeAt(rule, s, o, o) == Code && Level(rule, p, s, o, o) == 0;
    if i > o + 1 {
      BlockIsOpen(rule, p, s, o, r, i - 1);
      assert !Closes(rule, p, s, o, i - 1);
    }
  }

  lemma MatchFollowsOpener(rule: Rule, p: Pair, s: string, o: nat, r: int)
    requires IsBracketPair(p) && o < |s| && s[o] == p.open && !Escaped(rule, s, o)
    requires IsMatch(rule, p, s, o, r)
    ensures r == -1 || r > o
  {
  }

  // ---------------------------------------------------------------- looking back one character

  /** Whether a character read in mode `m` has an effect on the scan. */
  predicate Decides(p: Pair, m: Mode, c: char) {
    Toggle(m, c) != m || (m == Code && (c == p.open || c == p.close))
  }

  /** The two rules disagree whether the character at `i` is escaped, and it matters: an even, not empty
      run of backslashes stands before a quote or bracket that counts where it is. */
  predicate Disputed(p: Pair, s: string, o: nat, i: nat) {
    o <= i < |s| && Escaped(Lookback, s, i) && !Escaped(Parity, s, i) && Decides(p, ModeAt(Lookback, s, o, i), s[i])
  }

  ghost predicate Undisputed(p: Pair, s: string, o: nat, i: nat) {
    forall k: nat :: k < i ==> !Disputed(p, s, o, k)
  }

  lemma ParityEscapesLess(s: string, i: nat)
    requires i <= |s|
    ensures Escaped(Parity, s, i) ==> Escaped(Lookback, s, i)
  {
  }

  /** Up to the first disputed character the two scans are in the same state. */
  lemma {:induction false} ScansAgree(p: Pair, s: string, o: nat, i: nat)
    requires o <= i <= |s| && Undisputed(p, s, o, i)
    ensures ModeAt(Lookback, s, o, i) == ModeAt(Parity, s, o, i)
    ensures Level(Lookback, p, s, o, i) == Level(Parity, p, s, o, i)
  {
    if i > o {
      ScansAgree(p, s, o, i - 1);
      assert !Disputed(p, s, o, i - 1);
      ParityEscapesLess(s, i - 1);
    }
  }

  lemma ClosesAgree(p: Pair, s: string, o: nat, i: nat, j: nat)
    requires Undisputed(p, s, o, i) && j < i
    ensures Closes(Lookback, p, s, o, j) <==> Closes(Parity, p, s, o, j)
  {
    if o <= j < |s| {
      ScansAgree(p, s, o, j);
      ScansAgree(p, s, o, j + 1);
      assert !Disputed(p, s, o, j);
      ParityEscapesLess(s, j);
    }
  }

  ghost predicate SameMatch(p: Pair, s: string, o: nat) {
    forall r: int :: IsMatch(Lookback, p, s, o, r) <==> IsMatch(Parity, p, s, o, r)
  }

  /** The two scans find the same match if nothing is disputed, or a match comes before what is. */
  lemma SameMatchIf(p: Pair, s: string, o: nat)
    requires forall i: nat :: Disputed(p, s, o, i) ==> exists j: nat :: j < i && Closes(Lookback, p, s, o, j)
    ensures SameMatch(p, s, o)
  {
    if i: nat :| Disputed(p, s, o, i) {
      var first := FirstDisputed(p, s, o, i);
      var c: nat :| c < first && Closes(Lookback, p, s, o, c);
      forall j: nat | j < first ensures Closes(Lookback, p, s, o, j) <==> Closes(Parity, p, s, o, j) {
        ClosesAgree(p, s, o, first, j);
      }
    } else {
      forall j: nat ensures Closes(Lookback, p, s, o, j) <==> Closes(Parity, p, s, o, j) {
        if j < |s| { ClosesAgree(p, s, o, |s|, j); }
      }
    }
  }

  lemma {:induction false} FirstDisputed(p: Pair, s: string, o: nat, i: nat) returns (first: nat)
    requires Disputed(p, s, o, i)
    ensures first <= i && Disputed(p, s, o, first) && Undisputed(p, s, o, first)
  {
    if j: nat :| j < i && Disputed(p, s, o, j) {
      first := FirstDisputed(p, s, o, j);
    } else {
      first := i;
    }
  }

  // ---------------------------------------------------------------- continuations

  /** What stands before `k` is read alike in every continuation of it. */
  lemma {:induction false} ReadAlike(rule: Rule, p: Pair, s: string, t: string, o: nat, k: nat, i: nat)
    requires k <= |s| && i <= k
    ensures Escaped(rule, s[..k] + t, i) == Escaped(rule, s, i)
    ensures o <= i ==>
              ModeAt(rule, s[..k] + t, o, i) == ModeAt(rule, s, o, i) &&
              Level(rule, p, s[..k] + t, o, i) == Level(rule, p, s, o, i)
  {
    if i > 0 { ReadAlike(rule, p, s, t, o, k, i - 1); }
  }

  lemma ClosesAlike(rule: Rule, p: Pair, s: string, t: string, o: nat, k: nat, j: nat)
    requires k <= |s| && j < k
    ensures Closes(rule, p, s[..k] + t, o, j) == Closes(rule, p, s, o, j)
  {
    ReadAlike(rule, p, s, t, o, k, j);
    ReadAlike(rule, p, s, t, o, k, j + 1);
  }

  lemma DisputedAlike(p: Pair, s: string, t: string, o: nat, k: nat, i: nat)
    requires k <= |s| && i < k
    ensures Disputed(p, s[..k] + t, o, i) == Disputed(p, s, o, i)
  {
    ReadAlike(Lookback, p, s, t, o, k, i);
    ReadAlike(Parity, p, s, t, o, k, i);
  }

  /** A continuation that disputes nothing itself: it brings no backslash, and does not begin with a
      quote or bracket right behind an even run of them. */
  predicate Adds(p: Pair, s: string, o: nat, k: nat, t: string)
    requires k <= |s|
  {
    '\\' !in t && !Disputed(p, s[..k] + t, o, k)
  }

  lemma AddsNothingDisputed(p: Pair, s: string, o: nat, k: nat, t: string, i: nat)
    requires k <= |s| && Adds(p, s, o, k, t) && k <= i
    ensures !Disputed(p, s[..k] + t, o, i)
  {
    if k < i < k + |t| { assert (s[..k] + t)[i - 1] == t[i - 1 - k] && t[i - 1 - k] in t; }
  }

  function Repeat(c: char, n: nat): string { seq(n, _ => c) }

  /** Openers, then closers. */
  function Brackets(p: Pair, opens: nat, closes: nat): string { Repeat(p.open, opens) + Repeat(p.close, closes) }

  /** How a run of brackets behind a character other than a backslash is read. */
  lemma {:induction false} BracketsRead(rule: Rule, p: Pair, s: string, o: nat, k: nat, opens: nat, closes: nat, n: nat)
    requires IsBracketPair(p) && o < k <= |s| && s[k - 1] != '\\' && n <= opens + closes
    ensures var v := s[..k] + Brackets(p, opens, closes);
      && !Escaped(rule, v, k + n)
      && ModeAt(rule, v, o, k + n) == ModeAt(rule, s, o, k)
      && Level(rule, p, v, o, k + n) == Level(rule, p, s, o, k)
           + if ModeAt(rule, s, o, k) != Code then 0 else if n <= opens then n else 2 * opens - n
  {
    var t := Brackets(p, opens, closes);
    var v := s[..k] + t;
    ReadAlike(rule, p, s, t, o, k, k);
    if n > 0 {
      BracketsRead(rule, p, s, o, k, opens, closes, n - 1);
      assert v[k + n - 1] == t[n - 1] == if n <= opens then p.open else p.close;
    }
  }

  /** In code, as many closers as openers and open levels together close at the last one. */
  lemma BracketsClose(rule: Rule, p: Pair, s: string, o: nat, k: nat, opens: nat)
    requires IsBracketPair(p) && o < k <= |s| && s[k - 1] != '\\' && ModeAt(rule, s, o, k) == Code
    requires Level(rule, p, s, o, k) + opens > 0
    ensures var closes := Level(rule, p, s, o, k) + opens;
      Closes(rule, p, s[..k] + Brackets(p, opens, closes), o, k + opens + closes - 1)
  {
    var closes: nat := Level(rule, p, s, o, k) + opens;
    BracketsRead(rule, p, s, o, k, opens, closes, opens + closes - 1);
    BracketsRead(rule, p, s, o, k, opens, closes, opens + closes);
    BracketsLast(p, s[..k], opens, closes);
  }

  lemma BracketsLast(p: Pair, s: string, opens: nat, closes: nat)
    requires closes > 0
    ensures var v := s + Brackets(p, opens, closes);
      |v| == |s| + opens + closes && v[|v| - 1] == p.close
  {
  }

  /** In a quote, or one level deeper than that, none closes. */
  lemma BracketsStayOpen(rule: Rule, p: Pair, s: string, o: nat, k: nat, opens: nat, closes: nat, j: nat)
    requires IsBracketPair(p) && o < k <= |s| && s[k - 1] != '\\' && k <= j
    requires ModeAt(rule, s, o, k) == Code ==> Level(rule, p, s, o, k) + opens > closes
    ensures !Closes(rule, p, s[..k] + Brackets(p, opens, closes), o, j)
  {
    var v := s[..k] + Brackets(p, opens, closes);
    if j < |v| {
      BracketsRead(rule, p, s, o, k, opens, closes, j - k);
      BracketsRead(rule, p, s, o, k, opens, closes, j + 1 - k);
      if j - k < opens { assert v[j] == p.open; }
    }
  }

  /** Behind a disputed character some run of brackets closes under one rule and not under the other. */
  lemma DisputeShows(p: Pair, s: string, o: nat, i: nat) returns (t: string)
    requires IsBracketPair(p) && Disputed(p, s, o, i) && Undisputed(p, s, o, i)
    requires forall j: nat :: j < i ==> !Closes(Lookback, p, s, o, j)
    ensures '\\' !in t && !SameMatch(p, s[..i + 1] + t, o)
  {
    var k := i + 1;
    ScansAgree(p, s, o, i);
    var level, m := Level(Lookback, p, s, o, i), ModeAt(Lookback, s, o, i);
    assert Level(Lookback, p, s, o, k) == level && ModeAt(Lookback, s, o, k) == m;
    assert ModeAt(Parity, s, o, k) == Toggle(m, s[i]);
    var low := if ModeAt(Lookback, s, o, k) == Code && (ModeAt(Parity, s, o, k) != Code || s[i] == p.open)
               then Lookback else Parity;
    var high := if low == Lookback then Parity else Lookback;
    var base := Level(low, p, s, o, k);
    var opens: nat := if base > 0 then 0 else 1 - base;
    var closes: nat := base + opens;
    t := Brackets(p, opens, closes);
    BracketsClose(low, p, s, o, k, opens);
    forall j: nat ensures !Closes(high, p, s[..k] + t, o, j) {
      if j < k {
        NothingClosedBefore(p, s, t, o, i, high, j);
      } else {
        BracketsStayOpen(high, p, s, o, k, opens, closes, j);
      }
    }
    assert IsMatch(high, p, s[..k] + t, o, -1) && !IsMatch(low, p, s[..k] + t, o, -1);
  }

  lemma NothingClosedBefore(p: Pair, s: string, t: string, o: nat, i: nat, rule: Rule, j: nat)
    requires IsBracketPair(p) && Disputed(p, s, o, i) && Undisputed(p, s, o, i) && j <= i
    requires forall c: nat :: c < i ==> !Closes(Lookback, p, s, o, c)
    requires rule == Lookback || ModeAt(Lookback, s, o, i) != Code || s[i] != p.close
    ensures !Closes(rule, p, s[..i + 1] + t, o, j)
  {
    ClosesAlike(rule, p, s, t, o, i + 1, j);
    if j < i { ClosesAgree(p, s, o, i, j); } else { ScansAgree(p, s, o, i); }
  }

  /** Main result, both ways: looking back one character finds the match that the language's own escape
      rule finds, in the text and however it is cut off and continued, exactly if no disputed character
      stands before the first match. */
  lemma LookbackIsEnoughExactlyWhen(p: Pair, s: string, o: nat)
    requires IsBracketPair(p)
    ensures (forall k: nat, t: string :: k <= |s| && Adds(p, s, o, k, t) ==> SameMatch(p, s[..k] + t, o)) <==>
            (forall i: nat :: Disputed(p, s, o, i) ==> exists j: nat :: j < i && Closes(Lookback, p, s, o, j))
  {
    if forall i: nat :: Disputed(p, s, o, i) ==> exists j: nat :: j < i && Closes(Lookback, p, s, o, j) {
      forall k: nat, t: string | k <= |s| && Adds(p, s, o, k, t) ensures SameMatch(p, s[..k] + t, o) {
        ContinuationMatches(p, s, o, k, t);
      }
    } else {
      var i: nat :| Disputed(p, s, o, i) && forall j: nat :: j < i ==> !Closes(Lookback, p, s, o, j);
      var first := FirstDisputed(p, s, o, i);
      var t := DisputeShows(p, s, o, first);
      DisputeAdds(p, s, o, first, t);
    }
  }

  lemma ContinuationMatches(p: Pair, s: string, o: nat, k: nat, t: string)
    requires k <= |s| && Adds(p, s, o, k, t)
    requires forall i: nat :: Disputed(p, s, o, i) ==> exists j: nat :: j < i && Closes(Lookback, p, s, o, j)
    ensures SameMatch(p, s[..k] + t, o)
  {
    var v := s[..k] + t;
    forall i: nat | Disputed(p, v, o, i) ensures exists j: nat :: j < i && Closes(Lookback, p, v, o, j) {
      if i >= k { AddsNothingDisputed(p, s, o, k, t, i); }
      DisputedAlike(p, s, t, o, k, i);
      var j: nat :| j < i && Closes(Lookback, p, s, o, j);
      ClosesAlike(Lookback, p, s, t, o, k, j);
    }
    SameMatchIf(p, v, o);
  }

  lemma DisputeAdds(p: Pair, s: string, o: nat, i: nat, t: string)
    requires IsBracketPair(p) && Disputed(p, s, o, i) && '\\' !in t
    ensures Adds(p, s, o, i + 1, t)
  {
    assert s[i] != '\\';
    ReadAlike(Lookback, p, s, t, o, i + 1, i + 1);
  }

  /** Said without the scan: a quote or bracket right behind an even, not empty run of backslashes. */
  predicate Contested(p: Pair, s: string, i: nat) {
    i < |s| && Escaped(Lookback, s, i) && !Escaped(Parity, s, i) && (IsQuote(s[i]) || s[i] == p.open || s[i] == p.close)
  }

  /** Main result, both ways: the same holds from every opening index exactly if the text has no such
      character, which a caller can look for. */
  lemma LookbackIsEnoughEverywhereExactlyWhen(p: Pair, s: string)
    requires IsBracketPair(p)
    ensures (forall o: nat, k: nat, t: string :: k <= |s| && Adds(p, s, o, k, t) ==> SameMatch(p, s[..k] + t, o)) <==>
            (forall i: nat :: !Contested(p, s, i))
  {
    if i: nat :| Contested(p, s, i) {
      assert ModeAt(Lookback, s, i, i) == Code && Disputed(p, s, i, i);
      LookbackIsEnoughExactlyWhen(p, s, i);
    } else {
      forall o: nat, k: nat, t: string | k <= |s| && Adds(p, s, o, k, t) ensures SameMatch(p, s[..k] + t, o) {
        forall i: nat ensures Disputed(p, s, o, i) ==> Contested(p, s, i) {}
        LookbackIsEnoughExactlyWhen(p, s, o);
      }
    }
  }

  /** A string that ends in an escaped backslash: the language closes it, the look back does not. */
  lemma DoubleBackslashHidesClose()
    ensures var braces, s := Pair('{', '}'), "{'\\\\'}";
      IsMatch(Parity, braces, s, 0, 5) && IsMatch(Lookback, braces, s, 0, -1)
  {
  }

  // ---------------------------------------------------------------- what counts and what does not

  /** Neither a quote nor a backslash. */
  predicate IsPlain(s: string) {
    forall k :: 0 <= k < |s| ==> s[k] != '\'' && s[k] != '"' && s[k] != '`' && s[k] != '\\'
  }

  /** Openers minus closers, all counted. */
  function Net(p: Pair, s: string): int {
    if s == "" then 0
    else
      var c := s[|s| - 1];
      Net(p, s[..|s| - 1]) + if c == p.open then 1 else if c == p.close then -1 else 0
  }

  /** On plain text the scan counts every bracket. */
  lemma {:induction false} PlainTextCounts(rule: Rule, p: Pair, s: string, o: nat, i: nat)
    requires o <= i <= |s| && IsPlain(s[..i])
    ensures !Escaped(rule, s, i) && ModeAt(rule, s, o, i) == Code && Level(rule, p, s, o, i) == Net(p, s[o..i])
  {
    if i > 0 { assert s[..i][i - 1] == s[i - 1]; }
    if i > o {
      assert s[..i] == s[..i - 1] + [s[i - 1]];
      PlainTextCounts(rule, p, s, o, i - 1);
      assert s[o..i][..i - o - 1] == s[o..i - 1] && s[o..i][i - o - 1] == s[i - 1];
    }
  }

  /** The mode a quote opens. */
  function Quoting(q: char): Mode
    requires q in {'\'', '"', '`'}
  {
    if q == '\'' then Single else if q == '"' then Double else Template
  }

  /** Plain text, then a text in quotes, up to `k` characters of it. */
  lemma {:induction false} InsideQuotes(rule: Rule, p: Pair, s: string, o: nat, q: char, start: nat, k: nat)
    requires q in {'\'', '"', '`'} && IsBracketPair(p)
    requires o <= start && start + 1 + k <= |s| && IsPlain(s[..start]) && s[start] == q
    requires forall i :: start < i < start + 1 + k ==> s[i] != q && s[i] != '\\'
    ensures !Escaped(rule, s, start + 1 + k) && ModeAt(rule, s, o, start + 1 + k) == Quoting(q)
    ensures Level(rule, p, s, o, start + 1 + k) == Net(p, s[o..start])
  {
    if k == 0 {
      PlainTextCounts(rule, p, s, o, start);
    } else {
      InsideQuotes(rule, p, s, o, q, start, k - 1);
    }
  }

  /** Two texts that end alike are read alike from there, if they were read alike so far. */
  lemma {:induction false} EndsAlike(rule: Rule, p: Pair, s: string, t: string, o: nat, d: nat, e: nat, k: nat)
    requires o <= d <= |s| && o <= e <= |t| && s[d..] == t[e..] && d + k <= |s|
    requires d > 0 && e > 0 && s[d - 1] != '\\' && t[e - 1] != '\\'
    requires ModeAt(rule, s, o, d) == ModeAt(rule, t, o, e) && Level(rule, p, s, o, d) == Level(rule, p, t, o, e)
    ensures e + k <= |t| && Escaped(rule, s, d + k) == Escaped(rule, t, e + k)
    ensures ModeAt(rule, s, o, d + k) == ModeAt(rule, t, o, e + k)
    ensures Level(rule, p, s, o, d + k) == Level(rule, p, t, o, e + k)
  {
    assert |s| - d == |s[d..]| == |t[e..]| == |t| - e;
    if k > 0 {
      EndsAlike(rule, p, s, t, o, d, e, k - 1);
      assert s[d + k - 1] == s[d..][k - 1] == t[e..][k - 1] == t[e + k - 1];
    }
  }

  function Quoted(a: string, q: char, x: string, b: string): string { a + [q] + x + [q] + b }

  /** The text behind the quotes is read in code, at the level in front of them. */
  lemma BehindQuotes(rule: Rule, p: Pair, a: string, q: char, x: string, b: string, o: nat)
    requires q in {'\'', '"', '`'} && IsBracketPair(p) && IsPlain(a) && o <= |a| && q !in x && '\\' !in x
    ensures var s, e := Quoted(a, q, x, b), |a| + |x| + 2;
      && e <= |s| && s[e..] == b && s[e - 1] == q
      && ModeAt(rule, s, o, e) == Code && Level(rule, p, s, o, e) == Net(p, a[o..])
      && forall j: nat :: |a| <= j < e ==> !Closes(rule, p, s, o, j)
  {
    var s, e := Quoted(a, q, x, b), |a| + |x| + 2;
    assert s[..|a|] == a && s[o..|a|] == a[o..];
    forall i | |a| < i < |a| + 1 + |x| ensures s[i] != q && s[i] != '\\' {
      assert s[i] == x[i - |a| - 1] && s[i] in x;
    }
    forall i: nat | |a| < i < e
      ensures !Escaped(rule, s, i) && ModeAt(rule, s, o, i) == Quoting(q) && Level(rule, p, s, o, i) == Net(p, a[o..])
    {
      InsideQuotes(rule, p, s, o, q, |a|, i - |a| - 1);
    }
    assert s[e - 1] == q;
  }

  /** Main result: what stands in quotes of any of the three kinds does not count. Whatever it is, brackets
      included, the same brackets behind it close, and none within it does. */
  lemma QuotesHideBrackets(rule: Rule, p: Pair, a: string, q: char, x: string, y: string, b: string, o: nat, k: nat)
    requires q in {'\'', '"', '`'} && IsBracketPair(p) && IsPlain(a) && o <= |a|
    requires q !in x && '\\' !in x && q !in y && '\\' !in y && k < |b|
    ensures var s, t := Quoted(a, q, x, b), Quoted(a, q, y, b);
      Closes(rule, p, s, o, |a| + |x| + 2 + k) <==> Closes(rule, p, t, o, |a| + |y| + 2 + k)
    ensures forall j: nat :: |a| <= j < |a| + |x| + 2 ==> !Closes(rule, p, Quoted(a, q, x, b), o, j)
  {
    var s, t, d, e := Quoted(a, q, x, b), Quoted(a, q, y, b), |a| + |x| + 2, |a| + |y| + 2;
    BehindQuotes(rule, p, a, q, x, b, o);
    BehindQuotes(rule, p, a, q, y, b, o);
    EndsAlike(rule, p, s, t, o, d, e, k);
    EndsAlike(rule, p, s, t, o, d, e, k + 1);
    assert s[d + k] == s[d..][k] && t[e + k] == t[e..][k];
  }
}
