/** Keyword heuristics over diff text (`src/scanners/gitDiff.ts`): searches that jump a whole keyword
    after each hit, and the word tokeniser behind `includesAnyWord`. */
module KeywordWindow {
  import opened Text

  // ---------------------------------------------------------------- occurrences

  predicate Contains(text: string, needle: string) {
    exists i: nat :: i <= |text| && OccursAt(text, needle, i)
  }

  ghost predicate NoneBetween(text: string, needle: string, from: nat, to: nat) {
    forall k: nat :: from <= k < to ==> !OccursAt(text, needle, k)
  }

  /** `text.indexOf(needle, from)`: the least occurrence from `from` on. */
  method IndexOf(text: string, needle: string, from: nat) returns (r: Option<nat>)
    ensures IsNext(text, needle, from, r)
  {
    var i := from;
    while i + |needle| <= |text|
      invariant from <= i
      invariant NoneBetween(text, needle, from, i)
      decreases |text| - i
    {
      if OccursAt(text, needle, i) { return Some(i); }
      i := i + 1;
    }
    return None;
  }

  /** The hits of a search from `from` that jumps over each hit. */
  function Hits(text: string, needle: string, from: nat): seq<nat>
    requires needle != ""
    decreases |text| - from
  {
    if from + |needle| > |text| then []
    else if OccursAt(text, needle, from) then [from] + Hits(text, needle, from + |needle|)
    else Hits(text, needle, from + 1)
  }

  /** An occurrence that is not a hit overlaps a hit before it. */
  lemma {:induction false} MissedOverlaps(text: string, needle: string, from: nat, p: nat) returns (q: nat)
    requires needle != "" && from <= p && OccursAt(text, needle, p) && p !in Hits(text, needle, from)
    ensures OccursAt(text, needle, q) && q < p < q + |needle| && q in Hits(text, needle, from)
    decreases |text| - from
  {
    if !OccursAt(text, needle, from) {
      q := MissedOverlaps(text, needle, from + 1, p);
    } else if p < from + |needle| {
      q := from;
    } else {
      q := MissedOverlaps(text, needle, from + |needle|, p);
    }
  }

  // ---------------------------------------------------------------- keyword windows

  predicate IsAsciiWordChar(c: char) {
    '0' <= c <= '9' || 'A' <= c <= 'Z' || 'a' <= c <= 'z' || c == '_'
  }

  predicate AllWordChars(s: string) { forall c :: c in s ==> IsAsciiWordChar(c) }

  predicate Delimited(text: string, keyword: string, i: nat)
    requires OccursAt(text, keyword, i)
  {
    && (i == 0 || !IsAsciiWordChar(text[i - 1]))
    && (i + |keyword| == |text| || !IsAsciiWordChar(text[i + |keyword|]))
  }

  function Window(text: string, i: nat, size: nat): string
    requires i <= |text|
  {
    text[i..if i + size < |text| then i + size else |text|]
  }

  predicate MatchAt(text: string, needle: string, size: nat, wanted: string -> bool, delimited: bool, i: nat) {
    OccursAt(text, needle, i) && (delimited ==> Delimited(text, needle, i)) && wanted(Window(text, i, size))
  }

  /** What the two search loops compute: some hit from `from` on is a match. */
  predicate Finds(text: string, needle: string, size: nat, wanted: string -> bool, delimited: bool, from: nat)
    requires needle != ""
    decreases |text| - from
  {
    from + |needle| <= |text| &&
    if OccursAt(text, needle, from)
    then MatchAt(text, needle, size, wanted, delimited, from) ||
      Finds(text, needle, size, wanted, delimited, from + |needle|)
    else Finds(text, needle, size, wanted, delimited, from + 1)
  }

  lemma {:induction false} FindsSkips(text: string, needle: string, size: nat, wanted: string -> bool,
                                      delimited: bool, from: nat, to: nat)
    requires needle != "" && from <= to && to <= |text| + 1 && NoneBetween(text, needle, from, to)
    ensures Finds(text, needle, size, wanted, delimited, from) == Finds(text, needle, size, wanted, delimited, to)
    decreases |text| + 1 - from
  {
    if from < to && from + |needle| <= |text| { FindsSkips(text, needle, size, wanted, delimited, from + 1, to); }
  }

  /** What `indexOf` from `from` on returned. */
  ghost predicate IsNext(text: string, needle: string, from: nat, index: Option<nat>) {
    match index
    case None => NoneBetween(text, needle, from, |text| + 1)
    case Some(at) => from <= at && OccursAt(text, needle, at) && NoneBetween(text, needle, from, at)
  }

  /** What is left to find once `index` is the next occurrence. */
  ghost predicate FindsAt(text: string, needle: string, size: nat, wanted: string -> bool, delimited: bool,
                          index: Option<nat>)
    requires needle != ""
  {
    index.Some? && (MatchAt(text, needle, size, wanted, delimited, index.value) ||
                    Finds(text, needle, size, wanted, delimited, index.value + |needle|))
  }

  lemma FindsNext(text: string, needle: string, size: nat, wanted: string -> bool, delimited: bool,
                  from: nat, index: Option<nat>)
    requires needle != "" && from <= |text| && IsNext(text, needle, from, index)
    ensures Finds(text, needle, size, wanted, delimited, from) == FindsAt(text, needle, size, wanted, delimited, index)
    ensures index.Some? ==> from <= index.value && OccursAt(text, needle, index.value)
  {
    FindsSkips(text, needle, size, wanted, delimited, from, if index.Some? then index.value else |text| + 1);
  }

  method IsKeywordMatch(text: string, keyword: string, windowSize: nat, wanted: string -> bool, at: nat)
    returns (b: bool)
    requires OccursAt(text, keyword, at)
    ensures b == MatchAt(text, keyword, windowSize, wanted, true, at)
  {
    var before := if at == 0 then None else Some(text[at - 1]);
    var after := if at + |keyword| < |text| then Some(text[at + |keyword|]) else None;
    if (before.Some? && IsAsciiWordChar(before.value)) || (after.Some? && IsAsciiWordChar(after.value)) {
      return false;
    }
    b := wanted(Window(text, at, windowSize));
  }

  /** The next occurrence, and what the search that goes on there finds. */
  method NextHit(text: string, needle: string, from: nat, ghost size: nat, ghost wanted: string -> bool,
                 ghost delimited: bool)
    returns (index: Option<nat>)
    requires needle != "" && from <= |text|
    ensures Finds(text, needle, size, wanted, delimited, from) == FindsAt(text, needle, size, wanted, delimited, index)
    ensures index.Some? ==> from <= index.value && OccursAt(text, needle, index.value)
  {
    index := IndexOf(text, needle, from);
    FindsNext(text, needle, size, wanted, delimited, from, index);
  }

  method HasKeywordWindowMatch(text: string, keyword: string, windowSize: nat, wanted: string -> bool)
    returns (found: bool)
    requires keyword != ""
    ensures found == Finds(text, keyword, windowSize, wanted, true, 0)
  {
    ghost var answer := Finds(text, keyword, windowSize, wanted, true, 0);
    var index := NextHit(text, keyword, 0, windowSize, wanted, true);
    while index.Some?
      invariant index.Some? ==> OccursAt(text, keyword, index.value)
      invariant answer == FindsAt(text, keyword, windowSize, wanted, true, index)
      decreases index.Some?, if index.Some? then |text| - index.value else 0
    {
      var matched := IsKeywordMatch(text, keyword, windowSize, wanted, index.value);
      if matched { return true; }
      index := NextHit(text, keyword, index.value + |keyword|, windowSize, wanted, true);
    }
    return false;
  }

  lemma PlainMatch(text: string, needle: string, size: nat, wanted: string -> bool, at: nat)
    requires OccursAt(text, needle, at)
    ensures MatchAt(text, needle, size, wanted, false, at) == wanted(Window(text, at, size))
  {
  }

  method HasWindowMatch(text: string, needle: string, windowSize: nat, wanted: string -> bool) returns (found: bool)
    requires needle != ""
    ensures found == Finds(text, needle, windowSize, wanted, false, 0)
  {
    ghost var answer := Finds(text, needle, windowSize, wanted, false, 0);
    var index := NextHit(text, needle, 0, windowSize, wanted, false);
    while index.Some?
      invariant index.Some? ==> OccursAt(text, needle, index.value)
      invariant answer == FindsAt(text, needle, windowSize, wanted, false, index)
      decreases index.Some?, if index.Some? then |text| - index.value else 0
    {
      PlainMatch(text, needle, windowSize, wanted, index.value);
      var matched := wanted(Window(text, index.value, windowSize));
      if matched { return true; }
      index := NextHit(text, needle, index.value + |needle|, windowSize, wanted, false);
    }
    return false;
  }

  lemma {:induction false} FindsAmongHits(text: string, needle: string, size: nat, wanted: string -> bool,
                                          delimited: bool, from: nat)
    requires needle != ""
    ensures Finds(text, needle, size, wanted, delimited, from) <==>
            exists i: nat :: i in Hits(text, needle, from) && MatchAt(text, needle, size, wanted, delimited, i)
    decreases |text| - from
  {
    if from + |needle| <= |text| {
      if OccursAt(text, needle, from) {
        var later := Hits(text, needle, from + |needle|);
        FindsAmongHits(text, needle, size, wanted, delimited, from + |needle|);
        assert Hits(text, needle, from) == [from] + later;
        assert forall i: nat :: i in [from] + later <==> i == from || i in later;
      } else {
        FindsAmongHits(text, needle, size, wanted, delimited, from + 1);
      }
    }
  }

  /** The search sees every match. */
  ghost predicate Complete(text: string, needle: string, size: nat, wanted: string -> bool, delimited: bool)
    requires needle != ""
  {
    Finds(text, needle, size, wanted, delimited, 0) <==>
      exists i: nat :: MatchAt(text, needle, size, wanted, delimited, i)
  }

  lemma CompleteIfAllHit(text: string, needle: string, size: nat, wanted: string -> bool, delimited: bool)
    requires needle != ""
    requires forall p: nat :: MatchAt(text, needle, size, wanted, delimited, p) ==> p in Hits(text, needle, 0)
    ensures Complete(text, needle, size, wanted, delimited)
  {
    FindsAmongHits(text, needle, size, wanted, delimited, 0);
  }

  lemma InsideIsNotDelimited(text: string, keyword: string, q: nat, p: nat)
    requires AllWordChars(keyword) && OccursAt(text, keyword, q) && OccursAt(text, keyword, p) && q < p < q + |keyword|
    ensures !Delimited(text, keyword, p)
  {
  }

  /** Main result: for keywords made of word characters the jump loses nothing. The search is true
      exactly if some delimited occurrence has a wanted window. */
  lemma KeywordSearchIsComplete(text: string, keyword: string, size: nat, wanted: string -> bool)
    requires keyword != "" && AllWordChars(keyword)
    ensures Complete(text, keyword, size, wanted, true)
  {
    forall p: nat | MatchAt(text, keyword, size, wanted, true, p) ensures p in Hits(text, keyword, 0) {
      if p !in Hits(text, keyword, 0) {
        var q := MissedOverlaps(text, keyword, 0, p);
        InsideIsNotDelimited(text, keyword, q, p);
      }
    }
    CompleteIfAllHit(text, keyword, size, wanted, true);
  }

  // ---------------------------------------------------------------- windows without delimiters

  /** Some proper prefix of the needle is also a suffix of it, so two occurrences can overlap. */
  predicate Bordered(needle: string) {
    exists b: nat :: 0 < b < |needle| && needle[|needle| - b..] == needle[..b]
  }

  lemma OverlapMeansBorder(text: string, needle: string, q: nat, p: nat)
    requires OccursAt(text, needle, q) && OccursAt(text, needle, p) && q < p < q + |needle|
    ensures Bordered(needle)
  {
    var b := q + |needle| - p;
    assert text[p..q + |needle|] == text[q..q + |needle|][|needle| - b..];
    assert text[p..q + |needle|] == text[p..p + |needle|][..b];
  }

  lemma UnborderedIsComplete(text: string, needle: string, size: nat, wanted: string -> bool)
    requires needle != "" && !Bordered(needle)
    ensures Complete(text, needle, size, wanted, false)
  {
    forall p: nat | MatchAt(text, needle, size, wanted, false, p) ensures p in Hits(text, needle, 0) {
      if p !in Hits(text, needle, 0) {
        var q := MissedOverlaps(text, needle, 0, p);
        OverlapMeansBorder(text, needle, q, p);
      }
    }
    CompleteIfAllHit(text, needle, size, wanted, false);
  }

  lemma TwoCopies(needle: string, b: nat)
    requires 0 < b < |needle| && needle[|needle| - b..] == needle[..b]
    ensures var text := needle + needle[b..]; OccursAt(text, needle, 0) && OccursAt(text, needle, |needle| - b)
  {
  }

  lemma OnlyFirstIsHit(text: string, needle: string, size: nat, wanted: string -> bool)
    requires needle != "" && OccursAt(text, needle, 0) && |text| < 2 * |needle|
    ensures Finds(text, needle, size, wanted, false, 0) == wanted(Window(text, 0, size))
  {
  }

  /** Two overlapping copies of a bordered needle: the second is jumped over. */
  lemma BorderedLoses(needle: string, b: nat) returns (text: string, wanted: string -> bool)
    requires 0 < b < |needle| && needle[|needle| - b..] == needle[..b]
    ensures needle != "" && !Complete(text, needle, |text|, wanted, false)
  {
    text := needle + needle[b..];
    wanted := w => |w| == |needle|;
    TwoCopies(needle, b);
    assert Window(text, |needle| - b, |text|) == text[|needle| - b..];
    assert MatchAt(text, needle, |text|, wanted, false, |needle| - b);
    OnlyFirstIsHit(text, needle, |text|, wanted);
  }

  /** Main result, both ways: the plain window search is complete on every text, for every window
      size and every wanted property, exactly for the needles without a border. */
  lemma WindowSearchCompleteExactlyWhen(needle: string)
    requires needle != ""
    ensures (forall text, size, wanted: string -> bool :: Complete(text, needle, size, wanted, false)) <==>
            !Bordered(needle)
  {
    if !Bordered(needle) {
      forall text, size, wanted: string -> bool ensures Complete(text, needle, size, wanted, false) {
        UnborderedIsComplete(text, needle, size, wanted);
      }
    } else {
      var b: nat :| 0 < b < |needle| && needle[|needle| - b..] == needle[..b];
      var text, wanted := BorderedLoses(needle, b);
    }
  }

  // ---------------------------------------------------------------- matches on the text

  /** A letter, a digit or an underscore. */
  predicate InKeyword(c: char) {
    'a' <= c <= 'z' || 'A' <= c <= 'Z' || '0' <= c <= '9' || c == '_'
  }

  /** The first `size` characters, or all there are. */
  function Front(s: string, size: nat): string { if size < |s| then s[..size] else s }

  /** The needle between `a` and `b`, apart from word characters if it must be, with a wanted window from it on. */
  predicate StandsBetween(needle: string, size: nat, wanted: string -> bool, delimited: bool, a: string, b: string) {
    && wanted(Front(needle + b, size))
    && (delimited ==> (a == "" || !InKeyword(a[|a| - 1])) && (b == "" || !InKeyword(b[0])))
  }

  ghost predicate Stands(text: string, needle: string, size: nat, wanted: string -> bool, delimited: bool) {
    exists a, b :: text == a + needle + b && StandsBetween(needle, size, wanted, delimited, a, b)
  }

  lemma MatchIsBetween(text: string, needle: string, size: nat, wanted: string -> bool, delimited: bool, i: nat)
    requires OccursAt(text, needle, i)
    ensures var a, b := text[..i], text[i + |needle|..];
      text == a + needle + b &&
      (MatchAt(text, needle, size, wanted, delimited, i) <==> StandsBetween(needle, size, wanted, delimited, a, b))
  {
    var a, b := text[..i], text[i + |needle|..];
    assert text == a + text[i..i + |needle|] + b;
    assert text[i..] == needle + b;
    assert Window(text, i, size) == Front(text[i..], size);
  }

  /** Both ways: some occurrence is a match exactly if the text can be divided so. */
  lemma MatchesAsStands(text: string, needle: string, size: nat, wanted: string -> bool, delimited: bool)
    ensures (exists i: nat :: MatchAt(text, needle, size, wanted, delimited, i)) <==>
            Stands(text, needle, size, wanted, delimited)
  {
    if i: nat :| MatchAt(text, needle, size, wanted, delimited, i) {
      MatchIsBetween(text, needle, size, wanted, delimited, i);
    }
    if a, b :| text == a + needle + b && StandsBetween(needle, size, wanted, delimited, a, b) {
      assert text[|a|..|a| + |needle|] == needle;
      assert OccursAt(text, needle, |a|) && text[..|a|] == a && text[|a| + |needle|..] == b;
      MatchIsBetween(text, needle, size, wanted, delimited, |a|);
    }
  }

  /** Main result, both ways: the keyword search is true exactly if the keyword stands somewhere in the text with no
      letter, digit or underscore next to it and a wanted window from it on; and so is the plain search,
      wherever the needle stands, if the needle has no border. */
  lemma SearchesFindWhatStands(text: string, needle: string, size: nat, wanted: string -> bool)
    requires needle != ""
    ensures (forall c <- needle :: InKeyword(c)) ==>
              (Finds(text, needle, size, wanted, true, 0) <==> Stands(text, needle, size, wanted, true))
    ensures !Bordered(needle) ==>
              (Finds(text, needle, size, wanted, false, 0) <==> Stands(text, needle, size, wanted, false))
  {
    MatchesAsStands(text, needle, size, wanted, true);
    MatchesAsStands(text, needle, size, wanted, false);
    if forall c <- needle :: InKeyword(c) {
      KeywordSearchIsComplete(text, needle, size, wanted);
    }
    if !Bordered(needle) { UnborderedIsComplete(text, needle, size, wanted); }
  }

  // ---------------------------------------------------------------- words

  /** The word characters left after lower-casing. */
  predicate IsWord(c: char) {
    '0' <= c <= '9' || 'a' <= c <= 'z' || c == '_'
  }

  predicate PlainWord(w: string) { forall c :: c in w ==> IsWord(c) }

  function TakeWord(s: string): (r: string)
    ensures r <= s && forall c :: c in r ==> IsWord(c)
    ensures |r| < |s| ==> !IsWord(s[|r|])
  {
    if s != "" && IsWord(s[0]) then [s[0]] + TakeWord(s[1..]) else ""
  }

  /** The maximal runs of word characters, in order. */
  function Words(s: string): (ws: seq<string>)
    ensures forall w :: w in ws ==> w != "" && PlainWord(w)
    decreases |s|
  {
    if s == "" then []
    else if !IsWord(s[0]) then Words(s[1..])
    else
      var w := TakeWord(s);
      [w] + Words(s[|w|..])
  }

  function Spaced(ws: seq<string>): string {
    " " + Trailed(ws)
  }

  function Trailed(ws: seq<string>): string {
    if ws == [] then "" else ws[0] + " " + Trailed(ws[1..])
  }

  /** What is still to be written when `rest` is left to read. */
  function Remaining(rest: string, lastWasSpace: bool): string {
    if lastWasSpace then Trailed(Words(rest))
    else TakeWord(rest) + " " + Trailed(Words(rest[|TakeWord(rest)|..]))
  }

  lemma ReadWordChar(rest: string, lastWasSpace: bool)
    requires rest != "" && IsWord(rest[0])
    ensures Remaining(rest, lastWasSpace) == [rest[0]] + Remaining(rest[1..], false)
  {
    WordGoesOn(rest);
    var w, v := TakeWord(rest), TakeWord(rest[1..]);
    Regroup(rest[0], v, Trailed(Words(rest[|w|..])));
  }

  lemma WordGoesOn(rest: string)
    requires rest != "" && IsWord(rest[0])
    ensures var w, v := TakeWord(rest), TakeWord(rest[1..]);
      && w == [rest[0]] + v && rest[|w|..] == rest[1..][|v|..]
      && Trailed(Words(rest)) == w + " " + Trailed(Words(rest[|w|..]))
  {
    var w := TakeWord(rest);
    assert ([w] + Words(rest[|w|..]))[1..] == Words(rest[|w|..]);
  }

  lemma Regroup(c: char, v: string, x: string)
    ensures ([c] + v) + " " + x == [c] + (v + " " + x)
  {
  }

  lemma ReadOther(rest: string, lastWasSpace: bool)
    requires rest != "" && !IsWord(rest[0])
    ensures Remaining(rest, lastWasSpace) == (if lastWasSpace then "" else " ") + Remaining(rest[1..], true)
  {
  }

  ghost predicate WrittenSoFar(lower: string, normalized: string, i: nat, lastWasSpace: bool)
    requires i <= |lower|
  {
    Spaced(Words(lower)) == normalized + Remaining(lower[i..], lastWasSpace)
  }

  lemma WriteOne(lower: string, normalized: string, i: nat, lastWasSpace: bool)
    requires i < |lower| && WrittenSoFar(lower, normalized, i, lastWasSpace)
    ensures var piece := if IsWord(lower[i]) then [lower[i]] else if lastWasSpace then "" else " ";
      WrittenSoFar(lower, normalized + piece, i + 1, !IsWord(lower[i]))
  {
    var rest := lower[i..];
    assert rest[1..] == lower[i + 1..];
    if IsWord(lower[i]) { ReadWordChar(rest, lastWasSpace); } else { ReadOther(rest, lastWasSpace); }
    var piece := if IsWord(lower[i]) then [lower[i]] else if lastWasSpace then "" else " ";
    Written(normalized, piece, Remaining(lower[i + 1..], !IsWord(lower[i])));
  }

  lemma Written(normalized: string, piece: string, after: string)
    ensures normalized + (piece + after) == (normalized + piece) + after
  {
  }

  method NormalizeWords(text: string) returns (normalized: string)
    ensures normalized == Spaced(Words(Lower(text)))
  {
    var lower := Lower(text);
    normalized := " ";
    var lastWasSpace := true;
    assert lower[0..] == lower;
    for i := 0 to |lower|
      invariant WrittenSoFar(lower, normalized, i, lastWasSpace)
    {
      WriteOne(lower, normalized, i, lastWasSpace);
      assert normalized + "" == normalized;
      if IsWord(lower[i]) {
        normalized := normalized + [lower[i]];
        lastWasSpace := false;
      } else if !lastWasSpace {
        normalized := normalized + " ";
        lastWasSpace := true;
      }
    }
    assert Remaining("", lastWasSpace) == if lastWasSpace then "" else " ";
    if !lastWasSpace { normalized := normalized + " "; }
  }

  /** The words from the `i`th up to the `j`th, spaced. */
  ghost predicate IsPhrase(ws: seq<string>, needle: string, i: nat, j: nat) {
    i < j <= |ws| && needle == Spaced(ws[i..j])
  }

  lemma SpacedFirst(ws: seq<string>)
    requires ws != []
    ensures Spaced(ws) == " " + ws[0] + Spaced(ws[1..])
  {
  }

  lemma SpacedOne(u: string)
    ensures Spaced([u]) == " " + u + " "
  {
    assert [u][1..] == [] && Trailed([]) == "";
    assert Trailed([u]) == u + " " + "";
  }

  /** A spaced text that begins like the words and ends in a space is the spaced text of some first words. */
  lemma {:induction false} PhraseAtFront(ws: seq<string>, needle: string) returns (j: nat)
    requires forall u :: u in ws ==> PlainWord(u)
    requires |needle| >= 2 && needle[|needle| - 1] == ' ' && OccursAt(Spaced(ws), needle, 0)
    ensures IsPhrase(ws, needle, 0, j)
  {
    var s, n := Spaced(ws), |needle|;
    assert s[0..n] == needle;
    var u, rest := ws[0], ws[1..];
    assert u in ws;
    SpacedFirst(ws);
    assert forall k :: 0 < k <= |u| ==> s[k] == u[k - 1] && u[k - 1] in u;
    assert n >= |u| + 2 by { assert s[n - 1] == ' '; }
    assert s[|u| + 1..] == Spaced(rest);
    if n == |u| + 2 {
      j := 1;
      assert ws[0..1] == [u] && needle == s[..n] == " " + u + " ";
      SpacedOne(u);
    } else {
      var tail := needle[|u| + 1..];
      assert Spaced(rest)[0..|tail|] == s[|u| + 1..][..|tail|] == tail;
      var i := PhraseAtFront(rest, tail);
      j := i + 1;
      assert ws[0..j] == [u] + rest[0..i];
      SpacedFirst(ws[0..j]);
      assert ws[0..j][1..] == rest[0..i];
      assert needle == needle[..|u| + 1] + tail && needle[..|u| + 1] == " " + u;
    }
  }

  /** Spaces in a spaced text stand only between words, so what is spaced in it is a run of its words. */
  lemma {:induction false} OccurrenceIsPhrase(ws: seq<string>, needle: string, at: nat) returns (i: nat, j: nat)
    requires forall u :: u in ws ==> PlainWord(u)
    requires |needle| >= 2 && needle[0] == needle[|needle| - 1] == ' ' && OccursAt(Spaced(ws), needle, at)
    ensures IsPhrase(ws, needle, i, j)
    decreases |ws|
  {
    if at == 0 {
      i := 0;
      j := PhraseAtFront(ws, needle);
    } else {
      NotEmpty(ws, needle, at);
      RestIsPlain(ws);
      LaterOccurrence(ws, needle, at);
      i, j := OccurrenceIsPhrase(ws[1..], needle, at - |ws[0]| - 1);
      PhraseOfRest(ws, needle, i, j);
      i, j := i + 1, j + 1;
    }
  }

  lemma NotEmpty(ws: seq<string>, needle: string, at: nat)
    requires |needle| >= 2 && OccursAt(Spaced(ws), needle, at)
    ensures ws != []
  {
  }

  lemma RestIsPlain(ws: seq<string>)
    requires forall u :: u in ws ==> PlainWord(u)
    ensures ws != [] ==> PlainWord(ws[0]) && forall u :: u in ws[1..] ==> PlainWord(u)
  {
    if ws != [] { assert ws == [ws[0]] + ws[1..]; }
  }

  lemma BehindFirst(ws: seq<string>)
    requires ws != []
    ensures |Spaced(ws)| > |ws[0]| && Spaced(ws)[|ws[0]| + 1..] == Spaced(ws[1..])
  {
    SpacedFirst(ws);
  }

  /** In a spaced text the only space before the end of the first word is the first one. */
  lemma InsideWord(ws: seq<string>, at: nat)
    requires ws != [] && PlainWord(ws[0]) && 0 < at <= |ws[0]|
    ensures at < |Spaced(ws)| && Spaced(ws)[at] != ' '
  {
    SpacedFirst(ws);
    assert Spaced(ws)[at] == ws[0][at - 1];
    assert ws[0][at - 1] in ws[0];
  }

  lemma LaterOccurrence(ws: seq<string>, needle: string, at: nat)
    requires ws != [] && PlainWord(ws[0]) && at > 0
    requires needle != "" && needle[0] == ' ' && OccursAt(Spaced(ws), needle, at)
    ensures at > |ws[0]| && OccursAt(Spaced(ws[1..]), needle, at - |ws[0]| - 1)
  {
    assert Spaced(ws)[at] == Spaced(ws)[at..at + |needle|][0];
    if at <= |ws[0]| { InsideWord(ws, at); }
    OccursBehind(Spaced(ws), needle, |ws[0]| + 1, at);
    BehindFirst(ws);
  }

  lemma PhraseOfRest(ws: seq<string>, needle: string, i: nat, j: nat)
    requires ws != [] && IsPhrase(ws[1..], needle, i, j)
    ensures IsPhrase(ws, needle, i + 1, j + 1)
  {
    var a, b := ws[i + 1..j + 1], ws[1..][i..j];
    forall k | 0 <= k < j - i ensures a[k] == b[k] { assert a[k] == ws[i + 1 + k] == ws[1..][i + k]; }
    assert a == b;
  }

  lemma {:induction false} SpacedAppend(a: seq<string>, b: seq<string>)
    ensures Trailed(a + b) == Trailed(a) + Trailed(b)
  {
    if a == [] {
      assert a + b == b;
    } else {
      assert (a + b)[1..] == a[1..] + b;
      SpacedAppend(a[1..], b);
    }
  }

  lemma {:induction false} TrailedEndsInSpace(ws: seq<string>)
    ensures (" " + Trailed(ws))[|Trailed(ws)|] == ' '
  {
    if ws != [] { TrailedEndsInSpace(ws[1..]); }
  }

  lemma PhraseOccurs(ws: seq<string>, needle: string, i: nat, j: nat)
    requires IsPhrase(ws, needle, i, j)
    ensures Contains(Spaced(ws), needle)
  {
    assert ws == ws[..i] + (ws[i..j] + ws[j..]);
    SpacedAppend(ws[..i], ws[i..j] + ws[j..]);
    SpacedAppend(ws[i..j], ws[j..]);
    var a, b, c := Trailed(ws[..i]), Trailed(ws[i..j]), Trailed(ws[j..]);
    TrailedEndsInSpace(ws[..i]);
    OccursBetween(a, b, c);
    assert OccursAt(Spaced(ws), needle, |a|);
  }

  lemma OccursBetween(a: string, b: string, c: string)
    requires (" " + a)[|a|] == ' '
    ensures OccursAt(" " + (a + (b + c)), " " + b, |a|)
  {
    var s := " " + (a + (b + c));
    assert s[|a|] == (" " + a)[|a|];
    assert s[|a| + 1..|a| + 1 + |b|] == b;
  }

  method IncludesAnyWord(text: string, words: seq<string>) returns (found: bool)
    ensures found <==> exists w :: w in words && Contains(Spaced(Words(Lower(text))), " " + Lower(w) + " ")
  {
    var normalized := NormalizeWords(text);
    return exists w :: w in words && Contains(normalized, " " + Lower(w) + " ");
  }

  /** Main result, for any list of words: `includesAnyWord` is true exactly if one of them, upper and lower
      case aside, is a run of whole words of the text with single spaces between them. The empty word
      and words with other characters never are. */
  lemma IncludesPhrases(text: string, words: seq<string>)
    ensures (exists w :: w in words && Contains(Spaced(Words(Lower(text))), " " + Lower(w) + " ")) <==>
            (exists w, i: nat, j: nat :: w in words && IsPhrase(Words(Lower(text)), " " + Lower(w) + " ", i, j))
  {
    var ws := Words(Lower(text));
    forall w | w in words
      ensures Contains(Spaced(ws), " " + Lower(w) + " ") <==>
              exists i: nat, j: nat :: IsPhrase(ws, " " + Lower(w) + " ", i, j)
    {
      var needle := " " + Lower(w) + " ";
      if Contains(Spaced(ws), needle) {
        var at: nat :| at <= |Spaced(ws)| && OccursAt(Spaced(ws), needle, at);
        var i, j := OccurrenceIsPhrase(ws, needle, at);
      }
      if i: nat, j: nat :| IsPhrase(ws, needle, i, j) { PhraseOccurs(ws, needle, i, j); }
    }
  }

  /** A single plain word is such a run exactly if it is one of the words. */
  lemma OneWordPhrase(ws: seq<string>, w: string)
    requires PlainWord(w) && forall u :: u in ws ==> u != "" && PlainWord(u)
    ensures (exists i: nat, j: nat :: IsPhrase(ws, " " + w + " ", i, j)) <==> w in ws
  {
    if w in ws {
      var i :| 0 <= i < |ws| && ws[i] == w;
      assert ws[i..i + 1] == [w];
      SpacedOne(w);
      assert IsPhrase(ws, " " + w + " ", i, i + 1);
    }
    if i: nat, j: nat :| IsPhrase(ws, " " + w + " ", i, j) {
      var u, rest := ws[i], ws[i..j][1..];
      assert u in ws && ws[i..j][0] == u;
      assert (" " + w + " ")[1..] == w + [' '] + "" && Spaced(ws[i..j])[1..] == u + [' '] + Trailed(rest);
      SplitFirst(w, "", u, Trailed(rest), ' ');
    }
  }

  /** So for a list of plain words `includesAnyWord` is true exactly if one of them is a whole word. */
  lemma IncludesWholeWords(text: string, words: seq<string>)
    requires forall w :: w in words ==> PlainWord(Lower(w))
    ensures (exists w :: w in words && Contains(Spaced(Words(Lower(text))), " " + Lower(w) + " ")) <==>
            (exists w :: w in words && Lower(w) in Words(Lower(text)))
  {
    IncludesPhrases(text, words);
    forall w | w in words
      ensures (exists i: nat, j: nat :: IsPhrase(Words(Lower(text)), " " + Lower(w) + " ", i, j)) <==>
              Lower(w) in Words(Lower(text))
    {
      OneWordPhrase(Words(Lower(text)), Lower(w));
    }
  }

  // ---------------------------------------------------------------- words are runs

  /** A small letter, a digit or an underscore. */
  predicate InWord(c: char) { 'a' <= c <= 'z' || '0' <= c <= '9' || c == '_' }

  /** A run of word characters from `i` to `j` that goes on on neither side. */
  predicate IsRun(s: string, i: nat, j: nat) {
    && i < j <= |s| && (forall k :: i <= k < j ==> InWord(s[k]))
    && (i == 0 || !InWord(s[i - 1])) && (j == |s| || !InWord(s[j]))
  }

  lemma TakenIsRun(s: string, k: nat)
    requires k < |s| && IsWord(s[k]) && (k == 0 || !IsWord(s[k - 1]))
    ensures var j := k + |TakeWord(s[k..])|; j <= |s| && IsRun(s, k, j) && s[k..j] == TakeWord(s[k..])
  {
    var w := TakeWord(s[k..]);
    var j := k + |w|;
    forall i | k <= i < j ensures InWord(s[i]) { assert s[i] == w[i - k] && w[i - k] in w; }
    assert j < |s| ==> s[k..][|w|] == s[j];
    assert w != "";
  }

  lemma RunsDoNotOverlap(s: string, i: nat, j: nat, k: nat, l: nat)
    requires IsRun(s, i, j) && IsRun(s, k, l) && i <= k < j
    ensures i == k && j == l
  {
  }

  /** `w` is a run of the text that begins at `k` or later. */
  ghost predicate RunFrom(s: string, k: nat, w: string) {
    exists i: nat, j: nat :: k <= i && IsRun(s, i, j) && s[i..j] == w
  }

  lemma RunsAfter(s: string, k: nat, w: string)
    requires k < |s| && (k == 0 || !IsWord(s[k - 1]) || !IsWord(s[k]))
    ensures !IsWord(s[k]) ==> (RunFrom(s, k, w) <==> RunFrom(s, k + 1, w))
    ensures IsWord(s[k]) ==>
              var l := k + |TakeWord(s[k..])|; l <= |s| && (RunFrom(s, k, w) <==> w == s[k..l] || RunFrom(s, l, w))
  {
    if IsWord(s[k]) {
      TakenIsRun(s, k);
      var l := k + |TakeWord(s[k..])|;
      if i: nat, j: nat :| k <= i && IsRun(s, i, j) && s[i..j] == w {
        if i < l { RunsDoNotOverlap(s, k, l, i, j); }
      }
    }
  }

  lemma {:induction false} WordsFrom(s: string, k: nat, w: string)
    requires k <= |s| && (k == 0 || k == |s| || !IsWord(s[k - 1]) || !IsWord(s[k]))
    ensures w in Words(s[k..]) <==> RunFrom(s, k, w)
    decreases |s| - k
  {
    if k < |s| {
      var rest := s[k..];
      RunsAfter(s, k, w);
      if !IsWord(rest[0]) {
        assert rest[1..] == s[k + 1..];
        WordsFrom(s, k + 1, w);
      } else {
        TakenIsRun(s, k);
        var l := k + |TakeWord(rest)|;
        assert rest[|TakeWord(rest)|..] == s[l..];
        WordsFrom(s, l, w);
      }
    }
  }

  /** Main result, both ways: the words of a text are its runs of letters, digits and underscores. */
  lemma WordsAreRuns(s: string, w: string)
    ensures w in Words(s) <==> exists i: nat, j: nat :: IsRun(s, i, j) && s[i..j] == w
  {
    WordsFrom(s, 0, w);
    assert s[0..] == s;
  }
}
