/** Making untrusted text safe to print on one terminal line (`src/report/presentation.ts`). The
    slice-based escape stripper is proved equal to a recursive removal of control sequences (CSI as
    in section 5.4 of ECMA-48, OSC closed by BEL or ESC `\`), in a linear number of inspections. */
module TerminalText {
  import opened Text

  const ESCAPE: char := '\U{1B}'
  const BELL: char := '\U{07}'

  // ---------------------------------------------------------------- control sequences

  predicate IsParameter(c: char) { '0' <= c <= '?' }

  predicate IsIntermediate(c: char) { ' ' <= c <= '/' }

  predicate IsFinal(c: char) { '@' <= c <= '~' }

  function ParameterRun(s: string, i: nat): (n: nat)
    requires i <= |s|
    ensures i + n <= |s|
    decreases |s| - i
  {
    if i < |s| && IsParameter(s[i]) then 1 + ParameterRun(s, i + 1) else 0
  }

  function IntermediateRun(s: string, i: nat): (n: nat)
    requires i <= |s|
    ensures i + n <= |s|
    decreases |s| - i
  {
    if i < |s| && IsIntermediate(s[i]) then 1 + IntermediateRun(s, i + 1) else 0
  }

  /** Where a CSI sequence whose bracket is at `i - 1` ends: parameters, intermediates, at most one final. */
  function CsiEnd(s: string, i: nat): (e: nat)
    requires i <= |s|
    ensures i <= e <= |s|
  {
    var p := i + ParameterRun(s, i);
    var q := p + IntermediateRun(s, p);
    if q < |s| && IsFinal(s[q]) then q + 1 else q
  }

  /** Where an operating system command ends: behind its first terminator, or with the text. */
  function OscEnd(s: string, i: nat): (e: nat)
    requires i <= |s|
    ensures i <= e <= |s|
    decreases |s| - i
  {
    if i == |s| then |s|
    else if s[i] == BELL then i + 1
    else if s[i] == ESCAPE && i + 1 < |s| && s[i + 1] == '\\' then i + 2
    else OscEnd(s, i + 1)
  }

  /** Where the sequence that the escape at `i` starts ends. */
  function SequenceEnd(s: string, i: nat): (e: nat)
    requires i < |s| && s[i] == ESCAPE
    ensures i < e <= |s|
  {
    if i + 1 == |s| then |s|
    else if s[i + 1] == '[' then CsiEnd(s, i + 2)
    else if s[i + 1] == ']' then OscEnd(s, i + 2)
    else i + 2
  }

  /** `s[i..]` without its control sequences. */
  function Stripped(s: string, i: nat): string
    requires i <= |s|
    decreases |s| - i
  {
    if i == |s| then ""
    else if s[i] == ESCAPE then Stripped(s, SequenceEnd(s, i))
    else [s[i]] + Stripped(s, i + 1)
  }

  // ---------------------------------------------------------------- the cursor loops

  function Min(a: nat, b: nat): nat { if a < b then a else b }

  /** Its part behind a bracket. */
  method SkipControlSequence(value: string, start: nat) returns (next: nat, ghost inspected: nat)
    requires start <= |value|
    ensures next == CsiEnd(value, start)
    ensures inspected <= next - start + 2
  {
    var cursor := start;
    inspected := 0;
    while cursor < |value| && IsParameter(value[cursor])
      invariant start <= cursor <= |value|
      invariant cursor + ParameterRun(value, cursor) == start + ParameterRun(value, start)
      invariant inspected == cursor - start
    {
      cursor := cursor + 1;
      inspected := inspected + 1;
    }
    ghost var p := cursor;
    inspected := inspected + 1;
    while cursor < |value| && IsIntermediate(value[cursor])
      invariant p <= cursor <= |value|
      invariant cursor + IntermediateRun(value, cursor) == p + IntermediateRun(value, p)
      invariant inspected == cursor - start + 1
    {
      cursor := cursor + 1;
      inspected := inspected + 1;
    }
    inspected := inspected + 1;
    if cursor < |value| && IsFinal(value[cursor]) { cursor := cursor + 1; }
    return cursor, inspected;
  }

  /** `inspected` counts the characters looked at. */
  method SkipTerminalEscapeSequence(value: string, escapeIndex: nat) returns (next: nat, ghost inspected: nat)
    requires escapeIndex < |value| && value[escapeIndex] == ESCAPE
    ensures next == SequenceEnd(value, escapeIndex)
    ensures inspected <= 2 * (next - escapeIndex)
  {
    inspected := 0;
    var nextIndex := escapeIndex + 1;
    if nextIndex >= |value| { return |value|, inspected; }
    var kind := value[nextIndex];
    inspected := 1;

    if kind == '[' {
      var cursor, more := SkipControlSequence(value, nextIndex + 1);
      return cursor, inspected + more;
    }

    if kind == ']' {
      var cursor := nextIndex + 1;
      while cursor < |value|
        invariant nextIndex + 1 <= cursor <= |value|
        invariant OscEnd(value, cursor) == OscEnd(value, nextIndex + 1)
        invariant inspected <= 2 * (cursor - escapeIndex) - 1
      {
        var code := value[cursor];
        inspected := inspected + 1;
        if code == BELL { return cursor + 1, inspected; }
        if code == ESCAPE {
          inspected := inspected + 1;
          if cursor + 1 < |value| && value[cursor + 1] == '\\' { return cursor + 2, inspected; }
        }
        cursor := cursor + 1;
      }
      return |value|, inspected;
    }

    return Min(|value|, escapeIndex + 2), inspected;
  }

  function Concat(parts: seq<string>): string {
    if parts == [] then "" else Concat(parts[..|parts| - 1]) + parts[|parts| - 1]
  }

  /** The parts and the text not yet sliced off, followed by what is still to come, are the whole result. */
  ghost predicate SoFar(value: string, parts: seq<string>, textStart: nat, index: nat) {
    && textStart <= index <= |value|
    && Stripped(value, 0) == Concat(parts) + (value[textStart..index] + Stripped(value, index))
  }

  lemma TextStep(value: string, parts: seq<string>, textStart: nat, index: nat)
    requires SoFar(value, parts, textStart, index) && index < |value| && value[index] != ESCAPE
    ensures SoFar(value, parts, textStart, index + 1)
  {
  }

  lemma SliceStep(value: string, parts: seq<string>, textStart: nat, index: nat)
    requires SoFar(value, parts, textStart, index)
    ensures SoFar(value, if textStart < index then parts + [value[textStart..index]] else parts, index, index)
  {
  }

  method StripTerminalEscapeSequences(value: string) returns (r: string, ghost inspected: nat)
    ensures r == Stripped(value, 0)
    ensures inspected <= 3 * |value|
  {
    var parts: seq<string> := [];
    var index: nat, textStart: nat := 0, 0;
    inspected := 0;
    while index < |value|
      invariant SoFar(value, parts, textStart, index)
      invariant inspected <= 3 * index
    {
      inspected := inspected + 1;
      if value[index] != ESCAPE {
        TextStep(value, parts, textStart, index);
        index := index + 1;
        continue;
      }
      SliceStep(value, parts, textStart, index);
      if textStart < index { parts := parts + [value[textStart..index]]; }
      ghost var escape := index;
      ghost var seen;
      index, seen := SkipTerminalEscapeSequence(value, index);
      inspected := inspected + seen;
      assert Stripped(value, escape) == Stripped(value, index);
      assert value[escape..escape] == value[index..index];
      textStart := index;
    }
    SliceStep(value, parts, textStart, index);
    if textStart < |value| { parts := parts + [value[textStart..]]; }
    r := Concat(parts);
  }

  // ---------------------------------------------------------------- what stripping leaves

  ghost predicate Subsequence(a: string, b: string)
    decreases |b|
  {
    a == "" || (b != "" && (Subsequence(a, b[1..]) || (a[0] == b[0] && Subsequence(a[1..], b[1..]))))
  }

  lemma {:induction false} SubsequenceOfSuffix(a: string, b: string, k: nat)
    requires k <= |b| && Subsequence(a, b[k..])
    ensures Subsequence(a, b)
    decreases k
  {
    if k == 0 {
      assert b[0..] == b;
    } else {
      assert b[k..] == b[1..][k - 1..];
      SubsequenceOfSuffix(a, b[1..], k - 1);
    }
  }

  /** Main result: no escape is left, and nothing is added or reordered. */
  lemma {:induction false} StrippedIsClean(s: string, i: nat)
    requires i <= |s|
    ensures ESCAPE !in Stripped(s, i)
    ensures Subsequence(Stripped(s, i), s[i..])
    decreases |s| - i
  {
    if i < |s| {
      if s[i] == ESCAPE {
        var e := SequenceEnd(s, i);
        StrippedIsClean(s, e);
        assert s[i..][e - i..] == s[e..];
        SubsequenceOfSuffix(Stripped(s, e), s[i..], e - i);
      } else {
        StrippedIsClean(s, i + 1);
        assert s[i..][1..] == s[i + 1..] && Stripped(s, i)[1..] == Stripped(s, i + 1);
      }
    }
  }

  lemma {:induction false} CleanIsKept(s: string, i: nat)
    requires i <= |s| && ESCAPE !in s
    ensures Stripped(s, i) == s[i..]
    decreases |s| - i
  {
    if i < |s| {
      CleanIsKept(s, i + 1);
      assert s[i] in s;
    }
  }

  lemma StrippingIsIdempotent(s: string)
    ensures Stripped(Stripped(s, 0), 0) == Stripped(s, 0)
  {
    StrippedIsClean(s, 0);
    CleanIsKept(Stripped(s, 0), 0);
  }

  // ---------------------------------------------------------------- exactly what is stripped

  predicate AllWithin(s: string, low: char, high: char) { forall c <- s :: low <= c <= high }

  predicate StandsIn(s: string, i: nat, low: char, high: char) { i < |s| && low <= s[i] <= high }

  /** A control sequence from `i` to `e`: parameters up to `p`, intermediates up to `q`, as many as there are, and one
      final character if there is one. */
  ghost predicate IsCsi(s: string, i: nat, e: nat, p: nat, q: nat) {
    && i + 2 <= p <= q <= e <= |s| && s[i] == '\U{1B}' && s[i + 1] == '['
    && AllWithin(s[i + 2..p], '0', '?') && !StandsIn(s, p, '0', '?')
    && AllWithin(s[p..q], ' ', '/') && !StandsIn(s, q, ' ', '/')
    && e == if StandsIn(s, q, '@', '~') then q + 1 else q
  }

  /** How long a terminator at `t` is, if there is one: BEL, or ESC and a backslash. */
  function TerminatorAt(s: string, t: nat): nat {
    if t < |s| && s[t] == '\U{07}' then 1 else if t + 1 < |s| && s[t] == '\U{1B}' && s[t + 1] == '\\' then 2 else 0
  }

  /** An operating system command from `i` to `e`: up to its first terminator, or to the end without one. */
  ghost predicate IsOsc(s: string, i: nat, e: nat) {
    && i + 2 <= e <= |s| && s[i] == '\U{1B}' && s[i + 1] == ']'
    && ((e == |s| && forall t: nat :: i + 2 <= t ==> TerminatorAt(s, t) == 0) ||
        exists t: nat :: i + 2 <= t && TerminatorAt(s, t) > 0 && e == t + TerminatorAt(s, t) &&
          forall u: nat :: i + 2 <= u < t ==> TerminatorAt(s, u) == 0)
  }

  /** What an escape at `i` takes along, up to `e`. */
  ghost predicate IsSequence(s: string, i: nat, e: nat) {
    && i < e <= |s| && s[i] == '\U{1B}'
    && if i + 1 == |s| then e == |s|
       else if s[i + 1] == '[' then exists p: nat, q: nat :: IsCsi(s, i, e, p, q)
       else if s[i + 1] == ']' then IsOsc(s, i, e)
       else e == i + 2
  }

  lemma {:induction false} ParametersRun(s: string, i: nat)
    requires i <= |s|
    ensures var p := i + ParameterRun(s, i); AllWithin(s[i..p], '0', '?') && !StandsIn(s, p, '0', '?')
    decreases |s| - i
  {
    if i < |s| && IsParameter(s[i]) {
      ParametersRun(s, i + 1);
      var p := i + ParameterRun(s, i);
      assert s[i..p] == [s[i]] + s[i + 1..p];
    }
  }

  lemma {:induction false} IntermediatesRun(s: string, i: nat)
    requires i <= |s|
    ensures var q := i + IntermediateRun(s, i); AllWithin(s[i..q], ' ', '/') && !StandsIn(s, q, ' ', '/')
    decreases |s| - i
  {
    if i < |s| && IsIntermediate(s[i]) {
      IntermediatesRun(s, i + 1);
      var q := i + IntermediateRun(s, i);
      assert s[i..q] == [s[i]] + s[i + 1..q];
    }
  }

  lemma {:induction false} OscRun(s: string, i: nat)
    requires i <= |s|
    ensures (OscEnd(s, i) == |s| && forall t: nat :: i <= t ==> TerminatorAt(s, t) == 0) ||
            exists t: nat :: i <= t && TerminatorAt(s, t) > 0 && OscEnd(s, i) == t + TerminatorAt(s, t) &&
              forall u: nat :: i <= u < t ==> TerminatorAt(s, u) == 0
    decreases |s| - i
  {
    if i < |s| && TerminatorAt(s, i) == 0 {
      OscRun(s, i + 1);
      assert OscEnd(s, i) == OscEnd(s, i + 1);
      if t: nat :| i + 1 <= t && TerminatorAt(s, t) > 0 && OscEnd(s, i) == t + TerminatorAt(s, t) &&
                   forall u: nat :: i + 1 <= u < t ==> TerminatorAt(s, u) == 0
      {
        assert forall u: nat :: i <= u < t ==> TerminatorAt(s, u) == 0;
      }
    }
  }

  /** An escape takes along a sequence, and no other than the one it ends. */
  lemma SequenceEndsThere(s: string, i: nat)
    requires i < |s| && s[i] == ESCAPE
    ensures IsSequence(s, i, SequenceEnd(s, i))
  {
    if i + 1 < |s| && s[i + 1] == '[' {
      var p := i + 2 + ParameterRun(s, i + 2);
      var q := p + IntermediateRun(s, p);
      ParametersRun(s, i + 2);
      IntermediatesRun(s, p);
      assert IsCsi(s, i, SequenceEnd(s, i), p, q);
    } else if i + 1 < |s| && s[i + 1] == ']' {
      OscRun(s, i + 2);
    }
  }

  /** Where runs of characters end is settled by the text. */
  lemma RunsEndOnce(s: string, i: nat, p: nat, q: nat, low: char, high: char)
    requires i <= p <= |s| && i <= q <= |s|
    requires AllWithin(s[i..p], low, high) && !StandsIn(s, p, low, high)
    requires AllWithin(s[i..q], low, high) && !StandsIn(s, q, low, high)
    ensures p == q
  {
    if p < q { RunGoesOn(s, i, p, q, low, high); }
    if q < p { RunGoesOn(s, i, q, p, low, high); }
  }

  lemma RunGoesOn(s: string, i: nat, p: nat, q: nat, low: char, high: char)
    requires i <= p < q <= |s| && AllWithin(s[i..q], low, high)
    ensures StandsIn(s, p, low, high)
  {
    assert s[i..q][p - i] == s[p] && s[i..q][p - i] in s[i..q];
  }

  lemma SequenceIsOne(s: string, i: nat, d: nat, e: nat)
    requires IsSequence(s, i, d) && IsSequence(s, i, e)
    ensures d == e
  {
    if i + 1 < |s| && s[i + 1] == '[' {
      var p: nat, q: nat :| IsCsi(s, i, d, p, q);
      var u: nat, v: nat :| IsCsi(s, i, e, u, v);
      RunsEndOnce(s, i + 2, p, u, '0', '?');
      RunsEndOnce(s, p, q, v, ' ', '/');
    }
  }

  /** From `i` on these stretches are the sequences of the text, and no other escape stands in it. */
  ghost predicate AreSequences(s: string, i: nat, cuts: seq<(nat, nat)>)
    requires i <= |s|
    decreases |cuts|
  {
    if cuts == [] then '\U{1B}' !in s[i..]
    else
      var (a, e) := cuts[0];
      i <= a && IsSequence(s, a, e) && '\U{1B}' !in s[i..a] && AreSequences(s, e, cuts[1..])
  }

  /** The text without them. */
  function Without(s: string, i: nat, cuts: seq<(nat, nat)>): string
    requires i <= |s|
    decreases |cuts|
  {
    if cuts == [] || !(i <= cuts[0].0 <= cuts[0].1 <= |s|) then s[i..]
    else s[i..cuts[0].0] + Without(s, cuts[0].1, cuts[1..])
  }

  /** Main result: stripping takes out exactly the control sequences, each as long as the grammar says, and leaves
      all the text between them. */
  lemma {:induction false} StripsExactlySequences(s: string, i: nat) returns (cuts: seq<(nat, nat)>)
    requires i <= |s|
    ensures AreSequences(s, i, cuts) && Stripped(s, i) == Without(s, i, cuts)
    decreases |s| - i
  {
    if i == |s| {
      cuts := [];
    } else if s[i] == ESCAPE {
      SequenceEndsThere(s, i);
      var rest := StripsExactlySequences(s, SequenceEnd(s, i));
      cuts := [(i, SequenceEnd(s, i))] + rest;
      assert s[i..i] == "" && cuts[1..] == rest;
    } else {
      cuts := StripsExactlySequences(s, i + 1);
      TextInFront(s, i, cuts);
    }
  }

  lemma TextInFront(s: string, i: nat, cuts: seq<(nat, nat)>)
    requires i < |s| && s[i] != ESCAPE && AreSequences(s, i + 1, cuts)
    ensures AreSequences(s, i, cuts) && Without(s, i, cuts) == [s[i]] + Without(s, i + 1, cuts)
  {
    if cuts == [] {
      assert s[i..] == [s[i]] + s[i + 1..];
    } else {
      var (a, e) := cuts[0];
      assert s[i..a] == [s[i]] + s[i + 1..a];
      Regroup([s[i]], s[i + 1..a], Without(s, e, cuts[1..]));
    }
  }

  lemma Regroup(a: string, b: string, c: string)
    ensures (a + b) + c == a + (b + c)
  {
  }

  // ---------------------------------------------------------------- one safe line

  /** The control characters removed outright; tab, line feed and carriage return become spaces. */
  predicate IsRemovedControl(c: char) {
    c <= '\U{08}' || c == '\U{0B}' || c == '\U{0C}' || '\U{0E}' <= c <= '\U{1F}' || '\U{7F}' <= c <= '\U{9F}'
  }

  predicate IsBreak(c: char) { c == '\r' || c == '\n' }

  function RemoveControls(s: string): string {
    if s == "" then "" else (if IsRemovedControl(s[0]) then "" else [s[0]]) + RemoveControls(s[1..])
  }

  function SkipWhile(s: string, p: char -> bool): (r: string)
    ensures |r| <= |s|
  {
    if s != "" && p(s[0]) then SkipWhile(s[1..], p) else s
  }

  /** Every maximal run of `p` characters becomes one space. */
  function CollapseRuns(s: string, p: char -> bool): string
    decreases |s|
  {
    if s == "" then ""
    else if p(s[0]) then " " + CollapseRuns(SkipWhile(s[1..], p), p)
    else [s[0]] + CollapseRuns(s[1..], p)
  }

  function SanitizeTerminalInline(value: string): string {
    Trim(CollapseRuns(CollapseRuns(RemoveControls(Stripped(value, 0)), c => IsBreak(c)), c => IsSpace(c)))
  }

  predicate IsVisible(c: char) { !IsSpace(c) && !IsRemovedControl(c) }

  /** One line of visible characters and single spaces between them. */
  ghost predicate IsSafeLine(s: string) {
    && (forall c :: c in s ==> IsVisible(c) || c == ' ')
    && (forall i :: 0 < i < |s| ==> !(s[i - 1] == ' ' && s[i] == ' '))
    && IsTrimmed(s)
  }

  lemma {:induction false} ControlsRemoved(s: string)
    ensures forall c :: c in RemoveControls(s) ==> c in s && !IsRemovedControl(c)
  {
    if s != "" { ControlsRemoved(s[1..]); }
  }

  lemma {:induction false} SkipWhileShape(s: string, p: char -> bool)
    ensures var r := SkipWhile(s, p); (r != "" ==> !p(r[0])) && forall c :: c in r ==> c in s
  {
    if s != "" && p(s[0]) { SkipWhileShape(s[1..], p); }
  }

  /** Collapsing keeps the other characters and leaves no run behind. */
  lemma {:induction false} CollapseShape(s: string, p: char -> bool)
    ensures forall c :: c in CollapseRuns(s, p) ==> c == ' ' || (c in s && !p(c))
    ensures p(' ') ==> forall i :: 0 < i < |CollapseRuns(s, p)| ==>
            !(p(CollapseRuns(s, p)[i - 1]) && p(CollapseRuns(s, p)[i]))
    ensures p(' ') && s != "" && !p(s[0]) ==> CollapseRuns(s, p)[0] == s[0]
    decreases |s|
  {
    if s != "" {
      if p(s[0]) {
        SkipWhileShape(s[1..], p);
        CollapseShape(SkipWhile(s[1..], p), p);
      } else {
        CollapseShape(s[1..], p);
      }
    }
  }

  lemma {:induction false} TrimStartSuffix(s: string)
    ensures exists k: nat :: k <= |s| && TrimStart(s) == s[k..]
  {
    if s != "" && IsSpace(s[0]) {
      TrimStartSuffix(s[1..]);
      var k: nat :| k <= |s[1..]| && TrimStart(s[1..]) == s[1..][k..];
      assert s[1..][k..] == s[k + 1..];
    } else {
      assert s == s[0..];
    }
  }

  lemma TrimIsSlice(s: string) returns (k: nat, m: nat)
    ensures k <= m <= |s| && Trim(s) == s[k..m]
  {
    TrimStartSuffix(s);
    k :| k <= |s| && TrimStart(s) == s[k..];
    var t := TrimStart(s);
    TrimEndShape(t);
    m := k + |TrimEnd(t)|;
    assert TrimEnd(t) == t[..m - k];
    SliceOfRest(s, k, m);
  }

  lemma SliceOfRest(s: string, k: nat, m: nat)
    requires k <= m <= |s|
    ensures s[k..][..m - k] == s[k..m]
  {
  }

  /** A line of visible characters and single spaces stays one when trimmed. */
  lemma TrimmedLine(line: string)
    requires forall c :: c in line ==> IsVisible(c) || c == ' '
    requires forall i :: 0 < i < |line| ==> !(line[i - 1] == ' ' && line[i] == ' ')
    ensures IsSafeLine(Trim(line))
  {
    TrimShape(line);
    var k, m := TrimIsSlice(line);
    var r := Trim(line);
    forall c | c in r ensures IsVisible(c) || c == ' ' {
      var i :| 0 <= i < |r| && r[i] == c;
      assert line[k + i] == c;
    }
    forall i | 0 < i < |r| ensures !(r[i - 1] == ' ' && r[i] == ' ') {
      assert r[i - 1] == line[k + i - 1] && r[i] == line[k + i];
    }
  }

  /** Main result: whatever went in, what comes out is one safe line. */
  lemma SanitizedIsSafe(value: string)
    ensures IsSafeLine(SanitizeTerminalInline(value))
  {
    var plain := RemoveControls(Stripped(value, 0));
    ControlsRemoved(Stripped(value, 0));
    var joined := CollapseRuns(plain, c => IsBreak(c));
    CollapseShape(plain, c => IsBreak(c));
    var line := CollapseRuns(joined, c => IsSpace(c));
    CollapseShape(joined, c => IsSpace(c));
    forall c | c in line ensures IsVisible(c) || c == ' ' {
      assert c == ' ' || (c in joined && !IsSpace(c));
    }
    TrimmedLine(line);
  }

  ghost predicate RunFree(s: string, p: char -> bool) {
    forall i :: 0 <= i < |s| && p(s[i]) ==> s[i] == ' ' && (i + 1 < |s| ==> !p(s[i + 1]))
  }

  lemma {:induction false} NothingToCollapse(s: string, p: char -> bool)
    requires RunFree(s, p)
    ensures CollapseRuns(s, p) == s
  {
    if s != "" {
      forall i | 0 <= i < |s[1..]| && p(s[1..][i])
        ensures s[1..][i] == ' ' && (i + 1 < |s[1..]| ==> !p(s[1..][i + 1]))
      {
        assert s[1..][i] == s[i + 1] && (i + 2 < |s| ==> s[1..][i + 1] == s[i + 2]);
      }
      NothingToCollapse(s[1..], p);
      if p(s[0]) {
        assert SkipWhile(s[1..], p) == s[1..];
      }
    }
  }

  lemma {:induction false} NothingToRemove(s: string)
    requires forall c :: c in s ==> !IsRemovedControl(c)
    ensures RemoveControls(s) == s
  {
    if s != "" {
      assert s[0] in s;
      NothingToRemove(s[1..]);
    }
  }

  /** A safe line is left as it is, so sanitizing twice is sanitizing once. */
  lemma SanitizingIsIdempotent(value: string)
    ensures SanitizeTerminalInline(SanitizeTerminalInline(value)) == SanitizeTerminalInline(value)
  {
    var s := SanitizeTerminalInline(value);
    SanitizedIsSafe(value);
    SafeLineIsKept(s);
  }

  lemma SafeLineIsKept(s: string)
    requires IsSafeLine(s)
    ensures SanitizeTerminalInline(s) == s
  {
    CleanIsKept(s, 0);
    assert s[0..] == s;
    NothingToRemove(s);
    SafeLineIsRunFree(s);
    NothingToCollapse(s, c => IsBreak(c));
    NothingToCollapse(s, c => IsSpace(c));
    TrimShape(s);
  }

  lemma SafeLineIsRunFree(s: string)
    requires IsSafeLine(s)
    ensures RunFree(s, c => IsBreak(c)) && RunFree(s, c => IsSpace(c))
  {
    forall i | 0 <= i < |s| ensures IsSpace(s[i]) ==> s[i] == ' ' {
      assert s[i] in s;
    }
    forall i | 0 <= i < |s| && s[i] == ' ' && i + 1 < |s| ensures s[i + 1] != ' ' {
      assert 0 < i + 1 < |s|;
    }
  }

  function Visible(s: string): string {
    if s == "" then "" else (if IsVisible(s[0]) then [s[0]] else "") + Visible(s[1..])
  }

  lemma {:induction false} VisibleAppend(a: string, b: string)
    ensures Visible(a + b) == Visible(a) + Visible(b)
  {
    if a == "" {
      assert a + b == b;
    } else {
      var head := if IsVisible(a[0]) then [a[0]] else "";
      assert (a + b)[0] == a[0] && (a + b)[1..] == a[1..] + b;
      assert Visible(a + b) == head + Visible(a[1..] + b);
      VisibleAppend(a[1..], b);
      assert head + (Visible(a[1..]) + Visible(b)) == (head + Visible(a[1..])) + Visible(b);
    }
  }

  lemma {:induction false} RemoveKeepsVisible(s: string)
    ensures Visible(RemoveControls(s)) == Visible(s)
  {
    if s != "" {
      RemoveKeepsVisible(s[1..]);
      VisibleAppend(if IsRemovedControl(s[0]) then "" else [s[0]], RemoveControls(s[1..]));
    }
  }

  lemma {:induction false} SkipKeepsVisible(s: string, p: char -> bool)
    requires forall c :: p(c) ==> IsSpace(c)
    ensures Visible(SkipWhile(s, p)) == Visible(s)
  {
    if s != "" && p(s[0]) { SkipKeepsVisible(s[1..], p); }
  }

  lemma {:induction false} CollapseKeepsVisible(s: string, p: char -> bool)
    requires forall c :: p(c) ==> IsSpace(c)
    ensures Visible(CollapseRuns(s, p)) == Visible(s)
    decreases |s|
  {
    if s != "" {
      if p(s[0]) {
        CollapseKeepsVisible(SkipWhile(s[1..], p), p);
        SkipKeepsVisible(s[1..], p);
        VisibleAppend(" ", CollapseRuns(SkipWhile(s[1..], p), p));
      } else {
        CollapseKeepsVisible(s[1..], p);
        VisibleAppend([s[0]], CollapseRuns(s[1..], p));
      }
    }
  }

  lemma {:induction false} TrimStartKeepsVisible(s: string)
    ensures Visible(TrimStart(s)) == Visible(s)
  {
    if s != "" && IsSpace(s[0]) { TrimStartKeepsVisible(s[1..]); }
  }

  lemma {:induction false} TrimEndKeepsVisible(s: string)
    ensures Visible(TrimEnd(s)) == Visible(s)
  {
    if s != "" && IsSpace(s[|s| - 1]) {
      var front, last := s[..|s| - 1], s[|s| - 1..];
      TrimEndKeepsVisible(front);
      assert s == front + last && last[0] == s[|s| - 1] && last[1..] == "";
      VisibleAppend(front, last);
      assert Visible(last) == "";
    }
  }

  /** Main result: outside control sequences no visible character is lost, added or moved. */
  lemma SanitizingKeepsVisible(value: string)
    ensures Visible(SanitizeTerminalInline(value)) == Visible(Stripped(value, 0))
  {
    var plain := RemoveControls(Stripped(value, 0));
    RemoveKeepsVisible(Stripped(value, 0));
    var joined := CollapseRuns(plain, c => IsBreak(c));
    CollapseKeepsVisible(plain, c => IsBreak(c));
    var line := CollapseRuns(joined, c => IsSpace(c));
    CollapseKeepsVisible(joined, c => IsSpace(c));
    TrimStartKeepsVisible(line);
    TrimEndKeepsVisible(TrimStart(line));
  }

  // ---------------------------------------------------------------- the words of the line

  predicate IsControl(c: char) {
    (c < ' ' && c !in {'\t', '\n', '\r'}) || '\U{7F}' <= c <= '\U{9F}'
  }

  /** The text without control characters; tab, line feed and carriage return are white space. */
  function Printable(s: string): string {
    if s == "" then "" else (if IsControl(s[0]) then "" else [s[0]]) + Printable(s[1..])
  }

  lemma {:induction false} RemovesControls(s: string)
    ensures RemoveControls(s) == Printable(s)
  {
    if s != "" { RemovesControls(s[1..]); }
  }

  function Flush(word: string): seq<string> { if word == "" then [] else [word] }

  /** The words of `s`, what white space separates, when `word` was read of the first one. */
  function WordsFrom(word: string, s: string): seq<string>
    decreases |s|
  {
    if s == "" then Flush(word)
    else if IsSpace(s[0]) then Flush(word) + WordsFrom("", s[1..])
    else WordsFrom(word + [s[0]], s[1..])
  }

  /** The words with single spaces between them. */
  function Spaced(words: seq<string>): string {
    if words == [] then "" else if |words| == 1 then words[0] else words[0] + (" " + Spaced(words[1..]))
  }

  lemma {:induction false} SkippedSpaces(s: string, p: char -> bool)
    requires forall c :: p(c) ==> IsSpace(c)
    ensures WordsFrom("", SkipWhile(s, p)) == WordsFrom("", s)
  {
    if s != "" && p(s[0]) { SkippedSpaces(s[1..], p); }
  }

  lemma {:induction false} CollapsingKeepsWords(word: string, s: string, p: char -> bool)
    requires forall c :: p(c) ==> IsSpace(c)
    ensures WordsFrom(word, CollapseRuns(s, p)) == WordsFrom(word, s)
    decreases |s|
  {
    if s != "" {
      if p(s[0]) {
        var rest := SkipWhile(s[1..], p);
        assert (" " + CollapseRuns(rest, p))[1..] == CollapseRuns(rest, p);
        CollapsingKeepsWords("", rest, p);
        SkippedSpaces(s[1..], p);
      } else {
        var rest := CollapseRuns(s[1..], p);
        assert ([s[0]] + rest)[1..] == rest;
        CollapsingKeepsWords(if IsSpace(s[0]) then "" else word + [s[0]], s[1..], p);
      }
    }
  }

  lemma {:induction false} TrimStartKeepsWords(s: string)
    ensures WordsFrom("", TrimStart(s)) == WordsFrom("", s)
  {
    if s != "" && IsSpace(s[0]) { TrimStartKeepsWords(s[1..]); }
  }

  lemma {:induction false} LastSpace(word: string, s: string, c: char)
    requires IsSpace(c)
    ensures WordsFrom(word, s + [c]) == WordsFrom(word, s)
    decreases |s|
  {
    if s == "" {
      assert (s + [c])[1..] == "" && WordsFrom("", "") == [] && Flush(word) + [] == Flush(word);
    } else {
      assert (s + [c])[1..] == s[1..] + [c];
      LastSpace(if IsSpace(s[0]) then "" else word + [s[0]], s[1..], c);
    }
  }

  lemma {:induction false} TrimEndKeepsWords(s: string)
    ensures WordsFrom("", TrimEnd(s)) == WordsFrom("", s)
  {
    if s != "" && IsSpace(s[|s| - 1]) {
      TrimEndKeepsWords(s[..|s| - 1]);
      LastSpace("", s[..|s| - 1], s[|s| - 1]);
      assert s == s[..|s| - 1] + [s[|s| - 1]];
    }
  }

  /** White space is single spaces, and none stands at the end. */
  ghost predicate SinglySpaced(s: string) {
    && (forall i :: 0 <= i < |s| && IsSpace(s[i]) ==> s[i] == ' ' && i + 1 < |s| && !IsSpace(s[i + 1]))
  }

  lemma SinglySpacedRest(s: string, k: nat)
    requires SinglySpaced(s) && k <= |s|
    ensures SinglySpaced(s[k..])
  {
  }

  lemma {:induction false} SpacedAgain(word: string, s: string)
    requires word != "" && SinglySpaced(s)
    ensures WordsFrom(word, s) != [] && Spaced(WordsFrom(word, s)) == word + s
    decreases |s|
  {
    if s == "" {
      assert word + "" == word;
    } else if IsSpace(s[0]) {
      var next, rest := "" + [s[1]], s[2..];
      SinglySpacedRest(s, 2);
      SpacedAgain(next, rest);
      assert s[1..] == next + rest && s[1..][1..] == rest;
      OneWordMore(word, WordsFrom(next, rest));
      assert s == " " + (next + rest);
    } else {
      SinglySpacedRest(s, 1);
      SpacedAgain(word + [s[0]], s[1..]);
      Regroup(word, [s[0]], s[1..]);
      assert s == [s[0]] + s[1..];
    }
  }

  lemma OneWordMore(word: string, words: seq<string>)
    requires words != []
    ensures Spaced([word] + words) == word + (" " + Spaced(words))
  {
    assert ([word] + words)[1..] == words;
  }

  lemma SafeLineIsSpaced(s: string)
    requires IsSafeLine(s)
    ensures Spaced(WordsFrom("", s)) == s
  {
    if s != "" {
      forall i | 0 <= i < |s| && IsSpace(s[i]) ensures s[i] == ' ' && i + 1 < |s| && !IsSpace(s[i + 1]) {
        assert s[i] in s;
        if i + 1 < |s| { assert s[i + 1] in s && !(s[i] == ' ' && s[i + 1] == ' '); }
      }
      SinglySpacedRest(s, 1);
      SpacedAgain("" + [s[0]], s[1..]);
      assert s == "" + [s[0]] + s[1..];
    }
  }

  /** Main result: the line made of a text is its words, without control sequences and control characters, with
      single spaces between them: nothing else is lost, added or moved, and no two words run together. */
  lemma SanitizingSpacesTheWords(value: string)
    ensures SanitizeTerminalInline(value) == Spaced(WordsFrom("", Printable(Stripped(value, 0))))
  {
    var plain := Printable(Stripped(value, 0));
    RemovesControls(Stripped(value, 0));
    var joined := CollapseRuns(plain, c => IsBreak(c));
    var line := CollapseRuns(joined, c => IsSpace(c));
    CollapsingKeepsWords("", plain, c => IsBreak(c));
    CollapsingKeepsWords("", joined, c => IsSpace(c));
    TrimStartKeepsWords(line);
    TrimEndKeepsWords(TrimStart(line));
    SanitizedIsSafe(value);
    SafeLineIsSpaced(SanitizeTerminalInline(value));
  }
}
