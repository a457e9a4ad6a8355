/** The fixed-window rate limiter of the Cloudflare worker
    (`hosted/cloudflare-worker/src/index.js`): one counter per repository in a key-value store whose
    entries expire. Times are epoch milliseconds. */
module RateLimit {
  import opened Text

  const MAX_SAFE_INTEGER := 0x1F_FFFF_FFFF_FFFF

  /** Both options are positive safe integers (`positiveIntegerValue`). */
  datatype Config = Config(maxEvents: nat, windowSeconds: nat) {
    ghost predicate Valid() { 0 < maxEvents <= MAX_SAFE_INTEGER && 0 < windowSeconds <= MAX_SAFE_INTEGER }
    function WindowMs(): nat { windowSeconds * 1000 }
  }

  /** What is stored under the key: nothing (the empty text, or the text `null`), some other text that
      is no counter object, or an object with two numbers. */
  datatype Stored = Nothing | Garbage | Numbers(count: int, resetAt: int)

  datatype Entry = Entry(value: Stored, expiresAt: int)

  datatype Decision = Allowed | Denied(retryAfterSeconds: nat)

  predicate IsRateLimitCounter(v: Stored) {
    v.Numbers? && 0 <= v.count <= MAX_SAFE_INTEGER && 0 < v.resetAt <= MAX_SAFE_INTEGER
  }

  /** `readJson`: an expired entry is gone, and one that says nothing reads the same. */
  function Get(entry: Option<Entry>, now: int): Option<Stored> {
    if entry.Some? && now < entry.value.expiresAt && entry.value.value != Nothing then Some(entry.value.value) else None
  }

  function Put(c: Config, value: Stored, now: int): Option<Entry> {
    Some(Entry(value, now + c.WindowMs()))
  }

  function Max(a: int, b: int): int { if a > b then a else b }

  /** `Math.ceil(ms / 1000)`. */
  function CeilSeconds(ms: int): int { (ms + 999) / 1000 }

  /** The counter that applies at `now`: the stored one while its window lasts, or a fresh one. */
  function Current(c: Config, existing: Option<Stored>, now: int): Stored {
    if existing.Some? && existing.value.Numbers? && existing.value.resetAt > now then existing.value
    else Numbers(0, now + c.WindowMs())
  }

  /** `checkRepositoryRateLimit` with a configuration. */
  function Check(c: Config, entry: Option<Entry>, now: int): (Option<Entry>, Decision)
  {
    var existing := Get(entry, now);
    if existing.Some? && !IsRateLimitCounter(existing.value) then
      (Put(c, Numbers(c.maxEvents, now + c.WindowMs()), now), Denied(c.windowSeconds))
    else
      var current := Current(c, existing, now);
      if current.count >= c.maxEvents then
        (entry, Denied(Max(1, CeilSeconds(current.resetAt - now))))
      else
        (Put(c, Numbers(current.count + 1, current.resetAt), now), Allowed)
  }

  class Limiter {
    const config: Option<Config>
    var entry: Option<Entry>

    constructor (config: Option<Config>, entry: Option<Entry>)
      ensures this.config == config && this.entry == entry
    {
      this.config, this.entry := config, entry;
    }

    method CheckRepositoryRateLimit(now: int) returns (d: Decision)
      modifies this
      ensures config.None? ==> d == Allowed && entry == old(entry)
      ensures config.Some? ==> (entry, d) == Check(config.value, old(entry), now)
    {
      if config.None? { return Allowed; }
      var c := config.value;
      var existing := Get(entry, now);
      var corruptResetAt := now + c.WindowMs();
      if existing.Some? && !IsRateLimitCounter(existing.value) {
        entry := Put(c, Numbers(c.maxEvents, corruptResetAt), now);
        return Denied(c.windowSeconds);
      }
      var count, resetAt := 0, corruptResetAt;
      if existing.Some? && existing.value.resetAt > now {
        count, resetAt := existing.value.count, existing.value.resetAt;
      }
      if count >= c.maxEvents {
        return Denied(Max(1, CeilSeconds(resetAt - now)));
      }
      entry := Put(c, Numbers(count + 1, resetAt), now);
      return Allowed;
    }
  }

  // ---------------------------------------------------------------- retrying

  /** Main result: after a refusal, of a full window or of a corrupt counter alike, a retry once the
      announced seconds have passed is allowed if nothing came in between. */
  lemma RetryIsAllowed(c: Config, entry: Option<Entry>, now: int, later: int)
    requires c.Valid() && Check(c, entry, now).1.Denied?
    requires later >= now + 1000 * Check(c, entry, now).1.retryAfterSeconds
    ensures Check(c, Check(c, entry, now).0, later).1 == Allowed
  {
  }

  /** ... and the announced time is not too long: a second earlier the counter still refuses, unless it
      expires before its window ends (`ExpiryKeepsLiveWindow`: no counter written by a run does). */
  lemma RetryIsTight(c: Config, entry: Option<Entry>, now: int, earlier: int)
    requires c.Valid() && 0 <= now && now + c.WindowMs() <= MAX_SAFE_INTEGER && Check(c, entry, now).1.Denied?
    requires entry.Some? && IsRateLimitCounter(entry.value.value) ==> entry.value.value.resetAt <= entry.value.expiresAt
    requires now <= earlier <= now + 1000 * (Check(c, entry, now).1.retryAfterSeconds - 1)
    ensures Check(c, Check(c, entry, now).0, earlier).1.Denied?
  {
  }

  // ---------------------------------------------------------------- runs

  /** One check, and the window it fell in. Window 0 is whatever the run found; each fresh window,
      and each block that answers a corrupt counter, gets the next number. */
  datatype Event = Event(time: int, allowed: bool, window: nat)

  datatype Run = Run(entry: Option<Entry>, window: nat, openedAt: int, events: seq<Event>)

  predicate OpensWindow(c: Config, entry: Option<Entry>, now: int) {
    var existing := Get(entry, now);
    existing.None? || !IsRateLimitCounter(existing.value) || existing.value.resetAt <= now
  }

  function RunFrom(c: Config, start: Option<Entry>, times: seq<int>): Run {
    if times == [] then Run(start, 0, 0, [])
    else NextEvent(c, RunFrom(c, start, times[..|times| - 1]), times[|times| - 1])
  }

  function NextEvent(c: Config, r: Run, now: int): Run {
    var (entry, d) := Check(c, r.entry, now);
    var opens := OpensWindow(c, r.entry, now);
    var window := if opens then r.window + 1 else r.window;
    Run(entry, window, if opens then now else r.openedAt, r.events + [Event(now, d == Allowed, window)])
  }

  /** The clock does not go back, and window ends stay safe integers. */
  ghost predicate Timely(c: Config, times: seq<int>) {
    && (forall k :: 0 <= k < |times| ==> 0 <= times[k] && times[k] + c.WindowMs() <= MAX_SAFE_INTEGER)
    && (forall j, k :: 0 <= j < k < |times| ==> times[j] <= times[k])
  }

  function CountWindow(events: seq<Event>, w: nat): nat {
    if events == [] then 0
    else CountWindow(events[..|events| - 1], w) + Bit(events[|events| - 1].allowed && events[|events| - 1].window == w)
  }

  /** The allowed events in the `[from, to)` stretch of time. */
  function CountBetween(events: seq<Event>, from: int, to: int): nat {
    if events == [] then 0
    else
      CountBetween(events[..|events| - 1], from, to) +
      Bit(events[|events| - 1].allowed && from <= events[|events| - 1].time < to)
  }

  lemma CountWindowAppend(events: seq<Event>, e: Event, w: nat)
    ensures CountWindow(events + [e], w) == CountWindow(events, w) + Bit(e.allowed && e.window == w)
  {
  }

  // ---------------------------------------------------------------- the invariant of a run

  /** The entry belongs to the current window: it counts at least the events allowed in it, it ends
      one window length after the opening, and it does not expire before that. */
  ghost predicate EntryFits(c: Config, r: Run) {
    && r.entry.Some? && IsRateLimitCounter(r.entry.value.value)
    && CountWindow(r.events, r.window) <= r.entry.value.value.count <= c.maxEvents
    && r.entry.value.value.resetAt == r.openedAt + c.WindowMs() <= r.entry.value.expiresAt
  }

  /** Before the run opens a window of its own, the entry it found is the bound. */
  ghost predicate StartFits(c: Config, r: Run) {
    CountWindow(r.events, 0) > 0 ==>
      && r.entry.Some? && r.entry.value.value.Numbers?
      && CountWindow(r.events, 0) <= r.entry.value.value.count <= c.maxEvents
  }

  /** Windows are numbered in order of time; two windows on is a window length later. */
  ghost predicate Spread(c: Config, r: Run, now: int) {
    && (forall k :: 0 <= k < |r.events| ==> r.events[k].time <= now && r.events[k].window <= r.window)
    && (forall k :: 0 <= k < |r.events| && r.events[k].window < r.window ==> r.events[k].time <= r.openedAt)
    && (forall k :: 0 <= k < |r.events| && r.events[k].window + 1 < r.window ==>
          r.events[k].time + c.WindowMs() <= r.openedAt)
    && (r.window > 0 ==> r.openedAt <= now)
  }

  ghost predicate Apart(c: Config, events: seq<Event>) {
    forall j, k :: 0 <= j < k < |events| ==>
      events[j].window <= events[k].window &&
      (events[j].window + 1 < events[k].window ==> events[j].time + c.WindowMs() <= events[k].time)
  }

  ghost predicate Inv(c: Config, r: Run, now: int) {
    && (if r.window == 0 then StartFits(c, r) else EntryFits(c, r))
    && (forall w :: CountWindow(r.events, w) <= c.maxEvents)
    && (forall w :: w > r.window ==> CountWindow(r.events, w) == 0)
    && Spread(c, r, now)
    && Apart(c, r.events)
  }

  /** A window the run opened itself is not opened over before it has ended: the entry is still there. */
  lemma LiveWindowIsKept(c: Config, r: Run, now: int)
    requires r.window > 0 && EntryFits(c, r) && OpensWindow(c, r.entry, now)
    ensures now >= r.openedAt + c.WindowMs()
  {
  }

  lemma NextKeepsEntry(c: Config, r: Run, last: int, now: int)
    requires c.Valid() && Inv(c, r, last) && last <= now && 0 <= now && now + c.WindowMs() <= MAX_SAFE_INTEGER
    ensures var n := NextEvent(c, r, now);
      if n.window == 0 then StartFits(c, n) else EntryFits(c, n)
  {
    var n := NextEvent(c, r, now);
    CountWindowAppend(r.events, n.events[|r.events|], n.window);
  }

  lemma NextKeepsCounts(c: Config, r: Run, last: int, now: int, w: nat)
    requires c.Valid() && Inv(c, r, last) && last <= now && 0 <= now && now + c.WindowMs() <= MAX_SAFE_INTEGER
    ensures var n := NextEvent(c, r, now);
      CountWindow(n.events, w) <= c.maxEvents && (w > n.window ==> CountWindow(n.events, w) == 0)
  {
  }

  lemma NextKeepsSpread(c: Config, r: Run, last: int, now: int)
    requires Inv(c, r, last) && last <= now
    ensures Spread(c, NextEvent(c, r, now), now) && Apart(c, NextEvent(c, r, now).events)
  {
    if r.window > 0 && OpensWindow(c, r.entry, now) { LiveWindowIsKept(c, r, now); }
  }

  lemma NextKeepsInv(c: Config, r: Run, last: int, now: int)
    requires c.Valid() && Inv(c, r, last) && last <= now && 0 <= now && now + c.WindowMs() <= MAX_SAFE_INTEGER
    ensures Inv(c, NextEvent(c, r, now), now)
  {
    NextKeepsEntry(c, r, last, now);
    NextKeepsSpread(c, r, last, now);
    forall w: nat
      ensures CountWindow(NextEvent(c, r, now).events, w) <= c.maxEvents
      ensures w > NextEvent(c, r, now).window ==> CountWindow(NextEvent(c, r, now).events, w) == 0
    {
      NextKeepsCounts(c, r, last, now, w);
    }
  }

  lemma {:induction false} RunKeepsInv(c: Config, start: Option<Entry>, times: seq<int>)
    requires c.Valid() && Timely(c, times)
    ensures Inv(c, RunFrom(c, start, times), if times == [] then 0 else times[|times| - 1])
  {
    if times != [] {
      var front, now := times[..|times| - 1], times[|times| - 1];
      var last := if front == [] then 0 else front[|front| - 1];
      RunKeepsInv(c, start, front);
      NextKeepsInv(c, RunFrom(c, start, front), last, now);
    }
  }

  // ---------------------------------------------------------------- the limits

  /** Main result: in no window are more than `maxEvents` events allowed, whatever entry the run found. */
  lemma WindowLimit(c: Config, start: Option<Entry>, times: seq<int>, w: nat)
    requires c.Valid() && Timely(c, times)
    ensures CountWindow(RunFrom(c, start, times).events, w) <= c.maxEvents
  {
    RunKeepsInv(c, start, times);
  }

  lemma {:induction false} CountTwoWindows(events: seq<Event>, from: int, to: int, w: nat)
    requires forall k :: 0 <= k < |events| && from <= events[k].time < to ==>
             events[k].window == w || events[k].window == w + 1
    ensures CountBetween(events, from, to) <= CountWindow(events, w) + CountWindow(events, w + 1)
  {
    if events != [] { CountTwoWindows(events[..|events| - 1], from, to, w); }
  }

  lemma {:induction false} CountNone(events: seq<Event>, from: int, to: int)
    requires forall k :: 0 <= k < |events| ==> !(from <= events[k].time < to)
    ensures CountBetween(events, from, to) == 0
  {
    if events != [] { CountNone(events[..|events| - 1], from, to); }
  }

  ghost predicate FirstIn(events: seq<Event>, from: int, to: int, i: nat) {
    i < |events| && from <= events[i].time < to && forall k :: 0 <= k < i ==> !(from <= events[k].time < to)
  }

  lemma {:induction false} FindFirst(events: seq<Event>, from: int, to: int, k: nat) returns (i: nat)
    requires k < |events| && from <= events[k].time < to
    ensures FirstIn(events, from, to, i)
  {
    if j :| 0 <= j < k && from <= events[j].time < to {
      i := FindFirst(events, from, to, j);
    } else {
      i := k;
    }
  }

  /** Main result: in any stretch of one window's length, wherever it starts, at most twice `maxEvents`
      events are allowed. */
  lemma SlidingLimit(c: Config, start: Option<Entry>, times: seq<int>, from: int)
    requires c.Valid() && Timely(c, times)
    ensures CountBetween(RunFrom(c, start, times).events, from, from + c.WindowMs()) <= 2 * c.maxEvents
  {
    RunKeepsInv(c, start, times);
    SlidingCount(c, RunFrom(c, start, times).events, from);
  }

  lemma SlidingCount(c: Config, events: seq<Event>, from: int)
    requires Apart(c, events) && forall w: nat :: CountWindow(events, w) <= c.maxEvents
    ensures CountBetween(events, from, from + c.WindowMs()) <= 2 * c.maxEvents
  {
    var to := from + c.WindowMs();
    if k :| 0 <= k < |events| && from <= events[k].time < to {
      var i := FindFirst(events, from, to, k);
      var w := events[i].window;
      forall j | 0 <= j < |events| && from <= events[j].time < to
        ensures events[j].window == w || events[j].window == w + 1
      {
        assert j >= i;
      }
      CountTwoWindows(events, from, to, w);
      assert CountWindow(events, w) <= c.maxEvents && CountWindow(events, w + 1) <= c.maxEvents;
    } else {
      CountNone(events, from, to);
    }
  }

  // ---------------------------------------------------------------- exactly when a check refuses

  /** A counter that can be trusted. */
  predicate Trusted(v: Stored) {
    v.Numbers? && 0 <= v.count <= 9_007_199_254_740_991 && 0 < v.resetAt <= 9_007_199_254_740_991
  }

  /** The store still has something to say. */
  predicate Speaks(entry: Option<Entry>, now: int) {
    entry.Some? && now < entry.value.expiresAt && entry.value.value != Nothing
  }

  /** Main result, both ways: a check refuses exactly if the store speaks of a counter that cannot be trusted, or
      of one whose window lasts and is full. It then announces the whole window, or else the least number of
      seconds, but one at least, after which the window is over. */
  lemma RefusesExactlyWhen(c: Config, entry: Option<Entry>, now: int)
    requires c.Valid()
    ensures var d := Check(c, entry, now).1;
      && (d.Denied? <==>
            Speaks(entry, now) &&
            (!Trusted(entry.value.value) ||
             (now < entry.value.value.resetAt && entry.value.value.count >= c.maxEvents)))
      && (d.Denied? && !Trusted(entry.value.value) ==> d.retryAfterSeconds == c.windowSeconds)
      && (d.Denied? && Trusted(entry.value.value) ==>
            && d.retryAfterSeconds >= 1 && now + 1000 * d.retryAfterSeconds >= entry.value.value.resetAt
            && (d.retryAfterSeconds == 1 || now + 1000 * (d.retryAfterSeconds - 1) < entry.value.value.resetAt))
  {
  }

  /** Main result: the limiter fails closed. From a counter that cannot be trusted on, everything is refused for a
      whole window, and that window is not prolonged by what is refused. */
  lemma {:induction false} CorruptBlocksOneWindow(c: Config, start: Option<Entry>, times: seq<int>)
    requires c.Valid() && Timely(c, times) && times != [] && Speaks(start, times[0]) && !Trusted(start.value.value)
    requires forall t <- times :: t < times[0] + c.WindowMs()
    ensures var r := RunFrom(c, start, times);
      && |r.events| == |times| && (forall e <- r.events :: !e.allowed)
      && r.entry == Some(Entry(Numbers(c.maxEvents, times[0] + c.WindowMs()), times[0] + c.WindowMs()))
  {
    var front, now := times[..|times| - 1], times[|times| - 1];
    assert now in times;
    if front != [] {
      forall t <- front ensures t in times {}
      CorruptBlocksOneWindow(c, start, front);
      StillBlocks(c, RunFrom(c, start, front), now, times[0] + c.WindowMs());
    } else {
      assert RunFrom(c, start, front) == Run(start, 0, 0, []);
    }
  }

  /** A full counter refuses until it ends, and stays as it is. */
  lemma StillBlocks(c: Config, r: Run, now: int, end: int)
    requires c.Valid() && 0 <= now < end <= MAX_SAFE_INTEGER && r.entry == Some(Entry(Numbers(c.maxEvents, end), end))
    ensures var n := NextEvent(c, r, now);
      && n.entry == r.entry && |n.events| == |r.events| + 1
      && n.events[..|r.events|] == r.events && !n.events[|r.events|].allowed
  {
  }

  /** The counter counts exactly the events allowed in the window. */
  ghost predicate CountsExactly(r: Run) {
    if r.entry.None? then r.events == [] && r.window == 0
    else r.entry.value.value.Numbers? && r.entry.value.value.count == CountWindow(r.events, r.window)
  }

  lemma NextCountsExactly(c: Config, r: Run, last: int, now: int)
    requires c.Valid() && Inv(c, r, last) && last <= now && 0 <= now && now + c.WindowMs() <= MAX_SAFE_INTEGER
    requires CountsExactly(r) && (r.entry.None? <==> r.window == 0)
    ensures CountsExactly(NextEvent(c, r, now)) && NextEvent(c, r, now).window > 0 && NextEvent(c, r, now).entry.Some?
    ensures !NextEvent(c, r, now).events[|r.events|].allowed ==> CountWindow(r.events, r.window) == c.maxEvents
    ensures !NextEvent(c, r, now).events[|r.events|].allowed ==> NextEvent(c, r, now).window == r.window
  {
    var n := NextEvent(c, r, now);
    CountWindowAppend(r.events, n.events[|r.events|], n.window);
  }

  lemma {:induction false} FreshRunCounts(c: Config, times: seq<int>)
    requires c.Valid() && Timely(c, times)
    ensures var r := RunFrom(c, None, times); CountsExactly(r) && (r.entry.None? <==> r.window == 0)
  {
    if times != [] {
      var front := times[..|times| - 1];
      FreshRunCounts(c, front);
      RunKeepsInv(c, None, front);
      NextCountsExactly(c, RunFrom(c, None, front), if front == [] then 0 else front[|front| - 1], times[|times| - 1]);
    }
  }

  /** Main result: from an empty store nothing is refused before its time. If the last event of a run is refused, as
      many events as are allowed were already allowed in its window. */
  lemma RefusedMeansFull(c: Config, times: seq<int>)
    requires c.Valid() && Timely(c, times) && times != []
    ensures var events := RunFrom(c, None, times).events;
      && |events| > 0
      && var last := events[|events| - 1];
         !last.allowed ==> CountWindow(events, last.window) == c.maxEvents
  {
    var front := times[..|times| - 1];
    FreshRunCounts(c, front);
    RunKeepsInv(c, None, front);
    var last := if front == [] then 0 else front[|front| - 1];
    RefusedNext(c, RunFrom(c, None, front), last, times[|times| - 1]);
  }

  lemma RefusedNext(c: Config, r: Run, last: int, now: int)
    requires c.Valid() && Inv(c, r, last) && last <= now && 0 <= now && now + c.WindowMs() <= MAX_SAFE_INTEGER
    requires CountsExactly(r) && (r.entry.None? <==> r.window == 0)
    ensures var events := NextEvent(c, r, now).events;
      && |events| == |r.events| + 1
      && (!events[|r.events|].allowed ==> CountWindow(events, events[|r.events|].window) == c.maxEvents)
  {
    NextCountsExactly(c, r, last, now);
    var n := NextEvent(c, r, now);
    CountWindowAppend(r.events, n.events[|r.events|], n.window);
  }

  // ---------------------------------------------------------------- the exact sliding limit

  /** `openers[w]` is the event that opened window `w + 1`: it was allowed, and whatever falls in a later
      window comes at least one window length after it. */
  ghost predicate Openers(c: Config, r: Run, openers: seq<nat>) {
    && |openers| == r.window
    && (r.entry.None? <==> r.window == 0)
    && (forall k :: 0 <= k < |r.events| ==> r.events[k].window >= 1)
    && (forall w :: 0 <= w < |openers| ==> Opens(c, r.events, openers[w], w + 1))
    && (r.window > 0 ==> r.events[openers[r.window - 1]].time == r.openedAt)
  }

  ghost predicate Opens(c: Config, events: seq<Event>, j: nat, w: nat) {
    && j < |events| && events[j].allowed && events[j].window == w
    && forall k :: 0 <= k < |events| && events[k].window > w ==> events[j].time + c.WindowMs() <= events[k].time
  }

  lemma NextOpener(c: Config, r: Run, last: int, now: int, openers: seq<nat>) returns (more: seq<nat>)
    requires c.Valid() && Inv(c, r, last) && last <= now && Openers(c, r, openers)
    ensures Openers(c, NextEvent(c, r, now), more)
  {
    more := openers + if OpensWindow(c, r.entry, now) then [|r.events|] else [];
    forall w: nat | w < |more| ensures Opens(c, NextEvent(c, r, now).events, more[w], w + 1) {
      if w < |openers| {
        OpenerStays(c, r, last, now, openers, w);
      } else {
        FreshOpens(c, r, last, now, openers);
      }
    }
    NextIsNumbered(c, r, now, openers, more);
  }

  lemma NextIsNumbered(c: Config, r: Run, now: int, openers: seq<nat>, more: seq<nat>)
    requires c.Valid() && Openers(c, r, openers)
    requires more == openers + if OpensWindow(c, r.entry, now) then [|r.events|] else []
    ensures var n := NextEvent(c, r, now);
      && |more| == n.window
      && (n.entry.None? <==> n.window == 0)
      && (forall k :: 0 <= k < |n.events| ==> n.events[k].window >= 1)
      && (n.window > 0 ==> more[n.window - 1] < |n.events| && n.events[more[n.window - 1]].time == n.openedAt)
  {
  }

  lemma FreshIsAllowed(c: Config, r: Run, last: int, now: int, openers: seq<nat>)
    requires c.Valid() && Inv(c, r, last) && Openers(c, r, openers) && OpensWindow(c, r.entry, now)
    ensures Check(c, r.entry, now).1 == Allowed
  {
  }

  lemma FreshOpens(c: Config, r: Run, last: int, now: int, openers: seq<nat>)
    requires c.Valid() && Inv(c, r, last) && Openers(c, r, openers) && OpensWindow(c, r.entry, now)
    ensures Opens(c, NextEvent(c, r, now).events, |r.events|, r.window + 1)
  {
    FreshIsAllowed(c, r, last, now, openers);
    var events := NextEvent(c, r, now).events;
    assert forall k :: 0 <= k < |r.events| ==> events[k] == r.events[k];
  }

  lemma OpenerStays(c: Config, r: Run, last: int, now: int, openers: seq<nat>, w: nat)
    requires c.Valid() && Inv(c, r, last) && last <= now && Openers(c, r, openers) && w < |openers|
    ensures Opens(c, NextEvent(c, r, now).events, openers[w], w + 1)
  {
  }

  lemma {:induction false} FreshRunOpens(c: Config, times: seq<int>) returns (openers: seq<nat>)
    requires c.Valid() && Timely(c, times)
    ensures Openers(c, RunFrom(c, None, times), openers)
  {
    openers := [];
    if times != [] {
      var front := times[..|times| - 1];
      openers := FreshRunOpens(c, front);
      RunKeepsInv(c, None, front);
      var last := if front == [] then 0 else front[|front| - 1];
      openers := NextOpener(c, RunFrom(c, None, front), last, times[|times| - 1], openers);
    }
  }

  lemma {:induction false} CountWithout(events: seq<Event>, from: int, to: int, w: nat, j: nat)
    requires forall k :: 0 <= k < |events| && from <= events[k].time < to ==>
             events[k].window == w || events[k].window == w + 1
    requires j < |events| && events[j].allowed && events[j].window == w && !(from <= events[j].time < to)
    ensures CountBetween(events, from, to) + 1 <= CountWindow(events, w) + CountWindow(events, w + 1)
  {
    var front := events[..|events| - 1];
    if j == |front| { CountTwoWindows(front, from, to, w); } else { CountWithout(front, from, to, w, j); }
  }

  lemma {:induction false} CountOneWindow(events: seq<Event>, from: int, to: int, w: nat)
    requires forall k :: 0 <= k < |events| && from <= events[k].time < to ==> events[k].window == w
    ensures CountBetween(events, from, to) <= CountWindow(events, w)
  {
    if events != [] { CountOneWindow(events[..|events| - 1], from, to, w); }
  }

  /** Main result: from an empty store the bound is sharper by one, since the event that opened the
      earlier window is itself too old for the stretch... */
  lemma FreshSlidingLimit(c: Config, times: seq<int>, from: int)
    requires c.Valid() && Timely(c, times)
    ensures CountBetween(RunFrom(c, None, times).events, from, from + c.WindowMs()) <= 2 * c.maxEvents - 1
  {
    var openers := FreshRunOpens(c, times);
    RunKeepsInv(c, None, times);
    FreshCount(c, RunFrom(c, None, times), openers, from);
  }

  lemma FreshCount(c: Config, r: Run, openers: seq<nat>, from: int)
    requires c.Valid() && Openers(c, r, openers) && Apart(c, r.events)
    requires forall k :: 0 <= k < |r.events| ==> r.events[k].window <= r.window
    requires forall w: nat :: CountWindow(r.events, w) <= c.maxEvents
    ensures CountBetween(r.events, from, from + c.WindowMs()) <= 2 * c.maxEvents - 1
  {
    var events, to := r.events, from + c.WindowMs();
    if k :| 0 <= k < |events| && from <= events[k].time < to {
      var i := FindFirst(events, from, to, k);
      var w := events[i].window;
      forall j | 0 <= j < |events| && from <= events[j].time < to
        ensures events[j].window == w || events[j].window == w + 1
      {
        assert j >= i;
      }
      assert CountWindow(events, w) <= c.maxEvents && CountWindow(events, w + 1) <= c.maxEvents;
      if j :| 0 <= j < |events| && from <= events[j].time < to && events[j].window == w + 1 {
        assert Opens(c, events, openers[w - 1], w);
        CountWithout(events, from, to, w, openers[w - 1]);
      } else {
        CountOneWindow(events, from, to, w);
      }
    } else {
      CountNone(events, from, to);
    }
  }

  function Burst(t: int, n: nat): seq<int> { seq(n, _ => t) }

  /** At `t` the entry counts `count` events of a window that lasts. */
  predicate Holds(entry: Option<Entry>, t: int, count: nat, resetAt: int) {
    entry.Some? && entry.value.value == Numbers(count, resetAt) && t < entry.value.expiresAt
  }

  lemma FirstIsAllowed(c: Config, entry: Option<Entry>, t: int)
    requires c.Valid() && (entry.Some? ==> IsRateLimitCounter(entry.value.value) && entry.value.value.resetAt <= t)
    ensures Check(c, entry, t) == (Some(Entry(Numbers(1, t + c.WindowMs()), t + c.WindowMs())), Allowed)
  {
  }

  function EntryAfter(c: Config, times: seq<int>): Option<Entry> { RunFrom(c, None, times).entry }

  function CountAfter(c: Config, times: seq<int>, from: int, to: int): nat {
    CountBetween(RunFrom(c, None, times).events, from, to)
  }

  lemma OneMoreAt(c: Config, times: seq<int>, t: int, from: int, to: int)
    ensures var (entry, d) := Check(c, EntryAfter(c, times), t);
      && EntryAfter(c, times + [t]) == entry
      && CountAfter(c, times + [t], from, to) == CountAfter(c, times, from, to) + Bit(d == Allowed && from <= t < to)
  {
    var r := RunFrom(c, None, times);
    RunOneMore(c, None, times, t);
    var e := NextEvent(c, r, t).events[|r.events|];
    CountBetweenAppend(r.events, e, from, to);
  }

  lemma RunOneMore(c: Config, start: Option<Entry>, times: seq<int>, t: int)
    ensures RunFrom(c, start, times + [t]) == NextEvent(c, RunFrom(c, start, times), t)
  {
    assert (times + [t])[..|times|] == times;
  }

  lemma CountBetweenAppend(events: seq<Event>, e: Event, from: int, to: int)
    ensures CountBetween(events + [e], from, to) ==
            CountBetween(events, from, to) + Bit(e.allowed && from <= e.time < to)
  {
    assert (events + [e])[..|events|] == events;
  }

  lemma OneMoreHolds(c: Config, times: seq<int>, t: int, count: nat, resetAt: int, from: int, to: int)
    requires count < c.maxEvents <= MAX_SAFE_INTEGER && 0 <= t < resetAt <= MAX_SAFE_INTEGER && c.windowSeconds > 0
    requires Holds(EntryAfter(c, times), t, count, resetAt)
    ensures Holds(EntryAfter(c, times + [t]), t, count + 1, resetAt)
    ensures CountAfter(c, times + [t], from, to) == CountAfter(c, times, from, to) + if from <= t < to then 1 else 0
  {
  }

  lemma FirstHolds(c: Config, times: seq<int>, t: int, from: int, to: int)
    requires c.Valid()
    requires var e := EntryAfter(c, times); e.Some? ==> IsRateLimitCounter(e.value.value) && e.value.value.resetAt <= t
    ensures EntryAfter(c, times + [t]) == Some(Entry(Numbers(1, t + c.WindowMs()), t + c.WindowMs()))
    ensures CountAfter(c, times + [t], from, to) == CountAfter(c, times, from, to) + if from <= t < to then 1 else 0
  {
    OneMoreAt(c, times, t, from, to);
    FirstIsAllowed(c, EntryAfter(c, times), t);
  }

  lemma BurstGrows(times: seq<int>, t: int, n: nat)
    ensures times + Burst(t, n) == if n == 0 then times else (times + Burst(t, n - 1)) + [t]
  {
  }

  lemma {:induction false} BurstIsAllowed(c: Config, times: seq<int>, t: int, n: nat, count: nat, resetAt: int,
                                          from: int, to: int)
    requires count + n <= c.maxEvents <= MAX_SAFE_INTEGER && 0 <= t < resetAt <= MAX_SAFE_INTEGER && c.windowSeconds > 0
    requires Holds(EntryAfter(c, times), t, count, resetAt)
    ensures Holds(EntryAfter(c, times + Burst(t, n)), t, count + n, resetAt)
    ensures CountAfter(c, times + Burst(t, n), from, to) ==
            CountAfter(c, times, from, to) + if from <= t < to then n else 0
  {
    BurstGrows(times, t, n);
    if n > 0 {
      var front := times + Burst(t, n - 1);
      BurstIsAllowed(c, times, t, n - 1, count, resetAt, from, to);
      OneMoreHolds(c, front, t, count + n - 1, resetAt, from, to);
      assert times + Burst(t, n) == front + [t];
    }
  }

  /** ... and that bound is reached, under every configuration: one event, as many as are left at the
      window's last millisecond, and a whole window's worth in the next one. */
  lemma FreshSlidingLimitIsReached(c: Config) returns (times: seq<int>)
    requires c.Valid() && 2 * c.WindowMs() <= MAX_SAFE_INTEGER
    ensures Timely(c, times)
    ensures CountBetween(RunFrom(c, None, times).events, 1, 1 + c.WindowMs()) == 2 * c.maxEvents - 1
  {
    var w, from, to := c.WindowMs(), 1, 1 + c.WindowMs();
    FirstWindowFills(c);
    var first := FillFirst(c);
    FirstHolds(c, first, w, from, to);
    times := first + [w] + Burst(w, c.maxEvents - 1);
    BurstIsAllowed(c, first + [w], w, c.maxEvents - 1, 1, 2 * w, from, to);
    assert CountAfter(c, times, from, to) == 2 * c.maxEvents - 1;
    FillsAreTimely(c);
  }

  function FillFirst(c: Config): seq<int>
    requires c.Valid()
  {
    [0] + Burst(c.WindowMs() - 1, c.maxEvents - 1)
  }

  lemma FirstWindowFills(c: Config)
    requires c.Valid() && 2 * c.WindowMs() <= MAX_SAFE_INTEGER
    ensures Holds(EntryAfter(c, FillFirst(c)), c.WindowMs() - 1, c.maxEvents, c.WindowMs())
    ensures CountAfter(c, FillFirst(c), 1, 1 + c.WindowMs()) == c.maxEvents - 1
  {
    var w, from, to := c.WindowMs(), 1, 1 + c.WindowMs();
    FirstHolds(c, [], 0, from, to);
    assert [] + [0] == [0];
    BurstIsAllowed(c, [0], w - 1, c.maxEvents - 1, 1, w, from, to);
  }

  lemma FillsAreTimely(c: Config)
    requires c.Valid() && 2 * c.WindowMs() <= MAX_SAFE_INTEGER
    ensures Timely(c, FillFirst(c) + [c.WindowMs()] + Burst(c.WindowMs(), c.maxEvents - 1))
  {
  }

  /** Main result: expiry never ends a window the run opened; as long as it lasts, its counter is read. */
  lemma ExpiryKeepsLiveWindow(c: Config, start: Option<Entry>, times: seq<int>, now: int)
    requires c.Valid() && Timely(c, times)
    requires var r := RunFrom(c, start, times); r.window > 0 && now < r.openedAt + c.WindowMs()
    ensures var r := RunFrom(c, start, times);
      Get(r.entry, now).Some? && IsRateLimitCounter(Get(r.entry, now).value) && !OpensWindow(c, r.entry, now)
  {
    RunKeepsInv(c, start, times);
  }
}
