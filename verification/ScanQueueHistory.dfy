/** The queue read off the webhooks of a run alone: which of them count, and which records they make. */
module ScanQueueHistory {
  import opened ScanIdentity
  import opened ScanQueue
  import opened ScanQueueIntake
  import opened ScanQueueIds
  import opened ScanQueueSafety
  import opened Text

  // ---------------------------------------------------------------- the webhooks that count

  /** A request signed by the platform shows this delivery id. */
  predicate Shows(s: Step, id: string) {
    s.WebhookStep? && s.request.signature == Genuine && s.request.deliveryId == id && id != ""
  }

  ghost predicate Shown(steps: seq<Step>, id: string) {
    exists k :: 0 <= k < |steps| && Shows(steps[k], id)
  }

  ghost predicate AsksForKey(s: Step, scannerVersion: string, key: string) {
    s.WebhookStep? && exists i: Identity :: AsksFor(s.request, s.scope, scannerVersion, i) && Key(i) == key
  }

  /** After the steps before it, `s` is a new delivery that asks for a scan under this key. */
  ghost predicate Counts(before: seq<Step>, s: Step, scannerVersion: string, key: string) {
    && s.WebhookStep? && Shows(s, s.request.deliveryId) && !Shown(before, s.request.deliveryId)
    && AsksForKey(s, scannerVersion, key)
  }

  /** The webhooks that count for a key, in order. */
  ghost function History(steps: seq<Step>, scannerVersion: string, key: string): (h: seq<Step>)
    ensures forall s <- h :: s.WebhookStep?
  {
    if steps == [] then []
    else
      var front, s := steps[..|steps| - 1], steps[|steps| - 1];
      History(front, scannerVersion, key) + if Counts(front, s, scannerVersion, key) then [s] else []
  }

  /** Every key asked for, in the order in which it was first asked for. */
  ghost function KeysAsked(steps: seq<Step>, scannerVersion: string): seq<string> {
    if steps == [] then []
    else
      var front, s := steps[..|steps| - 1], steps[|steps| - 1];
      var before := KeysAsked(front, scannerVersion);
      if exists key :: Counts(front, s, scannerVersion, key) && key !in before then
        var key :| Counts(front, s, scannerVersion, key) && key !in before;
        before + [key]
      else before
  }

  ghost function Ids(h: seq<Step>): seq<string>
    requires forall s <- h :: s.WebhookStep?
  {
    seq(|h|, k requires 0 <= k < |h| => h[k].request.deliveryId)
  }

  /** The reruns asked for after the first request. */
  ghost function Reruns(h: seq<Step>): nat
    requires forall s <- h :: s.WebhookStep?
  {
    if |h| <= 1 then 0 else Reruns(h[..|h| - 1]) + if h[|h| - 1].request.manualRerun then 1 else 0
  }

  /** The record says what the webhooks that count say. */
  ghost predicate Tells(r: Record, h: seq<Step>, scannerVersion: string)
    requires forall s <- h :: s.WebhookStep?
  {
    && h != [] && r.deliveryIds == Ids(h) && r.attempt == 1 + Reruns(h) && r.createdAt == h[0].now
    && AsksFor(h[0].request, h[0].scope, scannerVersion, r.identity)
  }

  // ---------------------------------------------------------------- one webhook

  lemma AsksForOne(r: Request, scope: Scope, scannerVersion: string, i: Identity, j: Identity)
    requires AsksFor(r, scope, scannerVersion, i) && AsksFor(r, scope, scannerVersion, j)
    ensures i == j
  {
  }

  lemma CountsForOne(before: seq<Step>, s: Step, scannerVersion: string, key: string, other: string)
    requires Counts(before, s, scannerVersion, key) && Counts(before, s, scannerVersion, other)
    ensures key == other
  {
    var i: Identity :| AsksFor(s.request, s.scope, scannerVersion, i) && Key(i) == key;
    var j: Identity :| AsksFor(s.request, s.scope, scannerVersion, j) && Key(j) == other;
    AsksForOne(s.request, s.scope, scannerVersion, i, j);
  }

  /** What was seen is what was shown. */
  ghost predicate SeenIsShown(st: State, steps: seq<Step>) {
    forall id :: id in st.seen <==> Shown(steps, id)
  }

  lemma CountsExactlyWhen(before: seq<Step>, a: State, s: Step, scannerVersion: string, key: string)
    requires SeenIsShown(a, before) && s.WebhookStep?
    ensures var answer := Webhook(a, s.request, s.scope, scannerVersion, s.now).1;
      Counts(before, s, scannerVersion, key) <==> answer.Accepted? && answer.decision.key == key
  {
    AcceptedExactlyWhen(a, s.request, s.scope, scannerVersion, s.now);
    var answer := Webhook(a, s.request, s.scope, scannerVersion, s.now).1;
    if answer.Accepted? && Counts(before, s, scannerVersion, key) {
      var i: Identity :| AsksFor(s.request, s.scope, scannerVersion, i) && answer.decision.key == Key(i);
      assert Counts(before, s, scannerVersion, Key(i));
      CountsForOne(before, s, scannerVersion, key, Key(i));
    }
  }

  /** What an accepted webhook does to the record of its key. */
  lemma AcceptedTouches(a: State, s: Step, scannerVersion: string)
    requires Inv(a) && s.WebhookStep? && Webhook(a, s.request, s.scope, scannerVersion, s.now).1.Accepted?
    ensures var (b, answer) := Webhook(a, s.request, s.scope, scannerVersion, s.now);
      var key := answer.decision.key;
      && key in b.records && b.records.Keys == a.records.Keys + {key}
      && (forall k :: k in a.records && k != key ==> b.records[k] == a.records[k])
      && b.order == (if key in a.records then a.order else a.order + [key])
      && if key in a.records then
           && b.records[key].deliveryIds == a.records[key].deliveryIds + [s.request.deliveryId]
           && b.records[key].createdAt == a.records[key].createdAt
           && b.records[key].identity == a.records[key].identity
           && b.records[key].attempt == a.records[key].attempt + if s.request.manualRerun then 1 else 0
         else
           && b.records[key].deliveryIds == [s.request.deliveryId] && b.records[key].createdAt == s.now
           && b.records[key].attempt == 1
           && AsksFor(s.request, s.scope, scannerVersion, b.records[key].identity)
  {
    AcceptedExactlyWhen(a, s.request, s.scope, scannerVersion, s.now);
    var i := ParseEvent(s.request.payload, scannerVersion, s.request.allowDraft).identity;
    ParsedExactlyWhen(s.request.payload, scannerVersion, s.request.allowDraft, i);
    OpenIsAuthorized(s.scope, i);
    if Key(i) in a.records { assert RecordFits(a, Key(i), a.records[Key(i)]); }
  }

  /** A webhook that is turned down leaves records and order alone. */
  lemma RejectedTouchesNothing(a: State, s: Step, scannerVersion: string)
    requires s.WebhookStep? && Webhook(a, s.request, s.scope, scannerVersion, s.now).1.Rejected?
    ensures var b := Webhook(a, s.request, s.scope, scannerVersion, s.now).0;
      b.records == a.records && b.order == a.order
  {
  }

  /** Steps of the worker leave alone what the webhooks say. */
  lemma WorkTouchesNothing(a: State, s: Step, scannerVersion: string)
    requires Inv(a) && JobsHaveRecords(a) && Enabled(a, s) && !s.WebhookStep?
    ensures SaysTheSame(a, Apply(a, s, scannerVersion))
  {
    match s
    case ClaimStep(scope, now) => ClaimTouchesNothing(a, scope, now);
    case ScanReturnedStep(j, ok, stored, now) => ScanTouchesNothing(a, j, ok, stored, now);
    case SaveReturnedStep(j, ok, published, now) => SaveTouchesNothing(a, j, ok, published, now);
    case PublishReturnedStep(j, ok, now) => PublishTouchesNothing(a, j, ok, now);
  }

  /** Both states say the same of the webhooks. */
  ghost predicate SaysTheSame(a: State, b: State) {
    && b.seen == a.seen && b.order == a.order && b.records.Keys == a.records.Keys
    && forall k :: k in a.records ==>
         && b.records[k].deliveryIds == a.records[k].deliveryIds && b.records[k].createdAt == a.records[k].createdAt
         && b.records[k].identity == a.records[k].identity && b.records[k].attempt == a.records[k].attempt
  }

  lemma ClaimTouchesNothing(a: State, scope: Scope, now: int)
    requires Ordered(a)
    ensures SaysTheSame(a, Claim(a, scope, now))
  {
  }

  lemma ScanTouchesNothing(a: State, j: nat, ok: bool, stored: bool, now: int)
    requires j < |a.jobs| && a.jobs[j].key in a.records
    ensures SaysTheSame(a, ScanReturned(a, j, ok, stored, now))
  {
  }

  lemma SaveTouchesNothing(a: State, j: nat, ok: bool, published: bool, now: int)
    requires j < |a.jobs| && a.jobs[j].key in a.records
    ensures SaysTheSame(a, SaveReturned(a, j, ok, published, now))
  {
  }

  lemma PublishTouchesNothing(a: State, j: nat, ok: bool, now: int)
    requires j < |a.jobs| && a.jobs[j].key in a.records
    ensures SaysTheSame(a, PublishReturned(a, j, ok, now))
  {
  }

  lemma SeenAfter(a: State, s: Step, scannerVersion: string)
    requires Inv(a) && JobsHaveRecords(a) && Enabled(a, s)
    ensures Apply(a, s, scannerVersion).seen ==
            a.seen + if s.WebhookStep? && Shows(s, s.request.deliveryId) then {s.request.deliveryId} else {}
  {
    if !s.WebhookStep? { WorkTouchesNothing(a, s, scannerVersion); }
  }

  // ---------------------------------------------------------------- runs

  lemma SeenGrows(before: seq<Step>, a: State, s: Step, scannerVersion: string)
    requires Inv(a) && JobsHaveRecords(a) && Enabled(a, s) && SeenIsShown(a, before)
    ensures SeenIsShown(Apply(a, s, scannerVersion), before + [s])
  {
    var b, steps := Apply(a, s, scannerVersion), before + [s];
    SeenAfter(a, s, scannerVersion);
    forall id ensures id in b.seen <==> Shown(steps, id) {
      if Shown(before, id) {
        var k :| 0 <= k < |before| && Shows(before[k], id);
        assert steps[k] == before[k];
      }
      if Shows(s, id) { assert steps[|before|] == s; }
    }
  }

  lemma RunLast(steps: seq<Step>, scannerVersion: string) returns (a: State, s: Step)
    requires Run(steps, scannerVersion).Some? && steps != []
    ensures steps == steps[..|steps| - 1] + [s] && Run(steps[..|steps| - 1], scannerVersion) == Some(a)
    ensures Inv(a) && JobsHaveRecords(a) && Enabled(a, s)
    ensures Run(steps, scannerVersion).value == Apply(a, s, scannerVersion)
  {
    var front := steps[..|steps| - 1];
    LastIsEnabled(steps, scannerVersion);
    a, s := Run(front, scannerVersion).value, steps[|steps| - 1];
    RunOne(front, s, scannerVersion);
    assert steps == front + [s];
  }

  lemma LastIsEnabled(steps: seq<Step>, scannerVersion: string)
    requires Run(steps, scannerVersion).Some? && steps != []
    ensures var front := steps[..|steps| - 1];
      Run(front, scannerVersion).Some? && Enabled(Run(front, scannerVersion).value, steps[|steps| - 1])
  {
  }

  lemma {:induction false} SeenInRuns(steps: seq<Step>, scannerVersion: string)
    requires Run(steps, scannerVersion).Some?
    ensures SeenIsShown(Run(steps, scannerVersion).value, steps)
  {
    if steps != [] {
      var a, s := RunLast(steps, scannerVersion);
      SeenInRuns(steps[..|steps| - 1], scannerVersion);
      SeenGrows(steps[..|steps| - 1], a, s, scannerVersion);
    }
  }

  /** The last step of a run and the state it was taken in. */
  lemma LastStep(steps: seq<Step>, scannerVersion: string) returns (a: State, s: Step)
    requires Run(steps, scannerVersion).Some? && steps != []
    ensures var front := steps[..|steps| - 1];
      && steps == front + [s] && Run(front, scannerVersion) == Some(a) && SeenIsShown(a, front)
      && Inv(a) && JobsHaveRecords(a) && Enabled(a, s)
      && Run(steps, scannerVersion).value == Apply(a, s, scannerVersion)
  {
    a, s := RunLast(steps, scannerVersion);
    SeenInRuns(steps[..|steps| - 1], scannerVersion);
  }

  /** One more webhook that counts. */
  lemma TellsMore(was: Record, r: Record, h: seq<Step>, s: Step, scannerVersion: string)
    requires s.WebhookStep? && (forall t <- h :: t.WebhookStep?) && Tells(was, h, scannerVersion)
    requires r.deliveryIds == was.deliveryIds + [s.request.deliveryId] && r.createdAt == was.createdAt
    requires r.identity == was.identity && r.attempt == was.attempt + if s.request.manualRerun then 1 else 0
    ensures Tells(r, h + [s], scannerVersion)
  {
    assert (h + [s])[..|h|] == h;
    assert Ids(h + [s]) == Ids(h) + [s.request.deliveryId];
  }

  ghost predicate RecordTells(st: State, steps: seq<Step>, scannerVersion: string, key: string) {
    var h := History(steps, scannerVersion, key);
    && (key in st.records <==> h != [])
    && (key in st.records ==> Tells(st.records[key], h, scannerVersion))
  }

  lemma StepTells(before: seq<Step>, a: State, s: Step, scannerVersion: string, key: string)
    requires Inv(a) && JobsHaveRecords(a) && Enabled(a, s) && SeenIsShown(a, before)
    requires RecordTells(a, before, scannerVersion, key)
    ensures RecordTells(Apply(a, s, scannerVersion), before + [s], scannerVersion, key)
  {
    var h := History(before, scannerVersion, key);
    assert (before + [s])[..|before|] == before && h + [] == h;
    if s.WebhookStep? {
      CountsExactlyWhen(before, a, s, scannerVersion, key);
      if Webhook(a, s.request, s.scope, scannerVersion, s.now).1.Accepted? {
        AcceptedTells(before, a, s, scannerVersion, key);
      } else {
        RejectedTouchesNothing(a, s, scannerVersion);
      }
    } else {
      WorkTouchesNothing(a, s, scannerVersion);
    }
  }

  lemma AcceptedTells(before: seq<Step>, a: State, s: Step, scannerVersion: string, key: string)
    requires Inv(a) && s.WebhookStep? && Webhook(a, s.request, s.scope, scannerVersion, s.now).1.Accepted?
    requires SeenIsShown(a, before) && RecordTells(a, before, scannerVersion, key)
    ensures RecordTells(Webhook(a, s.request, s.scope, scannerVersion, s.now).0, before + [s], scannerVersion, key)
  {
    var (b, answer) := Webhook(a, s.request, s.scope, scannerVersion, s.now);
    var h := History(before, scannerVersion, key);
    assert (before + [s])[..|before|] == before && h + [] == h;
    CountsExactlyWhen(before, a, s, scannerVersion, key);
    AcceptedTouches(a, s, scannerVersion);
    if answer.decision.key == key && key in a.records {
      TellsMore(a.records[key], b.records[key], h, s, scannerVersion);
    }
  }

  /** Main result, both ways: in every run there is a record under a key exactly if some webhook that counts asked
      for it; its delivery ids are those of all webhooks that count, in order and each once, its attempt is one more
      than the reruns they asked for, and it dates from the first. Whatever the worker does, nothing is lost. */
  lemma {:induction false} RecordsTellTheirHistory(steps: seq<Step>, scannerVersion: string, key: string)
    requires Run(steps, scannerVersion).Some?
    ensures var st, h := Run(steps, scannerVersion).value, History(steps, scannerVersion, key);
      && (key in st.records <==> h != [])
      && (key in st.records ==> Tells(st.records[key], h, scannerVersion))
  {
    if steps != [] {
      var a, s := LastStep(steps, scannerVersion);
      RecordsTellTheirHistory(steps[..|steps| - 1], scannerVersion, key);
      StepTells(steps[..|steps| - 1], a, s, scannerVersion, key);
    }
  }

  lemma StepOrders(before: seq<Step>, a: State, s: Step, scannerVersion: string)
    requires Inv(a) && JobsHaveRecords(a) && Enabled(a, s) && SeenIsShown(a, before)
    requires a.order == KeysAsked(before, scannerVersion)
    ensures Apply(a, s, scannerVersion).order == KeysAsked(before + [s], scannerVersion)
  {
    assert (before + [s])[..|before|] == before;
    if s.WebhookStep? {
      var answer := Webhook(a, s.request, s.scope, scannerVersion, s.now).1;
      forall key ensures Counts(before, s, scannerVersion, key) <==> answer.Accepted? && answer.decision.key == key {
        CountsExactlyWhen(before, a, s, scannerVersion, key);
      }
      if answer.Accepted? {
        AcceptedTouches(a, s, scannerVersion);
      } else {
        RejectedTouchesNothing(a, s, scannerVersion);
      }
    } else {
      WorkTouchesNothing(a, s, scannerVersion);
    }
  }

  /** Main result: in every run the queue holds its keys in the order in which they were first asked for; reruns
      and the worker do not change it. */
  lemma {:induction false} QueueKeepsItsOrder(steps: seq<Step>, scannerVersion: string)
    requires Run(steps, scannerVersion).Some?
    ensures Run(steps, scannerVersion).value.order == KeysAsked(steps, scannerVersion)
  {
    if steps != [] {
      var a, s := LastStep(steps, scannerVersion);
      QueueKeepsItsOrder(steps[..|steps| - 1], scannerVersion);
      StepOrders(steps[..|steps| - 1], a, s, scannerVersion);
    }
  }
}
