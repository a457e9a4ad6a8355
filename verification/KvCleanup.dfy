/** Installation cleanup of the Cloudflare worker (`hosted/cloudflare-worker/src/index.js`): deleting,
    page by page, the scan records of a scope and the delivery receipts that belong to it. */
module KvCleanup {
  import opened Text
  import opened ScanIdentity

  /** A property of a stored object: missing, `null`, a number, or something else. */
  datatype Field = Undefined | Null | Number(n: int) | Other

  /** What is stored under a name. `Nothing` is the empty text or the text `null`, `Corrupt` is text that
      does not parse. A parsed value that is no object has no properties, and neither has an
      `identity` that is missing. */
  datatype Stored =
    | Nothing
    | Corrupt
    | Value(status: Option<string>, installationId: Field, repositoryId: Field,
            identityInstallationId: Field, identityRepositoryId: Field)

  type Entries = map<string, Stored>

  // ---------------------------------------------------------------- the store

  datatype Page = Page(keys: seq<string>, cursor: Option<string>)

  predicate Past(cursor: Option<string>, key: string) {
    cursor.Some? ==> Less(cursor.value, key)
  }

  /** The names still to come for a listing that stands at `cursor`. */
  function Ahead(entries: Entries, prefix: string, cursor: Option<string>): set<string> {
    set k <- entries | StartsWith(k, prefix) && Past(cursor, k)
  }

  predicate Ascending(keys: seq<string>) {
    forall i, j :: 0 <= i < j < |keys| ==> Less(keys[i], keys[j])
  }

  /** The places still to come: a name keeps its place for a while when its entry is deleted or expires. */
  function PlacesAhead(places: set<string>, prefix: string, cursor: Option<string>): set<string> {
    set k <- places | StartsWith(k, prefix) && Past(cursor, k)
  }

  /** What the platform promises of `list`: the next names in order, none of them past the cursor it may
      return, and none left out before it. The cursor stands at a place ahead of the one given; a page
      can be empty and still have one. */
  ghost predicate IsPage(page: Page, entries: Entries, places: set<string>, prefix: string, cursor: Option<string>) {
    && Ascending(page.keys)
    && (forall k <- page.keys :: k in Ahead(entries, prefix, cursor) && !(page.cursor.Some? && Past(page.cursor, k)))
    && (page.cursor.Some? ==> page.cursor.value in PlacesAhead(places, prefix, cursor))
    && (forall k <- Ahead(entries, prefix, cursor) :: k in page.keys || (page.cursor.Some? && Past(page.cursor, k)))
  }

  lemma {:induction false} LeastExists(keys: set<string>) returns (least: string)
    requires keys != {}
    ensures least in keys && forall k <- keys :: k == least || Less(least, k)
    decreases |keys|
  {
    var x :| x in keys;
    var rest := keys - {x};
    if rest == {} {
      assert keys == {x};
      least := x;
    } else {
      var y := LeastExists(rest);
      LessTotal(x, y);
      least := if Less(x, y) then x else y;
      if Less(x, y) {
        forall k <- keys ensures k == x || Less(x, k) {
          if k != x && k != y { LessTransitive(x, y, k); }
        }
      }
    }
  }

  /** A key-value store that lists names in order, a page at a time. */
  class KvStore {
    var entries: Entries
    const places: set<string>
    const pageSize: nat

    ghost predicate Valid()
      reads this`entries
    {
      pageSize > 0 && entries.Keys <= places
    }

    constructor (entries: Entries, places: set<string>, pageSize: nat)
      ensures this.entries == entries && this.places == places && this.pageSize == pageSize
    {
      this.entries, this.places, this.pageSize := entries, places, pageSize;
    }

    /** The names at the next `pageSize` places after the cursor, as far as they have entries. */
    method List(prefix: string, cursor: Option<string>) returns (page: Page)
      requires Valid()
      ensures IsPage(page, entries, places, prefix, cursor) && |page.keys| <= pageSize
    {
      var keys, at, seen := [], cursor, 0;
      ghost var all := Ahead(entries, prefix, cursor);
      while seen < pageSize && PlacesAhead(places, prefix, at) != {}
        invariant |keys| <= seen <= pageSize && (seen == 0 <==> at == cursor)
        invariant Listed(keys, all, at)
        invariant seen > 0 ==> at.Some? && at.value in PlacesAhead(places, prefix, cursor)
        invariant PlacesAhead(places, prefix, at) <= PlacesAhead(places, prefix, cursor)
      {
        var ahead := PlacesAhead(places, prefix, at);
        ghost var some := LeastExists(ahead);
        var next :| next in ahead && forall k <- ahead :: k == next || Less(next, k);
        NextPlace(entries, places, prefix, cursor, at, keys, next);
        if next in entries { keys := keys + [next]; }
        at, seen := Some(next), seen + 1;
      }
      page := Page(keys, if PlacesAhead(places, prefix, at) == {} then None else at);
      if page.cursor.None? {
        forall k <- all ensures k in keys {
          assert Past(at, k) ==> k in PlacesAhead(places, prefix, at);
        }
      }
    }

    method Delete(key: string)
      modifies this`entries
      ensures entries == old(entries) - {key}
    {
      entries := entries - {key};
    }
  }

  /** `keys` are the names of `all` that are not past `at`. */
  ghost predicate Listed(keys: seq<string>, all: set<string>, at: Option<string>) {
    && Ascending(keys)
    && (forall k <- keys :: k in all && at.Some? && !Past(at, k))
    && (forall k <- all :: k in keys || Past(at, k))
  }

  lemma NextPlace(entries: Entries, places: set<string>, prefix: string, cursor: Option<string>, at: Option<string>,
                  keys: seq<string>, next: string)
    requires entries.Keys <= places && Listed(keys, Ahead(entries, prefix, cursor), at)
    requires PlacesAhead(places, prefix, at) <= PlacesAhead(places, prefix, cursor)
    requires next in PlacesAhead(places, prefix, at)
    requires forall k <- PlacesAhead(places, prefix, at) :: k == next || Less(next, k)
    ensures Listed(if next in entries then keys + [next] else keys, Ahead(entries, prefix, cursor), Some(next))
    ensures PlacesAhead(places, prefix, Some(next)) <= PlacesAhead(places, prefix, at)
    ensures Some(next) != at && Some(next) != cursor
  {
    var all := Ahead(entries, prefix, cursor);
    LessTotal(next, next);
    forall k <- keys ensures Less(k, next) && !Less(next, k) {
      LessTotal(k, at.value);
      if k != at.value { LessTransitive(k, at.value, next); }
      LessTotal(k, next);
    }
    forall k <- PlacesAhead(places, prefix, Some(next)) ensures k in PlacesAhead(places, prefix, at) {
      if at.Some? { LessTransitive(at.value, next, k); }
    }
    forall k <- all ensures k in keys || k == next || Less(next, k) {
      assert Past(at, k) ==> k in PlacesAhead(places, prefix, at);
    }
  }

  // ---------------------------------------------------------------- what is in scope

  function ScanPrefixes(installationId: nat, repositoryIds: seq<nat>): seq<string> {
    if |repositoryIds| > 0 then
      seq(|repositoryIds|, i requires 0 <= i < |repositoryIds| => RepositoryPrefix(installationId, repositoryIds[i]))
    else [InstallationPrefix(installationId)]
  }

  const DELIVERY_PREFIX := "delivery:"

  predicate HasQueuedStatus(v: Stored) {
    v.Value? && v.status.Some? && v.status.value in {"queued", "pending", "running"}
  }

  /** `deliveryRecordMatchesCleanupScope`. */
  predicate DeliveryMatches(v: Stored, installationId: nat, repositoryIds: seq<nat>) {
    && v.Value?
    && (v.installationId == Number(installationId) || v.identityInstallationId == Number(installationId))
    && (repositoryIds == [] ||
        var repositoryId := if v.repositoryId in {Undefined, Null} then v.identityRepositoryId else v.repositoryId;
        repositoryId.Number? && repositoryId.n in repositoryIds)
  }

  predicate HasPrefixIn(name: string, prefixes: seq<string>) {
    exists p <- prefixes :: StartsWith(name, p)
  }

  function ScanRecords(entries: Entries, prefixes: seq<string>): set<string> {
    set k <- entries | HasPrefixIn(k, prefixes)
  }

  function QueuedAmong(entries: Entries, names: set<string>): set<string> {
    set k <- names | k in entries && HasQueuedStatus(entries[k])
  }

  function Receipts(entries: Entries): set<string> {
    set k <- entries | StartsWith(k, DELIVERY_PREFIX)
  }

  function DeliveryRecords(entries: Entries, installationId: nat, repositoryIds: seq<nat>,
                           current: string): set<string> {
    set k <- Receipts(entries) | k != current && DeliveryMatches(entries[k], installationId, repositoryIds)
  }

  // ---------------------------------------------------------------- the deletion loops

  lemma PlacesShrink(places: set<string>, prefix: string, cursor: Option<string>, next: string)
    requires next in PlacesAhead(places, prefix, cursor)
    ensures |PlacesAhead(places, prefix, Some(next))| < |PlacesAhead(places, prefix, cursor)|
  {
    var before, after := PlacesAhead(places, prefix, cursor), PlacesAhead(places, prefix, Some(next));
    forall k <- after ensures k in before {
      if cursor.Some? { LessTransitive(cursor.value, next, k); }
    }
    LessTotal(next, next);
    assert next in before && next !in after;
    SubsetSize(after, before - {next});
  }

  lemma {:induction false} SubsetSize<T>(a: set<T>, b: set<T>)
    requires a <= b
    ensures |a| <= |b|
  {
    assert b == a + (b - a);
  }

  function Names(keys: seq<string>): set<string> {
    set k <- keys
  }

  lemma QueuedUnion(start: Entries, gone: set<string>, batch: set<string>)
    requires gone !! batch
    ensures |QueuedAmong(start, gone + batch)| == |QueuedAmong(start, gone)| + |QueuedAmong(start - gone, batch)|
  {
    assert QueuedAmong(start, gone + batch) == QueuedAmong(start, gone) + QueuedAmong(start - gone, batch);
  }

  ghost predicate Distinct(keys: seq<string>) {
    forall i, j :: 0 <= i < j < |keys| ==> keys[i] != keys[j]
  }

  lemma AscendingIsDistinct(keys: seq<string>)
    requires Ascending(keys)
    ensures Distinct(keys)
  {
    forall i, j | 0 <= i < j < |keys| ensures keys[i] != keys[j] { LessTotal(keys[i], keys[j]); }
  }

  lemma NextNameIsNew(keys: seq<string>, i: nat)
    requires Distinct(keys) && i < |keys|
    ensures keys[i] !in Names(keys[..i]) && Names(keys[..i + 1]) == Names(keys[..i]) + {keys[i]}
  {
  }

  lemma NextScanRecord(start: Entries, keys: seq<string>, i: nat)
    requires Distinct(keys) && i < |keys| && Names(keys) <= start.Keys
    ensures var name, done, next := keys[i], Names(keys[..i]), Names(keys[..i + 1]);
      && name in start && name in start - done
      && start - next == start - done - {name} && |next| == |done| + 1
      && |QueuedAmong(start, next)| == |QueuedAmong(start, done)| + if HasQueuedStatus(start[name]) then 1 else 0
  {
    NextNameIsNew(keys, i);
    var name, done := keys[i], Names(keys[..i]);
    assert name in Names(keys);
    QueuedUnion(start, done, {name});
    assert QueuedAmong(start - done, {name}) == if HasQueuedStatus(start[name]) then {name} else {};
  }

  /** The inner loop over one page of scan records. */
  method DropScanPage(kv: KvStore, keys: seq<string>) returns (deletedRecords: nat, canceledJobs: nat)
    requires Distinct(keys) && Names(keys) <= kv.entries.Keys
    modifies kv`entries
    ensures kv.entries == old(kv.entries) - Names(keys)
    ensures deletedRecords == |Names(keys)| && canceledJobs == |QueuedAmong(old(kv.entries), Names(keys))|
  {
    ghost var start := kv.entries;
    deletedRecords, canceledJobs := 0, 0;
    for i := 0 to |keys|
      invariant kv.entries == start - Names(keys[..i])
      invariant deletedRecords == |Names(keys[..i])| && canceledJobs == |QueuedAmong(start, Names(keys[..i]))|
    {
      NextScanRecord(start, keys, i);
      var name := keys[i];
      if HasQueuedStatus(kv.entries[name]) { canceledJobs := canceledJobs + 1; }
      kv.Delete(name);
      deletedRecords := deletedRecords + 1;
    }
    assert keys[..|keys|] == keys;
  }

  /** A page of the listing settles the scan records it names and leaves those past its cursor. */
  lemma ScanPage(start: Entries, gone: set<string>, places: set<string>, page: Page, prefix: string,
                 cursor: Option<string>)
    requires IsPage(page, start - gone, places, prefix, cursor) && gone <= Ahead(start, prefix, None)
    requires forall k <- Ahead(start, prefix, None) :: k in gone || Past(cursor, k)
    ensures Distinct(page.keys)
    ensures var batch := Names(page.keys);
      && batch <= (start - gone).Keys && gone + batch <= Ahead(start, prefix, None)
      && |gone + batch| == |gone| + |batch| && start - gone - batch == start - (gone + batch)
      && |QueuedAmong(start, gone + batch)| == |QueuedAmong(start, gone)| + |QueuedAmong(start - gone, batch)|
      && forall k <- Ahead(start, prefix, None) :: k in gone + batch || (page.cursor.Some? && Past(page.cursor, k))
  {
    var all, batch := Ahead(start, prefix, None), Names(page.keys);
    AscendingIsDistinct(page.keys);
    forall k <- page.keys ensures k in start && k !in gone && k in all {
      assert k in Ahead(start - gone, prefix, cursor);
    }
    QueuedUnion(start, gone, batch);
    assert |gone + batch| == |gone| + |batch|;
    forall k <- all ensures k in gone + batch || (page.cursor.Some? && Past(page.cursor, k)) {
      if k !in gone { assert k in Ahead(start - gone, prefix, cursor); }
    }
  }

  /** One round of the first loop: every scan record under a prefix goes, and is counted. */
  method DeleteScanRecords(kv: KvStore, prefix: string) returns (deletedRecords: nat, canceledJobs: nat)
    requires kv.Valid()
    modifies kv`entries
    ensures var gone := ScanRecords(old(kv.entries), [prefix]);
      && kv.entries == old(kv.entries) - gone
      && deletedRecords == |gone|
      && canceledJobs == |QueuedAmong(old(kv.entries), gone)|
  {
    ghost var start := kv.entries;
    ghost var gone: set<string> := {};
    var cursor: Option<string>, more := None, true;
    deletedRecords, canceledJobs := 0, 0;
    while more
      invariant kv.entries == start - gone && gone <= Ahead(start, prefix, None)
      invariant forall k <- Ahead(start, prefix, None) :: k in gone || (more && Past(cursor, k))
      invariant deletedRecords == |gone| && canceledJobs == |QueuedAmong(start, gone)|
      decreases more, |PlacesAhead(kv.places, prefix, cursor)|
    {
      var page := kv.List(prefix, cursor);
      ScanPage(start, gone, kv.places, page, prefix, cursor);
      var deleted, canceled := DropScanPage(kv, page.keys);
      deletedRecords, canceledJobs := deletedRecords + deleted, canceledJobs + canceled;
      if page.cursor.Some? { PlacesShrink(kv.places, prefix, cursor, page.cursor.value); }
      gone, cursor, more := gone + Names(page.keys), page.cursor, page.cursor.Some?;
    }
    assert gone == Ahead(start, prefix, None);
    OnePrefix(start, prefix);
  }

  lemma OnePrefix(entries: Entries, prefix: string)
    ensures ScanRecords(entries, [prefix]) == Ahead(entries, prefix, None)
  {
  }

  lemma NextReceipt(start: Entries, keys: seq<string>, i: nat, installationId: nat, repositoryIds: seq<nat>,
                    current: string)
    requires Distinct(keys) && i < |keys| && Names(keys) <= Receipts(start)
    ensures var all := DeliveryRecords(start, installationId, repositoryIds, current);
      var done := Names(keys[..i]) * all;
      && keys[i] in start && keys[i] !in done
      && Names(keys[..i + 1]) * all ==
           if keys[i] != current && DeliveryMatches(start[keys[i]], installationId, repositoryIds)
           then done + {keys[i]} else done
  {
    NextNameIsNew(keys, i);
    assert keys[i] in Names(keys);
  }

  /** The inner loop over one page of receipts. */
  method DropDeliveryPage(kv: KvStore, keys: seq<string>, current: string, installationId: nat, repositoryIds: seq<nat>)
    returns (deletedRecords: nat)
    requires Distinct(keys) && Names(keys) <= Receipts(kv.entries)
    modifies kv`entries
    ensures kv.entries == old(kv.entries)
            - (Names(keys) * DeliveryRecords(old(kv.entries), installationId, repositoryIds, current))
    ensures deletedRecords == |Names(keys) * DeliveryRecords(old(kv.entries), installationId, repositoryIds, current)|
  {
    ghost var start := kv.entries;
    ghost var all := DeliveryRecords(start, installationId, repositoryIds, current);
    ghost var gone: set<string> := {};
    deletedRecords := 0;
    assert Names(keys[..0]) * all == {};
    for i := 0 to |keys|
      invariant gone == Names(keys[..i]) * all
      invariant kv.entries == start - gone && deletedRecords == |gone|
    {
      NextReceipt(start, keys, i, installationId, repositoryIds, current);
      var name := keys[i];
      assert name in kv.entries && kv.entries[name] == start[name];
      assert start - gone - {name} == start - (gone + {name});
      if name != current && DeliveryMatches(kv.entries[name], installationId, repositoryIds) {
        kv.Delete(name);
        gone, deletedRecords := gone + {name}, deletedRecords + 1;
      }
    }
    assert keys[..|keys|] == keys;
  }

  /** A page of the listing settles the receipts it names and leaves those past its cursor. */
  lemma ReceiptPage(start: Entries, gone: set<string>, places: set<string>, page: Page, cursor: Option<string>,
                    installationId: nat, repositoryIds: seq<nat>, current: string)
    requires IsPage(page, start - gone, places, DELIVERY_PREFIX, cursor)
    requires gone <= DeliveryRecords(start, installationId, repositoryIds, current)
    requires forall k <- DeliveryRecords(start, installationId, repositoryIds, current) :: k in gone || Past(cursor, k)
    ensures Names(page.keys) <= Receipts(start - gone) && Distinct(page.keys)
    ensures var all := DeliveryRecords(start, installationId, repositoryIds, current);
      var batch := Names(page.keys) * DeliveryRecords(start - gone, installationId, repositoryIds, current);
      && batch <= all && |gone + batch| == |gone| + |batch| && start - gone - batch == start - (gone + batch)
      && forall k <- all :: k in gone + batch || (page.cursor.Some? && Past(page.cursor, k))
  {
    var all := DeliveryRecords(start, installationId, repositoryIds, current);
    ReceiptsLeft(start, gone, installationId, repositoryIds, current);
    PageIsPartOfListing(page, start - gone, places, cursor);
    AscendingIsDistinct(page.keys);
    SettleNames(start, all, gone, Names(page.keys));
    var batch := Names(page.keys) * (all - gone);
    forall k <- all - gone ensures k in batch || (page.cursor.Some? && Past(page.cursor, k)) {
      assert k in Ahead(start - gone, DELIVERY_PREFIX, cursor);
    }
  }

  lemma ReceiptsLeft(start: Entries, gone: set<string>, installationId: nat, repositoryIds: seq<nat>, current: string)
    ensures DeliveryRecords(start - gone, installationId, repositoryIds, current)
         == DeliveryRecords(start, installationId, repositoryIds, current) - gone
  {
  }

  lemma SettleNames(start: Entries, all: set<string>, gone: set<string>, names: set<string>)
    requires gone <= all
    ensures var batch := names * (all - gone);
      batch <= all && |gone + batch| == |gone| + |batch| && start - gone - batch == start - (gone + batch)
  {
  }

  lemma PageIsPartOfListing(page: Page, entries: Entries, places: set<string>, cursor: Option<string>)
    requires IsPage(page, entries, places, DELIVERY_PREFIX, cursor)
    ensures Names(page.keys) <= Receipts(entries)
  {
  }

  /** The second loop: the receipts that match the scope go, but never the current one. */
  method DeleteDeliveryRecords(kv: KvStore, current: string, installationId: nat, repositoryIds: seq<nat>)
    returns (deletedRecords: nat)
    requires kv.Valid()
    modifies kv`entries
    ensures var gone := DeliveryRecords(old(kv.entries), installationId, repositoryIds, current);
      && kv.entries == old(kv.entries) - gone
      && deletedRecords == |gone|
  {
    ghost var start := kv.entries;
    ghost var all := DeliveryRecords(start, installationId, repositoryIds, current);
    ghost var gone: set<string> := {};
    var cursor: Option<string>, more := None, true;
    deletedRecords := 0;
    while more
      invariant kv.entries == start - gone && gone <= all
      invariant forall k <- all :: k in gone || (more && Past(cursor, k))
      invariant deletedRecords == |gone|
      decreases more, |PlacesAhead(kv.places, DELIVERY_PREFIX, cursor)|
    {
      ghost var entries := kv.entries;
      var page := kv.List(DELIVERY_PREFIX, cursor);
      ghost var batch := Names(page.keys) * DeliveryRecords(entries, installationId, repositoryIds, current);
      ReceiptPage(start, gone, kv.places, page, cursor, installationId, repositoryIds, current);
      var deleted := DropDeliveryPage(kv, page.keys, current, installationId, repositoryIds);
      deletedRecords := deletedRecords + deleted;
      if page.cursor.Some? { PlacesShrink(kv.places, DELIVERY_PREFIX, cursor, page.cursor.value); }
      gone, cursor, more := gone + batch, page.cursor, page.cursor.Some?;
    }
    assert gone == all;
  }

  /** Everything the cleanup deletes. */
  function InScope(entries: Entries, installationId: nat, repositoryIds: seq<nat>, current: string): set<string> {
    ScanRecords(entries, ScanPrefixes(installationId, repositoryIds)) +
    DeliveryRecords(entries, installationId, repositoryIds, current)
  }

  lemma ScanRecordsStep(start: Entries, prefixes: seq<string>, i: nat)
    requires i < |prefixes|
    ensures var done := ScanRecords(start, prefixes[..i]);
      var gone := ScanRecords(start - done, [prefixes[i]]);
      var next := ScanRecords(start, prefixes[..i + 1]);
      && start - next == start - done - gone && |next| == |done| + |gone|
      && |QueuedAmong(start, next)| == |QueuedAmong(start, done)| + |QueuedAmong(start - done, gone)|
  {
    var done := ScanRecords(start, prefixes[..i]);
    var gone := ScanRecords(start - done, [prefixes[i]]);
    var next := ScanRecords(start, prefixes[..i + 1]);
    ScanRecordsUnion(start, prefixes, i);
    DisjointSize(done, gone);
    QueuedUnion(start, done, gone);
    assert start - (done + gone) == start - done - gone;
  }

  lemma DisjointSize(a: set<string>, b: set<string>)
    requires a !! b
    ensures |a + b| == |a| + |b|
  {
  }

  lemma ScanRecordsUnion(start: Entries, prefixes: seq<string>, i: nat)
    requires i < |prefixes|
    ensures var done := ScanRecords(start, prefixes[..i]);
      var gone := ScanRecords(start - done, [prefixes[i]]);
      done !! gone && ScanRecords(start, prefixes[..i + 1]) == done + gone
  {
  }

  lemma ScanRecordName(installationId: nat, repositoryIds: seq<nat>, name: string)
    requires HasPrefixIn(name, ScanPrefixes(installationId, repositoryIds))
    ensures StartsWith(name, "scan:") && !StartsWith(name, DELIVERY_PREFIX)
  {
    var p :| p in ScanPrefixes(installationId, repositoryIds) && StartsWith(name, p);
    assert p[..5] == "scan:";
    assert name[..5] == p[..5];
    assert name[0] == 's';
  }

  /** Main result: the store afterwards is the store before without exactly what is in scope, and both
      counts are true, however small the pages are. */
  method DeleteCompactRecordsForInstallation(kv: KvStore, currentDeliveryKey: string, installationId: nat,
                                             repositoryIds: seq<nat>)
    returns (deletedRecords: nat, canceledJobs: nat)
    requires kv.Valid()
    modifies kv`entries
    ensures kv.entries == old(kv.entries) - InScope(old(kv.entries), installationId, repositoryIds, currentDeliveryKey)
    ensures deletedRecords == |InScope(old(kv.entries), installationId, repositoryIds, currentDeliveryKey)|
    ensures canceledJobs == |QueuedAmong(old(kv.entries),
                                         ScanRecords(old(kv.entries), ScanPrefixes(installationId, repositoryIds)))|
  {
    ghost var start := kv.entries;
    var prefixes := ScanPrefixes(installationId, repositoryIds);
    deletedRecords, canceledJobs := 0, 0;
    assert QueuedAmong(start, {}) == {};
    for i := 0 to |prefixes|
      invariant kv.entries == start - ScanRecords(start, prefixes[..i])
      invariant deletedRecords == |ScanRecords(start, prefixes[..i])|
      invariant canceledJobs == |QueuedAmong(start, ScanRecords(start, prefixes[..i]))|
    {
      ScanRecordsStep(start, prefixes, i);
      var deleted, canceled := DeleteScanRecords(kv, prefixes[i]);
      deletedRecords, canceledJobs := deletedRecords + deleted, canceledJobs + canceled;
    }
    assert prefixes[..|prefixes|] == prefixes;
    DeliveriesUntouched(start, installationId, repositoryIds, currentDeliveryKey);
    var deliveries := DeleteDeliveryRecords(kv, currentDeliveryKey, installationId, repositoryIds);
    deletedRecords := deletedRecords + deliveries;
  }

  /** Deleting the scan records leaves the same receipts to delete. */
  lemma DeliveriesUntouched(start: Entries, installationId: nat, repositoryIds: seq<nat>, current: string)
    ensures var scans := ScanRecords(start, ScanPrefixes(installationId, repositoryIds));
      var deliveries := DeliveryRecords(start, installationId, repositoryIds, current);
      && DeliveryRecords(start - scans, installationId, repositoryIds, current) == deliveries
      && start - scans - deliveries == start - (scans + deliveries)
      && |scans + deliveries| == |scans| + |deliveries|
  {
    var scans := ScanRecords(start, ScanPrefixes(installationId, repositoryIds));
    forall k <- scans ensures !StartsWith(k, DELIVERY_PREFIX) {
      ScanRecordName(installationId, repositoryIds, k);
    }
  }

  // ---------------------------------------------------------------- what that means for the names

  predicate RepositoryInScope(installationId: nat, repositoryIds: seq<nat>, i: nat, r: nat) {
    i == installationId && (repositoryIds == [] || r in repositoryIds)
  }

  /** Main result: a scan record is deleted exactly when its installation is the one named and its
      repository, if any are named, is one of them. `1` never takes `12` along. */
  lemma ScanRecordGoesExactlyWhen(entries: Entries, installationId: nat, repositoryIds: seq<nat>, current: string,
                                  i: nat, r: nat, rest: string)
    requires ScanName(i, r, rest) in entries
    ensures ScanName(i, r, rest) in InScope(entries, installationId, repositoryIds, current)
       <==> RepositoryInScope(installationId, repositoryIds, i, r)
  {
    var name, prefixes := ScanName(i, r, rest), ScanPrefixes(installationId, repositoryIds);
    assert name[0] == 's' && !StartsWith(name, DELIVERY_PREFIX);
    if repositoryIds == [] {
      InstallationPrefixExact(installationId, i, r, rest);
      assert prefixes[0] == InstallationPrefix(installationId);
    } else {
      forall k | 0 <= k < |repositoryIds|
        ensures StartsWith(name, prefixes[k]) <==> i == installationId && r == repositoryIds[k]
      {
        RepositoryPrefixExact(installationId, repositoryIds[k], i, r, rest);
      }
      if RepositoryInScope(installationId, repositoryIds, i, r) {
        var k :| 0 <= k < |repositoryIds| && repositoryIds[k] == r;
        assert prefixes[k] in prefixes;
      }
    }
  }

  /** A receipt of a pull request's delivery, or an older one with the ids at its top. */
  predicate IsReceiptFor(v: Stored, i: nat, r: nat) {
    v.Value? &&
    if v.installationId == Undefined then
      v.identityInstallationId == Number(i) && v.repositoryId == Undefined && v.identityRepositoryId == Number(r)
    else
      v.installationId == Number(i) && v.repositoryId == Number(r) &&
      v.identityInstallationId in {Undefined, Number(i)}
  }

  /** A receipt of an installation's delivery names no repository. */
  predicate IsReceiptOfInstallation(v: Stored, i: nat) {
    v.Value? && v.installationId == Number(i) && v.repositoryId == Undefined
    && v.identityInstallationId == Undefined && v.identityRepositoryId == Undefined
  }

  /** Main result, both ways: a receipt, other than the current one, goes exactly if its installation is the one
      named and its repository, if any are named, is one of them; a receipt of an installation goes only with
      the whole installation; and one that cannot be read, or names no number, stays. */
  lemma ReceiptGoesExactlyWhen(entries: Entries, installationId: nat, repositoryIds: seq<nat>, current: string,
                               id: string)
    requires "delivery:" + id in entries && "delivery:" + id != current
    ensures var name := "delivery:" + id;
      var v, goes := entries[name], name in InScope(entries, installationId, repositoryIds, current);
      && (forall i: nat, r: nat :: IsReceiptFor(v, i, r) ==>
            (goes <==> RepositoryInScope(installationId, repositoryIds, i, r)))
      && (forall i: nat :: IsReceiptOfInstallation(v, i) ==> (goes <==> i == installationId && repositoryIds == []))
      && (v.Nothing? || v.Corrupt? || (!v.installationId.Number? && !v.identityInstallationId.Number?) ==> !goes)
  {
    var name := "delivery:" + id;
    assert name[..9] == "delivery:" && name[0] == 'd';
    if HasPrefixIn(name, ScanPrefixes(installationId, repositoryIds)) {
      ScanRecordName(installationId, repositoryIds, name);
    }
  }

  /** A scan record counts as a cancelled job exactly if it is queued, pending or running. */
  lemma CountsExactlyWhen(entries: Entries, names: set<string>, name: string)
    requires name in names && name in entries
    ensures name in QueuedAmong(entries, names) <==>
      entries[name].Value? && entries[name].status in {Some("queued"), Some("pending"), Some("running")}
  {
  }

  /** Names that are neither scan records nor receipts, and the current receipt, are never deleted:
      counters, cleanup results and audit records stay. */
  lemma OutOfScopeStays(entries: Entries, installationId: nat, repositoryIds: seq<nat>, current: string, name: string)
    requires !StartsWith(name, "scan:") && (name == current || !StartsWith(name, DELIVERY_PREFIX))
    ensures name !in InScope(entries, installationId, repositoryIds, current)
  {
    if HasPrefixIn(name, ScanPrefixes(installationId, repositoryIds)) {
      ScanRecordName(installationId, repositoryIds, name);
    }
  }

  /** Cleaning up twice deletes nothing the second time. */
  lemma SecondCleanupFindsNothing(entries: Entries, installationId: nat, repositoryIds: seq<nat>, current: string)
    ensures InScope(entries - InScope(entries, installationId, repositoryIds, current),
                    installationId, repositoryIds, current) == {}
  {
  }

  /** Removing an installation takes everything that removing some of its repositories takes. */
  lemma InstallationCoversRepositories(entries: Entries, installationId: nat, repositoryIds: seq<nat>, current: string)
    ensures InScope(entries, installationId, repositoryIds, current) <= InScope(entries, installationId, [], current)
  {
    forall k <- ScanRecords(entries, ScanPrefixes(installationId, repositoryIds))
      ensures HasPrefixIn(k, [InstallationPrefix(installationId)])
    {
      var p :| p in ScanPrefixes(installationId, repositoryIds) && StartsWith(k, p);
      var whole := InstallationPrefix(installationId);
      assert whole <= p;
      assert k[..|whole|] == p[..|whole|];
      assert whole in [whole];
    }
  }

  /** The order and repetition of the repositories do not matter, and they can be cleaned up one by one. */
  lemma RepositoriesOneByOne(entries: Entries, installationId: nat, first: seq<nat>, rest: seq<nat>, current: string)
    requires first != [] && rest != []
    ensures InScope(entries, installationId, first + rest, current)
         == InScope(entries, installationId, first, current)
          + InScope(entries - InScope(entries, installationId, first, current), installationId, rest, current)
  {
    var p, q := ScanPrefixes(installationId, first), ScanPrefixes(installationId, rest);
    assert ScanPrefixes(installationId, first + rest) == p + q;
    forall k <- entries ensures HasPrefixIn(k, p + q) <==> HasPrefixIn(k, p) || HasPrefixIn(k, q) {
    }
    forall k <- entries ensures DeliveryMatches(entries[k], installationId, first + rest)
      <==> DeliveryMatches(entries[k], installationId, first) || DeliveryMatches(entries[k], installationId, rest) {
    }
  }
}
