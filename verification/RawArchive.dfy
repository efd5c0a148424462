/**
 * The life of a raw payload: archive workers copy it to object storage under expiring
 * leases, a sweep nulls it after a grace period, and everything may interleave, crash, or
 * finish late. One clock. A put is atomic; a row lock keeps sweeps and marks of one
 * snapshot apart.
 */
module RawArchive {
  import opened Common
  import opened Keyset
  import opened Codec

  const DAY: int := 86_400_000
  const GRACE_DAYS: int := 7

  datatype Status = Pending | Uploading | Verified | Failed

  /** A row of raw_snapshot_archives. */
  datatype Archive = Archive(
    key: Id, status: Status, originalSum: Digest, objectSum: Option<Digest>, objectSize: Option<nat>,
    verifiedAt: Option<int>, removedAt: Option<int>, leaseUntil: Option<int>, retryAt: Option<int>, attempts: nat)

  /** `payloads` and `checksums` are raw_api_snapshots; a nulled payload is None. */
  datatype Store = Store(
    payloads: map<Id, Option<Bytes>>, checksums: map<Id, Digest>,
    archives: map<Id, Archive>, objects: map<Id, Bytes>, now: int)

  datatype Worker =
    | Claimed(id: Id, key: Id, originalSum: Digest, attempt: nat)
    | Holding(id: Id, key: Id, attempt: nat, payload: Bytes)
    | Uploaded(id: Id, key: Id, attempt: nat, payload: Bytes)
    | Checked(id: Id, size: nat, sum: Digest, attempt: nat)
    | Failing(id: Id, attempt: nat)

  /**
   * `sweeping`: snapshots whose removal transaction has re-verified the object and not yet
   * committed; their rows are locked.
   */
  datatype World = World(store: Store, workers: map<Id, Worker>, sweeping: set<Id>)

  const EMPTY: World := World(Store(map[], map[], map[], map[], 0), map[], {})

  /** Nothing ingested yet, at whatever time and whatever storage holds. */
  predicate StartsEmpty(w: World) {
    w.store.payloads == map[] && w.store.archives == map[] && w.workers == map[] && w.sweeping == {}
  }

  // ------------------------------------------------------------ source rules

  /** A request may lengthen the grace period of seven days, never shorten it. */
  function EffectiveGraceDays(requested: Option<int>): (days: int)
    ensures days >= 7
    ensures requested.Some? ==> days >= requested.value
    ensures days == 7 || requested == Some(days)
  {
    if requested.None? || requested.value < GRACE_DAYS then GRACE_DAYS else requested.value
  }

  function BackoffSeconds(attempt: nat): (s: nat)
    ensures s <= 3600
  {
    if attempt > 6 then 3600 else
    var exp := 60 * Pow2(if attempt == 0 then 0 else attempt - 1);
    if exp > 3600 then 3600 else exp
  }

  function Pow2(n: nat): nat {
    if n == 0 then 1 else 2 * Pow2(n - 1)
  }

  /** The backoff doubles from a minute and stays at its cap; the cut-off above loses nothing. */
  lemma BackoffIsCappedDoubling(attempt: nat)
    ensures BackoffSeconds(attempt)
         == var exp := 60 * Pow2(if attempt == 0 then 0 else attempt - 1); if exp > 3600 then 3600 else exp
  {
    if attempt > 6 {
      Pow2Grows(6, attempt - 1);
      assert Pow2(6) == 64 by {
        assert Pow2(3) == 8;
        assert Pow2(6) == 8 * Pow2(3);
      }
    }
  }

  lemma {:induction false} Pow2Grows(a: nat, b: nat)
    requires a <= b
    ensures Pow2(a) <= Pow2(b)
  {
    if a < b {
      Pow2Grows(a, b - 1);
    }
  }

  predicate Claimable(a: Archive, now: int) {
    || (a.status in {Pending, Failed} && (a.retryAt.None? || a.retryAt.value <= now))
    || (a.status == Uploading && a.leaseUntil.Some? && a.leaseUntil.value <= now)
  }

  datatype SkipReason =
    | NoArchive | PayloadAlreadyRemoved | StateChangedUnderLock | WithinGracePeriod
    | ObjectMissing | ObjectChecksumMismatch | DecompressedMismatch | LivePayloadMismatch

  /** `reverify`: the stored object and the live payload, right before removal. */
  function Reverify(c: Codec, objects: map<Id, Bytes>, a: Archive, live: Bytes): Option<SkipReason>
    requires a.objectSum.Some?
  {
    if a.key !in objects then Some(ObjectMissing)
    else if c.sha(objects[a.key]) != a.objectSum.value then Some(ObjectChecksumMismatch)
    else
      var plain := c.gunzip(objects[a.key]);
      if plain.None? || c.sha(plain.value) != a.originalSum then Some(DecompressedMismatch)
      else if c.sha(live) != a.originalSum then Some(LivePayloadMismatch)
      else None
  }

  /** The gates of `removeOnePayload` in order; None means the payload may be nulled. */
  function RemovalGate(c: Codec, s: Store, id: Id, graceDays: int): Option<SkipReason> {
    if id !in s.payloads || id !in s.archives then Some(NoArchive)
    else
      var a := s.archives[id];
      if s.payloads[id].None? || a.removedAt.Some? then Some(PayloadAlreadyRemoved)
      else if a.status != Verified || a.verifiedAt.None? || a.objectSum.None? then Some(StateChangedUnderLock)
      else if a.verifiedAt.value > s.now - graceDays * DAY then Some(WithinGracePeriod)
      else Reverify(c, s.objects, a, s.payloads[id].value)
  }

  /** The first `n` of the eight gates before a removal, in the order they are asked. */
  ghost predicate PassesGates(c: Codec, s: Store, id: Id, days: int, n: nat) {
    && (n >= 1 ==> id in s.payloads && id in s.archives)
    && (n >= 2 ==> s.payloads[id].Some? && s.archives[id].removedAt.None?)
    && (n >= 3 ==>
          s.archives[id].status == Verified && s.archives[id].verifiedAt.Some? && s.archives[id].objectSum.Some?)
    && (n >= 4 ==> s.now - s.archives[id].verifiedAt.value >= days * 86_400_000)
    && (n >= 5 ==> s.archives[id].key in s.objects)
    && (n >= 6 ==> Some(c.sha(s.objects[s.archives[id].key])) == s.archives[id].objectSum)
    && (n >= 7 ==>
          && c.gunzip(s.objects[s.archives[id].key]).Some?
          && c.sha(c.gunzip(s.objects[s.archives[id].key]).value) == s.archives[id].originalSum)
    && (n >= 8 ==> c.sha(s.payloads[id].value) == s.archives[id].originalSum)
  }

  /** The gate that a refusal names. */
  function GateOf(reason: SkipReason): nat {
    match reason
    case NoArchive => 1
    case PayloadAlreadyRemoved => 2
    case StateChangedUnderLock => 3
    case WithinGracePeriod => 4
    case ObjectMissing => 5
    case ObjectChecksumMismatch => 6
    case DecompressedMismatch => 7
    case LivePayloadMismatch => 8
  }

  /** A removal is decided by the eight gates, and a refusal names the first that fails. */
  lemma RefusedByFirstGate(c: Codec, s: Store, id: Id, days: int)
    ensures var r := RemovalGate(c, s, id, days);
      && (r.None? <==> PassesGates(c, s, id, days, 8))
      && (r.Some? ==> PassesGates(c, s, id, days, GateOf(r.value) - 1) && !PassesGates(c, s, id, days, GateOf(r.value)))
  {
  }

  function RemovePayload(s: Store, id: Id): Store
    requires id in s.payloads && id in s.archives
  {
    s.(payloads := s.payloads[id := None],
       archives := s.archives[id := s.archives[id].(removedAt := Some(s.now))])
  }

  function MarkVerified(s: Store, id: Id, size: nat, sum: Digest): Store
    requires id in s.archives
  {
    s.(archives := s.archives[id := s.archives[id].(
      status := Verified, objectSize := Some(size), objectSum := Some(sum), verifiedAt := Some(s.now),
          leaseUntil := None)])
  }

  function MarkFailed(s: Store, id: Id, attempt: nat): Store
    requires id in s.archives
  {
    s.(archives := s.archives[id := s.archives[id].(
      status := Failed, retryAt := Some(s.now + BackoffSeconds(attempt) * 1000), leaseUntil := None)])
  }

  function Claim(s: Store, id: Id, leaseSeconds: nat): Store
    requires id in s.archives
  {
    var a := s.archives[id];
    s.(archives := s.archives[id := a.(
      status := Uploading, leaseUntil := Some(s.now + leaseSeconds * 1000), attempts := a.attempts + 1)])
  }

  /** HEAD, then unless switched off GET and re-hash, of a freshly uploaded object. */
  predicate UploadVerifies(c: Codec, objects: map<Id, Bytes>, key: Id, payload: Bytes, byDownload: bool) {
    && key in objects
    && |objects[key]| == |c.gzip(payload)|
    && (byDownload ==>
          && c.sha(objects[key]) == c.sha(c.gzip(payload))
          && c.gunzip(objects[key]).Some?
          && c.sha(c.gunzip(objects[key]).value) == c.sha(payload))
  }

  /** With the download an upload verifies exactly when the very bytes are stored; without it, when as many are. */
  lemma UploadVerifiesExactly(c: Codec, objects: map<Id, Bytes>, key: Id, payload: Bytes)
    requires c.Sound()
    ensures UploadVerifies(c, objects, key, payload, true) <==> key in objects && objects[key] == c.gzip(payload)
    ensures UploadVerifies(c, objects, key, payload, false) <==> key in objects && |objects[key]| == |c.gzip(payload)|
  {
  }

  // ------------------------------------------------------------------- steps

  datatype Action =
    | Tick(to: int)
    | Ingest(id: Id, payload: Bytes, checksum: Digest)
    | Enqueue(id: Id, key: Id)
    | ClaimNext(w: Id, id: Id, leaseSeconds: nat)
    | ReadPayload(w: Id)
    | Upload(w: Id)
    | Throws(w: Id)
    | Check(w: Id, byDownload: bool)
    | Mark(w: Id)
    | Die(w: Id)
    | SweepVerifies(id: Id, requestedDays: Option<int>)
    | SweepCommits(id: Id)
    | SweepAborts(id: Id)
    | StorageFault(key: Id, left: Option<Bytes>)

  /**
   * Storage may lose or corrupt an object only while every snapshot stored under it still has
   * its payload and no removal of it is being decided.
   */
  predicate FaultAllowed(w: World, key: Id) {
    forall id :: id in w.store.archives && w.store.archives[id].key == key && id in w.store.payloads ==>
      w.store.payloads[id].Some? && id !in w.sweeping
  }

  predicate Enabled(c: Codec, w: World, a: Action) {
    var s := w.store;
    match a
    case Tick(to) => to >= s.now
    case Ingest(id, _, _) => id !in s.payloads && id !in s.archives
    case Enqueue(id, key) => id in s.payloads && id in s.checksums && id !in s.archives
                             && forall o :: o in s.archives ==> s.archives[o].key != key
    case ClaimNext(p, id, _) => p !in w.workers && id in s.archives && id !in w.sweeping
        && Claimable(s.archives[id], s.now)
    case ReadPayload(p) => p in w.workers && w.workers[p].Claimed? && w.workers[p].id in s.payloads
                           && w.workers[p].id in s.checksums
    case Upload(p) => p in w.workers && w.workers[p].Holding?
    case Throws(p) => p in w.workers && !w.workers[p].Failing?
    case Check(p, _) => p in w.workers && w.workers[p].Uploaded?
    case Mark(p) => p in w.workers && (w.workers[p].Checked? || w.workers[p].Failing?)
                    && w.workers[p].id in s.archives && w.workers[p].id !in w.sweeping
    case Die(p) => p in w.workers
    case SweepVerifies(id, days) => id !in w.sweeping && RemovalGate(c, s, id, EffectiveGraceDays(days)).None?
    case SweepCommits(id) => id in w.sweeping && id in s.payloads && id in s.archives
    case SweepAborts(id) => id in w.sweeping
    case StorageFault(key, _) => FaultAllowed(w, key)
  }

  function Without(workers: map<Id, Worker>, p: Id): map<Id, Worker> {
    map q | q in workers && q != p :: workers[q]
  }

  /**
   * Steps 1 and 2 of `archiveOne`: a nulled payload throws, a checksum mismatch fails, else the
   * worker holds the payload.
   */
  function AfterRead(c: Codec, s: Store, k: Worker): Worker
    requires k.Claimed? && k.id in s.payloads && k.id in s.checksums
  {
    var p := s.payloads[k.id];
    if p.None? || c.sha(p.value) != k.originalSum || c.sha(p.value) != s.checksums[k.id]
    then Failing(k.id, k.attempt)
    else Holding(k.id, k.key, k.attempt, p.value)
  }

  function Next(c: Codec, w: World, a: Action): World
    requires Enabled(c, w, a)
  {
    var s := w.store;
    match a
    case Tick(to) => w.(store := s.(now := to))
    case Ingest(id, payload, sum) =>
      w.(store := s.(payloads := s.payloads[id := Some(payload)], checksums := s.checksums[id := sum]))
    case Enqueue(id, key) =>
      w.(store := s.(archives := s.archives[id :=
        Archive(key, Pending, s.checksums[id], None, None, None, None, None, None, 0)]))
    case ClaimNext(p, id, lease) =>
      var row := s.archives[id];
      w.(store := Claim(s, id, lease),
          workers := w.workers[p := Claimed(id, row.key, row.originalSum, row.attempts + 1)])
    case ReadPayload(p) => w.(workers := w.workers[p := AfterRead(c, s, w.workers[p])])
    case Upload(p) =>
      var k := w.workers[p];
      w.(store := s.(objects := s.objects[k.key := c.gzip(k.payload)]),
         workers := w.workers[p := Uploaded(k.id, k.key, k.attempt, k.payload)])
    case Throws(p) => w.(workers := w.workers[p := Failing(w.workers[p].id, w.workers[p].attempt)])
    case Check(p, byDownload) =>
      var k := w.workers[p];
      var z := c.gzip(k.payload);
      w.(workers := w.workers[p :=
        if UploadVerifies(c, s.objects, k.key, k.payload, byDownload) then Checked(k.id, |z|, c.sha(z), k.attempt)
        else Failing(k.id, k.attempt)])
    case Mark(p) =>
      var k := w.workers[p];
      w.(store := if k.Checked? then MarkVerified(s, k.id, k.size, k.sum) else MarkFailed(s, k.id, k.attempt),
         workers := Without(w.workers, p))
    case Die(p) => w.(workers := Without(w.workers, p))
    case SweepVerifies(id, _) => w.(sweeping := w.sweeping + {id})
    case SweepCommits(id) => w.(store := RemovePayload(s, id), sweeping := w.sweeping - {id})
    case SweepAborts(id) => w.(sweeping := w.sweeping - {id})
    case StorageFault(key, left) =>
      w.(store := s.(objects := Damage(s.objects, key, left)))
  }

  /** The object is replaced by `left`, or lost. */
  function Damage(objects: map<Id, Bytes>, key: Id, left: Option<Bytes>): map<Id, Bytes> {
    if left.Some? then objects[key := left.value] else map k | k in objects && k != key :: objects[k]
  }

  // --------------------------------------------------------------- invariant

  /** The stored object of `id` decompresses to exactly `payload`. */
  predicate Stored(c: Codec, s: Store, id: Id, payload: Bytes) {
    id in s.archives && s.archives[id].key in s.objects && c.gunzip(s.objects[s.archives[id].key]) == Some(payload)
  }

  /** `orig` remembers each snapshot's payload as ingested. */
  ghost predicate NotLost(c: Codec, s: Store, orig: map<Id, Bytes>) {
    forall id :: id in s.payloads ==>
      id in orig && (s.payloads[id] == Some(orig[id]) || (s.payloads[id].None? && Stored(c, s, id, orig[id])))
  }

  ghost predicate WorkerInv(s: Store, orig: map<Id, Bytes>, k: Worker) {
    && k.id in s.archives
    && (k.Claimed? || k.Holding? || k.Uploaded? ==> k.key == s.archives[k.id].key)
    && (k.Holding? || k.Uploaded? ==> k.id in orig && k.payload == orig[k.id])
  }

  ghost predicate Inv(c: Codec, w: World, orig: map<Id, Bytes>) {
    var s := w.store;
    && orig.Keys == s.payloads.Keys && s.archives.Keys <= s.payloads.Keys
    && (forall a, b :: a in s.archives && b in s.archives && a != b ==> s.archives[a].key != s.archives[b].key)
    && NotLost(c, s, orig)
    && (forall q :: q in w.workers ==> WorkerInv(s, orig, w.workers[q]))
    && (forall id :: id in w.sweeping ==> id in s.payloads && s.payloads[id].Some? && Stored(c, s, id, orig[id]))
  }

  function Remember(orig: map<Id, Bytes>, a: Action): map<Id, Bytes> {
    if a.Ingest? then orig[a.id := a.payload] else orig
  }

  /** Passing the gate means the stored object decompresses to the live payload: both hash to the recorded checksum. */
  lemma GateProvesStored(c: Codec, s: Store, id: Id, graceDays: int)
    requires c.Sound() && RemovalGate(c, s, id, graceDays).None?
    ensures s.payloads[id].Some? && Stored(c, s, id, s.payloads[id].value)
  {
  }

  lemma UploadKeeps(c: Codec, w: World, p: Id, orig: map<Id, Bytes>)
    requires c.Sound() && Inv(c, w, orig) && Enabled(c, w, Upload(p))
    ensures Inv(c, Next(c, w, Upload(p)), orig)
  {
    var k := w.workers[p];
    assert WorkerInv(w.store, orig, k);
    var s' := Next(c, w, Upload(p)).store;
    forall id | id in w.store.archives && Stored(c, w.store, id, orig[id])
      ensures Stored(c, s', id, orig[id])
    {
    }
  }

  lemma FaultKeeps(c: Codec, w: World, key: Id, left: Option<Bytes>, orig: map<Id, Bytes>)
    requires Inv(c, w, orig) && FaultAllowed(w, key)
    ensures Inv(c, Next(c, w, StorageFault(key, left)), orig)
  {
    var s, s' := w.store, Next(c, w, StorageFault(key, left)).store;
    forall id | id in s.payloads && Stored(c, s, id, orig[id]) && (s.payloads[id].None? || id in w.sweeping)
      ensures Stored(c, s', id, orig[id])
    {
      assert s.archives[id].key != key;
    }
  }

  /** Claims and marks rewrite one row but never its key, and add no payload to any worker. */
  lemma RowUpdateKeeps(c: Codec, w: World, id: Id, row: Archive, workers: map<Id, Worker>, orig: map<Id, Bytes>)
    requires Inv(c, w, orig) && id in w.store.archives && row.key == w.store.archives[id].key
    requires forall q :: q in workers ==>
               (q in w.workers && workers[q] == w.workers[q])
                   || (workers[q].Claimed? && workers[q].id == id && workers[q].key == row.key)
    ensures Inv(c, w.(store := w.store.(archives := w.store.archives[id := row]), workers := workers), orig)
  {
    var s := w.store;
    var s' := s.(archives := s.archives[id := row]);
    forall o | o in s.archives
      ensures o in s'.archives && s'.archives[o].key == s.archives[o].key
    {
    }
    forall q | q in workers
      ensures WorkerInv(s', orig, workers[q])
    {
      if q in w.workers && workers[q] == w.workers[q] {
        assert WorkerInv(s, orig, w.workers[q]);
      }
    }
  }

  /** Steps that only move one worker from state to state. */
  lemma WorkerStepKeeps(c: Codec, w: World, p: Id, k: Worker, orig: map<Id, Bytes>)
    requires Inv(c, w, orig) && WorkerInv(w.store, orig, k)
    ensures Inv(c, w.(workers := w.workers[p := k]), orig)
  {
  }

  lemma MarkKeeps(c: Codec, w: World, p: Id, orig: map<Id, Bytes>)
    requires Inv(c, w, orig) && Enabled(c, w, Mark(p))
    ensures Inv(c, Next(c, w, Mark(p)), orig)
  {
    var w' := Next(c, w, Mark(p));
    var id := w.workers[p].id;
    RowUpdateKeeps(c, w, id, w'.store.archives[id], w'.workers, orig);
  }

  lemma SweepCommitKeeps(c: Codec, w: World, id: Id, orig: map<Id, Bytes>)
    requires Inv(c, w, orig) && Enabled(c, w, SweepCommits(id))
    ensures Inv(c, Next(c, w, SweepCommits(id)), orig)
  {
    var s, s' := w.store, Next(c, w, SweepCommits(id)).store;
    forall o | o in s.archives
      ensures o in s'.archives && s'.archives[o].key == s.archives[o].key
    {
    }
    forall q | q in w.workers
      ensures WorkerInv(s', orig, w.workers[q])
    {
      assert WorkerInv(s, orig, w.workers[q]);
    }
  }

  lemma EnqueueKeeps(c: Codec, w: World, id: Id, key: Id, orig: map<Id, Bytes>)
    requires Inv(c, w, orig) && Enabled(c, w, Enqueue(id, key))
    ensures Inv(c, Next(c, w, Enqueue(id, key)), orig)
  {
    var s, s' := w.store, Next(c, w, Enqueue(id, key)).store;
    forall o | o in s.archives
      ensures s'.archives[o] == s.archives[o]
    {
    }
    forall q | q in w.workers
      ensures WorkerInv(s', orig, w.workers[q])
    {
      assert WorkerInv(s, orig, w.workers[q]);
    }
  }

  lemma NextKeeps(c: Codec, w: World, a: Action, orig: map<Id, Bytes>)
    requires c.Sound() && Inv(c, w, orig) && Enabled(c, w, a)
    ensures Inv(c, Next(c, w, a), Remember(orig, a))
  {
    var w' := Next(c, w, a);
    match a
    case Tick(to) =>
    case Ingest(id, payload, sum) => IngestKeeps(c, w, id, payload, sum, orig);
    case Enqueue(id, key) => EnqueueKeeps(c, w, id, key, orig);
    case ClaimNext(p, id, lease) => RowUpdateKeeps(c, w, id, w'.store.archives[id], w'.workers, orig);
    case ReadPayload(p) =>
      assert WorkerInv(w.store, orig, w.workers[p]);
      WorkerStepKeeps(c, w, p, w'.workers[p], orig);
    case Upload(p) => UploadKeeps(c, w, p, orig);
    case Throws(p) =>
      assert WorkerInv(w.store, orig, w.workers[p]);
      WorkerStepKeeps(c, w, p, w'.workers[p], orig);
    case Check(p, byDownload) =>
      assert WorkerInv(w.store, orig, w.workers[p]);
      WorkerStepKeeps(c, w, p, w'.workers[p], orig);
    case Mark(p) => MarkKeeps(c, w, p, orig);
    case Die(p) =>
    case SweepVerifies(id, days) => GateProvesStored(c, w.store, id, EffectiveGraceDays(days));
    case SweepCommits(id) => SweepCommitKeeps(c, w, id, orig);
    case SweepAborts(id) =>
    case StorageFault(key, left) => FaultKeeps(c, w, key, left, orig);
  }

  lemma IngestKeeps(c: Codec, w: World, id: Id, payload: Bytes, sum: Digest, orig: map<Id, Bytes>)
    requires Inv(c, w, orig) && Enabled(c, w, Ingest(id, payload, sum))
    ensures Inv(c, Next(c, w, Ingest(id, payload, sum)), orig[id := payload])
  {
    var s, s' := w.store, Next(c, w, Ingest(id, payload, sum)).store;
    forall q | q in w.workers
      ensures WorkerInv(s', orig[id := payload], w.workers[q])
    {
      assert WorkerInv(s, orig, w.workers[q]);
    }
  }

  // ------------------------------------------------------------ main results

  ghost predicate Path(c: Codec, worlds: seq<World>, actions: seq<Action>) {
    && |worlds| == |actions| + 1
    && forall i :: 0 <= i < |actions| ==> Enabled(c, worlds[i], actions[i]) && worlds[i + 1] == Next(c, worlds[i], actions[i])
  }

  function RememberAll(orig: map<Id, Bytes>, actions: seq<Action>): map<Id, Bytes>
    decreases |actions|
  {
    if actions == [] then orig else RememberAll(Remember(orig, actions[0]), actions[1..])
  }

  /**
   * No payload is ever lost: on every path, every snapshot's payload as ingested is still live,
   * or its stored object decompresses to exactly it.
   */
  lemma {:induction false} NoPayloadIsEverLost(c: Codec, worlds: seq<World>, actions: seq<Action>, orig: map<Id, Bytes>)
    requires c.Sound() && Path(c, worlds, actions) && Inv(c, worlds[0], orig)
    ensures NotLost(c, worlds[|actions|].store, RememberAll(orig, actions))
    ensures forall id :: id in orig ==> id in RememberAll(orig, actions) && RememberAll(orig, actions)[id] == orig[id]
    decreases |actions|
  {
    if actions != [] {
      NextKeeps(c, worlds[0], actions[0], orig);
      assert Path(c, worlds[1..], actions[1..]) by {
        forall i | 0 <= i < |actions[1..]|
          ensures Enabled(c, worlds[1..][i], actions[1..][i])
          ensures worlds[1..][i + 1] == Next(c, worlds[1..][i], actions[1..][i])
        {
          assert actions[1..][i] == actions[i + 1] && worlds[1..][i] == worlds[i + 1];
        }
      }
      NoPayloadIsEverLost(c, worlds[1..], actions[1..], Remember(orig, actions[0]));
    }
  }

  /** Once ingested, a payload is remembered as it was. */
  lemma {:induction false} IngestedIsRemembered(c: Codec, worlds: seq<World>, actions: seq<Action>,
      orig: map<Id, Bytes>, k: nat)
    requires c.Sound() && Path(c, worlds, actions) && Inv(c, worlds[0], orig)
    requires k < |actions| && actions[k].Ingest?
    ensures var all := RememberAll(orig, actions); actions[k].id in all && all[actions[k].id] == actions[k].payload
  {
    hide Inv, Enabled, Next, NotLost;
    NextKeeps(c, worlds[0], actions[0], orig);
    assert Path(c, worlds[1..], actions[1..]) by {
      forall i | 0 <= i < |actions[1..]|
        ensures Enabled(c, worlds[1..][i], actions[1..][i])
        ensures worlds[1..][i + 1] == Next(c, worlds[1..][i], actions[1..][i])
      {
        assert actions[1..][i] == actions[i + 1] && worlds[1..][i] == worlds[i + 1];
      }
    }
    if k == 0 {
      NoPayloadIsEverLost(c, worlds[1..], actions[1..], Remember(orig, actions[0]));
    } else {
      IngestedIsRemembered(c, worlds[1..], actions[1..], Remember(orig, actions[0]), k - 1);
    }
  }

  /**
   * So it is from an empty store on: at the end of every path each payload ever ingested is still
   * in its row, or its row is nulled and the object under its archive's key decompresses to it.
   */
  lemma NothingIsLostFromTheStart(c: Codec, worlds: seq<World>, actions: seq<Action>)
    requires c.Sound() && Path(c, worlds, actions)
    requires StartsEmpty(worlds[0])
    ensures NotLost(c, worlds[|actions|].store, RememberAll(map[], actions))
    ensures forall k :: 0 <= k < |actions| && actions[k].Ingest? ==>
      var s, id := worlds[|actions|].store, actions[k].id;
      && id in s.payloads
      && (s.payloads[id] == Some(actions[k].payload)
          || (&& s.payloads[id].None? && id in s.archives && s.archives[id].key in s.objects
              && c.gunzip(s.objects[s.archives[id].key]) == Some(actions[k].payload)))
  {
    NoPayloadIsEverLost(c, worlds, actions, map[]);
    forall k | 0 <= k < |actions| && actions[k].Ingest?
      ensures var id := actions[k].id;
        && id in RememberAll(map[], actions) && RememberAll(map[], actions)[id] == actions[k].payload
        && id in worlds[|actions|].store.payloads
    {
      IngestedIsRemembered(c, worlds, actions, map[], k);
      StaysIngested(c, worlds, actions, k, |actions|);
    }
  }

  lemma {:induction false} StaysIngested(c: Codec, worlds: seq<World>, actions: seq<Action>, k: nat, n: nat)
    requires Path(c, worlds, actions) && k < n <= |actions| && actions[k].Ingest?
    ensures actions[k].id in worlds[n].store.payloads
  {
    assert worlds[n] == Next(c, worlds[n - 1], actions[n - 1]);
    if k < n - 1 {
      StaysIngested(c, worlds, actions, k, n - 1);
    }
  }

  // -------------------------------------------------------- the grace period

  const GRACE: int := 7 * DAY

  predicate GraceOver(s: Store, id: Id) {
    id in s.archives && s.archives[id].verifiedAt.Some? && s.now - s.archives[id].verifiedAt.value >= GRACE
  }

  /** What is being removed was verified long enough ago. */
  predicate SweepInv(w: World) {
    forall id :: id in w.sweeping ==> GraceOver(w.store, id) && w.store.archives[id].status == Verified
  }

  lemma DecisionRespectsGrace(c: Codec, w: World, id: Id, requestedDays: Option<int>)
    requires Enabled(c, w, SweepVerifies(id, requestedDays))
    ensures GraceOver(w.store, id) && w.store.archives[id].status == Verified
  {
    assert EffectiveGraceDays(requestedDays) * DAY >= GRACE;
  }

  /** A verified mark at least seven days old, and at least as old as was asked for. */
  predicate OldEnough(s: Store, id: Id, requestedDays: Option<int>) {
    && id in s.archives && s.archives[id].verifiedAt.Some?
    && var age := s.now - s.archives[id].verifiedAt.value;
    age >= 604_800_000 && (requestedDays.Some? ==> age >= requestedDays.value * 86_400_000)
  }

  lemma GateMeansOldEnough(c: Codec, s: Store, id: Id, requestedDays: Option<int>)
    requires RemovalGate(c, s, id, EffectiveGraceDays(requestedDays)).None?
    ensures OldEnough(s, id, requestedDays)
  {
    var days := EffectiveGraceDays(requestedDays);
    RefusedByFirstGate(c, s, id, days);
    assert days * 86_400_000 >= 604_800_000;
  }

  /** While a removal is pending its row is locked: nobody can re-verify, fail or reclaim it before the commit. */
  lemma RowIsStableWhileSweeping(c: Codec, w: World, a: Action, id: Id)
    requires Enabled(c, w, a) && id in w.sweeping && id in w.store.archives
    ensures id in Next(c, w, a).store.archives
    ensures a != SweepCommits(id) ==> Next(c, w, a).store.archives[id] == w.store.archives[id]
  {
  }

  /** Between its verification and its commit or abort a removal stays pending, on an unchanged row. */
  lemma {:induction false} PendingSince(c: Codec, worlds: seq<World>, actions: seq<Action>, j: nat, i: nat, id: Id)
    requires Path(c, worlds, actions) && j < i < |actions| && actions[j].SweepVerifies? && actions[j].id == id
    requires forall k :: j < k < i ==> actions[k] != SweepCommits(id) && actions[k] != SweepAborts(id)
    ensures id in worlds[i].sweeping && id in worlds[j].store.archives && id in worlds[i].store.archives
    ensures worlds[i].store.archives[id] == worlds[j].store.archives[id] && worlds[i].store.now >= worlds[j].store.now
  {
    hide RemovalGate;
    if i == j + 1 {
      assert worlds[i] == Next(c, worlds[j], actions[j]);
      RefusedByFirstGate(c, worlds[j].store, id, EffectiveGraceDays(actions[j].requestedDays));
    } else {
      PendingSince(c, worlds, actions, j, i - 1, id);
      assert worlds[i] == Next(c, worlds[i - 1], actions[i - 1]);
      RowIsStableWhileSweeping(c, worlds[i - 1], actions[i - 1], id);
    }
  }

  /** A commit removes what some verification before it let pass, with neither commit nor abort in between. */
  lemma {:induction false} CommitWasVerified(c: Codec, worlds: seq<World>, actions: seq<Action>, i: nat, id: Id)
      returns (j: nat)
    requires Path(c, worlds, actions) && worlds[0].sweeping == {} && i < |worlds| && id in worlds[i].sweeping
    ensures j < i && actions[j].SweepVerifies? && actions[j].id == id
    ensures forall k :: j < k < i ==> actions[k] != SweepCommits(id) && actions[k] != SweepAborts(id)
  {
    assert worlds[i] == Next(c, worlds[i - 1], actions[i - 1]);
    if id !in worlds[i - 1].sweeping {
      j := i - 1;
    } else {
      j := CommitWasVerified(c, worlds, actions, i - 1, id);
    }
  }

  /**
   * On every path, each removal goes back to the verification that decided it: the payload was
   * live then and the mark was at least seven days old, and at least as old as that sweep was
   * asked to wait; both stand in the row that the commit leaves.
   */
  lemma RequestedGraceIsKept(c: Codec, worlds: seq<World>, actions: seq<Action>, i: nat, id: Id) returns (j: nat)
    requires Path(c, worlds, actions) && worlds[0].sweeping == {} && i < |actions| && actions[i] == SweepCommits(id)
    ensures j < i && actions[j].SweepVerifies? && actions[j].id == id
    ensures forall k :: j < k < i ==> actions[k] != SweepCommits(id) && actions[k] != SweepAborts(id)
    ensures id in worlds[j].store.payloads && worlds[j].store.payloads[id].Some?
    ensures OldEnough(worlds[i].store, id, actions[j].requestedDays)
    ensures id in worlds[i + 1].store.payloads && worlds[i + 1].store.payloads[id].None?
    ensures id in worlds[i + 1].store.archives
        && worlds[i + 1].store.archives[id] == worlds[i].store.archives[id].(removedAt := Some(worlds[i].store.now))
  {
    j := CommitWasVerified(c, worlds, actions, i, id);
    PendingSince(c, worlds, actions, j, i, id);
    GateMeansOldEnough(c, worlds[j].store, id, actions[j].requestedDays);
    assert worlds[i + 1] == Next(c, worlds[i], actions[i]);
  }

  lemma SweepInvStep(c: Codec, w: World, a: Action)
    requires Enabled(c, w, a) && SweepInv(w)
    ensures SweepInv(Next(c, w, a))
  {
    var t := Next(c, w, a);
    forall id | id in t.sweeping
      ensures GraceOver(t.store, id) && t.store.archives[id].status == Verified
    {
      if id in w.sweeping {
        RowIsStableWhileSweeping(c, w, a, id);
      } else {
        DecisionRespectsGrace(c, w, id, a.requestedDays);
      }
    }
  }

  lemma {:induction false} SweepInvAlong(c: Codec, worlds: seq<World>, actions: seq<Action>, i: nat)
    requires Path(c, worlds, actions) && SweepInv(worlds[0]) && i < |worlds|
    ensures SweepInv(worlds[i])
  {
    if i > 0 {
      SweepInvAlong(c, worlds, actions, i - 1);
      SweepInvStep(c, worlds[i - 1], actions[i - 1]);
    }
  }

  /** The step by which a worker that passed every check marks the archive of `id` verified. */
  predicate MarksVerified(w: World, a: Action, id: Id) {
    a.Mark? && a.w in w.workers && w.workers[a.w].Checked? && w.workers[a.w].id == id
  }

  lemma OnlyMarksVerify(c: Codec, w: World, a: Action, id: Id)
    requires Enabled(c, w, a) && id in Next(c, w, a).store.archives
    requires Next(c, w, a).store.archives[id].verifiedAt.Some? && !MarksVerified(w, a, id)
    ensures id in w.store.archives && w.store.archives[id].verifiedAt == Next(c, w, a).store.archives[id].verifiedAt
  {
  }

  lemma {:induction false} VerifiedWasMarked(c: Codec, worlds: seq<World>, actions: seq<Action>, i: nat, id: Id)
      returns (j: nat)
    requires Path(c, worlds, actions) && worlds[0].store.archives == map[] && i < |worlds|
    requires id in worlds[i].store.archives && worlds[i].store.archives[id].verifiedAt.Some?
    ensures j < i && MarksVerified(worlds[j], actions[j], id)
    ensures worlds[i].store.archives[id].verifiedAt == Some(worlds[j].store.now)
  {
    j := i - 1;
    if !MarksVerified(worlds[j], actions[j], id) {
      hide Enabled, Next;
      OnlyMarksVerify(c, worlds[j], actions[j], id);
      j := VerifiedWasMarked(c, worlds, actions, i - 1, id);
    }
  }

  /**
   * A payload only ever disappears by a sweep's commit, and then a worker that had passed
   * every check marked the archive verified at least seven days before.
   */
  lemma RemovalRespectsGrace(c: Codec, worlds: seq<World>, actions: seq<Action>, i: nat, id: Id) returns (j: nat)
    requires Path(c, worlds, actions) && StartsEmpty(worlds[0]) && i < |actions|
    requires id in worlds[i].store.payloads && worlds[i].store.payloads[id].Some?
    requires id !in worlds[i + 1].store.payloads || worlds[i + 1].store.payloads[id] != worlds[i].store.payloads[id]
    ensures actions[i] == SweepCommits(id) && id in worlds[i + 1].store.archives
    ensures var a := worlds[i + 1].store.archives[id];
      && a.status == Verified && a.removedAt == Some(worlds[i].store.now)
      && a.verifiedAt.Some? && a.removedAt.value - a.verifiedAt.value >= GRACE
    ensures j < i && MarksVerified(worlds[j], actions[j], id)
    ensures worlds[i].store.now - worlds[j].store.now >= 604_800_000
  {
    SweepInvAlong(c, worlds, actions, i);
    assert actions[i] == SweepCommits(id);
    assert GraceOver(worlds[i].store, id);
    j := VerifiedWasMarked(c, worlds, actions, i, id);
  }

  // ------------------------------------------------ what the stored times show

  /** The row's own times show that the grace period was kept. */
  predicate ShowsGrace(w: World, id: Id) {
    && id in w.store.archives
    && var a := w.store.archives[id];
    a.removedAt.Some? && a.verifiedAt.Some? && a.removedAt.value - a.verifiedAt.value >= GRACE
  }

  ghost predicate AlwaysShowsGrace(c: Codec, w: World, id: Id) {
    forall worlds: seq<World>, actions: seq<Action> :: Path(c, worlds, actions) && worlds[0] == w ==>
      forall i :: 0 <= i < |worlds| ==> ShowsGrace(worlds[i], id)
  }

  /** A worker past reading the payload that can still reach its verified mark. */
  predicate Late(c: Codec, w: World, p: Id, id: Id) {
    && p in w.workers && w.workers[p].id == id
    && var k := w.workers[p];
    || k.Holding? || k.Checked?
    || (k.Uploaded? && UploadVerifies(c, w.store.objects, k.key, k.payload, false))
  }

  ghost predicate SomeLate(c: Codec, w: World, id: Id) {
    exists p :: Late(c, w, p, id)
  }

  /** Removed for good, and no worker is left that could mark the row again. */
  ghost predicate Sealed(c: Codec, w: World, id: Id) {
    && id in w.store.payloads && w.store.payloads[id].None? && id in w.store.archives && id !in w.sweeping
    && ShowsGrace(w, id) && !SomeLate(c, w, id)
  }

  lemma SealedStep(c: Codec, w: World, a: Action, id: Id, orig: map<Id, Bytes>)
    requires Inv(c, w, orig) && Enabled(c, w, a) && Sealed(c, w, id)
    ensures Sealed(c, Next(c, w, a), id)
  {
    var t := Next(c, w, a);
    if a.Mark? {
      assert !Late(c, w, a.w, id);
    }
    forall p
      ensures !Late(c, t, p, id)
    {
      NotLateStep(c, w, a, id, orig, p);
    }
  }

  /**
   * No step makes a worker of a removed snapshot late: re-reading finds no payload, and nobody
   * can restore its object.
   */
  lemma NotLateStep(c: Codec, w: World, a: Action, id: Id, orig: map<Id, Bytes>, p: Id)
    requires Inv(c, w, orig) && Enabled(c, w, a) && Sealed(c, w, id)
    ensures !Late(c, Next(c, w, a), p, id)
  {
    hide NotLost, Stored, RemovalGate, ShowsGrace, Claimable;
    assert !Late(c, w, p, id);
    if p in w.workers {
      assert WorkerInv(w.store, orig, w.workers[p]);
    }
    if a.Upload? {
      assert !Late(c, w, a.w, id);
      assert WorkerInv(w.store, orig, w.workers[a.w]);
    }
  }

  lemma SealedShows(c: Codec, w: World, id: Id)
    requires Sealed(c, w, id)
    ensures ShowsGrace(w, id)
  {
  }

  lemma {:induction false} SealedAlong(c: Codec, worlds: seq<World>, actions: seq<Action>, id: Id, orig: map<Id, Bytes>)
    requires c.Sound() && Path(c, worlds, actions) && Inv(c, worlds[0], orig) && Sealed(c, worlds[0], id)
    ensures forall i :: 0 <= i < |worlds| ==> ShowsGrace(worlds[i], id)
  {
    hide Inv, Enabled, Next, Sealed, ShowsGrace;
    var i, o := 0, orig;
    SealedShows(c, worlds[0], id);
    while i < |actions|
      invariant 0 <= i <= |actions|
      invariant Inv(c, worlds[i], o) && Sealed(c, worlds[i], id)
      invariant forall k :: 0 <= k <= i ==> ShowsGrace(worlds[k], id)
    {
      NextKeeps(c, worlds[i], actions[i], o);
      SealedStep(c, worlds[i], actions[i], id, o);
      o := Remember(o, actions[i]);
      i := i + 1;
      SealedShows(c, worlds[i], id);
    }
  }

  /** A path from the next world is a path from this one. */
  lemma OneStepEarlier(c: Codec, w: World, a: Action, id: Id)
    requires Enabled(c, w, a) && !AlwaysShowsGrace(c, Next(c, w, a), id)
    ensures !AlwaysShowsGrace(c, w, id)
  {
    hide Enabled, Next, ShowsGrace;
    var worlds: seq<World>, actions: seq<Action> :|
      Path(c, worlds, actions) && worlds[0] == Next(c, w, a) && exists i :: 0 <= i < |worlds| && !ShowsGrace(worlds[i], id);
    var i :| 0 <= i < |worlds| && !ShowsGrace(worlds[i], id);
    var longer, acts := [w] + worlds, [a] + actions;
    forall k | 0 <= k < |acts|
      ensures Enabled(c, longer[k], acts[k]) && longer[k + 1] == Next(c, longer[k], acts[k])
    {
      assert k > 0 ==> longer[k] == worlds[k - 1] && acts[k] == actions[k - 1];
    }
    assert Path(c, longer, acts) && longer[i + 1] == worlds[i];
  }

  /** A late worker checks what is stored without downloading it and marks the row, after the removal. */
  lemma LateMarks(c: Codec, w: World, p: Id, id: Id)
    requires Late(c, w, p, id) && id in w.store.archives && id !in w.sweeping
    requires w.store.archives[id].removedAt.Some? && w.store.archives[id].removedAt.value <= w.store.now
    ensures !AlwaysShowsGrace(c, w, id)
    decreases if w.workers[p].Holding? then 2 else if w.workers[p].Uploaded? then 1 else 0
  {
    var k := w.workers[p];
    if k.Holding? {
      LateMarks(c, Next(c, w, Upload(p)), p, id);
      OneStepEarlier(c, w, Upload(p), id);
    } else if k.Uploaded? {
      LateMarks(c, Next(c, w, Check(p, false)), p, id);
      OneStepEarlier(c, w, Check(p, false), id);
    } else {
      var t := Next(c, w, Mark(p));
      assert !ShowsGrace(t, id);
      assert Path(c, [w, t], [Mark(p)]) && [w, t][1] == t;
    }
  }

  /**
   * Exactly when the stored times keep showing the grace period: on every path after a
   * removal, removed_at lies at least seven days behind verified_at if and only if at the
   * removal no worker of the snapshot was past reading the payload and able to mark it.
   */
  lemma TimesShowGraceIff(c: Codec, w: World, id: Id, orig: map<Id, Bytes>)
    requires c.Sound() && Inv(c, w, orig) && SweepInv(w) && id in w.sweeping
    ensures Enabled(c, w, SweepCommits(id))
    ensures AlwaysShowsGrace(c, Next(c, w, SweepCommits(id)), id) <==> !SomeLate(c, w, id)
  {
    var t := Next(c, w, SweepCommits(id));
    NextKeeps(c, w, SweepCommits(id), orig);
    assert GraceOver(w.store, id);
    assert forall p :: Late(c, t, p, id) <==> Late(c, w, p, id);
    if SomeLate(c, w, id) {
      var p :| Late(c, w, p, id);
      LateMarks(c, t, p, id);
    } else {
      assert Sealed(c, t, id);
      forall worlds: seq<World>, actions: seq<Action> | Path(c, worlds, actions) && worlds[0] == t
        ensures forall i :: 0 <= i < |worlds| ==> ShowsGrace(worlds[i], id)
      {
        SealedAlong(c, worlds, actions, id, orig);
      }
    }
  }

  // ------------------------------------------------- such a schedule exists

  /** Some path from an empty store leads here. */
  ghost predicate Reachable(c: Codec, w: World) {
    exists worlds: seq<World>, actions: seq<Action> :: Path(c, worlds, actions) && worlds[0] == EMPTY
        && worlds[|actions|] == w
  }

  lemma ReachEmpty(c: Codec)
    ensures Reachable(c, EMPTY)
  {
    assert Path(c, [EMPTY], []);
  }

  lemma Via(c: Codec, w: World, a: Action, t: World)
    requires Reachable(c, w) && Enabled(c, w, a) && Next(c, w, a) == t
    ensures Reachable(c, t)
  {
    hide Enabled, Next;
    var worlds: seq<World>, actions: seq<Action> :| Path(c, worlds, actions) && worlds[0] == EMPTY
        && worlds[|actions|] == w;
    assert Path(c, worlds + [t], actions + [a]);
  }

  function Reclaimed(a: Archive, until: int): Archive {
    a.(status := Uploading, leaseUntil := Some(until), attempts := a.attempts + 1)
  }

  /** An undisturbed worker from its claim up to, not including, its mark; its lease ends at once. */
  lemma ReachChecked(c: Codec, w: World, p: Id, id: Id, payload: Bytes)
    requires Reachable(c, w) && p !in w.workers && w.sweeping == {}
    requires id in w.store.payloads && w.store.payloads[id] == Some(payload)
    requires id in w.store.checksums && w.store.checksums[id] == c.sha(payload)
    requires id in w.store.archives && w.store.archives[id].originalSum == c.sha(payload)
    requires Claimable(w.store.archives[id], w.store.now)
    ensures var a, z := w.store.archives[id], c.gzip(payload);
      Reachable(c, World(
        w.store.(archives := w.store.archives[id := Reclaimed(a, w.store.now)], objects := w.store.objects[a.key := z]),
        w.workers[p := Checked(id, |z|, c.sha(z), a.attempts + 1)], {}))
  {
    hide Reachable, Claimable;
    var s, a, z := w.store, w.store.archives[id], c.gzip(payload);
    var n := a.attempts + 1;
    var s1 := s.(archives := s.archives[id := Reclaimed(a, s.now)]);
    var w1 := World(s1, w.workers[p := Claimed(id, a.key, a.originalSum, n)], {});
    Via(c, w, ClaimNext(p, id, 0), w1);
    var w2 := World(s1, w.workers[p := Holding(id, a.key, n, payload)], {});
    Via(c, w1, ReadPayload(p), w2);
    var s3 := s1.(objects := s1.objects[a.key := z]);
    var w3 := World(s3, w.workers[p := Uploaded(id, a.key, n, payload)], {});
    Via(c, w2, Upload(p), w3);
    Via(c, w3, Check(p, false), World(s3, w.workers[p := Checked(id, |z|, c.sha(z), n)], {}));
  }

  const ROW: Archive := Archive(1, Pending, 0, None, None, None, None, None, None, 0)

  /** One snapshot with an archive row that waits for a worker. */
  lemma ReachEnqueued(c: Codec, sum: Digest)
    requires sum == c.sha([])
    ensures Reachable(c, World(Store(map[1 := Some([])], map[1 := sum], map[1 := ROW.(originalSum := sum)], map[],
        0), map[], {}))
  {
    ReachEmpty(c);
    hide Reachable;
    var w1 := World(Store(map[1 := Some([])], map[1 := sum], map[], map[], 0), map[], {});
    Via(c, EMPTY, Ingest(1, [], sum), w1);
    Via(c, w1, Enqueue(1, 1), World(Store(map[1 := Some([])], map[1 := sum], map[1 := ROW.(originalSum := sum)],
        map[], 0), map[], {}));
  }

  /** What the second worker leaves: a verified row, while the first one still sits on its own result. */
  function TwiceArchived(sum: Digest, size: nat, zsum: Digest): Archive {
    ROW.(originalSum := sum, status := Verified, attempts := 2, objectSize := Some(size), objectSum := Some(zsum),
        verifiedAt := Some(0))
  }

  function LateWorld(payload: Option<Bytes>, sum: Digest, row: Archive, z: Bytes, zsum: Digest, now: int,
      sweeping: set<Id>): World {
    World(Store(map[1 := payload], map[1 := sum], map[1 := row], map[1 := z], now),
        map[1 := Checked(1, |z|, zsum, 1)], sweeping)
  }

  lemma ReachTwiceArchived(c: Codec, sum: Digest, z: Bytes, zsum: Digest)
    requires sum == c.sha([]) && z == c.gzip([]) && zsum == c.sha(z)
    ensures Reachable(c, LateWorld(Some([]), sum, TwiceArchived(sum, |z|, zsum), z, zsum, 0, {}))
  {
    ReachEnqueued(c, sum);
    hide Reachable;
    var row := ROW.(originalSum := sum);
    var first := Checked(1, |z|, zsum, 1);
    ReachChecked(c, World(Store(map[1 := Some([])], map[1 := sum], map[1 := row], map[], 0), map[], {}), 1, 1, []);
    var w1 := World(Store(map[1 := Some([])], map[1 := sum], map[1 := Reclaimed(row, 0)], map[1 := z], 0),
        map[1 := first], {});
    assert Reachable(c, w1);
    ReachChecked(c, w1, 2, 1, []);
    var row2 := Reclaimed(Reclaimed(row, 0), 0);
    var w2 := World(Store(map[1 := Some([])], map[1 := sum], map[1 := row2], map[1 := z], 0),
        map[1 := first, 2 := Checked(1, |z|, zsum, 2)], {});
    assert Reachable(c, w2);
    Via(c, w2, Mark(2), LateWorld(Some([]), sum, TwiceArchived(sum, |z|, zsum), z, zsum, 0, {}));
  }

  lemma ReachRemoved(c: Codec, sum: Digest, z: Bytes, zsum: Digest)
    requires c.Sound() && sum == c.sha([]) && z == c.gzip([]) && zsum == c.sha(z)
    ensures Reachable(c, LateWorld(None, sum, TwiceArchived(sum, |z|, zsum).(removedAt := Some(GRACE)), z, zsum,
        GRACE, {}))
  {
    ReachTwiceArchived(c, sum, z, zsum);
    hide Reachable;
    var row := TwiceArchived(sum, |z|, zsum);
    var w1 := LateWorld(Some([]), sum, row, z, zsum, GRACE, {});
    Via(c, LateWorld(Some([]), sum, row, z, zsum, 0, {}), Tick(GRACE), w1);
    var w2 := LateWorld(Some([]), sum, row, z, zsum, GRACE, {1});
    Via(c, w1, SweepVerifies(1, None), w2);
    Via(c, w2, SweepCommits(1), LateWorld(None, sum, row.(removedAt := Some(GRACE)), z, zsum, GRACE, {}));
  }

  /**
   * The stored times can lose the evidence: from an empty store two workers archive one
   * snapshot, one of them pauses before its mark, the removal respects the grace period,
   * and the late mark leaves a verified_at behind the payload_removed_at.
   */
  lemma LateMarkHidesGrace(c: Codec)
    requires c.Sound()
    ensures exists w, p, id ::
      && Reachable(c, w) && ShowsGrace(w, id) && Enabled(c, w, Mark(p))
      && var a := Next(c, w, Mark(p)).store.archives[id];
      a.status == Verified && a.removedAt.Some? && a.verifiedAt.Some? && a.verifiedAt.value > a.removedAt.value
  {
    var z := c.gzip([]);
    var sum, zsum := c.sha([]), c.sha(z);
    ReachRemoved(c, sum, z, zsum);
    hide Reachable;
    var row := TwiceArchived(sum, |z|, zsum).(removedAt := Some(GRACE));
    var w := LateWorld(None, sum, row, z, zsum, GRACE + 1, {});
    Via(c, LateWorld(None, sum, row, z, zsum, GRACE, {}), Tick(GRACE + 1), w);
    assert Enabled(c, w, Mark(1)) && ShowsGrace(w, 1);
  }

  // ------------------------------------------------------- the storage frontier

  function Hit(w: World, key: Id, left: Option<Bytes>): World {
    w.(store := w.store.(objects := Damage(w.store.objects, key, left)))
  }

  /** No continuation from here loses a payload. */
  ghost predicate NeverLoses(c: Codec, w: World, orig: map<Id, Bytes>) {
    forall worlds: seq<World>, actions: seq<Action> :: Path(c, worlds, actions) && worlds[0] == w ==>
      NotLost(c, worlds[|actions|].store, RememberAll(orig, actions))
  }

  /** Each snapshot stored under `key` has its payload, with no removal pending, or `left` still holds it. */
  ghost predicate Harmless(c: Codec, w: World, key: Id, left: Option<Bytes>, orig: map<Id, Bytes>) {
    forall id :: id in w.store.archives && w.store.archives[id].key == key && id in w.store.payloads && id in orig ==>
      (w.store.payloads[id].Some? && id !in w.sweeping) || (left.Some? && c.gunzip(left.value) == Some(orig[id]))
  }

  lemma HarmlessKeeps(c: Codec, w: World, key: Id, left: Option<Bytes>, orig: map<Id, Bytes>)
    requires Inv(c, w, orig) && Harmless(c, w, key, left, orig)
    ensures Inv(c, Hit(w, key, left), orig)
  {
    var s, t := w.store, Hit(w, key, left).store;
    forall id | id in s.payloads && Stored(c, s, id, orig[id]) && (s.payloads[id].None? || id in w.sweeping)
      ensures Stored(c, t, id, orig[id])
    {
    }
    forall q | q in w.workers
      ensures WorkerInv(t, orig, w.workers[q])
    {
      assert WorkerInv(s, orig, w.workers[q]);
    }
  }

  lemma CommitLoses(c: Codec, w: World, id: Id, orig: map<Id, Bytes>)
    requires Enabled(c, w, SweepCommits(id)) && id in orig && !Stored(c, w.store, id, orig[id])
    ensures !NeverLoses(c, w, orig)
  {
    var a := SweepCommits(id);
    var t := Next(c, w, a);
    assert !Stored(c, t.store, id, orig[id]) && t.store.payloads[id].None?;
    assert !NotLost(c, t.store, orig);
    hide NotLost, Stored;
    assert Path(c, [w, t], [a]) && [w, t][1] == t;
    assert RememberAll(orig, [a]) == orig;
  }

  /** A fault that is not harmless loses the payload, at the latest when the pending removal commits. */
  lemma HarmfulLoses(c: Codec, w: World, key: Id, left: Option<Bytes>, orig: map<Id, Bytes>)
    requires Inv(c, w, orig) && !Harmless(c, w, key, left, orig)
    ensures !NeverLoses(c, Hit(w, key, left), orig)
  {
    hide NeverLoses;
    var id :| id in w.store.archives && w.store.archives[id].key == key && id in w.store.payloads && id in orig
      && !(w.store.payloads[id].Some? && id !in w.sweeping) && !(left.Some? && c.gunzip(left.value) == Some(orig[id]));
    var hit := Hit(w, key, left);
    assert !Stored(c, hit.store, id, orig[id]);
    if w.store.payloads[id].None? {
      AlreadyLost(c, hit, orig);
    } else {
      CommitLoses(c, hit, id, orig);
    }
  }

  lemma AlreadyLost(c: Codec, w: World, orig: map<Id, Bytes>)
    requires !NotLost(c, w.store, orig)
    ensures !NeverLoses(c, w, orig)
  {
    hide NotLost;
    assert Path(c, [w], []) && RememberAll(orig, []) == orig;
  }

  /**
   * What storage may do, exactly: whatever happens to an object, no continuation loses a
   * payload if and only if each snapshot stored under its key still has its payload, with
   * no removal pending, or what is left still decompresses to it.
   */
  lemma FaultIsHarmlessIff(c: Codec, w: World, key: Id, left: Option<Bytes>, orig: map<Id, Bytes>)
    requires c.Sound() && Inv(c, w, orig)
    ensures NeverLoses(c, Hit(w, key, left), orig) <==> Harmless(c, w, key, left, orig)
  {
    if Harmless(c, w, key, left, orig) {
      HarmlessKeeps(c, w, key, left, orig);
      forall worlds: seq<World>, actions: seq<Action> | Path(c, worlds, actions) && worlds[0] == Hit(w, key, left)
        ensures NotLost(c, worlds[|actions|].store, RememberAll(orig, actions))
      {
        NoPayloadIsEverLost(c, worlds, actions, orig);
      }
    } else {
      HarmfulLoses(c, w, key, left, orig);
    }
  }

  /**
   * The assumption on storage is the weakest one: an object may be hit arbitrarily exactly
   * where the model allows it.
   */
  lemma FaultAllowedIsTheFrontier(c: Codec, w: World, key: Id, orig: map<Id, Bytes>)
    requires c.Sound() && Inv(c, w, orig)
    ensures FaultAllowed(w, key) <==> forall left: Option<Bytes> :: NeverLoses(c, Hit(w, key, left), orig)
  {
    hide NeverLoses;
    forall left: Option<Bytes>
      ensures NeverLoses(c, Hit(w, key, left), orig) <==> Harmless(c, w, key, left, orig)
    {
      FaultIsHarmlessIff(c, w, key, left, orig);
    }
    assert Harmless(c, w, key, None, orig) <==> FaultAllowed(w, key);
  }
}
