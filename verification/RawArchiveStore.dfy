/** The archive worker and the payload sweep as one process runs them, over the mutable tables. */
module RawArchiveStore {
  import opened Common
  import opened Keyset
  import opened Codec
  import opened RawArchive

  const SWEEP: nat := 200
  const MAX_SWEEP: nat := 1000

  datatype RemoveOutcome = Removed | Skipped(reason: SkipReason)

  datatype ArchiveError =
    | SnapshotMissing | OriginalChecksumMismatch | UploadFailed | ObjectMissing | HeadSizeMismatch
    | GetChecksumMismatch | DecompressedChecksumMismatch | UnexpectedError

  /** What a GET of the object yields. */
  datatype Download = Got(bytes: Bytes) | NotFound | ReadFailed

  /** Done, backing off until later, or leased to someone whose time is not up. */
  ghost predicate MustWait(a: Archive, now: int) {
    match a.status
    case Verified => true
    case Uploading => a.leaseUntil.Some? ==> now < a.leaseUntil.value
    case _ => a.retryAt.Some? && now < a.retryAt.value
  }

  datatype SweepOutcome = DryRun | Completed | LockNotAcquired | ProviderRequired

  datatype ArchiveOutcome = Idle | ArchivedAs(id: Id, sum: Digest) | FailedWith(id: Id, error: ArchiveError)

  /** A sweep over candidates in order: each is removed or skipped by the gate on the store as it is then. */
  function Swept(c: Codec, s: Store, candidates: seq<Id>, graceDays: int): Store
    decreases |candidates|
  {
    if candidates == [] then s
    else
      var id := candidates[0];
      Swept(c, if RemovalGate(c, s, id, graceDays).None? then RemovePayload(s, id) else s, candidates[1..], graceDays)
  }

  /**
   * A sweep only ever turns a live payload into a stored one: everything that was live still is,
   * or its object decompresses to it, and nothing outside the candidates moves.
   */
  lemma {:induction false} SweepOnlyMovesToStorage(c: Codec, s: Store, candidates: seq<Id>, graceDays: int)
    requires c.Sound()
    decreases |candidates|
    ensures var t := Swept(c, s, candidates, graceDays);
      && t.payloads.Keys == s.payloads.Keys && t.objects == s.objects && t.archives.Keys == s.archives.Keys
      && (forall id :: id in s.archives ==> t.archives[id].key == s.archives[id].key)
      && (forall id :: id in s.payloads && s.payloads[id].Some? ==>
            t.payloads[id] == s.payloads[id] || (t.payloads[id].None? && Stored(c, t, id, s.payloads[id].value)))
      && (forall id :: id in s.payloads && id !in candidates ==> t.payloads[id] == s.payloads[id])
  {
    if candidates != [] {
      var id := candidates[0];
      var ok := RemovalGate(c, s, id, graceDays).None?;
      if ok {
        GateProvesStored(c, s, id, graceDays);
      }
      var mid := if ok then RemovePayload(s, id) else s;
      SweepOnlyMovesToStorage(c, mid, candidates[1..], graceDays);
      var t := Swept(c, s, candidates, graceDays);
      forall o | o in s.payloads && o !in candidates
        ensures t.payloads[o] == s.payloads[o]
      {
        assert o !in candidates[1..];
      }
      forall o | o in s.payloads && s.payloads[o].Some?
        ensures t.payloads[o] == s.payloads[o] || (t.payloads[o].None? && Stored(c, t, o, s.payloads[o].value))
      {
        if mid.payloads[o].None? {
          assert o == id;
          RemovedStaysRemoved(c, mid, candidates[1..], graceDays, o);
        }
      }
    }
  }

  /** A removed payload is skipped by every later candidate: repeating a sweep is a no-op on it. */
  lemma {:induction false} RemovedStaysRemoved(c: Codec, s: Store, candidates: seq<Id>, graceDays: int, id: Id)
    requires id in s.payloads && s.payloads[id].None?
    decreases |candidates|
    ensures id in Swept(c, s, candidates, graceDays).payloads && Swept(c, s, candidates, graceDays).payloads[id].None?
  {
    if candidates != [] {
      var o := candidates[0];
      var mid := if RemovalGate(c, s, o, graceDays).None? then RemovePayload(s, o) else s;
      RemovedStaysRemoved(c, mid, candidates[1..], graceDays, id);
    }
  }

  /** The candidates whose removal did not fail. */
  function Unfailed(candidates: seq<Id>, fails: nat -> bool): seq<Id> {
    if candidates == [] then []
    else
      var n := |candidates| - 1;
      Unfailed(candidates[..n], fails) + if fails(n) then [] else [candidates[n]]
  }

  lemma {:induction false} SweptOneMore(c: Codec, s: Store, candidates: seq<Id>, graceDays: int, id: Id)
    decreases |candidates|
    ensures var mid := Swept(c, s, candidates, graceDays);
      Swept(c, s, candidates + [id], graceDays) == if RemovalGate(c, mid, id, graceDays).None?
          then RemovePayload(mid, id) else mid
  {
    if candidates == [] {
      assert [] + [id] == [id] && [id][1..] == [];
    } else {
      var o := candidates[0];
      var next := if RemovalGate(c, s, o, graceDays).None? then RemovePayload(s, o) else s;
      SweptOneMore(c, next, candidates[1..], graceDays, id);
      assert (candidates + [id])[1..] == candidates[1..] + [id];
    }
  }

  /** The payloads that were live in `s` and are nulled in `t`. */
  function Gone(s: Store, t: Store): set<Id> {
    set id | id in s.payloads && id in t.payloads && s.payloads[id].Some? && t.payloads[id].None?
  }

  lemma NothingGone(s: Store)
    ensures Gone(s, s) == {}
  {
  }

  lemma OneMoreGone(s: Store, t: Store, id: Id)
    requires id in t.payloads && id in t.archives && t.payloads[id].Some? && s.payloads.Keys == t.payloads.Keys
    requires s.payloads[id].Some?
    ensures |Gone(s, RemovePayload(t, id))| == |Gone(s, t)| + 1
  {
    assert Gone(s, RemovePayload(t, id)) == Gone(s, t) + {id};
  }

  /**
   * A sweep, payload by payload: it removes exactly the candidates that pass all eight gates at its
   * start, stamps their rows, and leaves everything else alone.
   */
  lemma {:induction false} SweptExactly(c: Codec, s: Store, candidates: seq<Id>, days: int)
    decreases |candidates|
    ensures var t := Swept(c, s, candidates, days);
      && t.payloads.Keys == s.payloads.Keys && t.archives.Keys == s.archives.Keys
      && t.checksums == s.checksums && t.objects == s.objects && t.now == s.now
      && (forall id :: id in s.payloads ==>
            t.payloads[id] == if id in candidates && PassesGates(c, s, id, days, 8) then None else s.payloads[id])
      && (forall id :: id in s.archives ==>
            t.archives[id] == if id in candidates && PassesGates(c, s, id, days, 8)
              then s.archives[id].(removedAt := Some(s.now)) else s.archives[id])
  {
    if candidates != [] {
      var id, rest := candidates[0], candidates[1..];
      RefusedByFirstGate(c, s, id, days);
      var mid := if PassesGates(c, s, id, days, 8) then RemovePayload(s, id) else s;
      hide RemovalGate;
      SweptExactly(c, mid, rest, days);
      forall o
        ensures PassesGates(c, mid, o, days, 8) <==> PassesGates(c, s, o, days, 8) && (o == id ==> mid == s)
      {
      }
      hide PassesGates;
      assert forall o :: o in candidates <==> o == id || o in rest;
    }
  }

  lemma {:induction false} InUnfailed(plan: seq<Id>, fails: nat -> bool, id: Id)
    ensures id in Unfailed(plan, fails) <==> exists k :: 0 <= k < |plan| && plan[k] == id && !fails(k)
  {
    if plan != [] {
      var n := |plan| - 1;
      InUnfailed(plan[..n], fails, id);
    }
  }

  /** What a completed sweep of the first `n` planned rows has removed: those that did not fail and pass every gate. */
  ghost predicate SweptRows(c: Codec, s: Store, t: Store, plan: seq<Id>, n: nat, fails: nat -> bool, days: int)
    requires n <= |plan|
  {
    && t == s.(payloads := t.payloads, archives := t.archives)
    && t.payloads.Keys == s.payloads.Keys && t.archives.Keys == s.archives.Keys
    && (forall id :: id in s.payloads && s.payloads[id].Some? ==>
          (id in Gone(s, t) <==> PassesGates(c, s, id, days, 8) && exists k :: 0 <= k < n && plan[k] == id && !fails(k)))
    && (forall id :: id in s.payloads && t.payloads[id].Some? ==> t.payloads[id] == s.payloads[id])
    && (forall id :: id in s.archives && id in Gone(s, t) ==> t.archives[id] == s.archives[id].(removedAt := Some(s.now)))
    && (forall id :: id in s.archives && id !in Gone(s, t) ==> t.archives[id] == s.archives[id])
  }

  lemma SweepMeans(c: Codec, s: Store, plan: seq<Id>, n: nat, fails: nat -> bool, requestedDays: Option<int>)
    requires n <= |plan|
    ensures var days := EffectiveGraceDays(requestedDays);
      var t := Swept(c, s, Unfailed(plan[..n], fails), days);
      && SweptRows(c, s, t, plan, n, fails, days)
      && (forall id :: id in Gone(s, t) ==> OldEnough(s, id, requestedDays))
  {
    var days := EffectiveGraceDays(requestedDays);
    var candidates := Unfailed(plan[..n], fails);
    var t := Swept(c, s, candidates, days);
    SweptExactly(c, s, candidates, days);
    forall id
      ensures id in candidates <==> exists k :: 0 <= k < n && plan[k] == id && !fails(k)
    {
      InUnfailed(plan[..n], fails, id);
    }
    forall id | PassesGates(c, s, id, days, 8)
      ensures OldEnough(s, id, requestedDays) && id in s.payloads && s.payloads[id].Some? && id in s.archives
    {
      RefusedByFirstGate(c, s, id, days);
      GateMeansOldEnough(c, s, id, requestedDays);
    }
    hide Swept, PassesGates, OldEnough, Unfailed;
  }

  class Tables {
    const codec: Codec
    var s: Store

    constructor (codec: Codec, s: Store)
      ensures this.codec == codec && this.s == s
    {
      this.codec := codec;
      this.s := s;
    }

    /** `removeOnePayload`: every gate again under the row lock, the re-verification, then the only mutation. */
    method RemoveOnePayload(id: Id, graceDays: int) returns (out: RemoveOutcome)
      modifies this
      ensures out.Removed? <==> RemovalGate(codec, old(s), id, graceDays).None?
      ensures out.Skipped? ==> RemovalGate(codec, old(s), id, graceDays) == Some(out.reason) && s == old(s)
      ensures out.Removed? ==> id in old(s).payloads && id in old(s).archives && s == RemovePayload(old(s), id)
      ensures out.Skipped? ==> PassesGates(codec, old(s), id, graceDays, GateOf(out.reason) - 1)
      ensures out.Skipped? ==> !PassesGates(codec, old(s), id, graceDays, GateOf(out.reason))
      ensures out.Removed? <==> PassesGates(codec, old(s), id, graceDays, 8)
      ensures out.Removed? ==> s == old(s).(payloads := old(s).payloads[id := None],
        archives := old(s).archives[id := old(s).archives[id].(removedAt := Some(old(s).now))])
    {
      RefusedByFirstGate(codec, s, id, graceDays);
      hide PassesGates;
      if id !in s.payloads || id !in s.archives {
        return Skipped(NoArchive);
      }
      var a := s.archives[id];
      if s.payloads[id].None? || a.removedAt.Some? {
        return Skipped(PayloadAlreadyRemoved);
      }
      if a.status != Verified || a.verifiedAt.None? || a.objectSum.None? {
        return Skipped(StateChangedUnderLock);
      }
      var cutoff := s.now - graceDays * DAY;
      if a.verifiedAt.value > cutoff {
        return Skipped(WithinGracePeriod);
      }
      var reason := Reverify(codec, s.objects, a, s.payloads[id].value);
      if reason.Some? {
        return Skipped(reason.value);
      }
      s := s.(payloads := s.payloads[id := None]);
      s := s.(archives := s.archives[id := a.(removedAt := Some(s.now))]);
      return Removed;
    }

    /**
     * `runRawPayloadSweep` with its plan: without the lock nothing happens, a dry run and a
     * missing provider remove nothing, and otherwise at most `batchSize` candidates are
     * removed, each on its own; `fails(k)` rolls the k-th one back. Every planned row is
     * counted once, and `removed` is the number of payloads that went.
     */
    method Sweep(plan: seq<Id>, planSkipped: nat, requestedDays: Option<int>, batchSize: int, locked: bool,
        destructive: bool,
                 provider: bool, fails: nat -> bool)
      returns (out: SweepOutcome, removed: nat, skipped: nat, failed: nat)
      modifies this
      ensures out ==
        if !locked then LockNotAcquired else if !destructive then DryRun else if !provider then ProviderRequired
            else Completed
      ensures out != Completed ==> s == old(s) && removed == 0 && failed == 0
      ensures out == DryRun ==> skipped == planSkipped
      ensures out == Completed ==>
        var n := Min(ClampBatch(batchSize, 200, 1000), |plan|);
        && s == Swept(codec, old(s), Unfailed(plan[..n], fails), EffectiveGraceDays(requestedDays))
        && removed + (skipped - planSkipped) + failed == n
        && removed == |Gone(old(s), s)|
        && SweptRows(codec, old(s), s, plan, n, fails, EffectiveGraceDays(requestedDays))
      ensures forall id :: id in Gone(old(s), s) ==> OldEnough(old(s), id, requestedDays)
    {
      removed, skipped, failed := 0, 0, 0;
      if !locked {
        return LockNotAcquired, 0, 0, 0;
      }
      skipped := planSkipped;
      if !destructive {
        return DryRun, 0, skipped, 0;
      }
      if !provider {
        return ProviderRequired, 0, skipped, 0;
      }
      var days := EffectiveGraceDays(requestedDays);
      var candidates := plan[..Min(ClampBatch(batchSize, SWEEP, MAX_SWEEP), |plan|)];
      NothingGone(s);
      for i := 0 to |candidates|
        invariant removed + (skipped - planSkipped) + failed == i && skipped >= planSkipped
        invariant s == Swept(codec, old(s), Unfailed(candidates[..i], fails), days)
        invariant removed == |Gone(old(s), s)| && s.payloads.Keys == old(s).payloads.Keys
        invariant forall id :: id in s.payloads && s.payloads[id].Some? ==> old(s).payloads[id].Some?
      {
        ghost var before := s;
        assert candidates[..i + 1][..i] == candidates[..i];
        ghost var done := Unfailed(candidates[..i], fails);
        assert Unfailed(candidates[..i + 1], fails) == if fails(i) then done else done + [candidates[i]];
        SweptOneMore(codec, old(s), done, days, candidates[i]);
        hide Swept, Unfailed;
        if fails(i) {
          failed := failed + 1;
        } else {
          var out := RemoveOnePayload(candidates[i], days);
          if out.Removed? {
            OneMoreGone(old(s), before, candidates[i]);
            removed := removed + 1;
          } else {
            skipped := skipped + 1;
          }
        }
      }
      assert candidates[..|candidates|] == candidates;
      SweepMeans(codec, old(s), plan, |candidates|, fails, requestedDays);
      return Completed, removed, skipped, failed;
    }

    /** `claimNextArchive`: the first due row in creation order, leased. */
    method ClaimNextArchive(queue: seq<Id>, leaseSeconds: nat) returns (claimed: Option<Id>)
      requires forall i :: 0 <= i < |queue| ==> queue[i] in s.archives
      modifies this
      ensures claimed.None? ==> s == old(s) && forall i :: 0 <= i < |queue| ==> !Claimable(s.archives[queue[i]], s.now)
      ensures claimed.Some? ==>
        (exists i :: 0 <= i < |queue| && queue[i] == claimed.value
           && Claimable(old(s).archives[queue[i]], old(s).now)
           && forall j :: 0 <= j < i ==> !Claimable(old(s).archives[queue[j]], old(s).now))
        && s == Claim(old(s), claimed.value, leaseSeconds)
      ensures claimed.None? ==> forall i :: 0 <= i < |queue| ==> MustWait(s.archives[queue[i]], s.now)
      ensures claimed.Some? ==> claimed.value in old(s).archives
      ensures claimed.Some? ==> var a, now := old(s).archives[claimed.value], old(s).now;
        && !MustWait(a, now) && a.status != Verified
        && (a.status == Uploading ==> a.leaseUntil.Some? && a.leaseUntil.value <= now)
        && (a.retryAt.Some? && a.status != Uploading ==> a.retryAt.value <= now)
        && (exists i :: 0 <= i < |queue| && queue[i] == claimed.value
              && forall j :: 0 <= j < i ==> MustWait(old(s).archives[queue[j]], now))
        && s == old(s).(archives := old(s).archives[claimed.value := a.(
             status := Uploading, leaseUntil := Some(now + leaseSeconds * 1000), attempts := a.attempts + 1)])
    {
      for i := 0 to |queue|
        invariant s == old(s)
        invariant forall j :: 0 <= j < i ==> !Claimable(s.archives[queue[j]], s.now)
      {
        if Claimable(s.archives[queue[i]], s.now) {
          s := Claim(s, queue[i], leaseSeconds);
          return Some(queue[i]);
        }
      }
      return None;
    }

    /**
     * `archiveOne` after its claim. `landed` is what storage holds under the key once the put
     * has returned, or None when the put throws; `head` and `got` are what HEAD and GET then
     * see. Whatever happens no payload changes; a row is marked verified exactly when every
     * check passes, and the first check that fails names the error. A download that has the
     * right checksum always decompresses to the payload.
     */
    method ArchiveClaimed(id: Id, attempt: nat, landed: Option<Bytes>, head: Option<nat>, got: Download,
        byDownload: bool)
      returns (out: ArchiveOutcome)
      requires codec.Sound() && id in s.archives
      modifies this
      ensures s.payloads == old(s).payloads && s.checksums == old(s).checksums && s.now == old(s).now
      ensures out != Idle
      ensures out.ArchivedAs? ==>
        && id in s.payloads && s.payloads[id].Some?
        && out.sum == codec.sha(codec.gzip(s.payloads[id].value))
        && s.archives == MarkVerified(old(s), id, |codec.gzip(s.payloads[id].value)|, out.sum).archives
        && (byDownload && got.Got? && landed == Some(got.bytes) ==> Stored(codec, s, id, s.payloads[id].value))
      ensures out.FailedWith? ==> s.archives == MarkFailed(old(s), id, attempt).archives
      ensures out.ArchivedAs? <==>
        && landed.Some? && id in s.payloads && id in s.checksums && s.payloads[id].Some?
        && codec.sha(s.payloads[id].value) == old(s).archives[id].originalSum == s.checksums[id]
        && var z := codec.gzip(s.payloads[id].value);
        && head == Some(|z|) && (byDownload ==> got == Got(z))
      ensures out.ArchivedAs? ==> s.archives == old(s).archives[id := old(s).archives[id].(status := Verified,
          objectSize := Some(|codec.gzip(s.payloads[id].value)|), objectSum := Some(out.sum),
          verifiedAt := Some(old(s).now), leaseUntil := None)]
      ensures out.FailedWith? ==> s.archives == old(s).archives[id := old(s).archives[id].(status := Failed,
          retryAt := Some(old(s).now + 1000 * BackoffSeconds(attempt)), leaseUntil := None)]
      ensures out.FailedWith? ==>
        var missing := id !in s.payloads || id !in s.checksums;
        var intact := !missing && s.payloads[id].Some?
          && codec.sha(s.payloads[id].value) == old(s).archives[id].originalSum == s.checksums[id];
        match out.error
        case SnapshotMissing => missing
        case UnexpectedError => !missing && s.payloads[id].None?
        case OriginalChecksumMismatch => !missing && s.payloads[id].Some? && !intact
        case UploadFailed => intact && landed.None?
        case ObjectMissing => intact && landed.Some?
          && (head.None? || (head == Some(|codec.gzip(s.payloads[id].value)|) && byDownload && got.NotFound?))
        case HeadSizeMismatch => intact && landed.Some? && head.Some? && head.value != |codec.gzip(s.payloads[id].value)|
        case GetChecksumMismatch => intact && landed.Some? && head == Some(|codec.gzip(s.payloads[id].value)|)
          && byDownload && !got.NotFound? && got != Got(codec.gzip(s.payloads[id].value))
        case DecompressedChecksumMismatch => false
    {
      var row := s.archives[id];
      if id !in s.payloads || id !in s.checksums {
        s := MarkFailed(s, id, attempt);
        return FailedWith(id, SnapshotMissing);
      }
      if s.payloads[id].None? {
        s := MarkFailed(s, id, attempt);
        return FailedWith(id, UnexpectedError);
      }
      var payload := s.payloads[id].value;
      if codec.sha(payload) != row.originalSum || codec.sha(payload) != s.checksums[id] {
        s := MarkFailed(s, id, attempt);
        return FailedWith(id, OriginalChecksumMismatch);
      }
      var compressed := codec.gzip(payload);
      if landed.None? {
        s := MarkFailed(s, id, attempt);
        return FailedWith(id, UploadFailed);
      }
      s := s.(objects := s.objects[row.key := landed.value]);
      var problem := CheckUpload(payload, compressed, head, got, byDownload);
      if problem.Some? {
        s := MarkFailed(s, id, attempt);
        return FailedWith(id, problem.value);
      }
      s := MarkVerified(s, id, |compressed|, codec.sha(compressed));
      return ArchivedAs(id, codec.sha(compressed));
    }

    /** HEAD, then unless switched off GET: the compressed and the decompressed checksum. */
    method CheckUpload(payload: Bytes, compressed: Bytes, head: Option<nat>, got: Download, byDownload: bool)
        returns (problem: Option<ArchiveError>)
      requires codec.Sound() && compressed == codec.gzip(payload)
      ensures problem.None? <==> head == Some(|compressed|) && (byDownload ==> got == Got(compressed))
      ensures problem.Some? ==> match problem.value
        case ObjectMissing => head.None? || (head == Some(|compressed|) && byDownload && got.NotFound?)
        case HeadSizeMismatch => head.Some? && head.value != |compressed|
        case GetChecksumMismatch => head == Some(|compressed|) && byDownload && !got.NotFound? && got != Got(compressed)
        case _ => false
    {
      if head.None? {
        return Some(ArchiveError.ObjectMissing);
      }
      if head.value != |compressed| {
        return Some(HeadSizeMismatch);
      }
      if byDownload {
        match got {
          case NotFound => return Some(ArchiveError.ObjectMissing);
          case ReadFailed => return Some(GetChecksumMismatch);
          case Got(bytes) =>
            if codec.sha(bytes) != codec.sha(compressed) {
              return Some(GetChecksumMismatch);
            }
            var plain := codec.gunzip(bytes);
            if plain.None? || codec.sha(plain.value) != codec.sha(payload) {
              return Some(DecompressedChecksumMismatch);
            }
        }
      }
      return None;
    }
  }
}
