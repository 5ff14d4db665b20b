/**
 The repository (internal/repository/repository.go). Transactions are atomic; `commits` records the
 store after every commit, so that what a reader could see between two commits can be stated.
 */
module Repository {
  import opened Text
  import opened Models
  import opened Keys
  import opened Store
  import opened Consistency
  import opened Bulk
  import opened Listing
  import opened Paging
  import opened QueueScope

  const CHUNK_SIZE := 1000
  const FLUSH_EVERY := 1000

  /** The context of a call: one that may be cancelled at any time, or a run's, which is done or not. */
  datatype Context = Free | Fixed(done: bool)

  /** `ctx.Err()`. */
  method ContextDone(ctx: Context := Free) returns (done: bool)
    ensures ctx.Fixed? ==> done == ctx.done
  {
    if ctx.Fixed? {
      return ctx.done;
    }
    done := *;
  }

  // ---- Transactions ----

  /** A read-write transaction: a snapshot and the writes made to it so far. */
  class Txn {
    var kv: KV

    constructor (snapshot: KV)
      ensures kv == snapshot
    {
      kv := snapshot;
    }

    method Set(k: string, v: Value)
      modifies this
      ensures kv == old(kv)[k := v]
    {
      kv := kv[k := v];
    }

    method Delete(k: string)
      modifies this
      ensures kv == old(kv) - {k}
    {
      kv := kv - {k};
    }

    /** Creates the index entries of a download. */
    method IndexDownload(d: Download)
      requires d.createdAt.At?
      modifies this
      ensures kv == Marked(old(kv), IndexKeys(d))
    {
      ghost var before := kv;
      var t := d.createdAt.ns;
      IndexFields(d, t);
      ghost var ks := FieldKeys(d, t);
      for i := 0 to |d.tags|
        invariant ks == FieldKeys(d, t) + TagKeys(d.tags[..i], t, d.id)
        invariant kv == Marked(before, ks)
      {
        assert d.tags[..i + 1][..i] == d.tags[..i];
        if d.tags[i] != "" {
          var k := KTag(ToLower(d.tags[i]), t, d.id);
          Mark(k, before, ks);
          ks := ks + [k];
        }
      }
      assert d.tags[..|d.tags|] == d.tags;
    }

    method IndexFields(d: Download, t: Nanos)
      modifies this
      ensures kv == Marked(old(kv), FieldKeys(d, t))
    {
      ghost var before, ks: seq<string> := kv, [];
      Mark(KCreated(t, d.id), before, ks);
      ks := ks + [KCreated(t, d.id)];
      if d.status != "" {
        Mark(KStatus(d.status, t, d.id), before, ks);
        ks := ks + [KStatus(d.status, t, d.id)];
      }
      if d.queueID != "" {
        Mark(KQueue(d.queueID, t, d.id), before, ks);
        ks := ks + [KQueue(d.queueID, t, d.id)];
      }
      assert ks == FieldKeys(d, t);
    }

    method Mark(k: string, ghost before: KV, ghost ks: seq<string>)
      requires kv == Marked(before, ks)
      modifies this
      ensures kv == Marked(before, ks + [k])
    {
      MarkedAppend(before, ks, k);
      Set(k, Value.Mark);
    }

    /** Removes the index entries of a download. */
    method UnindexDownload(d: Download)
      modifies this
      ensures kv == old(kv) - Derived(d)
    {
      if d.createdAt.Zero? {
        return;
      }
      ghost var before := kv;
      var t := d.createdAt.ns;
      UnindexFields(d, t);
      ghost var ks := FieldKeys(d, t);
      for i := 0 to |d.tags|
        invariant ks == FieldKeys(d, t) + TagKeys(d.tags[..i], t, d.id)
        invariant kv == before - KeySet(ks)
      {
        assert d.tags[..i + 1][..i] == d.tags[..i];
        if d.tags[i] != "" {
          var k := KTag(ToLower(d.tags[i]), t, d.id);
          KeySetAppend(before, ks, k);
          ks := ks + [k];
          Delete(k);
        }
      }
      assert d.tags[..|d.tags|] == d.tags;
      assert KeySet(IndexKeys(d)) == Derived(d);
    }

    method UnindexFields(d: Download, t: Nanos)
      modifies this
      ensures kv == old(kv) - KeySet(FieldKeys(d, t))
    {
      Delete(KCreated(t, d.id));
      if d.status != "" {
        Delete(KStatus(d.status, t, d.id));
      }
      if d.queueID != "" {
        Delete(KQueue(d.queueID, t, d.id));
      }
    }

    /** Removes the index entries and the segment rows of a download. */
    method Strip(d: Download, ctx: Context := Free) returns (ok: bool)
      modifies this
      ensures ok ==> kv == WithoutPrefix(old(kv) - Derived(d), SegmentPrefix(d.id))
      ensures ctx == Fixed(false) ==> ok
    {
      UnindexDownload(d);
      ok := DeleteByPrefix(SegmentPrefix(d.id), ctx);
    }

    /** Deletes every key under a prefix; the iterator walks the keys of the snapshot. */
    method DeleteByPrefix(prefix: string, ctx: Context := Free) returns (ok: bool)
      modifies this
      ensures ok ==> kv == WithoutPrefix(old(kv), prefix)
      ensures ctx == Fixed(false) ==> ok
    {
      ghost var before := kv;
      var keys := ScanKeys(kv, prefix, false);
      for i := 0 to |keys|
        invariant kv == before - KeySet(keys[..i])
      {
        var done := ContextDone(ctx);
        if done {
          return false;
        }
        assert keys[..i + 1] == keys[..i] + [keys[i]];
        KeySetAppend(before, keys[..i], keys[i]);
        Delete(keys[i]);
      }
      assert keys[..|keys|] == keys;
      ok := true;
    }
  }

  ghost function KeySet(ks: seq<string>): set<string> { set k | k in ks }

  lemma KeySetAppend(kv: KV, ks: seq<string>, k: string)
    ensures kv - KeySet(ks + [k]) == kv - KeySet(ks) - {k}
  {
  }

  // ---- Write batches ----

  /** A write batch over a repository. Assumed of it: entries are committed in the order in which
      they were added, possibly before `Flush`; `Flush` commits what is pending; the batch can be used
      again after a flush. */
  class WriteBatch {
    const repo: BadgerRepository
    var pending: seq<Entry>
    ghost var base: KV
    ghost var log: seq<Entry>
    ghost var committed: nat

    constructor (repo: BadgerRepository)
      ensures Valid() && this.repo == repo && base == repo.kv && log == []
    {
      this.repo := repo;
      pending := [];
      base := repo.kv;
      log, committed := [], 0;
    }

    ghost predicate Valid()
      reads this, repo
    {
      committed <= |log| && repo.kv == ApplyAll(base, log[..committed]) && pending == log[committed..]
    }

    method Set(k: string, v: Value)
      requires Valid()
      modifies this, repo
      ensures Valid() && base == old(base) && log == old(log) + [Entry.Set(k, v)]
      ensures NewCommits(old(repo.commits), repo.commits, base, log)
    {
      Add(Entry.Set(k, v));
    }

    /** Adds the next of the deletions that the batch is to make, and flushes now and then. */
    method DeleteNext(ghost full: seq<Entry>, i: nat, k: string, ghost start: seq<KV>)
      requires Valid() && i < |full| && full[i] == Del(k)
      requires log == full[..i] && NewCommits(start, repo.commits, base, full)
      modifies this, repo
      ensures Valid() && base == old(base) && log == full[..i + 1]
      ensures NewCommits(start, repo.commits, base, full)
    {
      Add(Del(k));
      assert full[..i + 1] == full[..i] + [full[i]];
      CommitsWithin(start, old(repo.commits), repo.commits, base, log, full);
      FlushNowAndThen(i + 1, full, start);
    }

    method Add(e: Entry)
      requires Valid()
      modifies this, repo
      ensures Valid() && base == old(base) && log == old(log) + [e]
      ensures NewCommits(old(repo.commits), repo.commits, base, log)
    {
      assert log + [e] == log[..committed] + (pending + [e]);
      assert (log + [e])[..committed] == log[..committed];
      pending, log := pending + [e], log + [e];
      if * {
        Flush();
      }
    }

    method Flush()
      requires Valid()
      modifies this, repo
      ensures Valid() && base == old(base) && log == old(log)
      ensures repo.kv == ApplyAll(base, log) && repo.commits == old(repo.commits) + [repo.kv]
      ensures NewCommits(old(repo.commits), repo.commits, base, log)
    {
      ApplyAllAppend(base, log[..committed], pending);
      assert log[..committed] + pending == log && log[..|log|] == log;
      repo.Commit(ApplyAll(repo.kv, pending));
      pending, committed := [], |log|;
    }

    method FlushNowAndThen(count: nat, ghost full: seq<Entry>, ghost start: seq<KV>)
      requires Valid() && log <= full && NewCommits(start, repo.commits, base, full)
      modifies this, repo
      ensures Valid() && base == old(base) && log == old(log)
      ensures NewCommits(start, repo.commits, base, full)
    {
      if count % FLUSH_EVERY == 0 {
        Flush();
        CommitsWithin(start, old(repo.commits), repo.commits, base, log, full);
      }
    }

    /** Adds the next of the records that the batch is to write, and flushes now and then. */
    method PutNext(ghost ns: seq<Download>, i: nat, d: Download, ghost start: seq<KV>)
      requires Valid() && i < |ns| && d == ns[i] && d.createdAt.At?
      requires log == BatchEntries(ns[..i]) && NewCommits(start, repo.commits, base, BatchEntries(ns))
      modifies this, repo
      ensures Valid() && base == old(base) && log == BatchEntries(ns[..i + 1])
      ensures NewCommits(start, repo.commits, base, BatchEntries(ns))
    {
      ghost var full := BatchEntries(ns);
      PutDownload(d);
      BatchEntriesStep(ns, i + 1);
      BatchEntriesPrefix(ns, i + 1);
      CommitsWithin(start, old(repo.commits), repo.commits, base, log, full);
      FlushNowAndThen(i + 1, full, start);
    }

    /** Flushes the batch after its last record. */
    method Finish(ghost full: seq<Entry>, ghost start: seq<KV>)
      requires Valid() && log == full && NewCommits(start, repo.commits, base, full)
      modifies this, repo
      ensures base == old(base) && repo.kv == ApplyAll(base, full) && PrefixApplied(repo.kv, base, full)
      ensures NewCommits(start, repo.commits, base, full)
    {
      Flush();
      CommitsWithin(start, old(repo.commits), repo.commits, base, log, full);
      assert full[..|full|] == full;
    }

    lemma StoreIsPrefix(full: seq<Entry>)
      requires Valid() && log <= full
      ensures PrefixApplied(repo.kv, base, full)
    {
      LongerLog(repo.kv, base, log, full);
    }

    /** Adds the index entries of a download to the batch. */
    method IndexDownload(d: Download)
      requires Valid() && d.createdAt.At?
      modifies this, repo
      ensures Valid() && base == old(base) && log == old(log) + MarkEntries(IndexKeys(d))
      ensures NewCommits(old(repo.commits), repo.commits, base, log)
    {
      var t := d.createdAt.ns;
      IndexFields(d, t);
      ghost var before, ks := old(log), FieldKeys(d, t);
      for i := 0 to |d.tags|
        invariant Valid() && base == old(base)
        invariant ks == FieldKeys(d, t) + TagKeys(d.tags[..i], t, d.id)
        invariant log == before + MarkEntries(ks)
        invariant NewCommits(old(repo.commits), repo.commits, base, log)
      {
        assert d.tags[..i + 1][..i] == d.tags[..i];
        if d.tags[i] != "" {
          var k := KTag(ToLower(d.tags[i]), t, d.id);
          ghost var commits, was := repo.commits, log;
          Set(k, Mark);
          CommitsGrow(old(repo.commits), commits, repo.commits, base, was, log);
          assert MarkEntries(ks + [k]) == MarkEntries(ks) + [Entry.Set(k, Mark)];
          ks := ks + [k];
        }
      }
      assert d.tags[..|d.tags|] == d.tags;
    }

    /** Adds a record and its index entries to the batch. */
    method PutDownload(d: Download)
      requires Valid() && d.createdAt.At?
      modifies this, repo
      ensures Valid() && base == old(base) && log == old(log) + PutEntries(d)
      ensures NewCommits(old(repo.commits), repo.commits, base, log)
    {
      Set(KDownload(d.id), Record(d));
      ghost var commits, was := repo.commits, log;
      IndexDownload(d);
      CommitsGrow(old(repo.commits), commits, repo.commits, base, was, log);
    }

    method IndexFields(d: Download, t: Nanos)
      requires Valid()
      modifies this, repo
      ensures Valid() && base == old(base) && log == old(log) + MarkEntries(FieldKeys(d, t))
      ensures NewCommits(old(repo.commits), repo.commits, base, log)
    {
      ghost var start, before := repo.commits, log;
      Set(KCreated(t, d.id), Mark);
      if d.status != "" {
        ghost var commits, was := repo.commits, log;
        Set(KStatus(d.status, t, d.id), Mark);
        CommitsGrow(start, commits, repo.commits, base, was, log);
      }
      if d.queueID != "" {
        ghost var commits, was := repo.commits, log;
        Set(KQueue(d.queueID, t, d.id), Mark);
        CommitsGrow(start, commits, repo.commits, base, was, log);
      }
      assert log == before + MarkEntries(FieldKeys(d, t));
    }
  }

  ghost predicate NewCommits(start: seq<KV>, now: seq<KV>, base: KV, log: seq<Entry>) {
    start <= now && forall i | |start| <= i < |now| :: PrefixApplied(now[i], base, log)
  }

  lemma CommitsGrow(start: seq<KV>, mid: seq<KV>, now: seq<KV>, base: KV, was: seq<Entry>, log: seq<Entry>)
    requires NewCommits(start, mid, base, was) && NewCommits(mid, now, base, log) && was <= log
    ensures NewCommits(start, now, base, log)
  {
    forall i | |start| <= i < |now| ensures PrefixApplied(now[i], base, log) {
      if i < |mid| {
        assert now[i] == mid[i];
        LongerLog(mid[i], base, was, log);
      }
    }
  }

  lemma CommitsWithin(start: seq<KV>, mid: seq<KV>, now: seq<KV>, base: KV, log: seq<Entry>, full: seq<Entry>)
    requires NewCommits(start, mid, base, full) && NewCommits(mid, now, base, log) && log <= full
    ensures NewCommits(start, now, base, full)
  {
    forall i | |start| <= i < |now| ensures PrefixApplied(now[i], base, full) {
      if i < |mid| {
        assert now[i] == mid[i];
      } else {
        LongerLog(now[i], base, log, full);
      }
    }
  }

  class BadgerRepository {
    var kv: KV
    ghost var commits: seq<KV>

    constructor ()
      ensures kv == map[] && commits == []
    {
      kv := map[];
      commits := [];
    }

    method Commit(next: KV)
      modifies this
      ensures kv == next && commits == old(commits) + [next]
    {
      kv := next;
      commits := commits + [next];
    }

    // ---- Single downloads ----

    method CreateDownload(d: Download, now: Nanos, ctx: Context := Free) returns (r: Outcome)
      modifies this
      ensures match r
              case Ok => d.id != "" && kv == CreateNext(old(kv), d, now) && commits == old(commits) + [kv]
              case Err(e) => unchanged(this) && (e == Cancelled || (e == IdRequired && d.id == ""))
      ensures ctx == Fixed(false) ==> r != Err(Cancelled)
      ensures ctx == Fixed(true) ==> r == Err(Cancelled) && unchanged(this)
    {
      var done := ContextDone(ctx);
      if done {
        return Err(Cancelled);
      }
      if d.id == "" {
        return Err(IdRequired);
      }
      var n := Stamp(d, now);
      var txn := new Txn(kv);
      txn.Set(KDownload(n.id), Record(n));
      txn.IndexDownload(n);
      Commit(txn.kv);
      r := Ok;
    }

    method UpdateDownload(d: Download, now: Nanos, ctx: Context := Free) returns (r: Outcome)
      requires WellFormed(kv)
      modifies this
      ensures match r
              case Ok => HasRecord(old(kv), d.id) && kv == UpdateNext(old(kv), d, now) && commits == old(commits) + [kv]
              case Err(e) => unchanged(this) &&
                             (e == Cancelled || (e == IdRequired && d.id == "")
                              || (e == NotFound && !HasRecord(old(kv), d.id)))
      ensures ctx.Fixed? ==> (r == Err(Cancelled) <==> ctx.done)
    {
      var done := ContextDone(ctx);
      if done {
        return Err(Cancelled);
      }
      if d.id == "" {
        return Err(IdRequired);
      }
      var txn := new Txn(kv);
      if KDownload(d.id) !in txn.kv {
        return Err(NotFound);
      }
      var prev := txn.kv[KDownload(d.id)].d;
      IdOfRecord(kv, d.id);
      txn.UnindexDownload(prev);
      var created := if d.createdAt.Zero? then prev.createdAt else d.createdAt;
      var n := d.(createdAt := created, updatedAt := At(now));
      txn.Set(KDownload(n.id), Record(n));
      txn.IndexDownload(n);
      Commit(txn.kv);
      r := Ok;
    }

    method GetDownload(id: string, ctx: Context := Free) returns (r: Result<Download>)
      requires WellFormed(kv)
      ensures match r
              case Success(d) => HasRecord(kv, id) && d == RecordOf(kv, id) && d.id == id
              case Failure(e) => e == Cancelled || (e == NotFound && !HasRecord(kv, id))
      ensures ctx.Fixed? ==> (r == Failure(Cancelled) <==> ctx.done)
    {
      var done := ContextDone(ctx);
      if done {
        return Failure(Cancelled);
      }
      if KDownload(id) !in kv {
        return Failure(NotFound);
      }
      IdOfRecord(kv, id);
      r := Success(kv[KDownload(id)].d);
    }

    method DeleteDownload(id: string, ctx: Context := Free) returns (r: Outcome)
      requires WellFormed(kv)
      modifies this
      ensures match r
              case Ok => HasRecord(old(kv), id) && kv == DeleteNext(old(kv), id) && commits == old(commits) + [kv]
              case Err(e) => unchanged(this) && (e == Cancelled || (e == NotFound && !HasRecord(old(kv), id)))
      ensures ctx == Fixed(false) ==> r != Err(Cancelled)
      ensures ctx == Fixed(true) ==> r == Err(Cancelled) && unchanged(this)
    {
      var done := ContextDone(ctx);
      if done {
        return Err(Cancelled);
      }
      var txn := new Txn(kv);
      if KDownload(id) !in txn.kv {
        return Err(NotFound);
      }
      var d := txn.kv[KDownload(id)].d;
      IdOfRecord(kv, id);
      txn.Delete(KDownload(id));
      txn.UnindexDownload(d);
      var ok := txn.DeleteByPrefix(SegmentPrefix(d.id), ctx);
      if !ok {
        return Err(Cancelled);
      }
      Commit(txn.kv);
      r := Ok;
    }

    // ---- Bulk writes ----

    method BulkCreateDownloads(ds: seq<Download>, clock: Clock, ctx: Context := Free) returns (r: Outcome)
      modifies this
      ensures r.Ok? ==> kv == FoldCreate(old(kv), ds, clock) && "" !in Ids(ds)
      ensures r.Err? ==> r.error == Cancelled || (r.error == IdRequired && "" in Ids(ds))
      ensures CreateStage(old(kv), ds, clock, kv)
      ensures old(commits) <= commits
      ensures forall i | |old(commits)| <= i < |commits| :: CreateStage(old(kv), ds, clock, commits[i])
      ensures ctx == Fixed(false) ==> r != Err(Cancelled)
      ensures ctx == Fixed(true) ==> r == Err(Cancelled) && unchanged(this)
    {
      NothingWritten(kv, BatchEntries(Stamped(ds, clock)));
      var finished := ContextDone(ctx);
      if finished {
        return Err(Cancelled);
      }
      r := WriteCreates(ds, clock, ctx);
    }

    /** The batch of the records to be created. */
    method WriteCreates(ds: seq<Download>, clock: Clock, ctx: Context := Free) returns (r: Outcome)
      modifies this
      ensures r.Ok? ==> kv == FoldCreate(old(kv), ds, clock) && "" !in Ids(ds)
      ensures r.Err? ==> r.error == Cancelled || (r.error == IdRequired && "" in Ids(ds))
      ensures CreateStage(old(kv), ds, clock, kv)
      ensures old(commits) <= commits
      ensures forall i | |old(commits)| <= i < |commits| :: CreateStage(old(kv), ds, clock, commits[i])
      ensures ctx == Fixed(false) ==> r != Err(Cancelled)
    {
      ghost var ns := Stamped(ds, clock);
      ghost var full := BatchEntries(ns);
      var wb := new WriteBatch(this);
      assert ns[..0] == [];
      for i := 0 to |ds|
        invariant wb.Valid() && wb.repo == this && fresh(wb) && wb.base == old(kv)
        invariant wb.log == BatchEntries(ns[..i]) && NoneEmpty(ds, i)
        invariant NewCommits(old(commits), commits, old(kv), full)
      {
        var done := ContextDone(ctx);
        BatchEntriesPrefix(ns, i);
        wb.StoreIsPrefix(full);
        if done {
          return Err(Cancelled);
        }
        if ds[i].id == "" {
          assert Ids(ds)[i] == ds[i].id;
          return Err(IdRequired);
        }
        assert NoneEmpty(ds, i + 1);
        wb.PutNext(ns, i, Stamp(ds[i], clock(i)), old(commits));
      }
      assert ns[..|ds|] == ns;
      wb.Finish(full, old(commits));
      ApplyBatch(old(kv), ns);
      BulkCreateIsFold(old(kv), ds, clock);
      r := Ok;
    }

    method BulkUpdateDownloads(ds: seq<Download>, clock: Clock, ctx: Context := Free) returns (r: Outcome)
      requires WellFormed(kv)
      modifies this
      ensures r.Ok? ==> AllPresent(old(kv), Ids(ds)) && kv == BulkUpdated(old(kv), ds, clock)
      ensures r.Err? ==> ReadError(old(kv), Ids(ds), r.error) && (r.error == Cancelled || unchanged(this))
      ensures UpdateStage(old(kv), ds, clock, kv)
      ensures UpdateStages(old(commits), commits, old(kv), ds, clock)
      ensures ctx == Fixed(false) ==> r != Err(Cancelled)
      ensures ctx == Fixed(true) ==> r == Err(Cancelled) && unchanged(this)
    {
      NothingUnindexed(kv, StoredIndexKeys(kv, Ids(ds)[..0]));
      var finished := ContextDone(ctx);
      if finished {
        return Err(Cancelled);
      }
      if |ds| == 0 {
        NothingUnindexed(kv, StoredIndexKeys(kv, Ids(ds)));
        return Ok;
      }
      var read := ReadAll(ds, ctx);
      if read.Failure? {
        return Err(read.error);
      }
      var ok := UnindexForUpdate(ds, read.value, clock, ctx);
      if !ok {
        return Err(Cancelled);
      }
      ghost var mid := commits;
      r := WriteUpdates(ds, read.value, clock, old(kv), ctx);
      BatchCommitsAreStages(old(commits), mid, commits, old(kv), ds, clock);
    }

    /** The stored record of each download to be updated. */
    method ReadAll(ds: seq<Download>, ctx: Context := Free) returns (r: Result<map<string, Download>>)
      requires WellFormed(kv)
      ensures r.Success? ==> AllPresent(kv, Ids(ds)) && Holds(kv, ds, r.value)
      ensures r.Failure? ==> ReadError(kv, Ids(ds), r.error)
      ensures ctx == Fixed(false) ==> r != Failure(Cancelled)
    {
      var prev: map<string, Download> := map[];
      for i := 0 to |ds|
        invariant AllPresent(kv, Ids(ds)[..i]) && Holds(kv, ds[..i], prev)
      {
        var done := ContextDone(ctx);
        if done {
          return Failure(Cancelled);
        }
        var id := ds[i].id;
        assert Ids(ds)[i] == id && id in Ids(ds) && Ids(ds)[..i + 1] == Ids(ds)[..i] + [id];
        if id == "" {
          return Failure(IdRequired);
        }
        if KDownload(id) !in kv {
          return Failure(NotFound);
        }
        IdOfRecord(kv, id);
        prev := prev[id := kv[KDownload(id)].d];
      }
      assert Ids(ds)[..|ds|] == Ids(ds) && ds[..|ds|] == ds;
      r := Success(prev);
    }

    /** Removes the old index entries, one transaction for each chunk. */
    method UnindexForUpdate(ds: seq<Download>, prev: map<string, Download>, ghost clock: Clock, ctx: Context := Free) returns (ok: bool)
      requires AllPresent(kv, Ids(ds)) && Holds(kv, ds, prev)
      modifies this
      ensures ok ==> kv == Unindexed(old(kv), Ids(ds))
      ensures UpdateStage(old(kv), ds, clock, kv)
      ensures UpdateStages(old(commits), commits, old(kv), ds, clock)
      ensures ctx == Fixed(false) ==> ok
    {
      var i := 0;
      NothingUnindexed(kv, StoredIndexKeys(kv, Ids(ds)[..0]));
      while i < |ds|
        invariant i <= |ds| && kv == Unindexed(old(kv), Ids(ds)[..i])
        invariant UpdateStages(old(commits), commits, old(kv), ds, clock)
      {
        var end := if i + CHUNK_SIZE > |ds| then |ds| else i + CHUNK_SIZE;
        ok := UnindexChunk(ds, prev, i, end, old(kv), ctx);
        if !ok {
          return;
        }
        i := end;
      }
      assert Ids(ds)[..|ds|] == Ids(ds);
      ok := true;
    }

    /** One chunk in one transaction. */
    method UnindexChunk(ds: seq<Download>, prev: map<string, Download>, start: nat, end: nat, ghost was: KV, ctx: Context := Free)
      returns (ok: bool)
      requires Holds(was, ds, prev) && start <= end <= |ds|
      requires kv == Unindexed(was, Ids(ds)[..start])
      modifies this
      ensures if ok then kv == Unindexed(was, Ids(ds)[..end]) && commits == old(commits) + [kv] else unchanged(this)
      ensures ctx == Fixed(false) ==> ok
    {
      var txn := new Txn(kv);
      for j := start to end
        invariant txn.kv == Unindexed(was, Ids(ds)[..j])
        modifies txn
      {
        var done := ContextDone(ctx);
        if done {
          return false;
        }
        UnindexedStep(was, Ids(ds), j);
        txn.UnindexDownload(prev[ds[j].id]);
      }
      Commit(txn.kv);
      ok := true;
    }

    /** Writes the new records and index entries. */
    method WriteUpdates(ds: seq<Download>, prev: map<string, Download>, clock: Clock, ghost was: KV, ctx: Context := Free)
      returns (r: Outcome)
      requires kv == Unindexed(was, Ids(ds)) && Holds(was, ds, prev)
      modifies this
      ensures r.Ok? ==> kv == BulkUpdated(was, ds, clock)
      ensures r.Err? ==> r.error == Cancelled
      ensures PrefixApplied(kv, old(kv), BatchEntries(Restamped(was, ds, clock)))
      ensures NewCommits(old(commits), commits, old(kv), BatchEntries(Restamped(was, ds, clock)))
      ensures ctx == Fixed(false) ==> r != Err(Cancelled)
    {
      ghost var ns := Restamped(was, ds, clock);
      forall i | 0 <= i < |ds| ensures CarriedAs(ds, prev, clock, ns, i) {
        RestampedAt(was, ds, prev, clock, i);
      }
      r := WriteCarried(ds, prev, clock, ns, ctx);
    }

    /** The batch of the records to be written. */
    method WriteCarried(ds: seq<Download>, prev: map<string, Download>, clock: Clock, ghost ns: seq<Download>, ctx: Context := Free)
      returns (r: Outcome)
      requires |ns| == |ds| && forall i | 0 <= i < |ds| :: CarriedAs(ds, prev, clock, ns, i)
      modifies this
      ensures r.Ok? ==> kv == PutAll(old(kv), ns)
      ensures r.Err? ==> r.error == Cancelled
      ensures PrefixApplied(kv, old(kv), BatchEntries(ns))
      ensures NewCommits(old(commits), commits, old(kv), BatchEntries(ns))
      ensures ctx == Fixed(false) ==> r != Err(Cancelled)
    {
      ghost var full := BatchEntries(ns);
      var wb := new WriteBatch(this);
      assert ns[..0] == [];
      for i := 0 to |ds|
        invariant wb.Valid() && wb.repo == this && fresh(wb) && wb.base == old(kv)
        invariant wb.log == BatchEntries(ns[..i])
        invariant NewCommits(old(commits), commits, old(kv), full)
      {
        var done := ContextDone(ctx);
        if done {
          BatchEntriesPrefix(ns, i);
          wb.StoreIsPrefix(full);
          return Err(Cancelled);
        }
        assert CarriedAs(ds, prev, clock, ns, i);
        wb.PutNext(ns, i, Carried(ds[i], prev, clock(i)), old(commits));
      }
      assert ns[..|ds|] == ns;
      wb.Finish(full, old(commits));
      ApplyBatch(old(kv), ns);
      r := Ok;
    }

    method BulkDeleteDownloads(ids: seq<string>, ctx: Context := Free) returns (r: Outcome)
      requires WellFormed(kv)
      modifies this
      ensures r.Ok? ==> AllPresent(old(kv), ids) && kv == BulkDeleted(old(kv), ids)
      ensures r.Err? ==> ReadError(old(kv), ids, r.error) && (r.error == Cancelled || unchanged(this))
      ensures DeleteStage(old(kv), ids, kv)
      ensures DeleteStages(old(commits), commits, old(kv), ids)
      ensures ctx == Fixed(false) ==> r != Err(Cancelled)
      ensures ctx == Fixed(true) ==> r == Err(Cancelled) && unchanged(this)
    {
      NothingStripped(kv, ids);
      var finished := ContextDone(ctx);
      if finished {
        return Err(Cancelled);
      }
      if |ids| == 0 {
        NothingStripped(kv, ids);
        return Ok;
      }
      var read := ReadRecords(ids, ctx);
      if read.Failure? {
        return Err(read.error);
      }
      var ok := StripInChunks(ids, read.value, ctx);
      if !ok {
        return Err(Cancelled);
      }
      r := DeletePrimaries(ids, read.value, old(kv), ctx);
    }

    /** The stored records of the given ids. */
    method ReadRecords(ids: seq<string>, ctx: Context := Free) returns (r: Result<seq<Download>>)
      requires WellFormed(kv)
      ensures r.Success? ==> AreRecords(kv, ids, r.value)
      ensures r.Failure? ==> ReadError(kv, ids, r.error)
      ensures ctx == Fixed(false) ==> r != Failure(Cancelled)
    {
      var ds: seq<Download> := [];
      for i := 0 to |ids|
        invariant AreRecords(kv, ids[..i], ds)
      {
        var done := ContextDone(ctx);
        if done {
          return Failure(Cancelled);
        }
        assert ids[i] in ids && ids[..i + 1] == ids[..i] + [ids[i]];
        if ids[i] == "" {
          return Failure(IdRequired);
        }
        if KDownload(ids[i]) !in kv {
          return Failure(NotFound);
        }
        IdOfRecord(kv, ids[i]);
        ds := ds + [kv[KDownload(ids[i])].d];
      }
      assert ids[..|ids|] == ids;
      r := Success(ds);
    }

    /** Removes index entries and segment rows, one transaction for each chunk. */
    method StripInChunks(ids: seq<string>, toDelete: seq<Download>, ctx: Context := Free) returns (ok: bool)
      requires AreRecords(kv, ids, toDelete)
      modifies this
      ensures ok ==> kv == Stripped(old(kv), ids)
      ensures DeleteStage(old(kv), ids, kv)
      ensures DeleteStages(old(commits), commits, old(kv), ids)
      ensures ctx == Fixed(false) ==> ok
    {
      var i := 0;
      NothingStripped(kv, ids);
      StrippedIsStage(kv, ids, 0);
      while i < |toDelete|
        invariant i <= |ids| && kv == Stripped(old(kv), ids[..i]) && DeleteStage(old(kv), ids, kv)
        invariant DeleteStages(old(commits), commits, old(kv), ids)
      {
        var end := if i + CHUNK_SIZE > |toDelete| then |toDelete| else i + CHUNK_SIZE;
        StrippedIsStage(old(kv), ids, end);
        ok := StripChunk(ids, toDelete, i, end, old(kv), ctx);
        if !ok {
          return;
        }
        i := end;
      }
      assert ids[..|ids|] == ids;
      ok := true;
    }

    /** One chunk in one transaction. */
    method StripChunk(ids: seq<string>, toDelete: seq<Download>, start: nat, end: nat, ghost was: KV, ctx: Context := Free)
      returns (ok: bool)
      requires AreRecords(was, ids, toDelete) && start <= end <= |ids|
      requires kv == Stripped(was, ids[..start])
      modifies this
      ensures if ok then kv == Stripped(was, ids[..end]) && commits == old(commits) + [kv] else unchanged(this)
      ensures ctx == Fixed(false) ==> ok
    {
      var txn := new Txn(kv);
      for j := start to end
        invariant txn.kv == Stripped(was, ids[..j])
        modifies txn
      {
        var done := ContextDone(ctx);
        if done {
          return false;
        }
        StrippedStep(was, ids, j);
        ok := txn.Strip(toDelete[j], ctx);
        if !ok {
          return;
        }
      }
      Commit(txn.kv);
      ok := true;
    }

    /** Deletes the records. */
    method DeletePrimaries(ids: seq<string>, toDelete: seq<Download>, ghost was: KV, ctx: Context := Free) returns (r: Outcome)
      requires kv == Stripped(was, ids) && AreRecords(was, ids, toDelete)
      modifies this
      ensures r.Ok? ==> kv == BulkDeleted(was, ids)
      ensures r.Err? ==> r.error == Cancelled
      ensures DeleteStage(was, ids, kv)
      ensures DeleteStages(old(commits), commits, was, ids)
      ensures ctx == Fixed(false) ==> r != Err(Cancelled)
    {
      ghost var full := DeleteEntries(ids);
      var wb := new WriteBatch(this);
      for i := 0 to |toDelete|
        invariant wb.Valid() && wb.repo == this && fresh(wb) && wb.base == old(kv)
        invariant wb.log == full[..i]
        invariant NewCommits(old(commits), commits, old(kv), full)
      {
        var done := ContextDone(ctx);
        if done {
          wb.StoreIsPrefix(full);
          return Err(Cancelled);
        }
        wb.DeleteNext(full, i, KDownload(toDelete[i].id), old(commits));
      }
      assert full[..|full|] == full;
      wb.Finish(full, old(commits));
      r := Ok;
    }

    // ---- Queries ----

    method ListDownloads(o: Options, limit: int, offset: int, ctx: Context := Free) returns (r: Result<seq<Download>>)
      requires WellFormed(kv)
      ensures match r
              case Success(ds) =>
                && multiset(ds) == multiset(Page(FullScan(kv, o), limit, offset))
                && AsAsked(o, ds) && (o.orderBy.AsScanned? ==> ds == Page(FullScan(kv, o), limit, offset))
              case Failure(e) => e == Cancelled
      ensures ctx == Fixed(false) ==> r != Failure(Cancelled)
      ensures ctx == Fixed(true) ==> r == Failure(Cancelled)
    {
      var finished := ContextDone(ctx);
      if finished {
        return Failure(Cancelled);
      }
      var page := ScanPage(o, limit, offset, ctx);
      if page.Failure? {
        return page;
      }
      var sorted := SortSlice(page.value, o);
      r := Success(sorted);
    }

    /** The scan, as far as the page needs it. */
    method ScanPage(o: Options, limit: int, offset: int, ctx: Context) returns (r: Result<seq<Download>>)
      requires WellFormed(kv)
      ensures match r
              case Success(ds) => ds == Page(FullScan(kv, o), limit, offset)
              case Failure(e) => e == Cancelled
      ensures ctx == Fixed(false) ==> r.Success?
    {
      var keys := ScanKeys(kv, ScanPrefix(o), o.desc);
      var result: seq<Download> := [];
      var discard, collect := offset, limit;
      var i, full := 0, false;
      ghost var scanned: seq<Download> := [];
      while i < |keys| && !full
        invariant i <= |keys| && scanned == Filtered(kv, o, keys[..i]) && result == From(scanned, offset)
        invariant discard > 0 <==> offset > |scanned|
        invariant discard > 0 ==> discard == offset - |scanned|
        invariant limit >= 0 ==> |result| <= Quota(limit) && (full <==> |result| == Quota(limit))
        invariant collect == (if limit > 0 then limit - |result| else limit) && (limit < 0 ==> !full)
        decreases |keys| - i, if full then 0 else 1
      {
        var done := ContextDone(ctx);
        if done {
          return Failure(Cancelled);
        }
        var fetched := Fetch(keys[i], o);
        FilteredStep(kv, o, keys, i);
        i := i + 1;
        if fetched.Some? {
          FromStep(scanned, fetched.value, offset);
          scanned := scanned + [fetched.value];
          if discard > 0 {
            discard := discard - 1;
          } else {
            result := result + [fetched.value];
            if collect > 0 {
              collect := collect - 1;
            }
            full := collect == 0;
          }
        }
      }
      ScanStopped(kv, o, keys, i, limit, offset);
      r := Success(result);
    }

    /** The record behind an index key, unless it is gone or filtered out. */
    method Fetch(k: string, o: Options) returns (r: Option<Download>)
      requires WellFormed(kv)
      ensures r == if Survives(kv, o, k) then Some(RecordOf(kv, IdOf(k))) else None
    {
      var id := IdOf(k);
      if KDownload(id) !in kv {
        return None;
      }
      var d := kv[KDownload(id)].d;
      var ok := PassesFetchFilter(d, o);
      r := if ok then Some(d) else None;
    }

    /** With an error comes the count so far. */
    method CountDownloads(o: Options, ctx: Context := Free) returns (count: nat, r: Outcome)
      requires WellFormed(kv)
      ensures match r
              case Ok => count == Counted(kv, o)
              case Err(e) => e == Cancelled && count <= Counted(kv, o)
      ensures ctx == Fixed(false) ==> r != Err(Cancelled)
      ensures ctx == Fixed(true) ==> r == Err(Cancelled) && count == 0
    {
      var finished := ContextDone(ctx);
      if finished {
        return 0, Err(Cancelled);
      }
      count := 0;
      var keys := ScanKeys(kv, ScanPrefix(o), false);
      for i := 0 to |keys|
        invariant count == |Filtered(kv, o, keys[..i])|
      {
        var done := ContextDone(ctx);
        if done {
          PartialCount(kv, o, keys, i);
          return count, Err(Cancelled);
        }
        var id := IdOf(keys[i]);
        assert keys[..i + 1][..i] == keys[..i];
        if KDownload(id) in kv {
          var ok := PassesCountFilter(kv[KDownload(id)].d, o);
          if ok {
            count := count + 1;
          }
        }
      }
      assert keys[..|keys|] == keys;
      r := Ok;
    }

    // ---- Downloads of one queue ----

    method BulkDeleteDownloadsByQueueID(queue: string, ctx: Context := Free) returns (r: Outcome)
      requires Live(kv)
      modifies this
      ensures r.Ok? ==> queue != "" && AllPresent(old(kv), ScannedIds(old(kv), queue))
                        && kv == BulkDeleted(old(kv), ScannedIds(old(kv), queue))
      ensures r.Err? ==> (r.error == QueueRequired && queue == "" && unchanged(this)) || r.error == Cancelled
      ensures DeleteStage(old(kv), ScannedIds(old(kv), queue), kv)
      ensures DeleteStages(old(commits), commits, old(kv), ScannedIds(old(kv), queue))
      ensures ctx == Fixed(false) ==> r != Err(Cancelled)
      ensures ctx == Fixed(true) ==> r == Err(Cancelled) && unchanged(this)
    {
      ghost var all := ScannedIds(kv, queue);
      NothingStripped(kv, all);
      StrippedIsStage(kv, all, 0);
      var finished := ContextDone(ctx);
      if finished {
        return Err(Cancelled);
      }
      if queue == "" {
        return Err(QueueRequired);
      }
      ScanSelects(kv, queue);
      var ids := ScanQueue(queue, ctx);
      if ids.Failure? {
        return Err(ids.error);
      }
      NoEmptyId(kv, ids.value);
      if |ids.value| == 0 {
        NothingStripped(kv, ids.value);
        return Ok;
      }
      r := BulkDeleteDownloads(ids.value, ctx);
    }

    /** The ids under the queue's prefix, in key order. */
    method ScanQueue(queue: string, ctx: Context := Free) returns (r: Result<seq<string>>)
      ensures match r
              case Success(ids) => ids == ScannedIds(kv, queue)
              case Failure(e) => e == Cancelled
      ensures ctx == Fixed(false) ==> r != Failure(Cancelled)
    {
      var keys := ScanKeys(kv, QueuePrefix(queue), false);
      var ids: seq<string> := [];
      for i := 0 to |keys|
        invariant ids == ScannedIds(kv, queue)[..i]
      {
        var done := ContextDone(ctx);
        if done {
          return Failure(Cancelled);
        }
        ids := ids + [IdOf(keys[i])];
      }
      r := Success(ids);
    }

    method BulkReassignDownloadsQueue(from: string, to: string, clock: Clock, ctx: Context := Free) returns (r: Outcome)
      requires Live(kv)
      modifies this
      ensures r.Ok? && from != to ==> QueueUpdateDone(old(kv), from, Reassign(to), clock, kv)
      ensures r.Ok? && from == to ==> unchanged(this)
      ensures r.Err? ==> (r.error == QueueRequired && (from == "" || to == "") && unchanged(this)) || r.error == Cancelled
      ensures QueueStage(old(kv), from, Reassign(to), clock, kv)
      ensures QueueStages(old(commits), commits, old(kv), from, Reassign(to), clock)
      ensures ctx == Fixed(false) ==> r != Err(Cancelled)
      ensures ctx == Fixed(true) ==> r == Err(Cancelled) && unchanged(this)
    {
      NoStageYet(kv, from, Reassign(to), clock);
      var finished := ContextDone(ctx);
      if finished {
        return Err(Cancelled);
      }
      if from == "" || to == "" {
        return Err(QueueRequired);
      }
      if from == to {
        return Ok;
      }
      r := UpdateQueue(from, Reassign(to), clock, ctx);
    }

    method BulkSetPriorityByQueueID(queue: string, priority: int, clock: Clock, ctx: Context := Free) returns (r: Outcome)
      requires Live(kv)
      modifies this
      ensures r.Ok? ==> QueueUpdateDone(old(kv), queue, SetPriority(priority), clock, kv)
      ensures r.Err? ==> (r.error == QueueRequired && queue == "" && unchanged(this)) || r.error == Cancelled
      ensures QueueStage(old(kv), queue, SetPriority(priority), clock, kv)
      ensures QueueStages(old(commits), commits, old(kv), queue, SetPriority(priority), clock)
      ensures ctx == Fixed(false) ==> r != Err(Cancelled)
      ensures ctx == Fixed(true) ==> r == Err(Cancelled) && unchanged(this)
    {
      NoStageYet(kv, queue, SetPriority(priority), clock);
      var finished := ContextDone(ctx);
      if finished {
        return Err(Cancelled);
      }
      if queue == "" {
        return Err(QueueRequired);
      }
      r := UpdateQueue(queue, SetPriority(priority), clock, ctx);
    }

    method BulkUpdateStatusByQueueID(queue: string, status: string, clock: Clock, ctx: Context := Free) returns (r: Outcome)
      requires Live(kv)
      modifies this
      ensures r.Ok? ==> status != "" && QueueUpdateDone(old(kv), queue, SetStatus(status), clock, kv)
      ensures r.Err? ==>
                || r.error == Cancelled
                || (unchanged(this) && ((r.error == StatusRequired && status == "") || (r.error == QueueRequired && queue == "")))
      ensures QueueStage(old(kv), queue, SetStatus(status), clock, kv)
      ensures QueueStages(old(commits), commits, old(kv), queue, SetStatus(status), clock)
      ensures ctx == Fixed(false) ==> r != Err(Cancelled)
      ensures ctx == Fixed(true) && status != "" ==> r == Err(Cancelled) && unchanged(this)
    {
      NoStageYet(kv, queue, SetStatus(status), clock);
      if status == "" {
        return Err(StatusRequired);
      }
      var finished := ContextDone(ctx);
      if finished {
        return Err(Cancelled);
      }
      if queue == "" {
        return Err(QueueRequired);
      }
      r := UpdateQueue(queue, SetStatus(status), clock, ctx);
    }

    /** The scan and bulk update that the three queue-scoped updates share. */
    method UpdateQueue(queue: string, c: Change, clock: Clock, ctx: Context := Free) returns (r: Outcome)
      requires Live(kv) && queue != ""
      modifies this
      ensures r.Ok? ==> QueueUpdateDone(old(kv), queue, c, clock, kv)
      ensures r.Err? ==> r.error == Cancelled
      ensures QueueStage(old(kv), queue, c, clock, kv) && QueueStages(old(commits), commits, old(kv), queue, c, clock)
      ensures ctx == Fixed(false) ==> r != Err(Cancelled)
    {
      NoStageYet(kv, queue, c, clock);
      var ds := ScanChanged(queue, c, ctx);
      if ds.Failure? {
        return Err(ds.error);
      }
      NoEmptyId(kv, Ids(ds.value));
      r := BulkUpdateDownloads(ds.value, clock, ctx);
    }

    /** Changed copies of the records under the queue's prefix. */
    method ScanChanged(queue: string, c: Change, ctx: Context := Free) returns (r: Result<seq<Download>>)
      requires WellFormed(kv) && AllPresent(kv, ScannedIds(kv, queue))
      ensures match r
              case Success(ds) => ds == ChangedRecords(kv, ScannedIds(kv, queue), c)
              case Failure(e) => e == Cancelled
      ensures ctx == Fixed(false) ==> r != Failure(Cancelled)
    {
      var keys := ScanKeys(kv, QueuePrefix(queue), false);
      var ds: seq<Download> := [];
      ghost var ids := ScannedIds(kv, queue);
      for i := 0 to |keys|
        invariant ds == ChangedRecords(kv, ids, c)[..i]
      {
        var done := ContextDone(ctx);
        if done {
          return Failure(Cancelled);
        }
        var id := IdOf(keys[i]);
        assert ids[i] == id && id in ids;
        ds := ds + [Changed(c, kv[KDownload(id)].d)];
      }
      r := Success(ds);
    }

    method SaveQueueStats(stats: QueueStats, ctx: Context := Free) returns (r: Outcome)
      modifies this
      ensures r.Ok? ==> kv == old(kv)[KStats(stats.queueID) := StatsRow(stats)] && commits == old(commits) + [kv]
      ensures r.Err? ==> r.error == Cancelled && unchanged(this)
      ensures ctx == Fixed(false) ==> r != Err(Cancelled)
      ensures ctx == Fixed(true) ==> r == Err(Cancelled) && unchanged(this)
    {
      var done := ContextDone(ctx);
      if done {
        return Err(Cancelled);
      }
      var txn := new Txn(kv);
      txn.Set(KStats(stats.queueID), StatsRow(stats));
      Commit(txn.kv);
      r := Ok;
    }
  }

  // ---- Filters ----

  method Includes(value: string, choices: seq<string>) returns (ok: bool)
    ensures ok <==> value in choices
  {
    ok := false;
    for i := 0 to |choices|
      invariant !ok && value !in choices[..i]
    {
      if value == choices[i] {
        return true;
      }
    }
  }

  method IncludesTag(d: Download, tags: seq<string>) returns (ok: bool)
    ensures ok <==> HasTag(d, tags)
  {
    for i := 0 to |tags|
      invariant forall m, j | 0 <= m < i && 0 <= j < |d.tags| :: !EqualFold(d.tags[j], tags[m])
    {
      for j := 0 to |d.tags|
        invariant forall n | 0 <= n < j :: !EqualFold(d.tags[n], tags[i])
      {
        if EqualFold(d.tags[j], tags[i]) {
          return true;
        }
      }
    }
    ok := false;
  }

  /** The filter inside the listing's fetch: the first failing test rejects. */
  method PassesFetchFilter(d: Download, o: Options) returns (ok: bool)
    ensures ok <==> Matches(d, o)
  {
    if |o.queueIDs| > 0 {
      var found := Includes(d.queueID, o.queueIDs);
      if !found { return false; }
    }
    if |o.statuses| > 0 {
      var found := Includes(d.status, o.statuses);
      if !found { return false; }
    }
    if |o.tags| > 0 {
      var found := IncludesTag(d, o.tags);
      if !found { return false; }
    }
    if o.search != "" {
      if !Contains(ToLower(SearchText(d)), ToLower(o.search)) { return false; }
    }
    if o.createdAfter.Some? && Earlier(d.createdAt, At(o.createdAfter.value)) { return false; }
    if o.createdBefore.Some? && Earlier(At(o.createdBefore.value), d.createdAt) { return false; }
    ok := true;
  }

  /** The filter inside the count: one flag carried through all tests. */
  method PassesCountFilter(d: Download, o: Options) returns (ok: bool)
    ensures ok <==> Matches(d, o)
  {
    ok := true;
    if |o.queueIDs| > 0 {
      ok := Includes(d.queueID, o.queueIDs);
    }
    if ok && |o.statuses| > 0 {
      ok := Includes(d.status, o.statuses);
    }
    if ok && |o.tags| > 0 {
      ok := IncludesTag(d, o.tags);
    }
    if ok && o.search != "" {
      ok := Contains(ToLower(SearchText(d)), ToLower(o.search));
    }
    if ok && o.createdAfter.Some? && Earlier(d.createdAt, At(o.createdAfter.value)) {
      ok := false;
    }
    if ok && o.createdBefore.Some? && Earlier(At(o.createdBefore.value), d.createdAt) {
      ok := false;
    }
  }

  // ---- Stages ----

  /** A completed queue-scoped update. */
  ghost predicate QueueUpdateDone(kv: KV, queue: string, c: Change, clock: Clock, next: KV) {
    queue != "" && AllPresent(kv, ScannedIds(kv, queue)) && next == QueueChanged(kv, queue, c, clock)
  }

  /** What a queue-scoped update may have committed, at its end or when it was cut off. */
  ghost predicate QueueStage(kv: KV, queue: string, c: Change, clock: Clock, s: KV) {
    AllPresent(kv, ScannedIds(kv, queue)) && UpdateStage(kv, ChangedRecords(kv, ScannedIds(kv, queue), c), clock, s)
  }

  ghost predicate QueueStages(start: seq<KV>, now: seq<KV>, kv: KV, queue: string, c: Change, clock: Clock) {
    AllPresent(kv, ScannedIds(kv, queue)) && UpdateStages(start, now, kv, ChangedRecords(kv, ScannedIds(kv, queue), c), clock)
  }

  lemma NoStageYet(kv: KV, queue: string, c: Change, clock: Clock)
    requires Live(kv)
    ensures QueueStage(kv, queue, c, clock, kv)
    ensures var ids := ScannedIds(kv, queue);
            AllPresent(kv, ids) && Ids(ChangedRecords(kv, ids, c)) == ids && Distinct(ChangedRecords(kv, ids, c))
  {
    var ids := ScannedIds(kv, queue);
    ScanSelects(kv, queue);
    ChangedIds(kv, ids, c);
    NothingUnindexed(kv, StoredIndexKeys(kv, ids[..0]));
    assert Unindexed(kv, Ids(ChangedRecords(kv, ids, c))[..0]) == kv;
  }

  /** No store that a queue-scoped update leaves, or commits on its way, has a stale entry or lacks a record. */
  lemma QueueStageLive(kv: KV, queue: string, c: Change, clock: Clock, s: KV)
    requires Live(kv) && QueueStage(kv, queue, c, clock, s)
    ensures Live(s) && Records(kv).Keys <= Records(s).Keys
  {
    NoStageYet(kv, queue, c, clock);
    UpdateStageLive(kv, ChangedRecords(kv, ScannedIds(kv, queue), c), clock, s);
  }

  lemma NoEmptyId(kv: KV, ids: seq<string>)
    requires WellFormed(kv) && AllPresent(kv, ids)
    ensures "" !in ids
  {
    if "" in ids {
      IdOfRecord(kv, "");
    }
  }

  /** When the page is full, or nothing more survives, later records do not change it. */
  lemma FullPageIsFinal<T>(s: seq<T>, more: seq<T>, limit: int, offset: int)
    requires more == [] || |From(s, offset)| == Quota(limit)
    requires limit >= 0 ==> |From(s, offset)| <= Quota(limit)
    ensures Page(s + more, limit, offset) == From(s, offset)
  {
  }

  /** A scan that has stopped, at its end or at a full page, has the page. */
  lemma ScanStopped(kv: KV, o: Options, keys: seq<string>, i: nat, limit: int, offset: int)
    requires i <= |keys|
    requires i == |keys| || |From(Filtered(kv, o, keys[..i]), offset)| == Quota(limit)
    requires limit >= 0 ==> |From(Filtered(kv, o, keys[..i]), offset)| <= Quota(limit)
    ensures From(Filtered(kv, o, keys[..i]), offset) == Page(Filtered(kv, o, keys), limit, offset)
  {
    FilteredAppend(kv, o, keys[..i], keys[i..]);
    assert keys[..i] + keys[i..] == keys;
    assert i == |keys| ==> keys[i..] == [];
    FullPageIsFinal(Filtered(kv, o, keys[..i]), Filtered(kv, o, keys[i..]), limit, offset);
  }

  lemma PartialCount(kv: KV, o: Options, keys: seq<string>, i: nat)
    requires i <= |keys|
    ensures |Filtered(kv, o, keys[..i])| <= |Filtered(kv, o, keys)|
  {
    FilteredAppend(kv, o, keys[..i], keys[i..]);
    assert keys[..i] + keys[i..] == keys;
  }

  lemma FilteredStep(kv: KV, o: Options, keys: seq<string>, i: nat)
    requires i < |keys|
    ensures Filtered(kv, o, keys[..i + 1])
         == Filtered(kv, o, keys[..i]) + (if Survives(kv, o, keys[i]) then [RecordOf(kv, IdOf(keys[i]))] else [])
  {
    assert keys[..i + 1][..i] == keys[..i];
  }

  lemma FromStep<T>(s: seq<T>, x: T, offset: int)
    ensures From(s + [x], offset) == if offset > |s| then [] else From(s, offset) + [x]
    ensures offset > |s| ==> From(s, offset) == []
  {
  }

  lemma NothingWritten(kv: KV, es: seq<Entry>)
    ensures PrefixApplied(kv, kv, es)
  {
    assert es[..0] == [];
  }

  lemma NothingStripped(kv: KV, ids: seq<string>)
    ensures Stripped(kv, ids[..0]) == kv
    ensures ids == [] ==> BulkDeleted(kv, ids) == kv
  {
    assert ids[..0] == [];
    NothingUnindexed(kv, StoredIndexKeys(kv, []));
    assert WithoutSegments(kv, []) == kv;
    assert DeleteEntries([]) == [];
  }

  lemma StrippedStep(kv: KV, ids: seq<string>, j: nat)
    requires j < |ids| && HasRecord(kv, ids[j])
    ensures Stripped(kv, ids[..j + 1])
         == WithoutPrefix(Stripped(kv, ids[..j]) - Derived(RecordOf(kv, ids[j])), SegmentPrefix(ids[j]))
  {
    UnindexedStep(kv, ids, j);
    assert forall i | 0 <= i < j :: ids[..j + 1][i] == ids[..j][i];
  }

  ghost predicate DeleteStages(start: seq<KV>, now: seq<KV>, kv: KV, ids: seq<string>) {
    start <= now && forall i | |start| <= i < |now| :: DeleteStage(kv, ids, now[i])
  }

  /** None of the first n ids is empty. */
  ghost predicate NoneEmpty(ds: seq<Download>, n: nat) {
    forall i | 0 <= i < n && i < |ds| :: ds[i].id != ""
  }

  ghost predicate AreRecords(kv: KV, ids: seq<string>, ds: seq<Download>) {
    |ds| == |ids| && forall i | 0 <= i < |ids| :: HasRecord(kv, ids[i]) && ds[i] == RecordOf(kv, ids[i]) && ds[i].id == ids[i]
  }

  /** Why reading the records to be written can fail. */
  ghost predicate ReadError(kv: KV, ids: seq<string>, e: Error) {
    e == Cancelled || (e == IdRequired && "" in ids) || (e == NotFound && !AllPresent(kv, ids))
  }

  ghost predicate UpdateStages(start: seq<KV>, now: seq<KV>, kv: KV, ds: seq<Download>, clock: Clock) {
    start <= now && forall i | |start| <= i < |now| :: UpdateStage(kv, ds, clock, now[i])
  }

  lemma BatchCommitsAreStages(start: seq<KV>, mid: seq<KV>, now: seq<KV>, kv: KV, ds: seq<Download>, clock: Clock)
    requires UpdateStages(start, mid, kv, ds, clock)
    requires NewCommits(mid, now, Unindexed(kv, Ids(ds)), BatchEntries(Restamped(kv, ds, clock)))
    ensures UpdateStages(start, now, kv, ds, clock)
  {
    forall i | |start| <= i < |now| ensures UpdateStage(kv, ds, clock, now[i]) {
      if i < |mid| { assert now[i] == mid[i]; }
    }
  }

  /** What was read before the bulk write began. */
  ghost predicate Holds(kv: KV, ds: seq<Download>, prev: map<string, Download>) {
    forall i | 0 <= i < |ds| ::
      && ds[i].id in prev && HasRecord(kv, ds[i].id)
      && prev[ds[i].id] == RecordOf(kv, ds[i].id) && prev[ds[i].id].createdAt.At?
  }

  /** The record to be written: a zero creation time keeps the one that was read. */
  function Carried(d: Download, prev: map<string, Download>, now: Nanos): Download
    requires d.id in prev
  {
    d.(createdAt := if d.createdAt.Zero? then prev[d.id].createdAt else d.createdAt, updatedAt := At(now))
  }

  ghost predicate CarriedAs(ds: seq<Download>, prev: map<string, Download>, clock: Clock, ns: seq<Download>, i: nat)
    requires i < |ds| == |ns|
  {
    ds[i].id in prev && ns[i] == Carried(ds[i], prev, clock(i)) && ns[i].createdAt.At?
  }

  lemma RestampedAt(kv: KV, ds: seq<Download>, prev: map<string, Download>, clock: Clock, i: nat)
    requires i < |ds| && Holds(kv, ds, prev)
    ensures CarriedAs(ds, prev, clock, Restamped(kv, ds, clock), i)
  {
  }

  lemma UnindexedStep(kv: KV, ids: seq<string>, j: nat)
    requires j < |ids| && HasRecord(kv, ids[j])
    ensures Unindexed(kv, ids[..j + 1]) == Unindexed(kv, ids[..j]) - Derived(RecordOf(kv, ids[j]))
  {
    assert ids[..j + 1] == ids[..j] + [ids[j]];
  }
}
