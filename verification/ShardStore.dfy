/**
 The sharded append store on disk: a shard log that is the truth, a flat cache derived from it, and
 migration in both directions. Writers run one at a time (they share one lock) and may die before any
 file operation; `history` keeps every state the disk went through, which is what a crash leaves
 behind and what lock-free readers look at.
*/
module ShardStore {
  import opened Common
  import opened ShardLog

  /** A decoded aggregate file: its entries, and every other top-level key. */
  datatype Doc = Doc(entries: seq<Entry>, rest: map<string, Json>)

  /** The flat file: missing, unreadable, an object without a list of entries, or a document. */
  datatype Cache = Absent | Unreadable | Listless | Served(doc: Doc)

  datatype Dir = Dir(meta: Option<map<string, Json>>, shards: map<nat, Entry>)

  function MetaOf(dir: Dir): map<string, Json> {
    if dir.meta.Some? then dir.meta.value else map[]
  }

  datatype Disk = Disk(dir: Option<Dir>, cache: Cache)

  ghost predicate Orderly(disk: Disk) {
    disk.dir.Some? ==> Gapless(disk.dir.value.shards)
  }

  /** The log of record: the shards once there is a shard directory, the flat file before that. */
  ghost function LogOf(disk: Disk): seq<Entry>
    requires Orderly(disk)
  {
    if disk.dir.Some? then Log(disk.dir.value.shards)
    else if disk.cache.Served? then disk.cache.doc.entries
    else []
  }

  /** The disk at one moment, with the number of entries whose append had returned by then. */
  datatype Moment = Moment(disk: Disk, acked: nat)

  /** THE INVARIANT: the cache holds a prefix of the log, and no acknowledged entry is missing from either. */
  ghost predicate Good(m: Moment) {
    && Orderly(m.disk)
    && m.acked <= |LogOf(m.disk)|
    && (m.disk.cache.Served? ==> m.disk.cache.doc.entries <= LogOf(m.disk) && m.acked <= |m.disk.cache.doc.entries|)
  }

  ghost predicate Follows(m: Moment, next: Moment) {
    Good(m) && Good(next) && LogOf(m.disk) <= LogOf(next.disk) && m.acked <= next.acked
  }

  ghost predicate Lawful(history: seq<Moment>) {
    && (forall i :: 0 <= i < |history| ==> Good(history[i]))
    && (forall i :: 0 <= i < |history| - 1 ==> Follows(history[i], history[i + 1]))
  }

  lemma LawfulStep(history: seq<Moment>, next: Moment)
    requires Lawful(history) && history != [] && Follows(history[|history| - 1], next)
    ensures Lawful(history + [next])
  {
    var more := history + [next];
    forall i | 0 <= i < |more| - 1
      ensures Follows(more[i], more[i + 1])
    {
      if i < |history| - 1 { assert more[i] == history[i] && more[i + 1] == history[i + 1]; }
    }
  }

  /** Over any stretch of a history the log only grows. */
  lemma {:induction false} LogGrows(history: seq<Moment>, i: nat, j: nat)
    requires Lawful(history) && i <= j < |history|
    ensures LogOf(history[i].disk) <= LogOf(history[j].disk) && history[i].acked <= history[j].acked
    decreases j - i
  {
    if i < j {
      assert Follows(history[i], history[i + 1]);
      LogGrows(history, i + 1, j);
    }
  }

  /**
   THE LENGTH CHECK. A cache that keeps the invariant and has as many entries as there were shards before
   the append is the log before the append, so extending it gives what a full projection would give.
  */
  lemma EqualLengthMeansEqualContent(cached: seq<Entry>, log: seq<Entry>, items: seq<Entry>, prior: nat)
    requires cached <= log && prior + |items| == |log| && log[prior..] == items
    ensures |cached| == prior ==> cached + items == log
  {
    if |cached| == prior { assert log == log[..prior] + log[prior..]; }
  }

  lemma OneMore(log: seq<Entry>, items: seq<Entry>, k: nat)
    requires k < |items|
    ensures log + items[..k + 1] == (log + items[..k]) + [items[k]]
  {
  }

  datatype Outcome = Returned | Raised | Died

  class Vault {
    var disk: Disk
    ghost var acked: nat
    ghost var history: seq<Moment>

    ghost predicate Valid()
      reads this
    {
      && history != [] && history[|history| - 1] == Moment(disk, acked)
      && Lawful(history) && Good(Moment(disk, acked))
    }

    constructor (disk: Disk, ghost acked: nat)
      requires Good(Moment(disk, acked))
      ensures Valid() && this.disk == disk && this.acked == acked && history == [Moment(disk, acked)]
    {
      this.disk := disk;
      this.acked := acked;
      history := [Moment(disk, acked)];
    }

    /** One atomic file operation, visible to readers and left behind by a crash. */
    method Commit(next: Disk)
      requires Valid() && Follows(Moment(disk, acked), Moment(next, acked))
      modifies this
      ensures Valid() && disk == next && acked == old(acked)
      ensures history == old(history) + [Moment(next, acked)]
    {
      LawfulStep(history, Moment(next, acked));
      disk := next;
      history := history + [Moment(next, acked)];
    }

    /** The moment an append returns to its caller: everything in the log is acknowledged. */
    ghost method Acknowledge()
      requires Valid() && disk.cache.Served? && disk.cache.doc.entries == LogOf(disk)
      modifies this`acked, this`history
      ensures Valid() && acked == |LogOf(disk)|
      ensures history == old(history) + [Moment(disk, acked)]
    {
      LawfulStep(history, Moment(disk, |LogOf(disk)|));
      acked := |LogOf(disk)|;
      history := history + [Moment(disk, acked)];
    }

    /**
     Publish one shard under any number; one that is already taken is a loud stop. The log stays a log exactly
     when the number was the next one, or nothing was written.
    */
    method WriteExclusive(q: nat, entry: Entry) returns (ok: bool)
      requires Valid() && disk.dir.Some?
      modifies this
      ensures acked == old(acked) && old(history) <= history && disk.cache == old(disk.cache)
      ensures ok <==> q !in old(disk.dir.value.shards)
      ensures !ok ==> disk == old(disk) && history == old(history)
      ensures ok ==> history == old(history) + [Moment(disk, acked)]
      ensures ok ==> disk.dir == Some(Dir(old(disk.dir.value.meta), old(disk.dir.value.shards)[q := entry]))
      ensures Valid() <==> !ok || q == |old(disk.dir.value.shards)|
      ensures ok && Valid() ==> LogOf(disk) == old(LogOf(disk)) + [entry] && |disk.dir.value.shards| == q + 1
    {
      var dir := disk.dir.value;
      ok := q !in dir.shards;
      if !ok {
        return;
      }
      var next := disk.(dir := Some(dir.(shards := dir.shards[q := entry])));
      if q == |dir.shards| {
        NextShardAppends(dir.shards, entry);
        Commit(next);
      } else {
        SkippingLeavesAGap(dir.shards, q, entry);
        disk := next;
        history := history + [Moment(next, acked)];
      }
    }

    method DeriveDoc(dir: Dir) returns (doc: Doc)
      requires Gapless(dir.shards)
      ensures doc == Doc(Log(dir.shards), MetaOf(dir))
    {
      var bound := NextSeq(dir.shards);
      doc := Doc(Ordered(dir.shards, bound), MetaOf(dir));
    }

    /**
     Refresh the cache after an append: extend it when its length says it is current, otherwise rebuild
     it. Either way it ends up equal to the full projection in its entries.
    */
    method RegenerateCacheLocked(items: seq<Entry>, prior: nat, budget: nat) returns (outcome: Outcome)
      requires Valid() && disk.dir.Some?
      requires prior + |items| == |LogOf(disk)| && LogOf(disk)[prior..] == items
      modifies this
      ensures Valid() && acked == old(acked) && old(history) <= history && disk.dir == old(disk.dir)
      ensures AllShow(history, |old(history)|, LogOf(disk))
      ensures outcome == if budget == 0 then Died else Returned
      ensures outcome == Died ==> disk == old(disk)
      ensures outcome == Returned ==> disk.cache.Served? && disk.cache.doc.entries == LogOf(disk)
      ensures outcome == Returned ==> disk.cache.doc.rest == RefreshedRest(old(disk), prior)
    {
      if budget == 0 {
        return Died;
      }
      var doc;
      if disk.cache.Served? && |disk.cache.doc.entries| == prior {
        EqualLengthMeansEqualContent(disk.cache.doc.entries, LogOf(disk), items, prior);
        doc := disk.cache.doc.(entries := disk.cache.doc.entries + items);
      } else {
        doc := DeriveDoc(disk.dir.value);
      }
      Commit(disk.(cache := Served(doc)));
      outcome := Returned;
    }

    /** Write the shards of one append, one file at a time. */
    method WriteShards(items: seq<Entry>, budget: nat) returns (outcome: Outcome, written: nat)
      requires Valid() && disk.dir.Some?
      modifies this
      ensures Valid() && acked == old(acked) && old(history) <= history && disk.cache == old(disk.cache)
      ensures disk.dir.Some? && disk.dir.value.meta == old(disk.dir.value.meta)
      ensures written == if budget < |items| then budget else |items|
      ensures outcome == if budget < |items| then Died else Returned
      ensures LogOf(disk) == old(LogOf(disk)) + items[..written]
    {
      ghost var log := LogOf(disk);
      var q := NextSeq(disk.dir.value.shards);
      written := 0;
      assert items[..0] == [];
      while written < |items|
        invariant Valid() && acked == old(acked) && old(history) <= history && disk.cache == old(disk.cache)
        invariant disk.dir.Some? && disk.dir.value.meta == old(disk.dir.value.meta) && q == |disk.dir.value.shards|
        invariant written <= |items| && written <= budget
        invariant LogOf(disk) == log + items[..written]
      {
        if written == budget {
          return Died, written;
        }
        var ok := WriteExclusive(q, items[written]);
        OneMore(log, items, written);
        q, written := q + 1, written + 1;
      }
      assert items[..written] == items;
      outcome := Returned;
    }

    /**
     Append under the lock. It returns only with every entry in the log and in the cache; if the process
     dies part-way, a prefix of the items is in the log and nothing already there is touched. A number
     collision never occurs.
    */
    method AppendEntry(items: seq<Entry>, budget: nat) returns (outcome: Outcome)
      requires Valid() && disk.dir.Some?
      modifies this
      ensures Valid() && old(history) <= history
      ensures disk.dir.Some? && disk.dir.value.meta == old(disk.dir.value.meta)
      ensures outcome == if budget <= |items| then Died else Returned
      ensures LogOf(disk) == old(LogOf(disk)) + items[..if budget < |items| then budget else |items|]
      ensures outcome == Died ==> acked == old(acked) && disk.cache == old(disk.cache)
      ensures outcome == Returned
          ==> disk.cache.Served? && disk.cache.doc.entries == LogOf(disk) && acked == |LogOf(disk)|
      ensures outcome == Returned ==> disk.cache.doc.rest == RefreshedRest(old(disk), |old(LogOf(disk))|)
    {
      ghost var log := LogOf(disk);
      var prior := |disk.dir.value.shards|;
      var written;
      outcome, written := WriteShards(items, budget);
      if outcome == Died {
        return;
      }
      assert LogOf(disk)[prior..] == items;
      outcome := RegenerateCacheLocked(items, prior, budget - |items|);
      if outcome == Returned {
        Acknowledge();
      }
    }

    /** A sync pull that brings the rest of a longer log, shard by shard, and then drops the cache. */
    method PullShards(remote: seq<Entry>, budget: nat) returns (outcome: Outcome)
      requires Valid() && disk.dir.Some? && LogOf(disk) <= remote
      modifies this
      ensures Valid() && acked == old(acked) && old(history) <= history && disk.dir.Some?
      ensures old(LogOf(disk)) <= LogOf(disk) <= remote
      ensures outcome == if budget <= |remote| - |old(LogOf(disk))| then Died else Returned
      ensures outcome == Returned ==> LogOf(disk) == remote && disk.cache == Absent
      ensures outcome == Died ==> LogOf(disk) == remote[..|old(LogOf(disk))| + budget] && disk.cache == old(disk.cache)
    {
      var have := |disk.dir.value.shards|;
      ghost var log := LogOf(disk);
      var written;
      outcome, written := WriteShards(remote[have..], budget);
      JoinPrefix(log, remote, written);
      if outcome == Returned {
        if budget == written {
          return Died;
        }
        Commit(disk.(cache := Absent));
      }
    }

    /** The derived cache of a sharded vault is deleted or damaged behind the writers' back. */
    method LoseCache(damaged: Cache)
      requires Valid() && disk.dir.Some? && !damaged.Served?
      modifies this
      ensures Valid() && acked == old(acked) && old(history) <= history
      ensures disk == old(disk).(cache := damaged)
    {
      Commit(disk.(cache := damaged));
    }

    /**
     Forward migration. It refuses whenever there is nothing it could convert without loss or something it
     would overwrite, and then changes nothing; otherwise the shard directory appears in one step and the
     flat file stays as it was.
    */
    method Migrate(budget: nat) returns (outcome: Migration)
      requires Valid()
      modifies this
      ensures Valid() && acked == old(acked) && old(history) <= history && LogOf(disk) == old(LogOf(disk))
      ensures AllShow(history, |old(history)|, old(LogOf(disk)))
      ensures outcome == Refused <==> !old(IsMigrated(disk)) && (old(disk.dir.Some?) || !old(disk.cache.Served?))
      ensures outcome == Refused ==> disk == old(disk)
      ensures outcome == Reconciled <==> old(IsMigrated(disk)) && budget >= 1
      ensures outcome == Reconciled ==> disk == old(Reconciliation(disk))
      ensures outcome == Migrated <==> old(disk.dir == None && disk.cache.Served?) && budget >= 2
      ensures outcome == Migrated ==> disk == Sharded(old(disk.cache).doc)
      ensures outcome == Interrupted ==>
                disk == if old(disk.dir == None) && budget == 1 then Sharded(old(disk.cache).doc) else old(disk)
      ensures outcome != Noop && outcome != Reversed
    {
      if disk.dir.Some? && disk.dir.value.meta.Some? {
        var refreshed := RegenerateCacheLocked([], |disk.dir.value.shards|, budget);
        return if refreshed == Died then Interrupted else Reconciled;
      }
      if !disk.cache.Served? {
        return Refused;
      }
      var original := disk.cache.doc;
      var staging := Dir(Some(original.rest), Numbered(original.entries));
      NumberedIsGapless(original.entries);
      var derived := DeriveDoc(staging);
      if derived != original || disk.dir.Some? {
        return Refused;
      }
      if budget == 0 {
        return Interrupted;
      }
      Commit(disk.(dir := Some(staging)));
      var refreshed := RegenerateCacheLocked([], |original.entries|, budget - 1);
      assert original.entries + [] == original.entries;
      outcome := if refreshed == Died then Interrupted else Migrated;
    }

    /**
     Reverse migration: the flat file is rebuilt and published first, then the shard directory goes. No
     moment in between shows less than the log of record.
    */
    method MigrateReverse(budget: nat) returns (outcome: Migration)
      requires Valid()
      modifies this
      ensures Valid() && acked == old(acked) && old(history) <= history && LogOf(disk) == old(LogOf(disk))
      ensures AllShow(history, |old(history)|, old(LogOf(disk)))
      ensures outcome == Noop <==> old(disk.dir) == None
      ensures outcome == Noop ==> disk == old(disk)
      ensures outcome == Reversed <==> old(disk.dir).Some? && budget >= 2
      ensures outcome == Reversed ==> disk == Disk(None, Served(Doc(old(LogOf(disk)), MetaOf(old(disk.dir).value))))
      ensures outcome == Interrupted <==> old(disk.dir).Some? && budget < 2
      ensures outcome == Interrupted ==>
                disk == if budget == 0 then old(disk) else
                        Disk(old(disk.dir), Served(Doc(old(LogOf(disk)), MetaOf(old(disk.dir).value))))
    {
      if disk.dir == None {
        return Noop;
      }
      var doc := DeriveDoc(disk.dir.value);
      if budget == 0 {
        return Interrupted;
      }
      Commit(disk.(cache := Served(doc)));
      if budget == 1 {
        return Interrupted;
      }
      Commit(disk.(dir := None));
      outcome := Reversed;
    }
  }

  /** A reader gets the whole list. */
  ghost predicate Shows(disk: Disk, log: seq<Entry>) {
    Orderly(disk) && Read(disk, disk) == Entries(log)
  }

  /** From moment `from` on, whatever the process left behind shows the whole list. */
  ghost predicate AllShow(history: seq<Moment>, from: nat, log: seq<Entry>) {
    forall i {:trigger history[i]} :: from <= i < |history| ==> Shows(history[i].disk, log)
  }

  /** A document as its own shards, with the document itself as the cache. */
  function Sharded(doc: Doc): Disk {
    Disk(Some(Dir(Some(doc.rest), Numbered(doc.entries))), Served(doc))
  }

  /** The other top-level keys of a refreshed cache: the cached ones on the fast path, however old. */
  ghost function RefreshedRest(disk: Disk, prior: nat): map<string, Json>
    requires disk.dir.Some?
  {
    if disk.cache.Served? && |disk.cache.doc.entries| == prior then disk.cache.doc.rest else MetaOf(disk.dir.value)
  }

  /** One append over a good cache with an old title: the new cache has the entry, and still the old title. */
  method AppendOverAnOldTitle(first: Entry, next: Entry) returns (cached: Doc, title: Json)
    ensures title == "new" && cached == Doc([first, next], map["title" := "old"])
  {
    var dir := Dir(Some(map["title" := "new"]), map[0 := first]);
    assert Log(dir.shards) == [first];
    var vault := new Vault(Disk(Some(dir), Served(Doc([first], map["title" := "old"]))), 1);
    var outcome := vault.AppendEntry([next], 2);
    cached, title := vault.disk.cache.doc, MetaOf(vault.disk.dir.value)["title"];
  }

  /** A sharded vault with its cache refreshed: all the entries, and the other keys as the old cache's length says. */
  ghost function Reconciliation(disk: Disk): Disk
    requires Orderly(disk) && disk.dir.Some?
  {
    disk.(cache := Served(Doc(LogOf(disk), RefreshedRest(disk, |LogOf(disk)|))))
  }

  predicate IsMigrated(disk: Disk) {
    disk.dir.Some? && disk.dir.value.meta.Some?
  }

  datatype Migration = Noop | Reconciled | Migrated | Reversed | Refused | Interrupted

  lemma JoinPrefix(log: seq<Entry>, remote: seq<Entry>, k: nat)
    requires log <= remote && k <= |remote| - |log|
    ensures log + remote[|log|..][..k] == remote[..|log| + k]
    ensures log <= log + remote[|log|..][..k] <= remote
  {
  }

  // ---- round trip ----

  function Flat(batches: seq<seq<Entry>>): seq<Entry> {
    if batches == [] then [] else Flat(batches[..|batches| - 1]) + batches[|batches| - 1]
  }

  /**
   ROUND TRIP. Shard a flat document, append any batches, go back: the result is the original document
   with exactly those entries appended in order, and every other key as it was.
  */
  method MigrateAppendReverse(vault: Vault, batches: seq<seq<Entry>>)
    requires vault.Valid() && vault.disk.dir == None && vault.disk.cache.Served?
    modifies vault
    ensures vault.Valid()
    ensures vault.disk == Disk(None, Served(Doc(old(vault.disk.cache.doc.entries) + Flat(batches),
        old(vault.disk.cache.doc.rest))))
  {
    ghost var original := vault.disk.cache.doc;
    var done := vault.Migrate(2);
    assert Flat(batches[..0]) == [] && original.entries + [] == original.entries;
    for i := 0 to |batches|
      invariant vault.Valid() && vault.disk.dir.Some? && vault.disk.dir.value.meta == Some(original.rest)
      invariant LogOf(vault.disk) == original.entries + Flat(batches[..i])
    {
      var outcome := vault.AppendEntry(batches[i], |batches[i]| + 1);
      FlatOneMore(original.entries, batches, i);
    }
    assert batches[..|batches|] == batches;
    done := vault.MigrateReverse(2);
  }

  lemma FlatOneMore(log: seq<Entry>, batches: seq<seq<Entry>>, i: nat)
    requires i < |batches|
    ensures log + Flat(batches[..i + 1]) == (log + Flat(batches[..i])) + batches[i][..|batches[i]|]
  {
    assert batches[..i + 1][..i] == batches[..i];
    assert batches[i][..|batches[i]|] == batches[i];
  }

  // ---- lock-free readers ----

  datatype ReadResult = Entries(entries: seq<Entry>) | ReadFails

  /** A reader looks at the cache first and, only when it cannot be served, at the shard directory later. */
  ghost function Read(first: Disk, second: Disk): ReadResult
    requires Orderly(second)
  {
    if first.cache.Served? then Entries(first.cache.doc.entries)
    else if second.dir.Some? then Entries(Log(second.dir.value.shards))
    else if first.cache == Absent then Entries([])
    else ReadFails
  }

  /**
   READERS. A read that began at moment i and looked at moments j and k returns a prefix of the log that
   contains every entry whose append had returned when it began, exactly when it could serve the cache,
   or the shard directory was still there, or (an absent log) nothing had been acknowledged.
  */
  lemma ReadersSeeWhatWasAcknowledged(history: seq<Moment>, i: nat, j: nat, k: nat)
    requires Lawful(history) && i <= j <= k < |history|
    ensures var r := Read(history[j].disk, history[k].disk);
            && (r.Entries? ==> r.entries <= LogOf(history[k].disk))
            && (r.Entries? && |r.entries| >= history[i].acked
                <==> || history[j].disk.cache.Served?
                     || history[k].disk.dir.Some?
                     || (history[j].disk.cache == Absent && history[i].acked == 0))
  {
    LogGrows(history, i, j);
    LogGrows(history, j, k);
  }

  /** With no writer in between the two looks, every read is right. */
  lemma UndisturbedReadIsRight(history: seq<Moment>, i: nat)
    requires Lawful(history) && i < |history|
    ensures var r := Read(history[i].disk, history[i].disk);
            && (r.Entries? ==> r.entries <= LogOf(history[i].disk) && |r.entries| >= history[i].acked)
            && (r.ReadFails? ==> history[i].disk.dir == None && LogOf(history[i].disk) == [])
  {
    ReadersSeeWhatWasAcknowledged(history, i, i, i);
  }

  /**
   The condition is needed: a reader that found no cache, and is overtaken by a reverse migration before
   it looks for the shard directory, returns an empty log, whatever the log holds.
  */
  lemma ReverseMigrationOvertakesAReader(log: seq<Entry>, meta: map<string, Json>) returns (history: seq<Moment>)
    requires log != []
    ensures Lawful(history) && |history| == 3
    ensures history[0] == Moment(Disk(Some(Dir(Some(meta), Numbered(log))), Absent), |log|)
    ensures history[1].disk == Disk(history[0].disk.dir, Served(Doc(log, meta)))
    ensures history[2].disk == Disk(None, Served(Doc(log, meta)))
    ensures Read(history[0].disk, history[2].disk) == Entries([])
  {
    NumberedIsGapless(log);
    var sharded := Some(Dir(Some(meta), Numbered(log)));
    history := [Moment(Disk(sharded, Absent), |log|),
                Moment(Disk(sharded, Served(Doc(log, meta))), |log|),
                Moment(Disk(None, Served(Doc(log, meta))), |log|)];
    assert Follows(history[0], history[1]) && Follows(history[1], history[2]);
  }
}
