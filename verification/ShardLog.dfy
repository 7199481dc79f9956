/**
 The shard log of an append aggregate: one immutable file per entry, named by its sequence number, and
 the projection that folds the files back into the list of entries.
*/
module ShardLog {
  import opened Common
  import opened Decimal

  type Entry = string
  type Json = string

  // ---- file names ----

  function ShardName(q: nat): string {
    Padded(q, 6) + ".json"
  }

  /** The sequence number a file name stands for, or None for a foreign name. */
  function ParseSeq(name: string): Option<nat> {
    if |name| > 5 && name[|name| - 5..] == ".json" && forall i :: 0 <= i < |name| - 5 ==> IsDigit(name[i]) then
      Some(Value(name[..|name| - 5]))
    else None
  }

  /** Names are injective whatever their width: the number is read back from the name it was given. */
  lemma NameRoundTrip(q: nat)
    ensures ParseSeq(ShardName(q)) == Some(q)
  {
    var name, stem := ShardName(q), Padded(q, 6);
    assert name[..|name| - 5] == stem && name[|name| - 5..] == ".json";
    ValueOfPadded(q, 6);
  }

  /** The names that are a number: digits at any width, and the ending. Everything else is foreign. */
  lemma ReadsExactly(name: string, stem: string)
    requires name == stem + ".json"
    ensures ParseSeq(name).Some? <==> stem != "" && AllDigits(stem)
    ensures ParseSeq(name).Some? ==> ParseSeq(name).value == Value(stem)
  {
    assert name[..|name| - 5] == stem && name[|name| - 5..] == ".json";
    assert forall i :: 0 <= i < |stem| ==> name[i] == stem[i];
  }

  lemma OnlyNamesWithTheEnding(name: string) returns (stem: string)
    requires ParseSeq(name).Some?
    ensures name == stem + ".json"
  {
    stem := name[..|name| - 5];
  }

  // ---- logs by sequence number ----

  ghost predicate Gapless(shards: map<nat, Entry>) {
    forall q: nat :: q in shards <==> q < |shards|
  }

  /** The entries below `bound` in sequence order. */
  function Ordered(shards: map<nat, Entry>, bound: nat): (entries: seq<Entry>)
    ensures |entries| <= bound
  {
    if bound == 0 then []
    else Ordered(shards, bound - 1) + (if bound - 1 in shards then [shards[bound - 1]] else [])
  }

  lemma {:induction false} OrderedIgnoresTheBound(shards: map<nat, Entry>, low: nat, high: nat)
    requires low <= high && forall q: nat :: q in shards ==> q < low
    ensures Ordered(shards, low) == Ordered(shards, high)
    decreases high
  {
    if low < high {
      OrderedIgnoresTheBound(shards, low, high - 1);
    }
  }

  /** The log of a gapless directory. */
  ghost function Log(shards: map<nat, Entry>): (entries: seq<Entry>)
    requires Gapless(shards)
    ensures |entries| == |shards|
    ensures forall q: nat :: q < |shards| ==> entries[q] == shards[q]
  {
    OrderedPrefix(shards, |shards|);
    Ordered(shards, |shards|)
  }

  lemma {:induction false} OrderedPrefix(shards: map<nat, Entry>, bound: nat)
    requires Gapless(shards) && bound <= |shards|
    ensures |Ordered(shards, bound)| == bound
    ensures forall q: nat :: q < bound ==> Ordered(shards, bound)[q] == shards[q]
  {
    if bound > 0 {
      OrderedPrefix(shards, bound - 1);
    }
  }

  /** Writing the next shard appends its entry to the log. */
  lemma NextShardAppends(shards: map<nat, Entry>, entry: Entry)
    requires Gapless(shards)
    ensures Gapless(shards[|shards| := entry])
    ensures Log(shards[|shards| := entry]) == Log(shards) + [entry]
  {
  }

  /** Writing any later number leaves a gap. */
  lemma SkippingLeavesAGap(shards: map<nat, Entry>, q: nat, entry: Entry)
    requires Gapless(shards) && q !in shards && q != |shards|
    ensures !Gapless(shards[q := entry])
  {
    assert shards[q := entry].Keys == shards.Keys + {q};
    assert |shards| !in shards && |shards| !in shards[q := entry];
  }

  /** A log written out as numbered shards. */
  function Numbered(entries: seq<Entry>): (shards: map<nat, Entry>)
    ensures forall q: nat :: q in shards <==> q < |entries|
    ensures forall q: nat :: q < |entries| ==> shards[q] == entries[q]
  {
    map q: nat | q < |entries| :: entries[q]
  }

  lemma {:induction false} NumberedIsGapless(entries: seq<Entry>)
    ensures Gapless(Numbered(entries)) && Log(Numbered(entries)) == entries
  {
    if entries == [] {
      assert Numbered(entries) == map[];
    } else {
      var init := entries[..|entries| - 1];
      NumberedIsGapless(init);
      assert Numbered(entries) == Numbered(init)[|init| := entries[|init|]];
      NextShardAppends(Numbered(init), entries[|init|]);
    }
  }

  // ---- the projection over real directory listings ----

  datatype Content = Torn | Json(entry: Entry)

  /** Every file is a readable, numbered shard, and no two files carry the same number. */
  ghost predicate Sound(files: map<string, Content>) {
    && (forall name :: name in files ==> ParseSeq(name).Some? && files[name].Json?)
    && (forall a, b :: a in files && b in files && a != b ==> ParseSeq(a) != ParseSeq(b))
  }

  /** `shards` holds exactly the entries of `files`, and `owner` tells which file each number comes from. */
  ghost predicate Projects(files: map<string, Content>, shards: map<nat, Entry>, owner: map<nat, string>) {
    && (forall name :: name in files ==> NumberedIn(name, files[name], shards, owner))
    && (forall q :: q in shards ==> q in owner && owner[q] in files && ParseSeq(owner[q]) == Some(q))
  }

  ghost predicate NumberedIn(name: string, content: Content, shards: map<nat, Entry>, owner: map<nat, string>) {
    var q := ParseSeq(name);
    q.Some? && q.value in shards && content == Json(shards[q.value]) && q.value in owner && owner[q.value] == name
  }

  /** One more than the highest number present, 0 for an empty directory. */
  method NextSeq(shards: map<nat, Entry>) returns (next: nat)
    ensures forall q :: q in shards ==> q < next
    ensures next == 0 || next - 1 in shards
    ensures Gapless(shards) ==> next == |shards|
  {
    next := 0;
    var left := shards.Keys;
    while left != {}
      invariant left <= shards.Keys
      invariant forall q :: q in shards && q !in left ==> q < next
      invariant next == 0 || next - 1 in shards
      decreases |left|
    {
      var q :| q in left;
      next := if q + 1 > next then q + 1 else next;
      left := left - {q};
    }
    assert Gapless(shards) && next < |shards| ==> next in shards;
  }

  /** The entries of `shards` by ascending number, whatever bound is put on the numbers. */
  ghost predicate InOrder(entries: seq<Entry>, shards: map<nat, Entry>) {
    forall bound: nat :: (forall q :: q in shards ==> q < bound) ==> entries == Ordered(shards, bound)
  }

  lemma AnyBoundWillDo(shards: map<nat, Entry>, next: nat)
    requires forall q :: q in shards ==> q < next
    requires next == 0 || next - 1 in shards
    ensures InOrder(Ordered(shards, next), shards)
  {
    forall bound: nat | forall q :: q in shards ==> q < bound
      ensures Ordered(shards, next) == Ordered(shards, bound)
    {
      if next <= bound {
        OrderedIgnoresTheBound(shards, next, bound);
      } else {
        assert false;
      }
    }
  }

  ghost predicate Within(seen: map<string, Content>, files: map<string, Content>) {
    seen.Keys <= files.Keys && forall name :: name in seen ==> seen[name] == files[name]
  }

  /** Take one more file into the fold, or stop where it makes the listing unsound. */
  method FoldOne(files: map<string, Content>, found: map<nat, Entry>, name: string,
                 ghost seen: map<string, Content>, ghost owner: map<nat, string>)
      returns (more: Option<map<nat, Entry>>, ghost owners: map<nat, string>)
    requires name in files && name !in seen && Within(seen, files)
    requires Projects(seen, found, owner)
    ensures more == None ==> !Sound(files)
    ensures more.Some? ==> Projects(seen[name := files[name]], more.value, owners)
  {
    var q := ParseSeq(name);
    owners := owner;
    if q == None || files[name].Torn? {
      return None, owner;
    }
    if q.value in found {
      return None, owner;
    }
    more, owners := Some(found[q.value := files[name].entry]), owner[q.value := name];
  }

  method FoldAll(files: map<string, Content>) returns (found: Option<map<nat, Entry>>, ghost owner: map<nat, string>)
    ensures found == None ==> !Sound(files)
    ensures found.Some? ==> Projects(files, found.value, owner)
  {
    found, owner := Some(map[]), map[];
    var left := files.Keys;
    ghost var seen: map<string, Content> := map[];
    while left != {}
      invariant left <= files.Keys && seen.Keys == files.Keys - left && Within(seen, files)
      invariant found.Some? && Projects(seen, found.value, owner)
      decreases |left|
    {
      var name :| name in left;
      left := left - {name};
      found, owner := FoldOne(files, found.value, name, seen, owner);
      if found == None {
        return;
      }
      seen := seen[name := files[name]];
    }
  }

  /**
   Folding a listing: fail closed on a foreign name, a torn file or a duplicate number, and otherwise
   return every entry once, ordered by number.
  */
  method Derive(files: map<string, Content>) returns (r: Result<seq<Entry>>, ghost shards: map<nat, Entry>,
                ghost owner: map<nat, string>)
    ensures r.Ok? <==> Sound(files)
    ensures r.Ok? ==> Projects(files, shards, owner) && InOrder(r.value, shards)
  {
    shards := map[];
    var found;
    found, owner := FoldAll(files);
    if found == None {
      return Err, shards, owner;
    }
    shards := found.value;
    var bound := NextSeq(found.value);
    AnyBoundWillDo(found.value, bound);
    r := Ok(Ordered(found.value, bound));
  }
}
