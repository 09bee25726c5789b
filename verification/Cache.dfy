/**
 A node's two-tier chunk cache: an in-memory list in recency order over a
 size-bounded directory of files.
 */
module Cache {
  import opened Bytes
  import opened Volumes

  datatype MemoryChunk = MemoryChunk(id: ChunkId, data: Bytes)
  datatype DiskFile = DiskFile(data: Bytes, modTime: int)

  // ----- The recency list -----

  function ListBytes(l: seq<MemoryChunk>): nat {
    if l == [] then 0 else |l[0].data| + ListBytes(l[1..])
  }

  predicate NoDuplicates(l: seq<MemoryChunk>) {
    forall i, j :: 0 <= i < j < |l| ==> l[i].id != l[j].id
  }

  /** The index of a list: each chunk under its own id. */
  function ItemsOf(l: seq<MemoryChunk>): map<ChunkId, MemoryChunk> {
    if l == [] then map[] else ItemsOf(l[1..])[l[0].id := l[0]]
  }

  /** The map and the list hold the same chunks, each under its own id, once. */
  predicate Bijection(l: seq<MemoryChunk>, items: map<ChunkId, MemoryChunk>) {
    NoDuplicates(l) && items == ItemsOf(l)
  }

  /** The list without the chunk `id`, the others in their order. */
  function Without(l: seq<MemoryChunk>, id: ChunkId): seq<MemoryChunk> {
    if l == [] then []
    else if l[0].id == id then l[1..]
    else [l[0]] + Without(l[1..], id)
  }

  /** The longest prefix that fits in `max` bytes. */
  function Fitting(l: seq<MemoryChunk>, max: int): seq<MemoryChunk> {
    if l == [] || ListBytes(l) <= max then l else Fitting(l[..|l| - 1], max)
  }

  /** The list after a chunk was put: in front if it can fit at all, and cut to what fits. */
  function Fronted(l: seq<MemoryChunk>, chunk: MemoryChunk, max: int): seq<MemoryChunk> {
    if max <= 0 || |chunk.data| > max then l else Fitting([chunk] + Without(l, chunk.id), max)
  }

  /**
   Spelled out: every listed chunk is indexed, every indexed chunk is listed,
   and there are as many of one as of the other.
   */
  lemma {:induction false} BijectionMeaning(l: seq<MemoryChunk>, items: map<ChunkId, MemoryChunk>)
    requires Bijection(l, items)
    ensures forall i :: 0 <= i < |l| ==> l[i].id in items && items[l[i].id] == l[i]
    ensures forall id :: id in items ==> items[id].id == id && items[id] in l
    ensures |items| == |l|
  {
    if l != [] {
      BijectionMeaning(l[1..], ItemsOf(l[1..]));
      forall id | id in items && id != l[0].id
        ensures items[id] in l
      {
        assert items[id] in l[1..];
      }
    }
  }

  lemma IndexOfList(l: seq<MemoryChunk>, items: map<ChunkId, MemoryChunk>)
    requires Bijection(l, items)
    ensures items == ItemsOf(l)
  {
  }

  lemma IndexOf(l: seq<MemoryChunk>, items: map<ChunkId, MemoryChunk>, id: ChunkId) returns (i: nat)
    requires Bijection(l, items) && id in items
    ensures i < |l| && l[i] == items[id] && l[i].id == id
  {
    BijectionMeaning(l, items);
    i :| 0 <= i < |l| && l[i] == items[id];
  }

  lemma {:induction false} WithoutAt(l: seq<MemoryChunk>, id: ChunkId, i: nat)
    requires NoDuplicates(l) && i < |l| && l[i].id == id
    ensures Without(l, id) == l[..i] + l[i + 1..]
  {
    if i > 0 {
      var tail := l[1..];
      assert tail[i - 1] == l[i];
      WithoutAt(tail, id, i - 1);
      assert [l[0]] + (tail[..i - 1] + tail[i..]) == l[..i] + l[i + 1..];
    }
  }

  lemma {:induction false} WithoutFacts(l: seq<MemoryChunk>, id: ChunkId, i: nat)
    requires NoDuplicates(l) && i < |l| && l[i].id == id
    ensures ListBytes(Without(l, id)) == ListBytes(l) - |l[i].data|
    ensures ItemsOf(Without(l, id)) == ItemsOf(l) - {id}
  {
    var tail := l[1..];
    if i > 0 {
      assert tail[i - 1] == l[i];
      WithoutFacts(tail, id, i - 1);
      assert ([l[0]] + Without(tail, id))[1..] == Without(tail, id);
      assert ItemsOf(l) - {id} == (ItemsOf(tail) - {id})[l[0].id := l[0]];
    } else {
      NotIndexed(tail, id);
      assert ItemsOf(l) - {id} == ItemsOf(tail);
    }
  }

  lemma {:induction false} NotIndexed(l: seq<MemoryChunk>, id: ChunkId)
    requires forall i :: 0 <= i < |l| ==> l[i].id != id
    ensures id !in ItemsOf(l)
  {
    if l != [] {
      NotIndexed(l[1..], id);
    }
  }

  lemma WithoutAbsent(l: seq<MemoryChunk>, id: ChunkId)
    requires Bijection(l, ItemsOf(l)) && id !in ItemsOf(l)
    ensures Without(l, id) == l
  {
    BijectionMeaning(l, ItemsOf(l));
    WithoutNone(l, id);
  }

  lemma {:induction false} WithoutNone(l: seq<MemoryChunk>, id: ChunkId)
    requires forall i :: 0 <= i < |l| ==> l[i].id != id
    ensures Without(l, id) == l
  {
    if l != [] {
      WithoutNone(l[1..], id);
    }
  }

  /** Putting a chunk in front, in place of any chunk of that id, keeps map and list in step. */
  lemma FrontFacts(l: seq<MemoryChunk>, items: map<ChunkId, MemoryChunk>, chunk: MemoryChunk)
    requires Bijection(l, items)
    ensures Bijection([chunk] + Without(l, chunk.id), items[chunk.id := chunk])
    ensures ListBytes([chunk] + Without(l, chunk.id))
         == ListBytes(l) + |chunk.data| - (if chunk.id in items then |items[chunk.id].data| else 0)
  {
    hide ItemsOf, ListBytes, Without, NoDuplicates;
    FrontUnfold(chunk, Without(l, chunk.id));
    if chunk.id in items {
      var i := IndexOf(l, items, chunk.id);
      WithoutFacts(l, chunk.id, i);
      WithoutAt(l, chunk.id, i);
      FrontDistinct(l, chunk, i);
      assert items[chunk.id := chunk] == (items - {chunk.id})[chunk.id := chunk];
    } else {
      WithoutAbsent(l, chunk.id);
      NewInFront(l, items, chunk);
    }
  }

  lemma FrontUnfold(chunk: MemoryChunk, rest: seq<MemoryChunk>)
    ensures ItemsOf([chunk] + rest) == ItemsOf(rest)[chunk.id := chunk]
    ensures ListBytes([chunk] + rest) == |chunk.data| + ListBytes(rest)
  {
    assert ([chunk] + rest)[1..] == rest;
  }

  lemma NewInFront(l: seq<MemoryChunk>, items: map<ChunkId, MemoryChunk>, chunk: MemoryChunk)
    requires Bijection(l, items) && chunk.id !in items
    ensures NoDuplicates([chunk] + l)
  {
    hide ItemsOf;
    BijectionMeaning(l, items);
    assert forall k :: 1 <= k < |l| + 1 ==> ([chunk] + l)[k] == l[k - 1];
  }

  lemma FrontDistinct(l: seq<MemoryChunk>, chunk: MemoryChunk, i: nat)
    requires NoDuplicates(l) && i < |l| && l[i].id == chunk.id
    ensures NoDuplicates([chunk] + (l[..i] + l[i + 1..]))
  {
    var r := [chunk] + (l[..i] + l[i + 1..]);
    assert forall k :: 1 <= k < |r| ==> r[k] == if k - 1 < i then l[k - 1] else l[k];
  }

  lemma {:induction false} BackRemoved(l: seq<MemoryChunk>, n: nat)
    requires NoDuplicates(l) && n + 1 == |l|
    ensures Bijection(l[..n], ItemsOf(l) - {l[n].id})
    ensures ListBytes(l[..n]) == ListBytes(l) - |l[n].data|
  {
    if n > 0 {
      BackRemoved(l[1..], n - 1);
      assert l[1..][..n - 1] == l[..n][1..];
      assert ItemsOf(l) - {l[n].id} == (ItemsOf(l[1..]) - {l[n].id})[l[0].id := l[0]];
    } else {
      assert l[..n] == [] && l[1..] == [];
    }
  }

  /** Eviction keeps a prefix, it fits, and every longer prefix would not. */
  lemma {:induction false} FittingIsLongest(l: seq<MemoryChunk>, max: int, n: nat)
    requires max >= 0 && n <= |l|
    ensures Fitting(l, max) <= l
    ensures ListBytes(Fitting(l, max)) <= max
    ensures n > |Fitting(l, max)| <==> ListBytes(l[..n]) > max
  {
    if l == [] || ListBytes(l) <= max {
      PrefixBytes(l, n);
      assert l[..|l|] == l;
    } else {
      var m := |l| - 1;
      FittingIsLongest(l[..m], max, if n <= m then n else m);
      if n <= m {
        assert l[..m][..n] == l[..n];
      } else {
        assert l[..n] == l;
      }
    }
  }

  lemma {:induction false} PrefixBytes(l: seq<MemoryChunk>, n: nat)
    requires n <= |l|
    ensures ListBytes(l[..n]) <= ListBytes(l)
  {
    if n > 0 {
      assert l[..n][1..] == l[1..][..n - 1];
      PrefixBytes(l[1..], n - 1);
    }
  }

  /** A chunk that fits on its own survives at the front. */
  lemma FittingKeepsFront(l: seq<MemoryChunk>, max: int)
    requires l != [] && |l[0].data| <= max
    ensures Fitting(l, max) != [] && Fitting(l, max)[0] == l[0]
  {
    assert l[..1][1..] == [];
    assert ListBytes(l[..1]) == |l[0].data| + ListBytes(l[..1][1..]);
    FittingIsLongest(l, max, 1);
  }

  /** `rest` is the list less the chunk `id`: the same if it is not there, else with that place cut out. */
  ghost predicate Less(l: seq<MemoryChunk>, id: ChunkId, rest: seq<MemoryChunk>) {
    || (rest == l && forall i :: 0 <= i < |l| ==> l[i].id != id)
    || exists i :: 0 <= i < |l| && l[i].id == id && rest == l[..i] + l[i + 1..]
  }

  lemma WithoutMeaning(l: seq<MemoryChunk>, id: ChunkId)
    requires NoDuplicates(l)
    ensures Less(l, id, Without(l, id))
  {
    hide Without, NoDuplicates;
    if i :| 0 <= i < |l| && l[i].id == id {
      WithoutAt(l, id, i);
    } else {
      WithoutNone(l, id);
    }
  }

  /**
   What a put leaves of the recency list: the chunk in front, then the old list
   less that id, in its order, as far as it fits and no less far.
   */
  ghost predicate Recent(before: seq<MemoryChunk>, chunk: MemoryChunk, max: int, after: seq<MemoryChunk>) {
    exists rest :: Less(before, chunk.id, rest) && LongestFit([chunk] + rest, max, after)
  }

  /** `after` is the longest prefix of `l` that fits. */
  ghost predicate LongestFit(l: seq<MemoryChunk>, max: int, after: seq<MemoryChunk>) {
    && after <= l && ListBytes(after) <= max
    && (forall n :: |after| < n <= |l| ==> ListBytes(l[..n]) > max)
  }

  lemma FittingFits(l: seq<MemoryChunk>, max: int)
    requires max >= 0
    ensures LongestFit(l, max, Fitting(l, max))
  {
    hide ListBytes, Fitting;
    FittingIsLongest(l, max, 0);
    forall n | |Fitting(l, max)| < n <= |l|
      ensures ListBytes(l[..n]) > max
    {
      FittingIsLongest(l, max, n);
    }
  }

  lemma FrontedMeaning(l: seq<MemoryChunk>, items: map<ChunkId, MemoryChunk>, chunk: MemoryChunk, max: int)
    requires Bijection(l, items)
    ensures max <= 0 || |chunk.data| > max ==> Fronted(l, chunk, max) == l
    ensures 0 < max && |chunk.data| <= max ==> Recent(l, chunk, max, Fronted(l, chunk, max))
    ensures 0 < max && ListBytes(l) + |chunk.data| <= max ==>
              ItemsOf(Fronted(l, chunk, max)) == items[chunk.id := chunk]
  {
    hide Without, ListBytes, ItemsOf, Fitting, NoDuplicates, Less;
    if 0 < max && |chunk.data| <= max {
      var rest := Without(l, chunk.id);
      var all := [chunk] + rest;
      WithoutMeaning(l, chunk.id);
      FrontFacts(l, items, chunk);
      var after := Fitting(all, max);
      FittingFits(all, max);
      if ListBytes(l) + |chunk.data| <= max {
        FittingIsLongest(all, max, |all|);
        assert all[..|all|] == all && after == all[..|after|];
      }
    }
  }

  // ----- Sizes of file sets -----

  ghost function TotalBytes(m: map<ChunkId, Bytes>): nat {
    if m == map[] then 0
    else
      var id :| id in m;
      |m[id]| + TotalBytes(m - {id})
  }

  lemma {:induction false} TotalRemove(m: map<ChunkId, Bytes>, id: ChunkId)
    requires id in m
    ensures TotalBytes(m) == |m[id]| + TotalBytes(m - {id})
    decreases |m|
  {
    var pick :| pick in m && TotalBytes(m) == |m[pick]| + TotalBytes(m - {pick});
    if pick != id {
      TotalRemove(m - {pick}, id);
      TotalRemove(m - {id}, pick);
      assert m - {pick} - {id} == m - {id} - {pick};
    }
  }

  lemma {:induction false} TotalSubmap(m: map<ChunkId, Bytes>, n: map<ChunkId, Bytes>)
    requires forall id :: id in m ==> id in n && n[id] == m[id]
    ensures TotalBytes(m) <= TotalBytes(n)
    decreases |m|
  {
    if m != map[] {
      var id :| id in m;
      TotalRemove(m, id);
      TotalRemove(n, id);
      TotalSubmap(m - {id}, n - {id});
    }
  }

  function Data(disk: map<ChunkId, DiskFile>): map<ChunkId, Bytes> {
    map id | id in disk :: disk[id].data
  }

  // ----- Eviction order on disk -----

  /** `order` lists the files, oldest first; files of equal age come in any order. */
  ghost predicate OldestFirst(order: seq<ChunkId>, disk: map<ChunkId, DiskFile>) {
    && (forall id :: id in order <==> id in disk)
    && (forall i, j :: 0 <= i < j < |order| ==> order[i] != order[j])
    && (forall i, j :: 0 <= i < j < |order| ==>
          order[i] in disk && order[j] in disk && disk[order[i]].modTime <= disk[order[j]].modTime)
  }

  /** `last` was the youngest file removed, and with it the rest would not fit. */
  ghost predicate NeededToGo(before: map<ChunkId, DiskFile>, after: map<ChunkId, DiskFile>, max: int, last: ChunkId) {
    && last in before && last !in after
    && TotalBytes(Data(after)) + |before[last].data| > max
    && (forall gone :: gone in before && gone !in after ==> before[gone].modTime <= before[last].modTime)
  }

  /**
   Only files were removed, the kept ones fit, no kept file is older than a
   removed one, and the last removal was needed.
   */
  ghost predicate EvictedOldest(before: map<ChunkId, DiskFile>, after: map<ChunkId, DiskFile>, max: int) {
    && (forall id :: id in after ==> id in before && after[id] == before[id])
    && TotalBytes(Data(after)) <= max
    && (forall gone, kept :: gone in before && gone !in after && kept in after ==>
          before[gone].modTime <= before[kept].modTime)
    && (before == after || exists last :: NeededToGo(before, after, max, last))
  }

  /** What a listing of the cache directory shows: chunk files, and the directory that holds the sessions' overlays. */
  datatype Entry = ChunkFile(id: ChunkId) | Directory(name: string)

  /** A file that may be evicted. */
  datatype Item = Item(entry: Entry, size: nat, modTime: int)

  function ItemOf(disk: map<ChunkId, DiskFile>, id: ChunkId): Item
    requires id in disk
  {
    Item(ChunkFile(id), |disk[id].data|, disk[id].modTime)
  }

  /** Each entry of the directory once, in any order. */
  ghost predicate Listing(entries: seq<Entry>, disk: map<ChunkId, DiskFile>, directories: set<string>) {
    && (forall i, j :: 0 <= i < j < |entries| ==> entries[i] != entries[j])
    && (forall id :: ChunkFile(id) in entries <==> id in disk)
    && (forall name :: Directory(name) in entries <==> name in directories)
  }

  /** The items are the files `ids`, with their sizes and times. */
  ghost predicate Itemised(items: seq<Item>, ids: seq<ChunkId>, disk: map<ChunkId, DiskFile>) {
    && |items| == |ids|
    && (forall i :: 0 <= i < |ids| ==> ids[i] in disk && items[i] == ItemOf(disk, ids[i]))
    && (forall i, j :: 0 <= i < j < |ids| ==> ids[i] != ids[j])
  }

  method OldestItem(among: set<Item>) returns (oldest: Item)
    requires among != {}
    ensures oldest in among
    ensures forall it :: it in among ==> oldest.modTime <= it.modTime
  {
    oldest :| oldest in among;
    var rest := among - {oldest};
    while rest != {}
      invariant oldest in among && rest <= among
      invariant forall it :: it in among && it !in rest ==> oldest.modTime <= it.modTime
      decreases |rest|
    {
      var it :| it in rest;
      if it.modTime < oldest.modTime {
        oldest := it;
      }
      rest := rest - {it};
    }
  }

  /** `rest` holds exactly the items of the files not in `done`. */
  ghost predicate Remaining(rest: set<Item>, done: seq<ChunkId>, disk: map<ChunkId, DiskFile>) {
    && (forall it :: it in rest ==>
          it.entry.ChunkFile? && it.entry.id in disk && it == ItemOf(disk, it.entry.id) && it.entry.id !in done)
    && (forall id :: id in disk && id !in done ==> ItemOf(disk, id) in rest)
  }

  /** `order` has been taken from the items, oldest first, and `rest` is still to come. */
  ghost predicate Sorting(order: seq<Item>, sorted: seq<ChunkId>, rest: set<Item>, disk: map<ChunkId, DiskFile>) {
    && Itemised(order, sorted, disk) && Remaining(rest, sorted, disk)
    && (forall i, j :: 0 <= i < j < |order| ==> order[i].modTime <= order[j].modTime)
    && (forall i, it :: 0 <= i < |order| && it in rest ==> order[i].modTime <= it.modTime)
  }

  lemma SortingStarts(items: seq<Item>, ids: seq<ChunkId>, rest: set<Item>, disk: map<ChunkId, DiskFile>)
    requires Itemised(items, ids, disk) && forall id :: id in disk ==> id in ids
    requires forall it :: it in rest <==> it in items
    ensures Sorting([], [], rest, disk)
  {
    forall id | id in disk
      ensures ItemOf(disk, id) in rest
    {
      assert id in ids;
      var i :| 0 <= i < |ids| && ids[i] == id;
      assert items[i] in items;
    }
  }

  lemma SortingRound(order: seq<Item>, sorted: seq<ChunkId>, rest: set<Item>, disk: map<ChunkId, DiskFile>, it: Item)
    requires Sorting(order, sorted, rest, disk) && it in rest
    requires forall other :: other in rest ==> it.modTime <= other.modTime
    ensures it.entry.ChunkFile? && Sorting(order + [it], sorted + [it.entry.id], rest - {it}, disk)
  {
    StillRemaining(rest, sorted, disk, it);
    hide Remaining;
    assert it.entry.id !in sorted;
  }

  lemma StillRemaining(rest: set<Item>, done: seq<ChunkId>, disk: map<ChunkId, DiskFile>, it: Item)
    requires Remaining(rest, done, disk) && it in rest
    ensures it.entry.ChunkFile? && it.entry.id in disk && it.entry.id !in done && it == ItemOf(disk, it.entry.id)
    ensures Remaining(rest - {it}, done + [it.entry.id], disk)
  {
  }

  /** Sorts the items of a directory by time, oldest first. */
  method SortByModTime(items: seq<Item>, ghost ids: seq<ChunkId>, ghost disk: map<ChunkId, DiskFile>)
    returns (order: seq<Item>, ghost sorted: seq<ChunkId>)
    requires Itemised(items, ids, disk) && forall id :: id in disk ==> id in ids
    ensures forall it :: it in order <==> it in items
    ensures forall i, j :: 0 <= i < j < |order| ==> order[i] != order[j] && order[i].modTime <= order[j].modTime
    ensures Itemised(order, sorted, disk) && OldestFirst(sorted, disk)
  {
    hide Itemised, Sorting, OldestFirst;
    order, sorted := [], [];
    var rest := set it | it in items;
    SortingStarts(items, ids, rest, disk);
    while rest != {}
      invariant Sorting(order, sorted, rest, disk)
      decreases |rest|
    {
      var it := OldestItem(rest);
      SortingRound(order, sorted, rest, disk, it);
      order, sorted := order + [it], sorted + [it.entry.id];
      rest := rest - {it};
    }
    SortedItems(order, sorted, disk);
    SameItems(items, ids, order, sorted, disk);
  }

  /** Two itemisations of all files have the same items. */
  lemma SameItems(items: seq<Item>, ids: seq<ChunkId>, order: seq<Item>, sorted: seq<ChunkId>,
                  disk: map<ChunkId, DiskFile>)
    requires Itemised(items, ids, disk) && forall id :: id in disk ==> id in ids
    requires Itemised(order, sorted, disk) && forall id :: id in disk ==> id in sorted
    ensures forall it :: it in order <==> it in items
  {
    forall it
      ensures it in order <==> it in items
    {
      if it in order {
        FoundAmong(order, sorted, items, ids, disk, it);
      }
      if it in items {
        FoundAmong(items, ids, order, sorted, disk, it);
      }
    }
  }

  lemma FoundAmong(items: seq<Item>, ids: seq<ChunkId>, others: seq<Item>, otherIds: seq<ChunkId>,
                   disk: map<ChunkId, DiskFile>, it: Item)
    requires Itemised(items, ids, disk) && it in items
    requires Itemised(others, otherIds, disk) && forall id :: id in disk ==> id in otherIds
    ensures it in others
  {
    var i :| 0 <= i < |items| && items[i] == it;
    assert ids[i] in otherIds;
    var j :| 0 <= j < |otherIds| && otherIds[j] == ids[i];
    assert others[j] == it;
  }

  lemma SortedItems(order: seq<Item>, ids: seq<ChunkId>, disk: map<ChunkId, DiskFile>)
    requires Sorting(order, ids, {}, disk)
    ensures Itemised(order, ids, disk) && OldestFirst(ids, disk)
    ensures forall id :: id in disk ==> id in ids
    ensures forall i, j :: 0 <= i < j < |order| ==> order[i] != order[j] && order[i].modTime <= order[j].modTime
  {
    forall i, j | 0 <= i < j < |ids|
      ensures disk[ids[i]].modTime <= disk[ids[j]].modTime
    {
      assert order[i] == ItemOf(disk, ids[i]) && order[j] == ItemOf(disk, ids[j]);
    }
  }

  lemma TotalAdd(files: map<ChunkId, DiskFile>, id: ChunkId, file: DiskFile)
    requires id !in files
    ensures TotalBytes(Data(files[id := file])) == TotalBytes(Data(files)) + |file.data|
  {
    TotalRemove(Data(files[id := file]), id);
    assert Data(files[id := file]) - {id} == Data(files);
  }

  lemma TakeNext(order: seq<ChunkId>, k: nat)
    requires k < |order| && forall i, j :: 0 <= i < j < |order| ==> order[i] != order[j]
    ensures order[k] !in order[..k]
    ensures forall id :: id in order[..k + 1] <==> id in order[..k] || id == order[k]
  {
    assert order[..k + 1] == order[..k] + [order[k]];
  }

  /** The listing has been gone through up to `k`: `items` are its files so far, `seen` their contents. */
  ghost predicate ListedTo(disk: map<ChunkId, DiskFile>, entries: seq<Entry>, k: nat,
                           items: seq<Item>, ids: seq<ChunkId>, seen: map<ChunkId, DiskFile>)
    requires k <= |entries|
  {
    && Itemised(items, ids, disk)
    && (forall id :: id in ids <==> ChunkFile(id) in entries[..k])
    && (forall id :: id in seen <==> id in ids)
    && (forall id :: id in seen ==> id in disk && seen[id] == disk[id])
  }

  /** A directory is passed over. */
  lemma PassDirectory(disk: map<ChunkId, DiskFile>, directories: set<string>, entries: seq<Entry>, k: nat,
                      items: seq<Item>, ids: seq<ChunkId>, seen: map<ChunkId, DiskFile>)
    requires k < |entries| && ListedTo(disk, entries, k, items, ids, seen) && entries[k].Directory?
    ensures ListedTo(disk, entries, k + 1, items, ids, seen)
  {
    assert entries[..k + 1] == entries[..k] + [entries[k]];
  }

  /** A file is taken up. */
  lemma TakeFile(disk: map<ChunkId, DiskFile>, directories: set<string>, entries: seq<Entry>, k: nat,
                 items: seq<Item>, ids: seq<ChunkId>, seen: map<ChunkId, DiskFile>, id: ChunkId)
    requires Listing(entries, disk, directories)
    requires k < |entries| && ListedTo(disk, entries, k, items, ids, seen) && entries[k] == ChunkFile(id)
    ensures id in disk && id !in seen
    ensures ListedTo(disk, entries, k + 1, items + [ItemOf(disk, id)], ids + [id], seen[id := disk[id]])
    ensures TotalBytes(Data(seen[id := disk[id]])) == TotalBytes(Data(seen)) + |disk[id].data|
  {
    hide Data, TotalBytes;
    assert entries[..k + 1] == entries[..k] + [entries[k]];
    assert ChunkFile(id) in entries;
    assert ChunkFile(id) !in entries[..k];
    TotalAdd(seen, id, disk[id]);
  }

  /** Goes through a listing: directories are passed over, files are taken up and their sizes added. */
  method ListFiles(disk: map<ChunkId, DiskFile>, ghost directories: set<string>, entries: seq<Entry>)
    returns (items: seq<Item>, total: nat, ghost ids: seq<ChunkId>)
    requires Listing(entries, disk, directories)
    ensures Itemised(items, ids, disk) && forall id :: id in disk ==> id in ids
    ensures total == TotalBytes(Data(disk))
  {
    hide Itemised, Data, TotalBytes, ItemOf;
    items, total, ids := [], 0, [];
    ghost var seen: map<ChunkId, DiskFile> := map[];
    NothingListed(disk, entries);
    var k := 0;
    while k < |entries|
      invariant 0 <= k <= |entries|
      invariant ListedTo(disk, entries, k, items, ids, seen)
      invariant total == TotalBytes(Data(seen))
    {
      var entry := entries[k];
      if entry.Directory? {
        PassDirectory(disk, directories, entries, k, items, ids, seen);
        k := k + 1;
        continue;
      }
      TakeFile(disk, directories, entries, k, items, ids, seen, entry.id);
      items, ids, seen := items + [ItemOf(disk, entry.id)], ids + [entry.id], seen[entry.id := disk[entry.id]];
      total := total + |disk[entry.id].data|;
      k := k + 1;
    }
    assert entries[..k] == entries;
    assert seen == disk;
  }

  lemma NothingListed(disk: map<ChunkId, DiskFile>, entries: seq<Entry>)
    ensures ListedTo(disk, entries, 0, [], [], map[]) && TotalBytes(Data(map[])) == 0
  {
    assert entries[..0] == [];
    assert Data(map[]) == map[];
  }

  /** What is left after removing the first `k` files of the listing. */
  ghost predicate RemovedFirst(before: map<ChunkId, DiskFile>, after: map<ChunkId, DiskFile>, order: seq<ChunkId>,
                               k: nat)
    requires k <= |order|
  {
    && (forall id :: id in after <==> id in before && id !in order[..k])
    && (forall id :: id in after ==> after[id] == before[id])
  }

  lemma RemoveNext(before: map<ChunkId, DiskFile>, after: map<ChunkId, DiskFile>, order: seq<ChunkId>, k: nat)
    requires OldestFirst(order, before) && k < |order| && RemovedFirst(before, after, order, k)
    ensures order[k] in after && after[order[k]] == before[order[k]]
    ensures RemovedFirst(before, after - {order[k]}, order, k + 1)
    ensures TotalBytes(Data(after)) == |before[order[k]].data| + TotalBytes(Data(after - {order[k]}))
  {
    hide Data, TotalBytes;
    var id := order[k];
    TakeNext(order, k);
    assert id in order;
    TotalDrop(after, id);
  }

  lemma TotalDrop(files: map<ChunkId, DiskFile>, id: ChunkId)
    requires id in files
    ensures TotalBytes(Data(files)) == |files[id].data| + TotalBytes(Data(files - {id}))
  {
    TotalRemove(Data(files), id);
    assert Data(files) - {id} == Data(files - {id});
  }

  lemma RemovedEnough(before: map<ChunkId, DiskFile>, after: map<ChunkId, DiskFile>, order: seq<ChunkId>, k: nat,
                      max: int)
    requires OldestFirst(order, before) && k <= |order| && RemovedFirst(before, after, order, k)
    requires k == |order| || TotalBytes(Data(after)) <= max
    requires k > 0 ==> order[k - 1] in before && TotalBytes(Data(after)) + |before[order[k - 1]].data| > max
    requires max >= 0
    ensures EvictedOldest(before, after, max)
  {
    hide Data, TotalBytes, OldestFirst, RemovedFirst, NeededToGo;
    if k == |order| {
      AllRemoved(before, after, order);
    }
    RemovalOrder(before, after, order, k);
    if k > 0 {
      LastRemoved(before, after, order, k, max);
    } else {
      NoneRemoved(before, after, order);
    }
  }

  lemma AllRemoved(before: map<ChunkId, DiskFile>, after: map<ChunkId, DiskFile>, order: seq<ChunkId>)
    requires OldestFirst(order, before) && RemovedFirst(before, after, order, |order|)
    ensures TotalBytes(Data(after)) == 0
  {
    assert order[..|order|] == order;
    assert after == map[];
    assert Data(after) == map[];
  }

  lemma NoneRemoved(before: map<ChunkId, DiskFile>, after: map<ChunkId, DiskFile>, order: seq<ChunkId>)
    requires RemovedFirst(before, after, order, 0)
    ensures before == after
  {
    assert order[..0] == [];
  }

  /** Files are removed from the front of the listing and kept at its back. */
  lemma RemovalOrder(before: map<ChunkId, DiskFile>, after: map<ChunkId, DiskFile>, order: seq<ChunkId>, k: nat)
    requires OldestFirst(order, before) && k <= |order| && RemovedFirst(before, after, order, k)
    ensures forall id :: id in after ==> id in before && after[id] == before[id]
    ensures forall gone, kept :: gone in before && gone !in after && kept in after ==>
              before[gone].modTime <= before[kept].modTime
  {
    forall gone, kept | gone in before && gone !in after && kept in after
      ensures before[gone].modTime <= before[kept].modTime
    {
      assert gone in order[..k] && kept in order && kept !in order[..k];
      var i :| 0 <= i < k && order[i] == gone;
      var j :| 0 <= j < |order| && order[j] == kept;
      assert forall m :: 0 <= m < k ==> order[m] in order[..k];
    }
  }

  lemma LastRemoved(before: map<ChunkId, DiskFile>, after: map<ChunkId, DiskFile>, order: seq<ChunkId>, k: nat,
                    max: int)
    requires OldestFirst(order, before) && 0 < k <= |order| && RemovedFirst(before, after, order, k)
    requires order[k - 1] in before && TotalBytes(Data(after)) + |before[order[k - 1]].data| > max
    ensures NeededToGo(before, after, max, order[k - 1])
  {
    hide Data, TotalBytes;
    var last := order[k - 1];
    assert order[..k][k - 1] == last;
    forall gone | gone in before && gone !in after
      ensures before[gone].modTime <= before[last].modTime
    {
      assert gone in order[..k];
      var i :| 0 <= i < k && order[i] == gone;
    }
  }

  /** Eviction after `k` removals, `total` bytes being left. */
  ghost predicate Evicting(before: map<ChunkId, DiskFile>, after: map<ChunkId, DiskFile>, order: seq<ChunkId>, k: nat,
                           total: int, max: int)
  {
    && k <= |order| && OldestFirst(order, before) && RemovedFirst(before, after, order, k)
    && total == TotalBytes(Data(after)) && |after| + k == |before|
    && (if k == 0 then after == before
        else && TotalBytes(Data(before)) > max
             && order[k - 1] in before && total + |before[order[k - 1]].data| > max)
  }

  lemma EvictionStarts(before: map<ChunkId, DiskFile>, order: seq<ChunkId>, total: int, max: int)
    requires OldestFirst(order, before) && total == TotalBytes(Data(before))
    ensures Evicting(before, before, order, 0, total, max)
  {
    hide OldestFirst, TotalBytes, Data;
    assert order[..0] == [];
  }

  lemma SameLength(items: seq<Item>, ids: seq<ChunkId>, disk: map<ChunkId, DiskFile>)
    requires Itemised(items, ids, disk)
    ensures |items| == |ids|
  {
  }

  lemma ItemAt(items: seq<Item>, ids: seq<ChunkId>, disk: map<ChunkId, DiskFile>, k: nat)
    requires Itemised(items, ids, disk) && k < |ids|
    ensures |items| == |ids| && ids[k] in disk
    ensures items[k].entry == ChunkFile(ids[k]) && items[k].size == |disk[ids[k]].data|
  {
  }

  /** One round: the next file in order is there, and its removal is needed. */
  lemma EvictionRound(before: map<ChunkId, DiskFile>, after: map<ChunkId, DiskFile>, order: seq<ChunkId>, k: nat,
                      total: int, max: int)
    requires Evicting(before, after, order, k, total, max) && k < |order| && total > max
    ensures order[k] in after && order[k] in before && after[order[k]] == before[order[k]]
    ensures Evicting(before, after - {order[k]}, order, k + 1, total - |before[order[k]].data|, max)
  {
    hide OldestFirst, RemovedFirst, TotalBytes, Data;
    RemoveNext(before, after, order, k);
    FirstInOrder(before, order, k);
  }

  lemma FirstInOrder(disk: map<ChunkId, DiskFile>, order: seq<ChunkId>, k: nat)
    requires OldestFirst(order, disk) && k < |order|
    ensures order[k] in disk
  {
    assert order[k] in order;
  }

  lemma EvictionEnds(before: map<ChunkId, DiskFile>, after: map<ChunkId, DiskFile>, order: seq<ChunkId>, k: nat,
                     total: int, max: int)
    requires Evicting(before, after, order, k, total, max) && (k == |order| || total <= max) && max >= 0
    ensures EvictedOldest(before, after, max)
  {
    hide OldestFirst, RemovedFirst, TotalBytes, Data, EvictedOldest;
    RemovedEnough(before, after, order, k, max);
  }

  /** Even if it is broken off, only files are gone, each counted, and none if there was room. */
  lemma EvictionKeeps(before: map<ChunkId, DiskFile>, after: map<ChunkId, DiskFile>, order: seq<ChunkId>, k: nat,
                      total: int, max: int)
    requires Evicting(before, after, order, k, total, max)
    ensures forall id :: id in after ==> id in before && after[id] == before[id]
    ensures |before| - |after| == k
    ensures TotalBytes(Data(before)) <= max ==> after == before && k == 0
  {
    hide OldestFirst, TotalBytes, Data;
  }

  /**
   Every entry, in either tier, is the chunk its id names; and a cache large
   enough for all it was ever given has thrown none of it away.
   */
  ghost predicate CoherentState(ever: map<ChunkId, Bytes>, items: map<ChunkId, MemoryChunk>,
                                disk: map<ChunkId, DiskFile>,
                                evicted: nat, maxSize: int)
  {
    && (forall id :: id in ever ==> HashChunk(ever[id]) == id)
    && (forall id :: id in items ==> id in ever && ever[id] == items[id].data)
    && (forall id :: id in disk ==> id in ever && ever[id] == disk[id].data)
    && (TotalBytes(ever) <= maxSize ==> evicted == 0 && disk.Keys == ever.Keys)
  }

  /** A chunk arrives under its own hash and files are evicted only for lack of room. */
  lemma PutCoherent(ever: map<ChunkId, Bytes>, items: map<ChunkId, MemoryChunk>, disk: map<ChunkId, DiskFile>,
                    evicted: nat,
                    maxSize: int, id: ChunkId, file: DiskFile,
                    items': map<ChunkId, MemoryChunk>, disk': map<ChunkId, DiskFile>, evicted': nat)
    requires CoherentState(ever, items, disk, evicted, maxSize) && HashChunk(file.data) == id
    requires forall j :: j in items' ==>
              (j == id && items'[j].data == file.data) || (j in items && items'[j] == items[j])
    requires forall j :: j in disk' ==> j in disk[id := file] && disk'[j] == disk[id := file][j]
    requires TotalBytes(Data(disk[id := file])) <= maxSize ==> disk' == disk[id := file] && evicted' == evicted
    ensures CoherentState(ever[id := file.data], items', disk', evicted', maxSize)
  {
    hide TotalBytes, Data, HashChunk;
    if id in ever {
      HashInjective(ever[id], file.data);
    }
    TotalSubmap(ever, ever[id := file.data]);
    DataWithin(disk[id := file], ever[id := file.data]);
  }

  /** Looking a chunk up moves it up and touches its file, and every entry stays true. */
  lemma LookupCoherent(ever: map<ChunkId, Bytes>, items: map<ChunkId, MemoryChunk>, disk: map<ChunkId, DiskFile>,
                       evicted: nat,
                       maxSize: int, items': map<ChunkId, MemoryChunk>, disk': map<ChunkId, DiskFile>)
    requires CoherentState(ever, items, disk, evicted, maxSize)
    requires forall j :: j in items' ==>
               (j in items && items'[j] == items[j]) || (j in disk && items'[j].data == disk[j].data)
    requires Data(disk') == Data(disk)
    ensures CoherentState(ever, items', disk', evicted, maxSize)
  {
    hide TotalBytes;
    assert disk'.Keys == Data(disk').Keys && disk.Keys == Data(disk).Keys;
    assert forall j :: j in disk' ==> disk'[j].data == Data(disk')[j] && disk[j].data == Data(disk)[j];
  }

  /** With room for everything, what is in neither tier was never put. */
  lemma NeverPut(ever: map<ChunkId, Bytes>, items: map<ChunkId, MemoryChunk>, disk: map<ChunkId, DiskFile>,
                 evicted: nat,
                 maxSize: int, id: ChunkId)
    requires CoherentState(ever, items, disk, evicted, maxSize) && TotalBytes(ever) <= maxSize && id !in disk
    ensures id !in ever
  {
    hide TotalBytes;
    assert id !in disk.Keys;
  }

  lemma DataWithin(disk: map<ChunkId, DiskFile>, ever: map<ChunkId, Bytes>)
    requires forall j :: j in disk ==> j in ever && ever[j] == disk[j].data
    ensures TotalBytes(Data(disk)) <= TotalBytes(ever)
  {
    TotalSubmap(Data(disk), ever);
  }

  class LocalCache {
    const maxSize: int
    const memoryMax: int
    /** Whether file operations on this node never fail. */
    const reliable: bool

    var evicted: nat
    var memoryBytes: int
    var memoryEvict: nat
    var memoryList: seq<MemoryChunk>
    var memoryItems: map<ChunkId, MemoryChunk>
    var disk: map<ChunkId, DiskFile>
    /** The directories beside the chunk files, by name, with the files in them; the overlays of sessions are in one. */
    var directories: map<string, map<string, Bytes>>

    /** Every chunk this cache has ever been given. */
    ghost var everPut: map<ChunkId, Bytes>

    ghost predicate Valid()
      reads this
    {
      && maxSize > 0
      && Bijection(memoryList, memoryItems)
      && memoryBytes == ListBytes(memoryList)
      && (if memoryMax > 0 then memoryBytes <= memoryMax else memoryList == [])
    }

    ghost predicate Coherent()
      reads this
    {
      CoherentState(everPut, memoryItems, disk, evicted, maxSize)
    }

    /** What a lookup of `id` finds: memory first, then disk. */
    ghost function Lookup(id: ChunkId): Option<Bytes>
      reads this
    {
      if id in memoryItems then Some(memoryItems[id].data)
      else if id in disk then Some(disk[id].data)
      else None
    }

    /** Opens a cache over a directory that may already hold chunk files. */
    constructor (maxSize: int, memoryMax: int, reliable: bool, found: map<ChunkId, DiskFile>,
                 directories: map<string, map<string, Bytes>>)
      ensures Valid() && this.directories == directories
      ensures this.maxSize == (if maxSize <= 0 then 512 * 1024 * 1024 else maxSize)
      ensures this.memoryMax == memoryMax && this.reliable == reliable
      ensures disk == found && memoryList == [] && evicted == 0
      ensures everPut == Data(found)
      ensures (forall id :: id in found ==> HashChunk(found[id].data) == id) ==> Coherent()
    {
      this.maxSize := if maxSize <= 0 then 512 * 1024 * 1024 else maxSize;
      this.memoryMax := memoryMax;
      this.reliable := reliable;
      evicted, memoryBytes, memoryEvict := 0, 0, 0;
      memoryList, memoryItems, disk, this.directories := [], map[], found, directories;
      everPut := Data(found);
    }

    // ----- Memory tier -----

    /** Moves the chunk to the front of the list. */
    method MoveToFront(id: ChunkId)
      requires Valid() && id in memoryItems
      modifies this`memoryList
      ensures Valid()
      ensures memoryList == [memoryItems[id]] + Without(old(memoryList), id)
    {
      hide Bijection, ListBytes, Without;
      ghost var i := IndexOf(memoryList, memoryItems, id);
      FrontFacts(memoryList, memoryItems, memoryItems[id]);
      assert memoryItems[id := memoryItems[id]] == memoryItems;
      memoryList := [memoryItems[id]] + Without(memoryList, id);
    }

    method GetMemory(id: ChunkId) returns (r: Option<Bytes>)
      requires Valid()
      modifies this`memoryList
      ensures Valid()
      ensures r == if id in memoryItems then Some(memoryItems[id].data) else None
      ensures memoryList == if id in memoryItems then [memoryItems[id]] + Without(old(memoryList), id)
                            else old(memoryList)
    {
      if id !in memoryItems {
        return None;
      }
      MoveToFront(id);
      r := Some(memoryItems[id].data);
    }

    method GetMemoryRange(id: ChunkId, offset: nat, length: nat) returns (r: Option<Bytes>)
      requires Valid()
      modifies this`memoryList
      ensures Valid()
      ensures r == if id in memoryItems then Some(PaddedSlice(memoryItems[id].data, offset, length)) else None
      ensures memoryList == if id in memoryItems then [memoryItems[id]] + Without(old(memoryList), id)
                            else old(memoryList)
    {
      if id !in memoryItems {
        return None;
      }
      MoveToFront(id);
      var data := memoryItems[id].data;
      var out := Zeros(length);
      if offset < |data| {
        var part := data[offset..Min(offset + length, |data|)];
        out := part + out[|part|..];
      }
      assert out == PaddedSlice(data, offset, length);
      r := Some(out);
    }

    /** Drops chunks from the back until the rest fits. */
    method EvictMemoryLocked()
      requires Bijection(memoryList, memoryItems) && memoryBytes == ListBytes(memoryList)
      modifies this`memoryList, this`memoryItems, this`memoryBytes, this`memoryEvict
      ensures Bijection(memoryList, memoryItems) && memoryBytes == ListBytes(memoryList)
      ensures memoryList == Fitting(old(memoryList), memoryMax)
      ensures forall id :: id in memoryItems ==> id in old(memoryItems) && memoryItems[id] == old(memoryItems)[id]
      ensures memoryEvict == old(memoryEvict) + |old(memoryList)| - |memoryList|
    {
      while memoryBytes > memoryMax
        invariant Bijection(memoryList, memoryItems) && memoryBytes == ListBytes(memoryList)
        invariant Fitting(memoryList, memoryMax) == Fitting(old(memoryList), memoryMax)
        invariant forall id :: id in memoryItems ==> id in old(memoryItems) && memoryItems[id] == old(memoryItems)[id]
        invariant memoryEvict == old(memoryEvict) + |old(memoryList)| - |memoryList|
        decreases |memoryList|
      {
        if memoryList == [] {
          return;
        }
        var n := |memoryList| - 1;
        var chunk := memoryList[n];
        BackRemoved(memoryList, n);
        memoryItems := memoryItems - {chunk.id};
        memoryList := memoryList[..n];
        memoryBytes := memoryBytes - |chunk.data|;
        memoryEvict := memoryEvict + 1;
      }
    }

    /** Puts a chunk at the front and drops from the back what no longer fits; a chunk that cannot fit is not kept. */
    method PutMemoryLocked(id: ChunkId, b: Bytes)
      requires Valid()
      modifies this`memoryList, this`memoryItems, this`memoryBytes, this`memoryEvict
      ensures Valid()
      ensures memoryList == Fronted(old(memoryList), MemoryChunk(id, b), memoryMax)
      ensures memoryMax > 0 && |b| <= memoryMax ==> memoryList != [] && memoryList[0] == MemoryChunk(id, b)
      ensures forall j :: j in memoryItems ==>
                || (j == id && memoryItems[j].data == b)
                || (j in old(memoryItems) && memoryItems[j] == old(memoryItems)[j])
      ensures if memoryMax <= 0 || |b| > memoryMax then memoryList == old(memoryList) && memoryEvict == old(memoryEvict)
              else && Recent(old(memoryList), MemoryChunk(id, b), memoryMax, memoryList)
                   && memoryEvict == old(memoryEvict) + |old(memoryItems)[id := MemoryChunk(id, b)]| - |memoryList|
      ensures memoryMax > 0 && old(memoryBytes) + |b| <= memoryMax ==>
                memoryItems == old(memoryItems)[id := MemoryChunk(id, b)]
    {
      hide Bijection, ListBytes, Without, Fitting, Recent, ItemsOf;
      var chunk := MemoryChunk(id, b);
      FrontedMeaning(memoryList, memoryItems, chunk, memoryMax);
      if memoryMax <= 0 || |b| > memoryMax {
        return;
      }
      FrontFacts(memoryList, memoryItems, chunk);
      if id in memoryItems {
        memoryBytes := memoryBytes - |memoryItems[id].data|;
      }
      memoryBytes := memoryBytes + |b|;
      memoryList := [chunk] + Without(memoryList, id);
      memoryItems := memoryItems[id := chunk];
      FittingKeepsFront(memoryList, memoryMax);
      FittingIsLongest(memoryList, memoryMax, 0);
      BijectionMeaning(memoryList, memoryItems);
      EvictMemoryLocked();
      IndexOfList(memoryList, memoryItems);
    }

    // ----- Both tiers -----

    /** Sets the file's time; a failure to do so is ignored. */
    method Touch(id: ChunkId, now: int)
      requires id in disk
      modifies this`disk
      ensures disk == old(disk)[id := DiskFile(old(disk)[id].data, now)] || (!reliable && disk == old(disk))
    {
      var fails := OperationFails(reliable);
      if !fails {
        disk := disk[id := DiskFile(disk[id].data, now)];
      }
    }

    method Get(id: ChunkId, now: int) returns (r: Result<Option<Bytes>>)
      requires Valid()
      modifies this
      ensures Valid() && (old(Coherent()) ==> Coherent())
      ensures r.Ok? ==> r.value == old(Lookup(id)) && (r.value.None? ==> Lookup(id).None?)
      ensures r.Err? ==> r.error == Io
      ensures reliable ==> r.Ok?
      ensures everPut == old(everPut) && Data(disk) == old(Data(disk)) && evicted == old(evicted)
      ensures directories == old(directories)
      ensures memoryList == if id in old(memoryItems) then [old(memoryItems)[id]] + Without(old(memoryList), id)
                            else if r.Ok? && r.value.Some?
                            then Fronted(old(memoryList), MemoryChunk(id, r.value.value), memoryMax)
                            else old(memoryList)
      ensures r.Ok? && r.value.Some? && id !in old(memoryItems) && 0 < memoryMax && |r.value.value| <= memoryMax ==>
                Recent(old(memoryList), MemoryChunk(id, r.value.value), memoryMax, memoryList)
      ensures reliable && r.value.Some? && id !in old(memoryItems) ==>
                disk == old(disk)[id := DiskFile(r.value.value, now)]
      ensures forall j :: j in disk && (j != id || id in old(memoryItems)) ==> j in old(disk) && disk[j] == old(disk)[j]
    {
      hide Bijection, ListBytes, Without, Fitting, Fronted, CoherentState, Recent;
      var hit := GetMemory(id);
      if hit.Some? {
        return Ok(hit);
      }
      var fails := OperationFails(reliable);
      if fails {
        return Err(Io);
      }
      if id !in disk {
        return Ok(None);
      }
      var b := disk[id].data;
      Touch(id, now);
      PutMemoryLocked(id, b);
      if old(Coherent()) {
        LookupCoherent(everPut, old(memoryItems), old(disk), evicted, maxSize, memoryItems, disk);
      }
      r := Ok(Some(b));
    }

    /** The zero-padded slice of what `Get` returns, whichever tier answers. */
    method GetRange(id: ChunkId, offset: nat, length: nat, now: int) returns (r: Result<Option<Bytes>>)
      requires Valid()
      modifies this
      ensures Valid() && (old(Coherent()) ==> Coherent())
      ensures r.Ok? ==> r.value == (match old(Lookup(id))
                                    case None => None
                                    case Some(b) => Some(PaddedSlice(b, offset, length)))
      ensures r.Ok? && r.value.None? ==> Lookup(id).None?
      ensures r.Err? ==> r.error == Io
      ensures reliable ==> r.Ok?
      ensures everPut == old(everPut) && Data(disk) == old(Data(disk)) && evicted == old(evicted)
      ensures directories == old(directories)
      ensures memoryList == if id in old(memoryItems) then [old(memoryItems)[id]] + Without(old(memoryList), id)
                            else old(memoryList)
      ensures reliable && r.value.Some? && id !in old(memoryItems) ==>
                disk == old(disk)[id := DiskFile(old(disk)[id].data, now)]
      ensures forall j :: j in disk && (j != id || id in old(memoryItems)) ==> j in old(disk) && disk[j] == old(disk)[j]
    {
      hide Bijection, ListBytes, Without, Fitting, CoherentState;
      var hit := GetMemoryRange(id, offset, length);
      if hit.Some? {
        return Ok(hit);
      }
      var fails := OperationFails(reliable);
      if fails {
        return Err(Io);
      }
      if id !in disk {
        return Ok(None);
      }
      var b := disk[id].data;
      Touch(id, now);
      if old(Coherent()) {
        LookupCoherent(everPut, memoryItems, old(disk), evicted, maxSize, memoryItems, disk);
      }
      r := Ok(Some(PaddedSlice(b, offset, length)));
    }

    /**
     Stores a chunk. It may fail before anything changed, or after the file was
     put in place while making room; either way no entry is ever wrong.
     */
    method Put(id: ChunkId, b: Bytes, now: int) returns (r: Result<()>)
      requires Valid()
      modifies this
      ensures Valid() && (old(Coherent()) && HashChunk(b) == id ==> Coherent())
      ensures r.Ok? ==> EvictedOldest(old(disk)[id := DiskFile(b, now)], disk, maxSize)
      ensures directories == old(directories)
      ensures r.Ok? ==> memoryList == Fronted(old(memoryList), MemoryChunk(id, b), memoryMax)
      ensures r.Ok? && 0 < memoryMax && |b| <= memoryMax ==>
                Recent(old(memoryList), MemoryChunk(id, b), memoryMax, memoryList)
      ensures r.Ok? && memoryMax > 0 && old(memoryBytes) + |b| <= memoryMax ==>
                memoryItems == old(memoryItems)[id := MemoryChunk(id, b)]
      ensures r.Ok? ==> evicted == old(evicted) + |old(disk)[id := DiskFile(b, now)]| - |disk|
      ensures r.Ok? ==> everPut == old(everPut)[id := b]
      ensures r.Err? ==> everPut == old(everPut) || everPut == old(everPut)[id := b]
      ensures reliable ==> r.Ok?
    {
      hide Bijection, ListBytes, Without, Fitting, Fronted, EvictedOldest, CoherentState, Recent;
      var fails := OperationFails(reliable);
      if fails {
        return Err(Io);
      }
      disk := disk[id := DiskFile(b, now)];
      PutMemoryLocked(id, b);
      r := EvictLocked();
      if old(Coherent()) && HashChunk(b) == id {
        PutCoherent(everPut, old(memoryItems), old(disk), old(evicted), maxSize, id, DiskFile(b, now),
                    memoryItems, disk, evicted);
      }
      everPut := everPut[id := b];
    }

    /** Lists the cache directory, in any order. */
    method ReadDir() returns (entries: seq<Entry>)
      ensures Listing(entries, disk, directories.Keys)
    {
      entries := [];
      var files, names := disk.Keys, directories.Keys;
      while files != {}
        invariant files <= disk.Keys
        invariant forall i, j :: 0 <= i < j < |entries| ==> entries[i] != entries[j]
        invariant forall e :: e in entries <==> e.ChunkFile? && e.id in disk && e.id !in files
        decreases |files|
      {
        var id :| id in files;
        entries, files := entries + [ChunkFile(id)], files - {id};
      }
      while names != {}
        invariant names <= directories.Keys
        invariant forall i, j :: 0 <= i < j < |entries| ==> entries[i] != entries[j]
        invariant forall e :: e in entries <==>
                    if e.ChunkFile? then e.id in disk else e.name in directories && e.name !in names
        decreases |names|
      {
        var name :| name in names;
        entries, names := entries + [Directory(name)], names - {name};
      }
    }

    /** Removes a file, or an empty directory. */
    method Remove(entry: Entry) returns (r: Result<()>)
      modifies this`disk, this`directories
      ensures entry.ChunkFile? ==>
                directories == old(directories) && disk == if r.Ok? then old(disk) - {entry.id} else old(disk)
      ensures entry.Directory? ==> disk == old(disk)
      ensures entry.Directory? && r.Ok? ==> directories == old(directories) - {entry.name}
      ensures r.Err? ==> directories == old(directories)
      ensures reliable && entry.ChunkFile? ==> r.Ok?
    {
      var fails := OperationFails(reliable);
      if fails || (entry.Directory? && entry.name in directories && directories[entry.name] != map[]) {
        return Err(Io);
      }
      match entry {
        case ChunkFile(id) => disk := disk - {id};
        case Directory(name) => directories := directories - {name};
      }
      r := Ok(());
    }

    /** Removes oldest files until the rest fits. Directories are not touched. */
    method EvictLocked() returns (r: Result<()>)
      requires maxSize >= 0
      modifies this`disk, this`directories, this`evicted
      ensures directories == old(directories)
      ensures forall id :: id in disk ==> id in old(disk) && disk[id] == old(disk)[id]
      ensures r.Ok? ==> EvictedOldest(old(disk), disk, maxSize)
      ensures TotalBytes(Data(old(disk))) <= maxSize ==> disk == old(disk) && evicted == old(evicted)
      ensures evicted - old(evicted) == |old(disk)| - |disk|
      ensures reliable ==> r.Ok?
    {
      hide EvictedOldest, TotalBytes, Data, Evicting, OldestFirst, Listing, Itemised;
      var fails := OperationFails(reliable);
      if fails {
        return Err(Io);
      }
      var entries := ReadDir();
      var items, total;
      ghost var ids, sorted;
      items, total, ids := ListFiles(disk, directories.Keys, entries);
      var order;
      order, sorted := SortByModTime(items, ids, disk);
      ghost var before, start := disk, evicted;
      EvictionStarts(before, sorted, total, maxSize);
      SameLength(order, sorted, before);
      var k := 0;
      while k < |order| && total > maxSize
        invariant 0 <= k <= |order| == |sorted|
        invariant Evicting(before, disk, sorted, k, total, maxSize)
        invariant directories == old(directories) && evicted == start + k
      {
        ItemAt(order, sorted, before, k);
        EvictionRound(before, disk, sorted, k, total, maxSize);
        EvictionKeeps(before, disk, sorted, k, total, maxSize);
        var removed := Remove(order[k].entry);
        if removed.Err? {
          return Err(Io);
        }
        total := total - order[k].size;
        evicted := evicted + 1;
        k := k + 1;
      }
      EvictionKeeps(before, disk, sorted, k, total, maxSize);
      EvictionEnds(before, disk, sorted, k, total, maxSize);
      r := Ok(());
    }
  }
}
