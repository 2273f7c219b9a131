/** The sweep of thumbcache.go, which keeps the thumbnail cache under its size limit. */
module ThumbCache {
  import opened Common

  datatype File = File(size: nat, atime: int)

  datatype Entry = Entry(path: string, size: nat, atime: int)

  /** The files of a directory, as bytes in all. */
  ghost function Total(files: map<string, File>): nat
    decreases |files|
  {
    if files == map[] then 0
    else
      var path :| path in files;
      assert |files.Keys - {path}| < |files.Keys|;
      files[path].size + Total(files - {path})
  }

  /** Whichever file goes, the total goes down by its size. */
  lemma {:induction false} TotalWithout(files: map<string, File>, path: string)
    requires path in files
    ensures Total(files) == files[path].size + Total(files - {path})
    decreases |files|
  {
    var p :| p in files && Total(files) == files[p].size + Total(files - {p});
    if p != path {
      assert |files.Keys - {p}| < |files.Keys| && |files.Keys - {path}| < |files.Keys|;
      TotalWithout(files - {p}, path);
      TotalWithout(files - {path}, p);
      assert files - {p} - {path} == files - {path} - {p};
    }
  }

  // --- sorting ----------------------------------------------------------------------------------------

  /** The comparator subtracts access times in int64. */
  function Compare(a: Entry, b: Entry): int {
    Wrap64(a.atime - b.atime)
  }

  predicate Fits(x: int) {
    -TWO63 <= x < TWO63
  }

  /** It orders two times exactly when their difference fits. */
  lemma CompareOrders(a: Entry, b: Entry)
    requires Fits(a.atime) && Fits(b.atime)
    ensures (Compare(a, b) < 0 <==> a.atime < b.atime) && (Compare(a, b) == 0 <==> a.atime == b.atime)
            <==> Fits(a.atime - b.atime)
  {
    var x := a.atime - b.atime;
    if x < -TWO63 {
      assert (x + TWO63) % (2 * TWO63) == x + 3 * TWO63;
    } else if x >= TWO63 {
      assert (x + TWO63) % (2 * TWO63) == x - TWO63;
    }
  }

  ghost predicate Comparable(entries: seq<Entry>) {
    forall a, b :: a in entries && b in entries ==> Fits(a.atime - b.atime)
  }

  ghost predicate TimesFit(files: map<string, File>) {
    forall p, q :: p in files && q in files ==> Fits(files[p].atime - files[q].atime)
  }

  predicate OldestFirst(entries: seq<Entry>) {
    forall i, j :: 0 <= i < j < |entries| ==> entries[i].atime <= entries[j].atime
  }

  /**
   What slices.SortFunc, which is not stable, promises of its result: a permutation, and in order if the comparator is
   one.
   */
  ghost predicate IsSortOf(sorted: seq<Entry>, entries: seq<Entry>) {
    multiset(sorted) == multiset(entries) && (Comparable(entries) ==> OldestFirst(sorted))
  }

  predicate OwnPath(entries: seq<Entry>, i: nat, j: nat)
    requires i < j < |entries|
  {
    entries[i].path != entries[j].path
  }

  ghost predicate OnePerPath(entries: seq<Entry>) {
    forall i: nat, j: nat :: i < j < |entries| ==> OwnPath(entries, i, j)
  }

  predicate Backed(entries: seq<Entry>, files: map<string, File>, i: nat)
    requires i < |entries|
  {
    var e := entries[i];
    e.path in files && files[e.path] == File(e.size, e.atime)
  }

  predicate Listed(entries: seq<Entry>, files: map<string, File>, path: string)
    requires path in files
  {
    Entry(path, files[path].size, files[path].atime) in entries
  }

  /** entries is what a walk of files lists. */
  ghost predicate Lists(entries: seq<Entry>, files: map<string, File>) {
    && OnePerPath(entries)
    && (forall i: nat :: i < |entries| ==> Backed(entries, files, i))
    && (forall path :: path in files ==> Listed(entries, files, path))
  }

  lemma {:induction false} CountOne(entries: seq<Entry>, e: Entry)
    requires OnePerPath(entries)
    ensures multiset(entries)[e] <= 1
  {
    if entries != [] {
      var rest := entries[1..];
      forall i: nat, j: nat | i < j < |rest| ensures OwnPath(rest, i, j) {
        assert OwnPath(entries, i + 1, j + 1);
      }
      CountOne(rest, e);
      assert entries == [entries[0]] + rest;
      forall i: nat | i < |rest| ensures rest[i] != entries[0] {
        assert OwnPath(entries, 0, i + 1);
      }
    }
  }

  lemma TwoOf(s: seq<Entry>, i: nat, j: nat)
    requires i < j < |s| && s[i] == s[j]
    ensures multiset(s)[s[i]] >= 2
  {
    assert s == s[..j] + s[j..];
    assert multiset(s) == multiset(s[..j]) + multiset(s[j..]);
    assert s[..j][i] == s[i] && s[j..][0] == s[i];
  }

  lemma SameMembers(a: seq<Entry>, b: seq<Entry>, e: Entry)
    requires multiset(a) == multiset(b)
    ensures e in a <==> e in b
  {
    assert e in a <==> e in multiset(a);
    assert e in b <==> e in multiset(b);
  }

  lemma SortedLists(sorted: seq<Entry>, entries: seq<Entry>, files: map<string, File>)
    requires Lists(entries, files) && multiset(sorted) == multiset(entries)
    ensures Lists(sorted, files)
  {
    forall i: nat | i < |sorted| ensures Backed(sorted, files, i) {
      SameMembers(sorted, entries, sorted[i]);
      var j: nat :| j < |entries| && entries[j] == sorted[i];
      assert Backed(entries, files, j);
    }
    forall path | path in files ensures Listed(sorted, files, path) {
      assert Listed(entries, files, path);
      SameMembers(sorted, entries, Entry(path, files[path].size, files[path].atime));
    }
    forall i: nat, j: nat | i < j < |sorted| ensures OwnPath(sorted, i, j) {
      assert Backed(sorted, files, i) && Backed(sorted, files, j);
      if sorted[i] == sorted[j] {
        TwoOf(sorted, i, j);
        CountOne(entries, sorted[i]);
      }
    }
  }

  // --- the sweep ------------------------------------------------------------------------------------------

  /** The files a walk has been past. */
  function Passed(files: map<string, File>, left: map<string, File>): map<string, File> {
    files - left.Keys
  }

  lemma WalkStep(files: map<string, File>, left: map<string, File>, path: string, entries: seq<Entry>)
    requires Kept(files, left) && path in left && Lists(entries, Passed(files, left))
    ensures Lists(entries + [Entry(path, left[path].size, left[path].atime)], Passed(files, left - {path}))
  {
    var e := Entry(path, left[path].size, left[path].atime);
    var entries', passed, passed' := entries + [e], Passed(files, left), Passed(files, left - {path});
    assert passed' == passed[path := files[path]];
    forall i: nat | i < |entries'| ensures Backed(entries', passed', i) {
      assert i < |entries| ==> Backed(entries, passed, i);
    }
    forall p | p in passed' ensures Listed(entries', passed', p) {
      if p == path {
        assert entries'[|entries|] == e;
      } else {
        assert Listed(entries, passed, p);
        var i: nat :| i < |entries| && entries[i] == Entry(p, passed[p].size, passed[p].atime);
        assert entries'[i] == entries[i];
      }
    }
    forall i: nat, j: nat | i < j < |entries'| ensures OwnPath(entries', i, j) {
      assert Backed(entries, passed, i);
      assert j < |entries| ==> OwnPath(entries, i, j);
    }
  }

  /** The paths a sweep took from before to leave after. */
  function Gone(before: map<string, File>, after: map<string, File>): set<string> {
    before.Keys - after.Keys
  }

  ghost predicate Kept(before: map<string, File>, after: map<string, File>) {
    forall path :: path in after ==> path in before && after[path] == before[path]
  }

  /** Of the files that did not refuse to be removed, those that went were accessed no later than those that stayed. */
  ghost predicate OldestWent(before: map<string, File>, after: map<string, File>, refused: set<string>) {
    forall p, q :: p in Gone(before, after) && q in after && q in before && q !in refused
        ==> before[p].atime <= before[q].atime
  }

  /** Putting back the file removed last, which is as new as any of them, would exceed the limit. */
  ghost predicate NoneTooMany(before: map<string, File>, after: map<string, File>, limit: int) {
    exists last :: last in Gone(before, after) && Total(after) + before[last].size > limit
                   && forall p :: p in Gone(before, after) ==> before[p].atime <= before[last].atime
  }

  /** The first i of the sorted entries have been dealt with: those that refused stay. */
  ghost predicate Swept(before: map<string, File>, after: map<string, File>, sorted: seq<Entry>, i: nat,
                        refused: set<string>) {
    && Kept(before, after)
    && (forall j :: 0 <= j < |sorted| ==> (sorted[j].path in after <==> j >= i || sorted[j].path in refused))
    && (forall j :: i <= j < |sorted| ==> sorted[j].path !in refused)
  }

  lemma SweptNone(files: map<string, File>, sorted: seq<Entry>)
    requires Lists(sorted, files)
    ensures Swept(files, files, sorted, 0, {})
  {
    forall j: nat | j < |sorted| ensures sorted[j].path in files {
      assert Backed(sorted, files, j);
    }
  }

  lemma PlaceOf(sorted: seq<Entry>, files: map<string, File>, path: string) returns (j: nat)
    requires Lists(sorted, files) && path in files
    ensures j < |sorted| && sorted[j] == Entry(path, files[path].size, files[path].atime)
  {
    assert Listed(sorted, files, path);
    j :| 0 <= j < |sorted| && sorted[j] == Entry(path, files[path].size, files[path].atime);
  }

  lemma SweptOldest(before: map<string, File>, after: map<string, File>, sorted: seq<Entry>, i: nat,
                    refused: set<string>)
    requires Lists(sorted, before) && Swept(before, after, sorted, i, refused)
    ensures Gone(before, after) !! refused
    ensures i >= |sorted| ==> after.Keys <= refused
    ensures OldestFirst(sorted) ==> OldestWent(before, after, refused)
  {
    forall p | p in before
      ensures (p in Gone(before, after) ==> p !in refused) && (i >= |sorted| && p in after ==> p in refused)
    {
      var j := PlaceOf(sorted, before, p);
    }
    if OldestFirst(sorted) {
      forall p, q | p in Gone(before, after) && q in after && q in before && q !in refused
        ensures before[p].atime <= before[q].atime
      {
        var j := PlaceOf(sorted, before, p);
        var k := PlaceOf(sorted, before, q);
        assert j < i <= k;
      }
    }
  }

  predicate Stays(sorted: seq<Entry>, kept: map<string, File>, j: nat)
    requires j < |sorted|
  {
    sorted[j].path in kept
  }

  /** Nothing was removed between two places. */
  ghost predicate NoneSince(sorted: seq<Entry>, kept: map<string, File>, last: nat, i: nat)
    requires i <= |sorted|
  {
    forall j: nat :: last < j < i ==> Stays(sorted, kept, j)
  }

  lemma NoneMoreSince(sorted: seq<Entry>, kept: map<string, File>, last: nat, i: nat)
    requires i < |sorted| && NoneSince(sorted, kept, last, i) && sorted[i].path in kept
    ensures NoneSince(sorted, kept, last, i + 1)
  {
    assert Stays(sorted, kept, i);
  }

  /** The sweep stopped one file after the total was last over the limit. */
  lemma SweptNoneTooMany(before: map<string, File>, after: map<string, File>, sorted: seq<Entry>, i: nat, last: nat,
                         refused: set<string>, limit: int)
    requires Lists(sorted, before) && OldestFirst(sorted) && Swept(before, after, sorted, i, refused)
    requires last < i <= |sorted| && sorted[last].path !in after && Total(after) + sorted[last].size > limit
    requires NoneSince(sorted, after, last, i)
    ensures NoneTooMany(before, after, limit)
  {
    var path := sorted[last].path;
    assert path in Gone(before, after) && before[path] == File(sorted[last].size, sorted[last].atime) by {
      assert Backed(sorted, before, last);
    }
    forall p | p in Gone(before, after) ensures before[p].atime <= before[path].atime {
      var j := PlaceOf(sorted, before, p);
      assert last < j < i ==> Stays(sorted, after, j);
    }
  }

  lemma OneMoreGone(before: map<string, File>, after: map<string, File>, path: string)
    requires Kept(before, after) && path in after
    ensures |Gone(before, after - {path})| == |Gone(before, after)| + 1
  {
    assert Gone(before, after - {path}) == Gone(before, after) + {path};
  }

  lemma OwnPlace(sorted: seq<Entry>, before: map<string, File>, k: nat)
    requires Lists(sorted, before) && k < |sorted|
    ensures forall j :: 0 <= j < |sorted| && j != k ==> sorted[j].path != sorted[k].path
  {
    forall j: nat | j < |sorted| && j != k ensures sorted[j].path != sorted[k].path {
      assert if j < k then OwnPath(sorted, j, k) else OwnPath(sorted, k, j);
    }
  }

  lemma Removing(before: map<string, File>, files: map<string, File>, sorted: seq<Entry>, k: nat, refused: set<string>)
    requires Lists(sorted, before) && Swept(before, files, sorted, k, refused) && k < |sorted|
    ensures sorted[k].path in files && Total(files) == sorted[k].size + Total(files - {sorted[k].path})
    ensures Swept(before, files - {sorted[k].path}, sorted, k + 1, refused)
    ensures Gone(before, files - {sorted[k].path}) == Gone(before, files) + {sorted[k].path}
    ensures |Gone(before, files - {sorted[k].path})| == |Gone(before, files)| + 1
  {
    var path := sorted[k].path;
    assert Backed(sorted, before, k);
    TotalWithout(files, path);
    OneMoreGone(before, files, path);
    OwnPlace(sorted, before, k);
  }

  lemma Passing(before: map<string, File>, files: map<string, File>, sorted: seq<Entry>, k: nat, refused: set<string>)
    requires Lists(sorted, before) && Swept(before, files, sorted, k, refused) && k < |sorted|
    ensures Swept(before, files, sorted, k + 1, refused + {sorted[k].path}) && sorted[k].path in files
  {
    OwnPlace(sorted, before, k);
  }

  lemma ComparableEntries(entries: seq<Entry>, files: map<string, File>)
    requires Lists(entries, files)
    requires TimesFit(files)
    ensures Comparable(entries)
  {
    forall a, b | a in entries && b in entries ensures Fits(a.atime - b.atime) {
      var i: nat :| i < |entries| && entries[i] == a;
      var j: nat :| j < |entries| && entries[j] == b;
      assert Backed(entries, files, i) && Backed(entries, files, j);
    }
  }

  class ThumbnailCache {
    const maxBytes: int
    const shared: bool            // requests write and delete files while a sweep runs
    var files: map<string, File>

    constructor (maxBytes: int, shared: bool, files: map<string, File>)
      ensures this.maxBytes == maxBytes && this.shared == shared && this.files == files
    {
      this.maxBytes, this.shared, this.files := maxBytes, shared, files;
    }

    /** What others do to the directory between two steps of a sweep. */
    method Meanwhile()
      modifies this
      ensures !shared ==> files == old(files)
    {
      if shared {
        files := *;
      }
    }

    /** os.Remove: it fails for a file that is gone, and for whatever reasons removable stands for. */
    method Remove(path: string, removable: string -> bool) returns (ok: bool)
      modifies this
      ensures ok ==> removable(path) && path !in files
      ensures !shared ==>
                (ok <==> path in old(files) && removable(path))
                    && files == if ok then old(files) - {path} else old(files)
    {
      Meanwhile();
      ok := path in files && removable(path);
      if ok {
        files := files - {path};
      }
    }

    method Walk() returns (entries: seq<Entry>, total: nat)
      ensures Lists(entries, files) && total == Total(files)
    {
      entries, total := [], 0;
      var left := files;
      while left != map[]
        invariant Kept(files, left) && total + Total(left) == Total(files)
        invariant Lists(entries, Passed(files, left))
        decreases |left|
      {
        var path :| path in left;
        TotalWithout(left, path);
        WalkStep(files, left, path, entries);
        var e := Entry(path, left[path].size, left[path].atime);
        entries := entries + [e];
        total := total + e.size;
        assert |left.Keys - {path}| < |left.Keys|;
        left := left - {path};
      }
      assert Passed(files, left) == files;
    }

    /**
     Sweep. It acts on the listing its walk made, whatever has happened to the files since: gone are
     the listed files it removed and refused those it tried to remove and could not.
     */
    method Sweep(sort: seq<Entry> -> seq<Entry>, removable: string -> bool, walkFails: bool)
      returns (r: Result<(nat, nat), ()>, ghost listed: map<string, File>, ghost kept: map<string, File>,
               ghost refused: set<string>)
      requires forall s: seq<Entry> :: IsSortOf(sort(s), s)
      modifies this
      ensures walkFails <==> r.Err?
      ensures r.Err? ==> kept == listed
      ensures r.Ok? ==> r.value.0 == |Gone(listed, kept)| && Total(kept) + r.value.1 == Total(listed)
      ensures Kept(listed, kept) && Gone(listed, kept) !! refused
      ensures maxBytes <= 0 || Total(listed) <= maxBytes ==> kept == listed
      ensures r.Ok? && 0 < maxBytes < Total(kept) ==> kept.Keys <= refused
      ensures forall path :: path in Gone(listed, kept) ==> removable(path)
      ensures TimesFit(listed) ==>
                OldestWent(listed, kept, refused) && (Gone(listed, kept) != {} ==> NoneTooMany(listed, kept, maxBytes))
      ensures !shared ==> listed == old(files) && files == kept && forall path :: path in refused ==> !removable(path)
    {
      Meanwhile();
      listed, kept, refused := files, files, {};
      if walkFails {
        return Err(()), listed, kept, refused;
      }
      var entries, total := Walk();
      if maxBytes <= 0 || total <= maxBytes {
        return Ok((0, 0)), listed, kept, refused;
      }
      var sorted := sort(entries);
      assert IsSortOf(sorted, entries);
      SortedLists(sorted, entries, listed);
      var evicted, freed;
      ghost var i, last;
      evicted, freed, kept, refused, i, last := Evict(sorted, total, removable, listed);
      SweptOldest(listed, kept, sorted, i, refused);
      if TimesFit(listed) {
        ComparableEntries(entries, listed);
        if evicted > 0 {
          SweptNoneTooMany(listed, kept, sorted, i, last, refused, maxBytes);
        }
      }
      return Ok((evicted, freed)), listed, kept, refused;
    }

    method TryRemove(sorted: seq<Entry>, k: nat, removable: string -> bool,
                     ghost listed: map<string, File>, ghost kept: map<string, File>, ghost refused: set<string>)
      returns (ok: bool, ghost kept': map<string, File>, ghost refused': set<string>)
      requires k < |sorted| && Lists(sorted, listed) && Swept(listed, kept, sorted, k, refused)
               && (!shared ==> files == kept)
      modifies this
      ensures Swept(listed, kept', sorted, k + 1, refused')
      ensures ok ==>
                && sorted[k].path in kept && kept' == kept - {sorted[k].path} && refused' == refused
                && removable(sorted[k].path) && Total(kept) == sorted[k].size + Total(kept')
                && Gone(listed, kept') == Gone(listed, kept) + {sorted[k].path}
                && |Gone(listed, kept')| == |Gone(listed, kept)| + 1
      ensures !ok ==> kept' == kept && refused' == refused + {sorted[k].path} && sorted[k].path in kept
      ensures !shared ==> files == kept' && (!ok ==> !removable(sorted[k].path))
    {
      var path := sorted[k].path;
      ok := Remove(path, removable);
      if ok {
        Removing(listed, kept, sorted, k, refused);
        kept', refused' := kept - {path}, refused;
      } else {
        Passing(listed, kept, sorted, k, refused);
        kept', refused' := kept, refused + {path};
      }
    }

    /** The loop that removes; last is the latest place it removed at. */
    method Evict(sorted: seq<Entry>, sum: nat, removable: string -> bool, ghost listed: map<string, File>)
      returns (evicted: nat, freed: nat, ghost kept: map<string, File>, ghost refused: set<string>, ghost i: nat,
               ghost last: nat)
      requires Lists(sorted, listed) && sum == Total(listed) && (!shared ==> files == listed)
      modifies this
      ensures i <= |sorted| && Swept(listed, kept, sorted, i, refused)
      ensures Total(kept) > maxBytes ==> i == |sorted|
      ensures evicted == |Gone(listed, kept)| && Total(kept) + freed == Total(listed)
      ensures evicted > 0 ==>
                last < i && sorted[last].path !in kept && Total(kept) + sorted[last].size > maxBytes
                && NoneSince(sorted, kept, last, i)
      ensures forall path :: path in Gone(listed, kept) ==> removable(path)
      ensures !shared ==> files == kept && forall path :: path in refused ==> !removable(path)
    {
      var total, k := sum, 0;
      evicted, freed, last := 0, 0, 0;
      kept, refused := listed, {};
      SweptNone(listed, sorted);
      while k < |sorted|
        invariant k <= |sorted| && Swept(listed, kept, sorted, k, refused)
        invariant total == Total(kept) && total + freed == Total(listed)
        invariant evicted == |Gone(listed, kept)|
        invariant evicted > 0 ==>
                    last < k && sorted[last].path !in kept && total + sorted[last].size > maxBytes
                    && NoneSince(sorted, kept, last, k)
        invariant forall path :: path in Gone(listed, kept) ==> removable(path)
        invariant !shared ==> files == kept && forall path :: path in refused ==> !removable(path)
      {
        if total <= maxBytes {
          break;
        }
        var e := sorted[k];
        var ok;
        ok, kept, refused := TryRemove(sorted, k, removable, listed, kept, refused);
        if ok {
          total := total - e.size;
          freed := freed + e.size;
          evicted := evicted + 1;
          last := k;
        } else if evicted > 0 {
          NoneMoreSince(sorted, kept, last, k);
        }
        k := k + 1;
      }
      i := k;
    }
  }
}
