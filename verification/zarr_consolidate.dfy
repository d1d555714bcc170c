/**
 * Zarr chunk consolidation: the chunk files of a zarr directory are packed,
 * largest first, into `_consolidated_<i>.dat` files of at most `max_file_size`
 * bytes by first-fit bin packing, and `.zmetadata` gains a `refs` map from
 * each chunk's relative path to (consolidated file, byte offset, length).
 *
 * The file system is a parameter: a directory listing, and for each chunk
 * the size that `stat` reports (`None` when `stat` fails).
 */
module ZarrConsolidate {
  import opened Common

  // ---------------------------------------------------------------------
  // Collecting chunk files (`_collect_chunk_files`)
  // ---------------------------------------------------------------------

  /** A file found while walking the zarr directory. */
  datatype WalkedFile = WalkedFile(relPath: string, name: string)

  predicate IsMetadataName(name: string)
  {
    name == ".zmetadata" || name == ".zarray" || name == ".zgroup" || name == ".zattrs"
  }

  /** A walked file is a chunk unless it is metadata or an earlier consolidated file. */
  predicate IsChunkName(name: string)
  {
    !IsMetadataName(name) && !StartsWith(name, "_consolidated_")
  }

  /** The chunk files of a listing, in walk order. */
  function ChunkFiles(listing: seq<WalkedFile>): (r: seq<WalkedFile>)
    ensures |r| <= |listing|
  {
    if |listing| == 0 then []
    else
      var rest := ChunkFiles(listing[..|listing| - 1]);
      var f := listing[|listing| - 1];
      if IsChunkName(f.name) then rest + [f] else rest
  }

  /** A walked file is collected iff it is neither metadata nor a consolidated file. */
  lemma {:induction false} ChunkFilesMembers(listing: seq<WalkedFile>, f: WalkedFile)
    ensures f in ChunkFiles(listing) <==> f in listing && IsChunkName(f.name)
    decreases |listing|
  {
    if |listing| > 0 {
      var init := listing[..|listing| - 1];
      ChunkFilesMembers(init, f);
      assert listing == init + [listing[|listing| - 1]];
    }
  }

  /** `_collect_chunk_files`: the walk loop that skips metadata and consolidated files. */
  method CollectChunkFiles(listing: seq<WalkedFile>) returns (chunks: seq<WalkedFile>)
    ensures chunks == ChunkFiles(listing)
  {
    chunks := [];
    var i := 0;
    while i < |listing|
      invariant 0 <= i <= |listing|
      invariant chunks == ChunkFiles(listing[..i])
    {
      assert listing[..i + 1][..i] == listing[..i];
      if IsChunkName(listing[i].name) {
        chunks := chunks + [listing[i]];
      }
      i := i + 1;
    }
    assert listing[..i] == listing;
  }

  /** The name of the i-th consolidated file. */
  function ConsolidatedName(i: nat): string
  {
    "_consolidated_" + NatToString(i) + ".dat"
  }

  /** Consolidated files are never collected again, so a second run does not repack them. */
  lemma ConsolidatedNotCollected(i: nat)
    ensures !IsChunkName(ConsolidatedName(i))
  {
    assert ConsolidatedName(i)[..|"_consolidated_"|] == "_consolidated_";
  }

  // ---------------------------------------------------------------------
  // First-fit packing (`_group_files_by_size`)
  // ---------------------------------------------------------------------

  /** A chunk file with its relative path and its size as reported by `stat`. */
  datatype ChunkFile = ChunkFile(relPath: string, size: Option<nat>)

  /** A chunk whose size is known. */
  datatype Entry = Entry(relPath: string, size: nat)

  function SizeKey(e: Entry): int { e.size }

  /** The files whose size could be read, in input order; the others are skipped. */
  function Sized(files: seq<ChunkFile>): (r: seq<Entry>)
    ensures |r| <= |files|
    ensures forall e :: e in r <==> ChunkFile(e.relPath, Some(e.size)) in files
  {
    if |files| == 0 then []
    else
      var rest := Sized(files[..|files| - 1]);
      var f := files[|files| - 1];
      match f.size
      case None => rest
      case Some(n) => rest + [Entry(f.relPath, n)]
  }

  function GroupSize(g: seq<Entry>): nat
  {
    if |g| == 0 then 0 else GroupSize(g[..|g| - 1]) + g[|g| - 1].size
  }

  /** The packing built so far: the groups and their running byte totals. */
  datatype Packing = Packing(groups: seq<seq<Entry>>, sizes: seq<int>)

  /** The lowest index at or after `i` of a group with room for `size` bytes, or |sizes|. */
  function FirstFitFrom(sizes: seq<int>, size: nat, maxSize: nat, i: nat): (r: nat)
    requires i <= |sizes|
    ensures i <= r <= |sizes|
    ensures r < |sizes| ==> sizes[r] + size <= maxSize
    ensures forall j :: i <= j < r ==> sizes[j] + size > maxSize
    decreases |sizes| - i
  {
    if i == |sizes| then i
    else if sizes[i] + size <= maxSize then i
    else FirstFitFrom(sizes, size, maxSize, i + 1)
  }

  /** Where one file goes: its own group if oversized, else the first group with room, else a new group. */
  function Place(p: Packing, e: Entry, maxSize: nat): Packing
    requires |p.groups| == |p.sizes|
  {
    if e.size > maxSize then Packing(p.groups + [[e]], p.sizes + [e.size])
    else
      var k := FirstFitFrom(p.sizes, e.size, maxSize, 0);
      if k < |p.sizes| then Packing(p.groups[k := p.groups[k] + [e]], p.sizes[k := p.sizes[k] + e.size])
      else Packing(p.groups + [[e]], p.sizes + [e.size])
  }

  /** The groups and sizes are aligned, each size is its group's total, and no group is empty. */
  predicate Consistent(p: Packing)
  {
    && |p.groups| == |p.sizes|
    && (forall i :: 0 <= i < |p.groups| ==> |p.groups[i]| >= 1 && p.sizes[i] == GroupSize(p.groups[i]))
  }

  /** No group exceeds the limit unless it holds a single oversized file. */
  predicate WithinLimit(p: Packing, maxSize: nat)
    requires |p.groups| == |p.sizes|
  {
    forall i :: 0 <= i < |p.groups| ==> p.sizes[i] <= maxSize || |p.groups[i]| == 1
  }

  /** First-fit packing of the entries in order. */
  function Pack(entries: seq<Entry>, maxSize: nat): (p: Packing)
    ensures |p.groups| == |p.sizes|
  {
    if |entries| == 0 then Packing([], [])
    else Place(Pack(entries[..|entries| - 1], maxSize), entries[|entries| - 1], maxSize)
  }

  /** The sorted, sized input that the packing loop consumes. */
  function PackingOrder(files: seq<ChunkFile>): seq<Entry>
  {
    SortDesc(Sized(files), SizeKey)
  }

  /**
   * The packing order holds the files whose size was read, largest first;
   * files of equal size keep their listing order, since `list.sort` is
   * stable with `reverse=True` too.
   */
  lemma PackingOrderSpec(files: seq<ChunkFile>)
    ensures SortedDesc(PackingOrder(files), SizeKey)
    ensures multiset(PackingOrder(files)) == multiset(Sized(files))
    ensures forall n :: WithKey(PackingOrder(files), SizeKey, n) == WithKey(Sized(files), SizeKey, n)
  {
    SortDescCorrect(Sized(files), SizeKey);
    forall n ensures WithKey(PackingOrder(files), SizeKey, n) == WithKey(Sized(files), SizeKey, n) {
      SortDescStable(Sized(files), SizeKey, n);
    }
  }

  /** The size-reading loop of `_group_files_by_size`: files whose `stat` fails are skipped. */
  method ReadSizes(files: seq<ChunkFile>) returns (withSizes: seq<Entry>)
    ensures withSizes == Sized(files)
  {
    withSizes := [];
    var i := 0;
    while i < |files|
      invariant 0 <= i <= |files|
      invariant withSizes == Sized(files[..i])
    {
      assert files[..i + 1][..i] == files[..i];
      match files[i].size {
        case None =>
        case Some(n) => withSizes := withSizes + [Entry(files[i].relPath, n)];
      }
      i := i + 1;
    }
    assert files[..i] == files;
  }

  /**
   * One iteration of the packing loop: an oversized file gets its own group;
   * otherwise the scan over `group_sizes` puts it in the first group with
   * room and stops, and a file that fits nowhere opens a new group.
   */
  method PlaceFile(groups: seq<seq<Entry>>, groupSizes: seq<int>, e: Entry, maxSize: nat)
    returns (groups': seq<seq<Entry>>, groupSizes': seq<int>)
    requires |groups| == |groupSizes|
    ensures Packing(groups', groupSizes') == Place(Packing(groups, groupSizes), e, maxSize)
  {
    if e.size > maxSize {
      return groups + [[e]], groupSizes + [e.size];
    }
    var k := 0;
    while k < |groupSizes|
      invariant 0 <= k <= |groupSizes|
      invariant FirstFitFrom(groupSizes, e.size, maxSize, 0) == FirstFitFrom(groupSizes, e.size, maxSize, k)
    {
      if groupSizes[k] + e.size <= maxSize {
        return groups[k := groups[k] + [e]], groupSizes[k := groupSizes[k] + e.size];
      }
      k := k + 1;
    }
    return groups + [[e]], groupSizes + [e.size];
  }

  /**
   * `_group_files_by_size`: read the sizes, sort largest first (a stable
   * sort, see PackingOrderSpec), then place every file in turn.
   */
  method GroupFilesBySize(files: seq<ChunkFile>, maxSize: nat) returns (groups: seq<seq<Entry>>)
    ensures groups == Pack(PackingOrder(files), maxSize).groups
  {
    var withSizes := ReadSizes(files);
    var sorted := SortDesc(withSizes, SizeKey);
    groups := [];
    var groupSizes: seq<int> := [];
    var j := 0;
    while j < |sorted|
      invariant 0 <= j <= |sorted|
      invariant Packing(groups, groupSizes) == Pack(sorted[..j], maxSize)
    {
      assert sorted[..j + 1][..j] == sorted[..j];
      groups, groupSizes := PlaceFile(groups, groupSizes, sorted[j], maxSize);
      j := j + 1;
    }
    assert sorted[..j] == sorted;
  }

  /** Placing one file keeps the packing consistent and within the limit. */
  lemma PlaceKeeps(p: Packing, e: Entry, maxSize: nat)
    requires Consistent(p) && WithinLimit(p, maxSize)
    ensures Consistent(Place(p, e, maxSize)) && WithinLimit(Place(p, e, maxSize), maxSize)
  {
    if e.size <= maxSize {
      var k := FirstFitFrom(p.sizes, e.size, maxSize, 0);
      if k < |p.sizes| {
        var g := p.groups[k] + [e];
        assert g[..|g| - 1] == p.groups[k];
      }
    }
  }

  /** Every packing is consistent: group_sizes[i] is the total of groups[i]; no group exceeds max_size unless alone. */
  lemma {:induction false} PackConsistent(entries: seq<Entry>, maxSize: nat)
    ensures Consistent(Pack(entries, maxSize)) && WithinLimit(Pack(entries, maxSize), maxSize)
    decreases |entries|
  {
    if |entries| > 0 {
      PackConsistent(entries[..|entries| - 1], maxSize);
      PlaceKeeps(Pack(entries[..|entries| - 1], maxSize), entries[|entries| - 1], maxSize);
    }
  }

  /** All the files of all the groups, as a multiset. */
  function Contents(groups: seq<seq<Entry>>): multiset<Entry>
  {
    if |groups| == 0 then multiset{} else Contents(groups[..|groups| - 1]) + multiset(groups[|groups| - 1])
  }

  lemma {:induction false} ContentsConcat(a: seq<seq<Entry>>, b: seq<seq<Entry>>)
    ensures Contents(a + b) == Contents(a) + Contents(b)
    decreases |b|
  {
    if |b| > 0 {
      assert (a + b)[..|a + b| - 1] == a + b[..|b| - 1];
      ContentsConcat(a, b[..|b| - 1]);
    } else {
      assert a + b == a;
    }
  }

  lemma ContentsAppendTo(groups: seq<seq<Entry>>, k: nat, e: Entry)
    requires k < |groups|
    ensures Contents(groups[k := groups[k] + [e]]) == Contents(groups) + multiset{e}
  {
    var pre, post := groups[..k], groups[k + 1..];
    assert groups == pre + [groups[k]] + post;
    assert groups[k := groups[k] + [e]] == pre + [groups[k] + [e]] + post;
    ContentsConcat(pre + [groups[k]], post);
    ContentsConcat(pre + [groups[k] + [e]], post);
    assert (pre + [groups[k]])[..k] == pre;
    assert (pre + [groups[k] + [e]])[..k] == pre;
  }

  lemma PlaceContents(p: Packing, e: Entry, maxSize: nat)
    requires |p.groups| == |p.sizes|
    ensures Contents(Place(p, e, maxSize).groups) == Contents(p.groups) + multiset{e}
  {
    var q := Place(p, e, maxSize);
    if e.size <= maxSize && FirstFitFrom(p.sizes, e.size, maxSize, 0) < |p.sizes| {
      ContentsAppendTo(p.groups, FirstFitFrom(p.sizes, e.size, maxSize, 0), e);
    } else {
      assert q.groups[..|q.groups| - 1] == p.groups;
    }
  }

  /** Every packed file lands in exactly one group: the groups hold exactly the input. */
  lemma {:induction false} PackContents(entries: seq<Entry>, maxSize: nat)
    ensures Contents(Pack(entries, maxSize).groups) == multiset(entries)
    decreases |entries|
  {
    if |entries| > 0 {
      var init, last := entries[..|entries| - 1], entries[|entries| - 1];
      var p := Pack(init, maxSize);
      assert Contents(p.groups) == multiset(init) by { PackContents(init, maxSize); }
      PlaceContents(p, last, maxSize);
      assert multiset(entries) == multiset(init) + multiset{last} by {
        assert entries == init + [last];
      }
    }
  }

  /**
   * The method's groups contain exactly the files whose size could be read,
   * each once, and respect the size limit.
   */
  lemma GroupingCorrect(files: seq<ChunkFile>, maxSize: nat)
    ensures var p := Pack(PackingOrder(files), maxSize);
            && Contents(p.groups) == multiset(Sized(files))
            && Consistent(p) && WithinLimit(p, maxSize)
  {
    PackContents(PackingOrder(files), maxSize);
    SortDescCorrect(Sized(files), SizeKey);
    PackConsistent(PackingOrder(files), maxSize);
  }

  // ---------------------------------------------------------------------
  // Refs (`consolidate_zarr_chunks`)
  // ---------------------------------------------------------------------

  /** A `refs` entry: the consolidated file, the byte offset in it, and the length. */
  datatype Ref = Ref(file: string, offset: nat, length: nat)

  /** The offset of the k-th file of a group: the total length of the files before it. */
  function Offset(g: seq<Entry>, k: nat): nat
    requires k <= |g|
  {
    GroupSize(g[..k])
  }

  /** Offsets start at 0 and each is the previous offset plus the previous length; the last file ends at the group total. */
  lemma OffsetsContiguous(g: seq<Entry>, k: nat)
    requires k < |g|
    ensures Offset(g, 0) == 0
    ensures Offset(g, k + 1) == Offset(g, k) + g[k].size
    ensures Offset(g, k) + g[k].size <= GroupSize(g)
  {
    assert g[..k + 1][..k] == g[..k];
    OffsetBound(g, k + 1);
  }

  lemma {:induction false} OffsetBound(g: seq<Entry>, k: nat)
    requires k <= |g|
    ensures Offset(g, k) <= GroupSize(g)
    decreases |g|
  {
    if k < |g| {
      var n := |g| - 1;
      assert g[..n][..k] == g[..k];
      assert g[..|g|] == g;
      OffsetBound(g[..n], k);
    } else {
      assert g[..k] == g;
    }
  }

  /** The relative paths are pairwise distinct (they come from one directory walk). */
  predicate DistinctPaths(groups: seq<seq<Entry>>)
  {
    forall a, i, b, j ::
      0 <= a < |groups| && 0 <= i < |groups[a]| && 0 <= b < |groups| && 0 <= j < |groups[b]| && (a, i) != (b, j)
      ==> groups[a][i].relPath != groups[b][j].relPath
  }

  /** The refs written for the first k files of group `g`, on top of `m`. */
  function GroupRefs(m: map<string, Ref>, g: seq<Entry>, name: string, k: nat): map<string, Ref>
    requires k <= |g|
  {
    if k == 0 then m
    else GroupRefs(m, g, name, k - 1)[g[k - 1].relPath := Ref(name, Offset(g, k - 1), g[k - 1].size)]
  }

  /** The refs written for the first a groups. */
  function RefsOf(groups: seq<seq<Entry>>, a: nat): map<string, Ref>
    requires a <= |groups|
  {
    if a == 0 then map[] else GroupRefs(RefsOf(groups, a - 1), groups[a - 1], ConsolidatedName(a - 1), |groups[a - 1]|)
  }

  /** The refs map written into `.zmetadata`, built while streaming each group into its file. */
  method BuildRefs(groups: seq<seq<Entry>>) returns (refs: map<string, Ref>)
    ensures refs == RefsOf(groups, |groups|)
  {
    refs := map[];
    var a := 0;
    while a < |groups|
      invariant 0 <= a <= |groups|
      invariant refs == RefsOf(groups, a)
    {
      var name := ConsolidatedName(a);
      var g := groups[a];
      var before := refs;
      var currentOffset := 0;
      var k := 0;
      while k < |g|
        invariant 0 <= k <= |g|
        invariant currentOffset == Offset(g, k)
        invariant refs == GroupRefs(before, g, name, k)
      {
        OffsetsContiguous(g, k);
        refs := refs[g[k].relPath := Ref(name, currentOffset, g[k].size)];
        currentOffset := currentOffset + g[k].size;
        k := k + 1;
      }
      a := a + 1;
    }
  }

  predicate InPrefix(g: seq<Entry>, k: nat, p: string)
    requires k <= |g|
  {
    exists i :: 0 <= i < k && g[i].relPath == p
  }

  /** A file of the group finds its own ref. */
  lemma {:induction false} GroupRefsHit(m: map<string, Ref>, g: seq<Entry>, name: string, k: nat, i: nat)
    requires i < k <= |g|
    requires forall x, y :: 0 <= x < y < k ==> g[x].relPath != g[y].relPath
    ensures g[i].relPath in GroupRefs(m, g, name, k)
    ensures GroupRefs(m, g, name, k)[g[i].relPath] == Ref(name, Offset(g, i), g[i].size)
    decreases k
  {
    if i < k - 1 {
      GroupRefsHit(m, g, name, k - 1, i);
      assert g[i].relPath != g[k - 1].relPath;
    }
  }

  /** A path outside the group keeps whatever ref it had. */
  lemma {:induction false} GroupRefsMiss(m: map<string, Ref>, g: seq<Entry>, name: string, k: nat, p: string)
    requires k <= |g| && !InPrefix(g, k, p)
    ensures p in GroupRefs(m, g, name, k) <==> p in m
    ensures p in m ==> GroupRefs(m, g, name, k)[p] == m[p]
    decreases k
  {
    if k > 0 {
      assert g[k - 1].relPath != p;
      assert !InPrefix(g, k - 1, p);
      GroupRefsMiss(m, g, name, k - 1, p);
    }
  }

  /** A path the group writes is in the prefix of the group. */
  lemma {:induction false} GroupRefsOrigin(m: map<string, Ref>, g: seq<Entry>, name: string, k: nat, p: string)
    requires k <= |g| && p in GroupRefs(m, g, name, k)
    ensures p in m || InPrefix(g, k, p)
    decreases k
  {
    if k > 0 && p != g[k - 1].relPath {
      GroupRefsOrigin(m, g, name, k - 1, p);
    }
  }

  /**
   * Every packed file has a ref naming its consolidated file, its offset in
   * that file and its length.
   */
  lemma {:induction false} RefsOfHit(groups: seq<seq<Entry>>, a: nat, b: nat, i: nat)
    requires a <= |groups| && DistinctPaths(groups)
    requires b < a && i < |groups[b]|
    ensures groups[b][i].relPath in RefsOf(groups, a)
    ensures RefsOf(groups, a)[groups[b][i].relPath] == Ref(ConsolidatedName(b), Offset(groups[b], i), groups[b][i].size)
    decreases a
  {
    if b == a - 1 {
      RefsOfHitLast(groups, b, i);
    } else {
      RefsOfHit(groups, a - 1, b, i);
      RefsOfKeep(groups, a - 1, b, i);
    }
  }

  lemma RefsOfHitLast(groups: seq<seq<Entry>>, b: nat, i: nat)
    requires b < |groups| && DistinctPaths(groups) && i < |groups[b]|
    ensures groups[b][i].relPath in RefsOf(groups, b + 1)
    ensures RefsOf(groups, b + 1)[groups[b][i].relPath] == Ref(ConsolidatedName(b), Offset(groups[b], i), groups[b][i].size)
  {
    var g := groups[b];
    forall x, y | 0 <= x < y < |g|
      ensures g[x].relPath != g[y].relPath
    {
      assert (b, x) != (b, y);
    }
    GroupRefsHit(RefsOf(groups, b), g, ConsolidatedName(b), |g|, i);
  }

  /** Writing group `c` leaves the ref of a file of an earlier group alone. */
  lemma RefsOfKeep(groups: seq<seq<Entry>>, c: nat, b: nat, i: nat)
    requires c < |groups| && DistinctPaths(groups) && b < c && i < |groups[b]|
    ensures var p := groups[b][i].relPath;
            (p in RefsOf(groups, c + 1) <==> p in RefsOf(groups, c)) &&
            (p in RefsOf(groups, c) ==> RefsOf(groups, c + 1)[p] == RefsOf(groups, c)[p])
  {
    var g := groups[c];
    forall j | 0 <= j < |g|
      ensures g[j].relPath != groups[b][i].relPath
    {
      assert (b, i) != (c, j);
    }
    GroupRefsMiss(RefsOf(groups, c), g, ConsolidatedName(c), |g|, groups[b][i].relPath);
  }

  /** Every ref belongs to a packed file. */
  lemma {:induction false} RefsOfOrigin(groups: seq<seq<Entry>>, a: nat, p: string)
    requires a <= |groups| && p in RefsOf(groups, a)
    ensures exists b :: 0 <= b < a && InPrefix(groups[b], |groups[b]|, p)
    decreases a
  {
    var g := groups[a - 1];
    GroupRefsOrigin(RefsOf(groups, a - 1), g, ConsolidatedName(a - 1), |g|, p);
    if !InPrefix(g, |g|, p) {
      RefsOfOrigin(groups, a - 1, p);
    }
  }

  /**
   * The packing step of `consolidate_zarr_chunks`: no chunk files means
   * nothing is written (`None`); otherwise the groups, one per consolidated file.
   */
  method ConsolidationPlan(listing: seq<WalkedFile>, sizeOf: string -> Option<nat>, maxFileSize: nat)
    returns (plan: Option<seq<seq<Entry>>>)
    ensures plan.None? <==> ChunkFiles(listing) == []
    ensures plan.Some? ==> plan.value == Pack(PackingOrder(ChunkSizes(ChunkFiles(listing), sizeOf)), maxFileSize).groups
  {
    var chunks := CollectChunkFiles(listing);
    if |chunks| == 0 {
      return None;
    }
    var groups := GroupFilesBySize(ChunkSizes(chunks, sizeOf), maxFileSize);
    plan := Some(groups);
  }

  /** Pairs each collected chunk with the size `stat` reports for it. */
  function ChunkSizes(chunks: seq<WalkedFile>, sizeOf: string -> Option<nat>): (r: seq<ChunkFile>)
    ensures |r| == |chunks|
    ensures forall i :: 0 <= i < |r| ==> r[i] == ChunkFile(chunks[i].relPath, sizeOf(chunks[i].relPath))
  {
    seq(|chunks|, i requires 0 <= i < |chunks| => ChunkFile(chunks[i].relPath, sizeOf(chunks[i].relPath)))
  }
}
