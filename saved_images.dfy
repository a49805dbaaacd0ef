/**
 * `list_saved_images` of printit.py: the saved stickers shown in the
 * history, newest first, optionally one per file size.
 */
module SavedImages {
  import opened Wrappers
  import opened Text

  /** A globbed file with the results of `os.path.getsize` / `os.path.getmtime`; None where the call raises. */
  datatype FileEntry = FileEntry(path: string, size: Option<nat>, mtime: Option<int>)

  /** Files whose lower-cased base name holds `write_something` are never listed. */
  predicate Hidden(f: FileEntry)
  {
    Contains(Lower(Basename(f.path)), "write_something")
  }

  /** The files that pass the name filter, in glob order. */
  function Visible(files: seq<FileEntry>): (vs: seq<FileEntry>)
    ensures |vs| <= |files|
  {
    if files == [] then []
    else (if Hidden(files[0]) then [] else [files[0]]) + Visible(files[1..])
  }

  /** A file is kept by the name filter exactly when it is a globbed file whose name is not hidden. */
  lemma {:induction false} VisibleSpec(files: seq<FileEntry>)
    ensures forall f :: f in Visible(files) <==> f in files && !Hidden(f)
    ensures multiset(Visible(files)) <= multiset(files)
  {
    if files != [] {
      VisibleSpec(files[1..]);
      assert files == [files[0]] + files[1..];
    }
  }

  /** The modification time used as sort key; only read where every key is known. */
  function Time(f: FileEntry): int
  {
    f.mtime.GetOr(0)
  }

  predicate AllTimed(fs: seq<FileEntry>)
  {
    forall k :: 0 <= k < |fs| ==> fs[k].mtime.Some?
  }

  predicate NewestFirst(fs: seq<FileEntry>)
  {
    forall i, j :: 0 <= i < j < |fs| ==> Time(fs[i]) >= Time(fs[j])
  }

  /** Inserts `x` after every leading entry at least as new, so equal keys keep their order. */
  function InsertByTime(xs: seq<FileEntry>, x: FileEntry): seq<FileEntry>
  {
    if xs == [] then [x]
    else if Time(xs[0]) >= Time(x) then [xs[0]] + InsertByTime(xs[1..], x)
    else [x] + xs
  }

  /** `sorted(fs, key=os.path.getmtime, reverse=True)`: a stable sort, newest first. */
  function SortByTime(fs: seq<FileEntry>): seq<FileEntry>
  {
    if fs == [] then [] else InsertByTime(SortByTime(fs[..|fs| - 1]), Last(fs))
  }

  /** Insertion adds `x` and nothing else. */
  lemma {:induction false} InsertByTimeCount(xs: seq<FileEntry>, x: FileEntry)
    ensures multiset(InsertByTime(xs, x)) == multiset(xs) + multiset{x}
    ensures |InsertByTime(xs, x)| == |xs| + 1
  {
    if xs != [] && Time(xs[0]) >= Time(x) {
      InsertByTimeCount(xs[1..], x);
      assert xs == [xs[0]] + xs[1..];
    }
  }

  /** Inserting into a newest-first list keeps it newest first. */
  lemma {:induction false} InsertByTimeSpec(xs: seq<FileEntry>, x: FileEntry)
    requires NewestFirst(xs)
    ensures NewestFirst(InsertByTime(xs, x))
    ensures multiset(InsertByTime(xs, x)) == multiset(xs) + multiset{x}
  {
    InsertByTimeCount(xs, x);
    if xs != [] && Time(xs[0]) >= Time(x) {
      var tail := xs[1..];
      InsertByTimeSpec(tail, x);
      assert forall k :: 0 <= k < |tail| ==> tail[k] == xs[k + 1];
      InsertedNoNewer(xs[0], tail, x);
      ConsNewestFirst(xs[0], InsertByTime(tail, x));
    } else if xs != [] {
      ConsNewestFirst(x, xs);
    }
  }

  /** An entry at least as new as every other can go in front of a newest-first list. */
  lemma ConsNewestFirst(h: FileEntry, rest: seq<FileEntry>)
    requires NewestFirst(rest)
    requires forall k :: 0 <= k < |rest| ==> Time(h) >= Time(rest[k])
    ensures NewestFirst([h] + rest)
  {
    var ys := [h] + rest;
    forall i, j | 0 <= i < j < |ys|
      ensures Time(ys[i]) >= Time(ys[j])
    {
      assert ys[j] == rest[j - 1];
      if i > 0 {
        assert ys[i] == rest[i - 1];
      }
    }
  }

  /** Inserting entries no newer than `h` gives entries no newer than `h`. */
  lemma InsertedNoNewer(h: FileEntry, tail: seq<FileEntry>, x: FileEntry)
    requires Time(h) >= Time(x)
    requires forall k :: 0 <= k < |tail| ==> Time(h) >= Time(tail[k])
    ensures forall k :: 0 <= k < |InsertByTime(tail, x)| ==> Time(h) >= Time(InsertByTime(tail, x)[k])
  {
    var rest := InsertByTime(tail, x);
    InsertByTimeCount(tail, x);
    forall k | 0 <= k < |rest|
      ensures Time(h) >= Time(rest[k])
    {
      assert rest[k] in multiset(tail) + multiset{x};
      if rest[k] != x {
        assert rest[k] in tail;
      }
    }
  }

  /** The sort orders newest first and neither adds nor drops an entry. */
  lemma {:induction false} SortByTimeSpec(fs: seq<FileEntry>)
    ensures NewestFirst(SortByTime(fs))
    ensures multiset(SortByTime(fs)) == multiset(fs)
  {
    if fs != [] {
      var init := fs[..|fs| - 1];
      SortByTimeSpec(init);
      InsertByTimeSpec(SortByTime(init), Last(fs));
      assert fs == init + [Last(fs)];
    }
  }

  /** Python's `xs[:limit]` for a non-negative limit. */
  function Take<T>(xs: seq<T>, limit: nat): (r: seq<T>)
    ensures |r| <= limit && |r| <= |xs|
    ensures r == xs[..|r|]
    ensures |r| == if |xs| <= limit then |xs| else limit
  {
    if |xs| <= limit then xs else xs[..limit]
  }

  /** One entry of `unique_images`: a file size and the file kept for it. */
  datatype Slot = Slot(size: nat, file: FileEntry)

  /** The position of `size` among the keys of the dictionary. */
  function SlotOf(slots: seq<Slot>, size: nat): (r: Option<nat>)
    ensures r.Some? ==> r.value < |slots| && slots[r.value].size == size
    ensures r.None? ==> forall k :: 0 <= k < |slots| ==> slots[k].size != size
  {
    if slots == [] then None
    else if Last(slots).size == size then Some(|slots| - 1)
    else SlotOf(slots[..|slots| - 1], size)
  }

  /**
   * One pass of the loop: a file whose size lookup raises is skipped; a new
   * size is added; a known size is taken over by a strictly newer file, and
   * a failing time lookup on either file skips the current one.
   */
  function DedupStep(slots: seq<Slot>, f: FileEntry): seq<Slot>
  {
    match f.size
    case None => slots
    case Some(s) =>
      match SlotOf(slots, s)
      case None => slots + [Slot(s, f)]
      case Some(k) =>
        var existing := slots[k].file;
        if existing.mtime.None? || f.mtime.None? then slots
        else if f.mtime.value > existing.mtime.value then slots[k := Slot(s, f)]
        else slots
  }

  /** The dictionary after the loop has seen `files`. */
  function DedupFold(slots: seq<Slot>, files: seq<FileEntry>): seq<Slot>
  {
    if files == [] then slots else DedupStep(DedupFold(slots, files[..|files| - 1]), Last(files))
  }

  /** `unique_images.values()`, in key insertion order. */
  function Values(slots: seq<Slot>): (fs: seq<FileEntry>)
    ensures |fs| == |slots|
    ensures forall k :: 0 <= k < |slots| ==> fs[k] == slots[k].file
  {
    if slots == [] then [] else Values(slots[..|slots| - 1]) + [Last(slots).file]
  }

  function Paths(fs: seq<FileEntry>): (ps: seq<string>)
    ensures |ps| == |fs|
    ensures forall k :: 0 <= k < |fs| ==> ps[k] == fs[k].path
  {
    seq(|fs|, k requires 0 <= k < |fs| => fs[k].path)
  }

  /**
   * The entries `list_saved_images` lists, or None when the final sort
   * raises because a listed file's time cannot be read.
   */
  function SavedEntries(files: seq<FileEntry>, filterDuplicates: bool, limit: nat): Option<seq<FileEntry>>
  {
    var visible := Visible(files);
    var pool := if filterDuplicates then Values(DedupFold([], visible)) else visible;
    if AllTimed(pool) then Some(Take(SortByTime(pool), limit)) else None
  }

  /** `list_saved_images`; `files` is the glob of `temp/` followed by that of `labels/`. */
  method ListSavedImages(files: seq<FileEntry>, filterDuplicates: bool, limit: nat) returns (paths: Option<seq<string>>)
    ensures paths == match SavedEntries(files, filterDuplicates, limit) case None => None case Some(fs) => Some(Paths(fs))
  {
    var visible := Visible(files);
    var pool := visible;
    if filterDuplicates {
      var slots := DedupBySize(visible);
      pool := Values(slots);
    }
    if !AllTimed(pool) {
      return None;
    }
    paths := Some(Paths(Take(SortByTime(pool), limit)));
  }

  /** The loop that builds `unique_images`. */
  method DedupBySize(files: seq<FileEntry>) returns (slots: seq<Slot>)
    ensures slots == DedupFold([], files)
  {
    slots := [];
    for i := 0 to |files|
      invariant slots == DedupFold([], files[..i])
    {
      assert files[..i + 1][..i] == files[..i];
      var f := files[i];
      if f.size.None? {
        continue;
      }
      var s := f.size.value;
      var k := FindSlot(slots, s);
      if k.None? {
        slots := slots + [Slot(s, f)];
      } else {
        var existing := slots[k.value].file;
        if existing.mtime.None? || f.mtime.None? {
          continue;
        }
        if f.mtime.value > existing.mtime.value {
          slots := slots[k.value := Slot(s, f)];
        }
      }
    }
    assert files[..|files|] == files;
  }

  /** The dictionary's `file_size in unique_images` test and lookup. */
  method FindSlot(slots: seq<Slot>, size: nat) returns (k: Option<nat>)
    ensures k == SlotOf(slots, size)
  {
    k := None;
    var i := |slots|;
    assert slots[..i] == slots;
    while i > 0
      invariant 0 <= i <= |slots|
      invariant SlotOf(slots, size) == SlotOf(slots[..i], size)
    {
      assert slots[..i][..i - 1] == slots[..i - 1];
      if slots[i - 1].size == size {
        return Some(i - 1);
      }
      i := i - 1;
    }
  }

  // Properties

  predicate DistinctSizes(slots: seq<Slot>)
  {
    forall i, j :: 0 <= i < j < |slots| ==> slots[i].size != slots[j].size
  }

  /** Each slot keeps a file of its size. */
  predicate SlotsSized(slots: seq<Slot>)
  {
    forall k :: 0 <= k < |slots| ==> slots[k].file.size == Some(slots[k].size)
  }

  lemma DedupStepKeeps(slots: seq<Slot>, f: FileEntry)
    requires DistinctSizes(slots) && SlotsSized(slots)
    ensures DistinctSizes(DedupStep(slots, f)) && SlotsSized(DedupStep(slots, f))
    ensures forall k :: 0 <= k < |DedupStep(slots, f)| ==>
              DedupStep(slots, f)[k].file == f || exists j :: 0 <= j < |slots| && slots[j].file == DedupStep(slots, f)[k].file
  {
  }

  /** The dictionary never holds two slots of the same size, and each slot's file is one of the files seen. */
  lemma {:induction false} DedupFoldKeeps(files: seq<FileEntry>)
    ensures DistinctSizes(DedupFold([], files)) && SlotsSized(DedupFold([], files))
    ensures forall k :: 0 <= k < |DedupFold([], files)| ==> DedupFold([], files)[k].file in files
  {
    if files != [] {
      var init := files[..|files| - 1];
      DedupFoldKeeps(init);
      DedupStepKeeps(DedupFold([], init), Last(files));
    }
  }

  /** The loop over `a + b` is the loop over `a` continued over `b`. */
  lemma {:induction false} DedupFoldAppend(slots: seq<Slot>, a: seq<FileEntry>, b: seq<FileEntry>)
    ensures DedupFold(slots, a + b) == DedupFold(DedupFold(slots, a), b)
    decreases |b|
  {
    if b == [] {
      assert a + b == a;
    } else {
      var init := b[..|b| - 1];
      assert (a + b)[..|a + b| - 1] == a + init;
      DedupFoldAppend(slots, a, init);
    }
  }

  /** A file whose size lookup raises leaves the dictionary as if it had not been globbed at all. */
  lemma SizeFailureSkipped(slots: seq<Slot>, a: seq<FileEntry>, f: FileEntry, b: seq<FileEntry>)
    requires f.size.None?
    ensures DedupFold(slots, a + [f] + b) == DedupFold(slots, a + b)
  {
    DedupFoldAppend(slots, a + [f], b);
    DedupFoldAppend(slots, a, b);
    assert (a + [f])[..|a + [f]| - 1] == a;
  }

  /**
   * A file whose time lookup raises: when its size is already a key it is
   * skipped, and when its size is new it is kept without its time being read.
   */
  lemma TimeFailureStep(slots: seq<Slot>, f: FileEntry)
    requires f.size.Some? && f.mtime.None?
    ensures SlotOf(slots, f.size.value).Some? ==> DedupStep(slots, f) == slots
    ensures SlotOf(slots, f.size.value).None? ==> DedupStep(slots, f) == slots + [Slot(f.size.value, f)]
  {
  }

  /** File `i` is the first of the files whose size lookup succeeds with its size. */
  predicate FirstOfSize(files: seq<FileEntry>, i: nat)
    requires i < |files|
  {
    files[i].size.Some? && forall j :: 0 <= j < i ==> files[j].size != files[i].size
  }

  /** Some file is the first of its size and has no readable time. */
  predicate Stuck(files: seq<FileEntry>)
  {
    exists i :: 0 <= i < |files| && FirstOfSize(files, i) && files[i].mtime.None?
  }

  /** Some slot keeps a file without a readable time. */
  predicate Untimed(slots: seq<Slot>)
  {
    exists k :: 0 <= k < |slots| && slots[k].file.mtime.None?
  }

  /** Every size that was read successfully is a key. */
  predicate Covered(files: seq<FileEntry>, slots: seq<Slot>)
  {
    forall j :: 0 <= j < |files| && files[j].size.Some? ==> SlotOf(slots, files[j].size.value).Some?
  }

  /** Appending a file makes the list stuck exactly when it was, or the new file is the first of its size and untimed. */
  lemma StuckSnoc(files: seq<FileEntry>, f: FileEntry)
    ensures Stuck(files + [f]) <==>
            Stuck(files) || (f.size.Some? && f.mtime.None? && forall j :: 0 <= j < |files| ==> files[j].size != f.size)
  {
    var all := files + [f];
    assert forall j :: 0 <= j < |files| ==> all[j] == files[j];
    assert forall i :: 0 <= i < |files| ==> (FirstOfSize(all, i) <==> FirstOfSize(files, i));
    if Stuck(all) {
      var i :| 0 <= i < |all| && FirstOfSize(all, i) && all[i].mtime.None?;
      if i < |files| {
        assert FirstOfSize(files, i);
      }
    }
    if Stuck(files) {
      var i :| 0 <= i < |files| && FirstOfSize(files, i) && files[i].mtime.None?;
      assert FirstOfSize(all, i);
    }
    if f.size.Some? && f.mtime.None? && forall j :: 0 <= j < |files| ==> files[j].size != f.size {
      assert FirstOfSize(all, |files|);
    }
  }

  /** One pass of the loop keeps every read size a key, and keeps an untimed slot exactly when the files seen are stuck. */
  lemma UntimedStep(files: seq<FileEntry>, slots: seq<Slot>, f: FileEntry)
    requires Covered(files, slots) && (Untimed(slots) <==> Stuck(files))
    requires SlotsSized(slots) && forall k :: 0 <= k < |slots| ==> slots[k].file in files
    ensures Covered(files + [f], DedupStep(slots, f))
    ensures Untimed(DedupStep(slots, f)) <==> Stuck(files + [f])
  {
    var all := files + [f];
    var next := DedupStep(slots, f);
    assert forall j :: 0 <= j < |files| ==> all[j] == files[j];
    StuckSnoc(files, f);
    forall j | 0 <= j < |all| && all[j].size.Some?
      ensures SlotOf(next, all[j].size.value).Some?
    {
      if j < |files| {
        SlotOfGrows(slots, f, files[j].size.value);
      } else {
        assert |next| >= |slots|;
        if SlotOf(slots, f.size.value).None? {
          assert next[|slots|].size == f.size.value;
        } else {
          SlotOfGrows(slots, f, f.size.value);
        }
      }
    }
    if f.size.Some? {
      var sz := f.size.value;
      match SlotOf(slots, sz)
      case None =>
        assert forall j :: 0 <= j < |files| ==> files[j].size != f.size;
        assert next == slots + [Slot(sz, f)];
        if Untimed(next) {
          var k :| 0 <= k < |next| && next[k].file.mtime.None?;
          if k < |slots| {
            assert slots[k].file.mtime.None?;
          }
        }
        if Untimed(slots) {
          var k :| 0 <= k < |slots| && slots[k].file.mtime.None?;
          assert next[k] == slots[k];
        }
        if f.mtime.None? {
          assert next[|slots|].file == f;
        }
      case Some(k) =>
        var existing := slots[k].file;
        assert existing in files && existing.size == f.size;
        assert !(forall j :: 0 <= j < |files| ==> files[j].size != f.size);
        if existing.mtime.Some? && f.mtime.Some? && f.mtime.value > existing.mtime.value {
          assert next == slots[k := Slot(sz, f)];
          if Untimed(next) {
            var m :| 0 <= m < |next| && next[m].file.mtime.None?;
            assert m != k && slots[m] == next[m];
          }
          if Untimed(slots) {
            var m :| 0 <= m < |slots| && slots[m].file.mtime.None?;
            assert m != k && next[m] == slots[m];
          }
        }
    }
  }

  /**
   * With de-duplication, a slot keeps an untimed file exactly when some
   * visible file is the first of its size and has no readable time: such a
   * file enters the dictionary and is never replaced.
   */
  lemma {:induction false} DedupFoldUntimed(files: seq<FileEntry>)
    ensures Covered(files, DedupFold([], files))
    ensures Untimed(DedupFold([], files)) <==> Stuck(files)
  {
    if files != [] {
      var init := files[..|files| - 1];
      DedupFoldUntimed(init);
      DedupFoldKeeps(init);
      assert files == init + [Last(files)];
      UntimedStep(init, DedupFold([], init), Last(files));
    }
  }

  /**
   * With de-duplication the listing raises exactly when some de-duplicated
   * value has no readable time, that is, when some visible file is the first
   * of its size and its time lookup fails.
   */
  lemma DedupMissingTimeRaises(files: seq<FileEntry>, limit: nat)
    ensures var pool := Values(DedupFold([], Visible(files)));
            SavedEntries(files, true, limit).None? <==> exists k :: 0 <= k < |pool| && pool[k].mtime.None?
    ensures SavedEntries(files, true, limit).None? <==> Stuck(Visible(files))
  {
    var slots := DedupFold([], Visible(files));
    DedupFoldUntimed(Visible(files));
    assert Untimed(slots) <==> !AllTimed(Values(slots));
  }

  /** The entries that go into the sort come from the visible files. */
  lemma PoolFromVisible(files: seq<FileEntry>, filterDuplicates: bool)
    ensures var visible := Visible(files);
            var pool := if filterDuplicates then Values(DedupFold([], visible)) else visible;
            forall f :: f in pool ==> f in files && !Hidden(f)
  {
    var visible := Visible(files);
    VisibleSpec(files);
    if filterDuplicates {
      DedupFoldKeeps(visible);
      var pool := Values(DedupFold([], visible));
      forall f | f in pool
        ensures f in visible
      {
        var k :| 0 <= k < |pool| && pool[k] == f;
      }
    }
  }

  /** The first `limit` of the sorted pool: newest first, and each one from the pool. */
  lemma SortedPrefixSpec(pool: seq<FileEntry>, limit: nat)
    ensures var r := Take(SortByTime(pool), limit);
            |r| <= limit && NewestFirst(r) && forall f :: f in r ==> f in pool
  {
    SortByTimeSpec(pool);
    var sorted := SortByTime(pool);
    var r := Take(sorted, limit);
    forall f | f in r
      ensures f in pool
    {
      assert f in multiset(sorted);
    }
    assert forall k :: 0 <= k < |r| ==> r[k] == sorted[k];
  }

  /** Every listed entry is a globbed file that is not hidden; at most `limit` are listed, newest first. */
  lemma SavedEntriesSpec(files: seq<FileEntry>, filterDuplicates: bool, limit: nat)
    ensures SavedEntries(files, filterDuplicates, limit).Some? ==>
              var r := SavedEntries(files, filterDuplicates, limit).value;
              |r| <= limit && NewestFirst(r) && forall f :: f in r ==> f in files && !Hidden(f)
  {
    var visible := Visible(files);
    var pool := if filterDuplicates then Values(DedupFold([], visible)) else visible;
    PoolFromVisible(files, filterDuplicates);
    SortedPrefixSpec(pool, limit);
  }

  /** Without de-duplication every visible file is listed when the limit allows: the list is a permutation of them. */
  lemma AllListedUnderLimit(files: seq<FileEntry>, limit: nat)
    requires |Visible(files)| <= limit && AllTimed(Visible(files))
    ensures SavedEntries(files, false, limit).Some?
    ensures multiset(SavedEntries(files, false, limit).value) == multiset(Visible(files))
  {
    SortByTimeSpec(Visible(files));
  }

  /** A missing time on a visible file makes the undeduplicated listing raise. */
  lemma MissingTimeRaises(files: seq<FileEntry>, limit: nat)
    ensures SavedEntries(files, false, limit).None? <==> !AllTimed(Visible(files))
  {
  }

  /** With de-duplication no two listed entries share a file size. */
  lemma DedupDistinct(files: seq<FileEntry>, limit: nat)
    ensures var r := SavedEntries(files, true, limit);
            r.Some? ==> forall i, j :: 0 <= i < j < |r.value| ==> r.value[i].size != r.value[j].size
  {
    var slots := DedupFold([], Visible(files));
    DedupFoldKeeps(Visible(files));
    var pool := Values(slots);
    assert forall i, j :: 0 <= i < j < |pool| ==> pool[i].size != pool[j].size;
    SortByTimeSpec(pool);
    var sorted := SortByTime(pool);
    DistinctSizesPermuted(pool, sorted);
  }

  /** Distinct sizes survive any reordering. */
  lemma DistinctSizesPermuted(xs: seq<FileEntry>, ys: seq<FileEntry>)
    requires multiset(xs) == multiset(ys)
    requires forall i, j :: 0 <= i < j < |xs| ==> xs[i].size != xs[j].size
    ensures forall i, j :: 0 <= i < j < |ys| ==> ys[i].size != ys[j].size
  {
    forall i, j | 0 <= i < j < |ys|
      ensures ys[i].size != ys[j].size
    {
      assert ys[i] in multiset(xs) && ys[j] in multiset(xs);
      var a :| 0 <= a < |xs| && xs[a] == ys[i];
      var b :| 0 <= b < |xs| && xs[b] == ys[j];
      if ys[i].size == ys[j].size {
        assert a == b;
        CountTwice(ys, i, j);
        CountAtMostOnce(xs, ys[i]);
      }
    }
  }

  lemma CountTwice(ys: seq<FileEntry>, i: nat, j: nat)
    requires i < j < |ys| && ys[i] == ys[j]
    ensures multiset(ys)[ys[i]] >= 2
  {
    assert ys == ys[..i] + [ys[i]] + ys[i + 1..j] + [ys[j]] + ys[j + 1..];
  }

  lemma {:induction false} CountAtMostOnce(xs: seq<FileEntry>, e: FileEntry)
    requires forall i, j :: 0 <= i < j < |xs| ==> xs[i].size != xs[j].size
    ensures multiset(xs)[e] <= 1
  {
    if xs != [] {
      var tail := xs[1..];
      assert xs == [xs[0]] + tail;
      CountAtMostOnce(tail, e);
      if xs[0] == e {
        assert e !in tail by {
          forall k | 0 <= k < |tail|
            ensures tail[k] != e
          {
            assert tail[k] == xs[k + 1];
          }
        }
      }
    }
  }

  /** Both lookups succeed for every file. */
  predicate Known(files: seq<FileEntry>)
  {
    forall k :: 0 <= k < |files| ==> files[k].size.Some? && files[k].mtime.Some?
  }

  /**
   * `f` is the file of index `i` in `files`, no file of its size is newer,
   * and every earlier file of its size is strictly older: the newest, and
   * the first seen among equally new ones.
   */
  predicate NewestAt(files: seq<FileEntry>, f: FileEntry, i: nat)
  {
    && i < |files| && files[i] == f
    && (forall j :: 0 <= j < |files| && files[j].size == f.size ==> Time(files[j]) <= Time(f))
    && (forall j :: 0 <= j < i && files[j].size == f.size ==> Time(files[j]) < Time(f))
  }

  predicate FirstNewest(files: seq<FileEntry>, f: FileEntry)
  {
    exists i :: 0 <= i < |files| && NewestAt(files, f, i)
  }

  /** What the dictionary holds after the loop has seen `files`, when every lookup succeeds. */
  predicate DedupInv(files: seq<FileEntry>, slots: seq<Slot>)
  {
    && DistinctSizes(slots) && SlotsSized(slots)
    && (forall k :: 0 <= k < |slots| ==> FirstNewest(files, slots[k].file))
    && (forall j :: 0 <= j < |files| ==> SlotOf(slots, files[j].size.GetOr(0)).Some?)
  }

  lemma SlotOfGrows(slots: seq<Slot>, f: FileEntry, size: nat)
    requires SlotOf(slots, size).Some?
    ensures SlotOf(DedupStep(slots, f), size).Some?
  {
    var k := SlotOf(slots, size).value;
    var next := DedupStep(slots, f);
    assert k < |next| && next[k].size == size;
  }

  lemma NewestAtExtends(files: seq<FileEntry>, f: FileEntry, g: FileEntry, i: nat)
    requires NewestAt(files, g, i) && (f.size != g.size || Time(f) <= Time(g))
    ensures NewestAt(files + [f], g, i)
  {
    var all := files + [f];
    assert forall j :: 0 <= j < |files| ==> all[j] == files[j];
  }

  lemma DedupStepCovers(files: seq<FileEntry>, slots: seq<Slot>, f: FileEntry)
    requires f.size.Some?
    requires forall j :: 0 <= j < |files| ==> SlotOf(slots, files[j].size.GetOr(0)).Some?
    ensures var all, next := files + [f], DedupStep(slots, f);
            forall j :: 0 <= j < |all| ==> SlotOf(next, all[j].size.GetOr(0)).Some?
  {
    var all := files + [f];
    var next := DedupStep(slots, f);
    forall j | 0 <= j < |all|
      ensures SlotOf(next, all[j].size.GetOr(0)).Some?
    {
      if j < |files| {
        assert all[j] == files[j];
        SlotOfGrows(slots, f, all[j].size.GetOr(0));
      } else {
        assert next[SlotOfNew(slots, f)].size == f.size.value;
      }
    }
  }

  lemma NewSizeNewest(files: seq<FileEntry>, slots: seq<Slot>, f: FileEntry)
    requires f.size.Some? && SlotOf(slots, f.size.value).None?
    requires forall j :: 0 <= j < |files| ==> SlotOf(slots, files[j].size.GetOr(0)).Some?
    requires forall j :: 0 <= j < |files| ==> files[j].size.Some?
    requires forall k :: 0 <= k < |slots| ==> FirstNewest(files, slots[k].file)
    requires SlotsSized(slots)
    ensures var all, next := files + [f], DedupStep(slots, f);
            forall k :: 0 <= k < |next| ==> FirstNewest(all, next[k].file)
  {
    var all := files + [f];
    var next := DedupStep(slots, f);
    assert forall j :: 0 <= j < |files| ==> all[j] == files[j];
    assert forall j :: 0 <= j < |files| ==> files[j].size != f.size;
    forall k | 0 <= k < |next|
      ensures FirstNewest(all, next[k].file)
    {
      if k < |slots| {
        var i :| 0 <= i < |files| && NewestAt(files, slots[k].file, i);
        NewestAtExtends(files, f, slots[k].file, i);
      } else {
        assert NewestAt(all, f, |files|);
      }
    }
  }

  lemma KnownSizeNewest(files: seq<FileEntry>, slots: seq<Slot>, f: FileEntry, m: nat)
    requires f.size.Some? && SlotOf(slots, f.size.value) == Some(m)
    requires Known(files + [f])
    requires forall k :: 0 <= k < |slots| ==> FirstNewest(files, slots[k].file)
    requires DistinctSizes(slots) && SlotsSized(slots)
    ensures var all, next := files + [f], DedupStep(slots, f);
            forall k :: 0 <= k < |next| ==> FirstNewest(all, next[k].file)
  {
    var all := files + [f];
    var next := DedupStep(slots, f);
    var e := slots[m].file;
    var ie :| 0 <= ie < |files| && NewestAt(files, e, ie);
    assert all[ie] == e && all[|files|] == f;
    forall k | 0 <= k < |next|
      ensures FirstNewest(all, next[k].file)
    {
      if k != m {
        var i :| 0 <= i < |files| && NewestAt(files, slots[k].file, i);
        NewestAtExtends(files, f, slots[k].file, i);
      } else if f.mtime.value > e.mtime.value {
        assert forall j :: 0 <= j < |files| ==> all[j] == files[j];
        assert NewestAt(all, f, |files|);
      } else {
        NewestAtExtends(files, f, e, ie);
      }
    }
  }

  lemma DedupStepInv(files: seq<FileEntry>, slots: seq<Slot>, f: FileEntry)
    requires Known(files + [f]) && DedupInv(files, slots)
    ensures DedupInv(files + [f], DedupStep(slots, f))
  {
    var all := files + [f];
    assert all[|files|] == f;
    assert forall j :: 0 <= j < |files| ==> all[j] == files[j];
    DedupStepKeeps(slots, f);
    DedupStepCovers(files, slots, f);
    match SlotOf(slots, f.size.value)
    case None => NewSizeNewest(files, slots, f);
    case Some(m) => KnownSizeNewest(files, slots, f, m);
  }

  /** The index the new file's size occupies after its step. */
  function SlotOfNew(slots: seq<Slot>, f: FileEntry): nat
    requires f.size.Some?
    ensures SlotOfNew(slots, f) < |DedupStep(slots, f)|
  {
    match SlotOf(slots, f.size.value)
    case None => |slots|
    case Some(k) => k
  }

  /**
   * When every lookup succeeds, each size seen gets exactly one slot, and
   * the file it keeps is the newest of that size, the first seen on a tie.
   */
  lemma {:induction false} DedupFoldSpec(files: seq<FileEntry>)
    requires Known(files)
    ensures DedupInv(files, DedupFold([], files))
  {
    if files != [] {
      var init := files[..|files| - 1];
      assert files == init + [Last(files)];
      assert Known(init);
      DedupFoldSpec(init);
      DedupStepInv(init, DedupFold([], init), Last(files));
    }
  }

  /** With de-duplication each listed entry is the newest visible file of its size, the first seen on a tie. */
  lemma DedupKeepsNewest(files: seq<FileEntry>, limit: nat)
    requires Known(Visible(files))
    ensures SavedEntries(files, true, limit).Some?
    ensures forall f :: f in SavedEntries(files, true, limit).value ==> FirstNewest(Visible(files), f)
  {
    var visible := Visible(files);
    var slots := DedupFold([], visible);
    DedupFoldSpec(visible);
    var pool := Values(slots);
    DedupFoldKeeps(visible);
    assert AllTimed(pool) by {
      forall k | 0 <= k < |pool|
        ensures pool[k].mtime.Some?
      {
        assert pool[k] in visible;
      }
    }
    SortedPrefixSpec(pool, limit);
    forall f | f in SavedEntries(files, true, limit).value
      ensures FirstNewest(visible, f)
    {
      var k :| 0 <= k < |pool| && pool[k] == f;
      assert f == slots[k].file;
    }
  }
}
