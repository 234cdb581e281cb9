/** FileLogSink of logger.cpp: the active log file, its numbered archives, and the bound
    on their total size. A file is the list of records it holds; a file found at startup
    enters as one record. */
module LogFamily {
  import opened Bytes

  type Record = seq<Byte>

  const NEWLINE: Byte := 0x0A
  const MAX_UINT64 := 0xFFFF_FFFF_FFFF_FFFF
  const MAX_SEGMENT := 128 * 1024 * 1024
  const SCAN_BLOCK := 8192

  /** An archive as the sink remembers it (sequence and size), and the file on disk. */
  datatype Archive = Archive(sequence: nat, size: nat, file: seq<Record>)

  datatype SinkError =
    | NoError | ZeroLimit | RecordTooLarge | IoFailure | SequenceExhausted | ActiveExceedsLimit

  function Size(records: seq<Record>): (n: nat)
    ensures records == [] ==> n == 0
  {
    if records == [] then 0 else Size(records[..|records| - 1]) + |records[|records| - 1]|
  }

  function TotalSize(archives: seq<Archive>): (n: nat)
    ensures archives == [] ==> n == 0
  {
    if archives == [] then 0 else archives[0].size + TotalSize(archives[1..])
  }

  /** The records in the archives, oldest archive first. */
  function Stored(archives: seq<Archive>): seq<Record> {
    if archives == [] then [] else archives[0].file + Stored(archives[1..])
  }

  ghost predicate Accounted(archives: seq<Archive>) {
    forall a :: a in archives ==> a.size == Size(a.file)
  }

  ghost predicate Numbered(archives: seq<Archive>, next: nat) {
    && (forall a :: a in archives ==> a.sequence < next)
    && (forall i, k :: 0 <= i < k < |archives| ==> archives[i].sequence <= archives[k].sequence)
  }

  ghost predicate IsSuffix(s: seq<Record>, whole: seq<Record>) {
    exists lost :: whole == lost + s
  }

  /** Retention: oldest archives go until the family fits. */
  function Pruned(archives: seq<Archive>, managed: int, limit: nat): seq<Archive> {
    if managed <= limit || archives == [] then archives
    else Pruned(archives[1..], managed - archives[0].size, limit)
  }

  /** What is kept is the longest run of newest archives that fits beside the active file. */
  lemma {:induction false} PrunedIsLongestFit(archives: seq<Archive>, active: nat, limit: nat) returns (k: nat)
    requires active <= limit
    ensures k <= |archives| && Pruned(archives, active + TotalSize(archives), limit) == archives[k..]
    ensures active + TotalSize(archives[k..]) <= limit
    ensures forall j :: 0 <= j < k ==> active + TotalSize(archives[j..]) > limit
  {
    if active + TotalSize(archives) <= limit || archives == [] {
      k := 0;
      assert archives[0..] == archives;
    } else {
      var rest := PrunedIsLongestFit(archives[1..], active, limit);
      k := rest + 1;
      hide TotalSize, Pruned;
      forall j | 0 <= j < k ensures active + TotalSize(archives[j..]) > limit {
        DroppedLater(archives, j);
        if j > 0 { assert active + TotalSize(archives[1..][j - 1..]) > limit; }
      }
      DroppedLater(archives, k);
    }
  }

  lemma DroppedLater(archives: seq<Archive>, j: nat)
    requires archives != [] && j <= |archives|
    ensures if j == 0 then archives[j..] == archives else archives[j..] == archives[1..][j - 1..]
  {}

  // One step of the file list at a time.

  lemma DropOldest(archives: seq<Archive>, next: nat)
    requires archives != [] && Accounted(archives) && Numbered(archives, next)
    ensures Accounted(archives[1..]) && Numbered(archives[1..], next)
    ensures TotalSize(archives) == archives[0].size + TotalSize(archives[1..])
    ensures Stored(archives) == archives[0].file + Stored(archives[1..])
  {}

  lemma AppendArchive(archives: seq<Archive>, a: Archive)
    requires Accounted(archives) && Numbered(archives, a.sequence) && a.size == Size(a.file)
    ensures Accounted(archives + [a]) && Numbered(archives + [a], a.sequence + 1)
    ensures TotalSize(archives + [a]) == TotalSize(archives) + a.size
    ensures Stored(archives + [a]) == Stored(archives) + a.file
  {
    TotalSizeInsert(archives, |archives|, a);
    assert archives[..|archives|] + [a] + archives[|archives|..] == archives + [a];
    StoredAppend(archives, a);
  }

  lemma {:induction false} StoredAppend(archives: seq<Archive>, a: Archive)
    ensures Stored(archives + [a]) == Stored(archives) + a.file
  {
    if archives == [] {
      assert [a][1..] == [] && [] + [a] == [a];
      assert a.file + [] == a.file;
    } else {
      assert (archives + [a])[1..] == archives[1..] + [a];
      StoredAppend(archives[1..], a);
    }
  }

  lemma {:induction false} TotalSizeInsert(archives: seq<Archive>, p: nat, a: Archive)
    requires p <= |archives|
    ensures TotalSize(archives[..p] + [a] + archives[p..]) == TotalSize(archives) + a.size
  {
    var s := archives[..p] + [a] + archives[p..];
    if p == 0 {
      assert s[1..] == archives;
    } else {
      assert s[1..] == archives[1..][..p - 1] + [a] + archives[1..][p - 1..];
      TotalSizeInsert(archives[1..], p - 1, a);
    }
  }

  lemma SortedInsert(archives: seq<Archive>, p: nat, a: Archive, next: nat, newNext: nat)
    requires p <= |archives| && Numbered(archives, next) && Accounted(archives) && a.size == Size(a.file)
    requires next <= newNext && a.sequence < newNext
    requires forall i :: p <= i < |archives| ==> archives[i].sequence > a.sequence
    requires p > 0 ==> archives[p - 1].sequence <= a.sequence
    ensures Numbered(archives[..p] + [a] + archives[p..], newNext)
    ensures Accounted(archives[..p] + [a] + archives[p..])
    ensures multiset(archives[..p] + [a] + archives[p..]) == multiset(archives) + multiset{a}
    ensures TotalSize(archives[..p] + [a] + archives[p..]) == TotalSize(archives) + a.size
  {
    hide TotalSize, Size, Accounted, Numbered;
    TotalSizeInsert(archives, p, a);
    var s := archives[..p] + [a] + archives[p..];
    InsertMembers(archives, p, a);
    assert Accounted(s) by { AccountedMembers(archives, s, a); }
    assert Numbered(s, newNext) by { NumberedInsert(archives, p, a, s, next, newNext); }
  }

  lemma InsertMembers(archives: seq<Archive>, p: nat, a: Archive)
    requires p <= |archives|
    ensures multiset(archives[..p] + [a] + archives[p..]) == multiset(archives) + multiset{a}
    ensures forall b :: b in archives[..p] + [a] + archives[p..] ==> b == a || b in archives
  {
    var before, after := archives[..p], archives[p..];
    assert archives == before + after;
  }

  lemma AccountedMembers(archives: seq<Archive>, s: seq<Archive>, a: Archive)
    requires Accounted(archives) && a.size == Size(a.file)
    requires forall b :: b in s ==> b == a || b in archives
    ensures Accounted(s)
  {}

  lemma NumberedInsert(archives: seq<Archive>, p: nat, a: Archive, s: seq<Archive>, next: nat, newNext: nat)
    requires p <= |archives| && Numbered(archives, next)
    requires next <= newNext && a.sequence < newNext
    requires forall i :: p <= i < |archives| ==> archives[i].sequence > a.sequence
    requires p > 0 ==> archives[p - 1].sequence <= a.sequence
    requires s == archives[..p] + [a] + archives[p..]
    requires forall b :: b in s ==> b == a || b in archives
    ensures Numbered(s, newNext)
  {
    forall i, k | 0 <= i < k < |s| ensures s[i].sequence <= s[k].sequence {
      if k < p {
        assert s[i] == archives[i] && s[k] == archives[k];
      } else if i < p {
        assert s[i] == archives[i] && archives[i].sequence <= archives[p - 1].sequence;
        if k > p { assert s[k] == archives[k - 1]; }
      } else if i == p {
        assert s[i] == a && s[k] == archives[k - 1];
      } else {
        assert s[i] == archives[i - 1] && s[k] == archives[k - 1];
      }
    }
  }

  lemma SizeAppend(records: seq<Record>, r: Record)
    ensures Size(records + [r]) == Size(records) + |r|
  {
    assert (records + [r])[..|records|] == records;
  }

  lemma SuffixDrops(s: seq<Record>, t: seq<Record>, whole: seq<Record>)
    requires IsSuffix(s + t, whole)
    ensures IsSuffix(t, whole)
  {
    var lost :| whole == lost + (s + t);
    assert whole == (lost + s) + t;
  }

  lemma SuffixGrows(s: seq<Record>, whole: seq<Record>, x: Record)
    requires IsSuffix(s, whole)
    ensures IsSuffix(s + [x], whole + [x])
  {
    var lost :| whole == lost + s;
    assert whole + [x] == lost + (s + [x]);
  }

  // Compaction of an oversized active file.

  predicate StartsRecord(bytes: seq<Byte>, t: int) {
    0 < t <= |bytes| && bytes[t - 1] == NEWLINE
  }

  /** The position from which compaction keeps the file. */
  ghost predicate IsCompactionStart(bytes: seq<Byte>, limit: nat, start: nat) {
    && start <= |bytes| <= start + limit
    && (start == |bytes| || StartsRecord(bytes, start))
    && forall t :: StartsRecord(bytes, t) && |bytes| - limit <= t ==> start <= t
  }

  /** What compaction keeps is the longest suffix within the limit that starts right after
      a newline, and nothing exactly when no such non-empty suffix exists. */
  lemma CompactionKeepsLongestSuffix(bytes: seq<Byte>, limit: nat, start: nat)
    requires limit < |bytes| && IsCompactionStart(bytes, limit, start)
    ensures |bytes[start..]| <= limit
    ensures bytes[start..] == [] || StartsRecord(bytes, start)
    ensures forall t :: StartsRecord(bytes, t) && |bytes[t..]| <= limit ==> |bytes[t..]| <= |bytes[start..]|
    ensures bytes[start..] == [] <==> forall t :: StartsRecord(bytes, t) && |bytes[t..]| <= limit ==> bytes[t..] == []
  {
    if bytes[start..] != [] {
      assert StartsRecord(bytes, start);
    }
  }

  /** The scan of compact_oversized_active, block by block. */
  method CompactionStart(bytes: seq<Byte>, limit: nat) returns (start: nat)
    requires limit < |bytes|
    ensures IsCompactionStart(bytes, limit, start)
  {
    start := |bytes| - limit;
    if bytes[start - 1] == NEWLINE { return; }
    ghost var first := start;
    var cursor := start;
    var found := false;
    while cursor < |bytes| && !found
      invariant first <= cursor <= |bytes|
      invariant !found ==> start == first && NoStartIn(bytes, first, cursor)
      invariant found ==> IsCompactionStart(bytes, limit, start)
      decreases |bytes| - cursor, if found then 0 else 1
    {
      var count := if |bytes| - cursor < SCAN_BLOCK then |bytes| - cursor else SCAN_BLOCK;
      var position := 0;
      while position < count && bytes[cursor + position] != NEWLINE
        invariant position <= count
        invariant NoStartIn(bytes, first, cursor + position)
      {
        position := position + 1;
      }
      if position < count {
        start := cursor + position + 1;
        found := true;
      }
      cursor := cursor + count;
    }
    if !found { start := |bytes|; }
  }

  ghost predicate NoStartIn(bytes: seq<Byte>, first: int, last: int) {
    forall t :: first <= t <= last ==> !StartsRecord(bytes, t)
  }

  /** The size at which the active file is rotated. */
  function SegmentTarget(limit: nat): (target: nat)
    ensures limit > 0 ==> 0 < target <= limit
    ensures limit < 32 ==> target == 1
    ensures 32 <= limit < 16 * 134217728 ==> 16 * target <= limit < 16 * (target + 1)
    ensures limit >= 16 * 134217728 ==> target == 134217728
  {
    var share := if 1 > limit / 16 then 1 else limit / 16;
    if MAX_SEGMENT < share then MAX_SEGMENT else share
  }

  /** The number after the highest, or 1 without archives. */
  ghost predicate IsNextFree(listing: seq<Archive>, next: nat) {
    && (forall a :: a in listing ==> a.sequence < next)
    && (next == 1 || exists a :: a in listing && a.sequence + 1 == next)
  }

  lemma NextFreeGrows(listing: seq<Archive>, i: nat, next: nat, more: nat)
    requires i < |listing| && IsNextFree(listing[..i], next)
    requires more == if listing[i].sequence + 1 > next then listing[i].sequence + 1 else next
    ensures IsNextFree(listing[..i + 1], more)
  {
    assert listing[..i + 1] == listing[..i] + [listing[i]];
    assert listing[i] in listing[..i + 1];
  }

  /** No archive has the last sequence number. */
  ghost predicate Unexhausted(listing: seq<Archive>) {
    forall a :: a in listing ==> a.sequence != MAX_UINT64
  }

  lemma NoneExhausted()
    ensures Unexhausted([]) && IsNextFree([], 1)
  {}

  lemma NextListed(listing: seq<Archive>, i: nat)
    requires i < |listing|
    ensures multiset(listing[..i + 1]) == multiset(listing[..i]) + multiset{listing[i]}
    ensures Unexhausted(listing[..i + 1]) <==> Unexhausted(listing[..i]) && listing[i].sequence != MAX_UINT64
    ensures listing[i].sequence == MAX_UINT64 ==> !Unexhausted(listing)
  {
    assert listing[..i + 1] == listing[..i] + [listing[i]];
    assert listing[i] in listing;
  }

  function AsRecords(bytes: seq<Byte>): seq<Record> {
    if bytes == [] then [] else [bytes]
  }

  class FileLogSink {
    const maxTotalSize: nat
    var segmentTargetSize: nat
    var activeSize: nat
    var managedSize: nat
    var nextArchiveSequence: nat
    var archives: seq<Archive>
    /** The active file, and which of the coming I/O operations fail. */
    var active: seq<Record>
    var faults: seq<bool>
    /** Everything ever stored, including what retention has removed. */
    ghost var history: seq<Record>

    ghost predicate Valid()
      reads this
    {
      && segmentTargetSize <= maxTotalSize
      && activeSize == Size(active) <= maxTotalSize
      && Counted()
      && IsSuffix(Retained(), history)
    }

    ghost predicate Counted()
      reads this
    {
      && managedSize == activeSize + TotalSize(archives)
      && Accounted(archives)
      && Numbered(archives, nextArchiveSequence) && 1 <= nextArchiveSequence <= MAX_UINT64
    }

    /** The records still on disk, oldest first. */
    ghost function Retained(): seq<Record>
      reads this
    {
      Stored(archives) + active
    }

    constructor (maxTotalSize: nat, faults: seq<bool>)
      ensures this.maxTotalSize == maxTotalSize && this.faults == faults && archives == []
    {
      this.maxTotalSize, this.faults := maxTotalSize, faults;
      segmentTargetSize, activeSize, managedSize, nextArchiveSequence := 0, 0, 0, 1;
      archives, active, history := [], [], [];
    }

    /** One file operation. */
    method Io() returns (ok: bool)
      modifies this`faults
      ensures old(faults) == [] ==> ok && faults == []
    {
      ok := faults == [] || !faults[0];
      faults := if faults == [] then [] else faults[1..];
    }

    /** prune_archives: the error about the active file cannot be reached. */
    method PruneArchives() returns (ok: bool, error: SinkError)
      requires Valid()
      modifies this`archives, this`managedSize, this`faults
      ensures Valid()
      ensures ok ==> managedSize <= maxTotalSize && error == NoError
      ensures ok ==> archives == Pruned(old(archives), old(managedSize), maxTotalSize)
      ensures !ok ==> error == IoFailure
      ensures old(faults) == [] ==> ok && faults == []
    {
      hide Accounted, Numbered, IsSuffix, TotalSize, Stored, Size;
      while managedSize > maxTotalSize && archives != []
        invariant Valid()
        invariant Pruned(archives, managedSize, maxTotalSize) == Pruned(old(archives), old(managedSize), maxTotalSize)
        invariant old(faults) == [] ==> faults == []
        decreases |archives|
      {
        var oldest := archives[0];
        var removed := Io();
        if !removed { return false, IoFailure; }
        DropOldest(archives, nextArchiveSequence);
        assert Retained() == oldest.file + (Stored(archives[1..]) + active);
        SuffixDrops(oldest.file, Stored(archives[1..]) + active, history);
        archives := archives[1..];
        managedSize := managedSize - oldest.size;
      }
      if managedSize > maxTotalSize {
        NoArchives();
        assert false;
      }
      return true, NoError;
    }

    /** rotate. */
    method Rotate() returns (ok: bool, error: SinkError)
      requires Valid()
      modifies this`archives, this`active, this`activeSize, this`nextArchiveSequence, this`faults
      ensures Valid() && Retained() == old(Retained())
      ensures ok ==> active == [] && activeSize == 0 && error == NoError && nextArchiveSequence == old(nextArchiveSequence) + 1
      ensures ok ==> archives == old(archives) + [Archive(old(nextArchiveSequence), old(activeSize), old(active))]
      ensures !ok ==> error == (if old(nextArchiveSequence) == MAX_UINT64 then SequenceExhausted else IoFailure)
      ensures old(faults) == [] ==> faults == [] && ok == (old(nextArchiveSequence) != MAX_UINT64)
    {
      hide Accounted, Numbered, IsSuffix, TotalSize, Stored, Size;
      if nextArchiveSequence == MAX_UINT64 { return false, SequenceExhausted; }
      var flushed := Io();
      if !flushed { return false, IoFailure; }
      var closed := Io();
      if !closed { return false, IoFailure; }
      var renamed := Io();
      if !renamed { return false, IoFailure; }
      var a := Archive(nextArchiveSequence, activeSize, active);
      AppendArchive(archives, a);
      assert Stored(archives) + active == Stored(archives + [a]) + [];
      archives := archives + [a];
      nextArchiveSequence := nextArchiveSequence + 1;
      active, activeSize := [], 0;
      var reopened := Io();
      if !reopened { return false, IoFailure; }
      return true, NoError;
    }

    /** write. The record goes behind the active file while both fit a segment, or when the
        file is empty; otherwise the active file becomes the newest archive first. */
    method Write(data: Record) returns (ok: bool, error: SinkError)
      requires Valid()
      modifies this`archives, this`active, this`activeSize, this`managedSize
      modifies this`nextArchiveSequence, this`faults, this`history
      ensures Valid()
      ensures ok ==> managedSize <= maxTotalSize && error == NoError
      ensures ok ==> history == old(history) + [data] && active != [] && active[|active| - 1] == data
      ensures ok && (old(activeSize) == 0 || old(activeSize) + |data| <= segmentTargetSize) ==>
        && active == old(active) + [data] && nextArchiveSequence == old(nextArchiveSequence)
        && archives == Pruned(old(archives), old(managedSize) + |data|, maxTotalSize)
      ensures ok && old(activeSize) != 0 && old(activeSize) + |data| > segmentTargetSize ==>
        && active == [data] && nextArchiveSequence == old(nextArchiveSequence) + 1
        && archives == Pruned(old(archives) + [Archive(old(nextArchiveSequence), old(activeSize), old(active))],
                              old(managedSize) + |data|, maxTotalSize)
      ensures !ok ==> error in {RecordTooLarge, SequenceExhausted, IoFailure}
      ensures error == RecordTooLarge <==> |data| > maxTotalSize
      ensures error == SequenceExhausted ==> old(nextArchiveSequence) == MAX_UINT64
      ensures old(faults) == [] && |data| <= maxTotalSize && old(nextArchiveSequence) != MAX_UINT64 ==> ok && faults == []
      ensures |data| > maxTotalSize ==> managedSize == old(managedSize) && Retained() == old(Retained())
    {
      hide Accounted, Numbered, IsSuffix, TotalSize, Stored, Size, Pruned;
      if |data| > maxTotalSize { return false, RecordTooLarge; }
      if activeSize != 0 && activeSize + |data| > segmentTargetSize {
        ok, error := Rotate();
        if !ok { return; }
      }
      ok, error := Append(data);
    }

    /** The second half of write: the record goes behind the active file, and retention
        makes room for it. */
    method Append(data: Record) returns (ok: bool, error: SinkError)
      requires Valid() && activeSize + |data| <= maxTotalSize
      modifies this`archives, this`active, this`activeSize, this`managedSize, this`faults, this`history
      ensures Valid()
      ensures ok ==> managedSize <= maxTotalSize && error == NoError
      ensures ok ==> history == old(history) + [data] && active == old(active) + [data]
      ensures ok ==> archives == Pruned(old(archives), old(managedSize) + |data|, maxTotalSize)
      ensures !ok ==> error == IoFailure
      ensures old(faults) == [] ==> ok && faults == []
    {
      hide Accounted, Numbered, IsSuffix, TotalSize, Stored, Size, Pruned;
      ok := Io();
      if !ok { return false, IoFailure; }
      SizeAppend(active, data);
      SuffixGrows(Retained(), history, data);
      assert Stored(archives) + (active + [data]) == Retained() + [data];
      active, history := active + [data], history + [data];
      activeSize := activeSize + |data|;
      managedSize := managedSize + |data|;
      if managedSize > maxTotalSize {
        ok := Io();
        if !ok { return false, IoFailure; }
      }
      ok, error := PruneArchives();
    }

    /** open: scan the directory, compact an oversized active file, apply the bound. The
        listing is in directory order; existing holds the bytes of the active file. */
    method Open(existing: seq<Byte>, listing: seq<Archive>) returns (ok: bool, error: SinkError)
      requires Accounted(listing)
      requires forall a :: a in listing ==> 1 <= a.sequence <= MAX_UINT64
      modifies this
      ensures ok ==> Valid() && managedSize <= maxTotalSize && error == NoError
      ensures ok ==> Opened(existing, listing)
      ensures ok && maxTotalSize < 32 ==> segmentTargetSize == 1
      ensures ok && 32 <= maxTotalSize < 16 * 134217728 ==> segmentTargetSize == maxTotalSize / 16
      ensures ok && maxTotalSize >= 16 * 134217728 ==> segmentTargetSize == 134217728
      ensures maxTotalSize == 0 <==> error == ZeroLimit
      ensures !ok ==> error in {ZeroLimit, IoFailure, SequenceExhausted}
      ensures error == SequenceExhausted ==> !Unexhausted(listing)
      ensures old(faults) == [] && maxTotalSize > 0 ==> (ok <==> Unexhausted(listing))
    {
      hide Accounted, Numbered, IsSuffix, TotalSize, Stored, Size, Pruned, SegmentTarget;
      hide FoundSorted, KeptActive, Opened, AsRecords, Unexhausted;
      if maxTotalSize == 0 { return false, ZeroLimit; }
      segmentTargetSize := SegmentTarget(maxTotalSize);
      var locked := Io();
      if !locked { return false, IoFailure; }
      ok, error := ScanExisting(existing, listing);
      if !ok { return; }
      ghost var bytes;
      ok, error, bytes := CompactOversizedActive(existing);
      if !ok { return; }
      history := Retained();
      SuffixOfItself(history);
      ghost var all := archives;
      ok, error := PruneArchives();
      if !ok { return; }
      var appending := Io();
      if !appending { return false, IoFailure; }
      Remember(existing, listing, all, bytes);
    }

    /** compact_oversized_active; what it keeps is returned as well. */
    method CompactOversizedActive(existing: seq<Byte>) returns (ok: bool, error: SinkError, ghost kept: seq<Byte>)
      requires Counted() && active == AsRecords(existing) && activeSize == |existing|
      modifies this`active, this`activeSize, this`managedSize, this`faults
      ensures Counted()
      ensures ok ==> KeptActive(existing, maxTotalSize, kept) && active == AsRecords(kept)
      ensures ok ==> activeSize == |kept| == Size(active) <= maxTotalSize && error == NoError
      ensures !ok ==> error == IoFailure
      ensures old(faults) == [] ==> ok && faults == []
    {
      hide Accounted, Numbered, TotalSize, Size, IsCompactionStart;
      kept := existing;
      AsRecordsSize(kept);
      if activeSize <= maxTotalSize { return true, NoError, kept; }
      var read := Io();
      if !read { return false, IoFailure, kept; }
      var start := CompactionStart(existing, maxTotalSize);
      CompactionFits(existing, maxTotalSize, start);
      var replaced := Io();
      if !replaced { return false, IoFailure, kept; }
      kept := existing[start..];
      AsRecordsSize(kept);
      active := AsRecords(existing[start..]);
      activeSize := |existing| - start;
      managedSize := managedSize - (|existing| - activeSize);
      return true, NoError, kept;
    }

    /** What open leaves: the compacted active file and the newest archives that fit. */
    ghost predicate Opened(existing: seq<Byte>, listing: seq<Archive>)
      reads this
    {
      exists all: seq<Archive>, bytes: seq<Byte> ::
        && FoundSorted(all, listing) && KeptActive(existing, maxTotalSize, bytes)
        && active == AsRecords(bytes)
        && archives == Pruned(all, |bytes| + TotalSize(all), maxTotalSize)
        && history == Stored(all) + active
    }

    lemma Remember(existing: seq<Byte>, listing: seq<Archive>, all: seq<Archive>, bytes: seq<Byte>)
      requires FoundSorted(all, listing) && KeptActive(existing, maxTotalSize, bytes)
      requires active == AsRecords(bytes)
      requires archives == Pruned(all, |bytes| + TotalSize(all), maxTotalSize)
      requires history == Stored(all) + active
      ensures Opened(existing, listing)
    {
      hide Stored, TotalSize, Pruned, FoundSorted, KeptActive, AsRecords;
    }

    /** scan_existing, without the stale compaction files it deletes. */
    method ScanExisting(existing: seq<Byte>, listing: seq<Archive>) returns (ok: bool, error: SinkError)
      requires Accounted(listing)
      requires forall a :: a in listing ==> 1 <= a.sequence <= MAX_UINT64
      modifies this
      ensures segmentTargetSize == old(segmentTargetSize)
      ensures ok ==> Counted() && FoundSorted(archives, listing) && error == NoError
      ensures ok ==> IsNextFree(listing, nextArchiveSequence)
      ensures ok ==> active == AsRecords(existing) && activeSize == |existing| == Size(active)
      ensures !ok ==> error in {IoFailure, SequenceExhausted}
      ensures error == SequenceExhausted ==> !Unexhausted(listing)
      ensures old(faults) == [] ==> faults == []
      ensures old(faults) == [] ==> (ok <==> Unexhausted(listing))
    {
      assert Accounted([]) && Numbered([], 1);
      assert forall a :: a in listing ==> a.size == Size(a.file);
      hide Accounted, Numbered, IsSuffix, TotalSize, Size, Stored, FoundSorted, AsRecords, Unexhausted;
      AsRecordsSize(existing);
      archives, nextArchiveSequence := [], 1;
      active, activeSize, managedSize := AsRecords(existing), |existing|, |existing|;
      var inspected := Io();
      if !inspected { return false, IoFailure; }
      ok, error := ScanListing(listing);
      if ok { SortedIsFound(archives, listing, nextArchiveSequence); }
    }

    /** The directory, entry by entry. */
    method ScanListing(listing: seq<Archive>) returns (ok: bool, error: SinkError)
      requires Counted() && archives == [] && nextArchiveSequence == 1
      requires forall a :: a in listing ==> a.size == Size(a.file) && 1 <= a.sequence <= MAX_UINT64
      modifies this`archives, this`managedSize, this`nextArchiveSequence, this`faults
      ensures ok ==> Counted() && multiset(archives) == multiset(listing) && Unexhausted(listing) && error == NoError
      ensures ok ==> IsNextFree(listing, nextArchiveSequence)
      ensures !ok ==> error in {IoFailure, SequenceExhausted}
      ensures error == SequenceExhausted ==> !Unexhausted(listing)
      ensures old(faults) == [] ==> faults == [] && (ok <==> Unexhausted(listing))
    {
      hide Accounted, Numbered, TotalSize, Size, Unexhausted, IsNextFree;
      assert Unexhausted(listing[..0]) && IsNextFree(listing[..0], 1) by { NoneExhausted(); }
      for i := 0 to |listing|
        invariant Counted() && multiset(archives) == multiset(listing[..i])
        invariant Unexhausted(listing[..i]) && IsNextFree(listing[..i], nextArchiveSequence)
        invariant old(faults) == [] ==> faults == []
      {
        NextListed(listing, i);
        var listed := Io();
        if !listed { return false, IoFailure; }
        ghost var next := nextArchiveSequence;
        ok, error := ScanArchive(listing[i]);
        if !ok { return; }
        NextFreeGrows(listing, i, next, nextArchiveSequence);
      }
      assert listing[..|listing|] == listing;
      return true, NoError;
    }

    /** One archive of the directory. */
    method ScanArchive(a: Archive) returns (ok: bool, error: SinkError)
      requires Counted() && a.size == Size(a.file) && 1 <= a.sequence <= MAX_UINT64
      modifies this`archives, this`managedSize, this`nextArchiveSequence
      ensures multiset(archives) == multiset(old(archives)) + multiset{a}
      ensures ok ==> nextArchiveSequence == if a.sequence + 1 > old(nextArchiveSequence) then a.sequence + 1 else old(nextArchiveSequence)
      ensures ok <==> a.sequence != MAX_UINT64
      ensures ok ==> Counted() && error == NoError
      ensures !ok ==> error == SequenceExhausted
    {
      hide Accounted, Numbered, TotalSize, Size;
      var next := if nextArchiveSequence < a.sequence + 1 then a.sequence + 1 else nextArchiveSequence;
      InsertArchive(a, next);
      managedSize := managedSize + a.size;
      if a.sequence == MAX_UINT64 { return false, SequenceExhausted; }
      nextArchiveSequence := next;
      return true, NoError;
    }

    /** push_back and the sort by sequence, as an insertion. */
    method InsertArchive(a: Archive, ghost next: nat)
      requires Numbered(archives, nextArchiveSequence) && Accounted(archives) && a.size == Size(a.file)
      requires nextArchiveSequence <= next && a.sequence < next
      modifies this`archives
      ensures Numbered(archives, next) && Accounted(archives)
      ensures multiset(archives) == multiset(old(archives)) + multiset{a}
      ensures TotalSize(archives) == TotalSize(old(archives)) + a.size
    {
      hide Accounted, Numbered, TotalSize, Size;
      var p := |archives|;
      while p > 0 && archives[p - 1].sequence > a.sequence
        invariant 0 <= p <= |archives|
        invariant forall i :: p <= i < |archives| ==> archives[i].sequence > a.sequence
      {
        p := p - 1;
      }
      SortedInsert(archives, p, a, nextArchiveSequence, next);
      archives := archives[..p] + [a] + archives[p..];
    }

    lemma NoArchives()
      requires Valid() && archives == []
      ensures managedSize <= maxTotalSize
    {}
  }

  ghost predicate FoundSorted(all: seq<Archive>, listing: seq<Archive>) {
    && multiset(all) == multiset(listing)
    && forall i, k :: 0 <= i < k < |all| ==> all[i].sequence <= all[k].sequence
  }

  /** The bytes of the active file after open. */
  ghost predicate KeptActive(existing: seq<Byte>, limit: nat, kept: seq<Byte>) {
    if |existing| <= limit then kept == existing
    else exists start: nat :: IsCompactionStart(existing, limit, start) && kept == existing[start..]
  }

  lemma CompactionFits(bytes: seq<Byte>, limit: nat, start: nat)
    requires limit < |bytes| && IsCompactionStart(bytes, limit, start)
    ensures start <= |bytes| <= start + limit
    ensures KeptActive(bytes, limit, bytes[start..])
  {}

  lemma SortedIsFound(all: seq<Archive>, listing: seq<Archive>, next: nat)
    requires Numbered(all, next) && multiset(all) == multiset(listing)
    ensures FoundSorted(all, listing)
  {}

  lemma AsRecordsSize(bytes: seq<Byte>)
    ensures Size(AsRecords(bytes)) == |bytes|
  {
    SizeAppend([], bytes);
    assert [] + [bytes] == [bytes];
  }

  lemma SuffixOfItself(s: seq<Record>)
    ensures IsSuffix(s, s)
  {
    assert s == [] + s;
  }
}
