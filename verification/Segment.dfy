/** internal/log/segment.go: a store and an index kept in step. */
module Segments {
  import opened Bytes
  import opened Codec
  import opened Framing
  import opened IndexFile
  import opened StoreFile
  import opened Disks
  import opened Layouts

  /** The index a segment keeps for its records: relative offsets and frame positions. */
  function Entries(rs: seq<Record>): (es: seq<Entry>)
    ensures |es| == |rs|
    ensures forall k | 0 <= k < |rs| :: es[k] == Entry(k, |RecordFrames(rs[..k])|)
  {
    seq(|rs|, k requires 0 <= k < |rs| => Entry(k, |RecordFrames(rs[..k])|))
  }

  lemma EntriesSnoc(rs: seq<Record>, r: Record)
    ensures Entries(rs + [r]) == Entries(rs) + [Entry(|rs|, |RecordFrames(rs)|)]
  {
    assert (rs + [r])[..|rs|] == rs;
    forall k | 0 <= k < |rs| ensures (rs + [r])[..k] == rs[..k] {
    }
  }

  lemma EntriesFit(rs: seq<Record>)
    requires |rs| <= U32 && |RecordFrames(rs)| < U64
    ensures Fits(Entries(rs))
  {
    hide RecordFrames;
    forall k | 0 <= k < |rs| ensures |RecordFrames(rs[..k])| < U64 {
      assert rs == rs[..k] + rs[k..];
      RecordFramesConcat(rs[..k], rs[k..]);
    }
  }

  /** Store bytes and index entries that agree on the records they hold. */
  ghost predicate Coherent(data: seq<byte>, es: seq<Entry>, base: nat, rs: seq<Record>, orphans: seq<byte>) {
    && es == Entries(rs)
    && data == RecordFrames(rs) + orphans
    && Stamped(base, rs)
  }

  /** What a segment's file still delivers from its own position when its first `kept` records were there when
      it was opened: those, or nothing once it has been written to or copied. */
  ghost predicate Deliverable(unread: seq<byte>, data: seq<byte>, rs: seq<Record>, kept: nat, orphans: seq<byte>)
    requires kept <= |rs|
  {
    && (unread == [] || unread == RecordFrames(rs[..kept]))
    && (kept == |rs| && orphans == [] ==> unread == data)
  }

  /** How many of n records from `base` on lie below `mark`. */
  function Below(base: nat, n: nat, mark: nat): (k: nat)
    ensures k <= n
  {
    if mark <= base then 0 else if mark - base <= n then mark - base else n
  }

  lemma DeliverableOpen(rs: seq<Record>, base: nat, mark: nat)
    requires rs == [] || base + |rs| <= mark
    ensures Deliverable(RecordFrames(rs), RecordFrames(rs), rs, Below(base, |rs|, mark), [])
  {
    hide RecordFrames;
    assert rs[..|rs|] == rs;
  }

  /** An append puts the last record out of reach of a copy and leaves the earlier ones so or not. */
  lemma DeliverableAppend(unread: seq<byte>, was: seq<byte>, data: seq<byte>, data': seq<byte>, rs: seq<Record>,
                          r: Record, base: nat, mark: nat, mark': nat, orphans: seq<byte>, p: seq<byte>)
    requires Deliverable(was, data, rs, Below(base, |rs|, mark), orphans) && (unread == [] || unread == was)
    requires mark' == if mark <= base + |rs| then mark else base + |rs|
    ensures Deliverable(unread, data', rs + [r], Below(base, |rs + [r]|, mark'), orphans)
    ensures Deliverable(unread, data', rs, Below(base, |rs|, mark'), orphans + Frame(p))
  {
    hide RecordFrames;
    var kept := Below(base, |rs|, mark);
    assert kept == Below(base, |rs|, mark') == Below(base, |rs + [r]|, mark');
    assert (rs + [r])[..kept] == rs[..kept];
  }

  lemma CoherentOpen(base: nat, rs: seq<Record>)
    requires Stamped(base, rs)
    ensures Coherent(RecordFrames(rs), Entries(rs), base, rs, [])
  {
    assert RecordFrames(rs) + [] == RecordFrames(rs);
  }

  /** Frame first, entry second: together they add one record. */
  lemma CoherentAppend(data: seq<byte>, es: seq<Entry>, base: nat, rs: seq<Record>, r: Record)
    requires Coherent(data, es, base, rs, []) && r.offset == base + |rs| && Storable(r)
    ensures Coherent(data + Frame(Marshal(r)), es + [Entry(|rs|, |data|)], base, rs + [r], [])
  {
    hide RecordFrames, Entries, Frame, Marshal;
    EntriesSnoc(rs, r);
    RecordFramesSnoc(rs, r);
    assert data == RecordFrames(rs);
  }

  /** A frame the index refused is an orphan. */
  lemma CoherentOrphan(data: seq<byte>, es: seq<Entry>, base: nat, rs: seq<Record>, orphans: seq<byte>, p: seq<byte>)
    requires Coherent(data, es, base, rs, orphans)
    ensures Coherent(data + Frame(p), es, base, rs, orphans + Frame(p))
  {
    hide RecordFrames, Entries, Stamped, Frame;
    assert data + Frame(p) == RecordFrames(rs) + (orphans + Frame(p));
  }

  /** The k-th entry leads to the k-th record, whatever the orphans. */
  lemma CoherentRead(data: seq<byte>, es: seq<Entry>, base: nat, rs: seq<Record>, orphans: seq<byte>, k: nat)
    requires Coherent(data, es, base, rs, orphans) && k < |es|
    ensures |es| == |rs|
    ensures ReadFrame(data, es[k].pos) == Ok(Marshal(rs[k])) && Unmarshal(Marshal(rs[k])) == Ok(rs[k])
  {
    hide RecordFrames, Marshal, Unmarshal, ReadFrame;
    RecordFrameAt(rs, k, orphans);
    MarshalRoundTrip(rs[k]);
  }

  /** The two closed files of a segment holding rs. */
  ghost predicate SegmentFiles(files: map<string, seq<byte>>, base: nat, rs: seq<Record>) {
    && StoreName(base) in files && files[StoreName(base)] == RecordFrames(rs)
    && IndexName(base) in files && files[IndexName(base)] == IndexBytes(Entries(rs))
  }

  lemma EmptyFiles()
    ensures RecordFrames([]) == [] && Entries([]) == [] && IndexBytes([]) == []
  {
  }

  lemma NothingStored(data: seq<byte>, es: seq<Entry>, base: nat, rs: seq<Record>, orphans: seq<byte>)
    requires Coherent(data, es, base, rs, orphans)
    ensures rs == [] && orphans == [] ==> data == []
  {
  }

  /** A segment's files are there with its records, or not there yet and it has none. */
  ghost predicate Openable(files: map<string, seq<byte>>, base: nat, rs: seq<Record>) {
    || SegmentFiles(files, base, rs)
    || (rs == [] && StoreName(base) !in files && IndexName(base) !in files)
  }

  method OpenFiles(disk: Disk, base: u64, ghost rs: seq<Record>) returns (stored: seq<byte>, indexed: seq<byte>)
    requires Openable(disk.files, base, rs)
    modifies disk`files
    ensures stored == RecordFrames(rs) && indexed == IndexBytes(Entries(rs))
    ensures disk.files == old(disk.files)[StoreName(base) := stored][IndexName(base) := indexed]
  {
    hide StoreName, IndexName, RecordFrames, Entries, IndexBytes;
    NamesParse(base);
    EmptyFiles();
    stored := disk.OpenOrCreate(StoreName(base));
    indexed := disk.OpenOrCreate(IndexName(base));
  }

  /** The 64-bit arithmetic of Segment.Read: the difference wraps and is then taken as signed. */
  function Relative(off: u64, base: u64): int {
    var d := (off - base) % U64;
    if d < 0x8000_0000_0000_0000 then d else d - U64
  }

  class Segment {
    const store: Store
    const index: Index
    const base: u64
    const config: Config
    var next: nat

    ghost var records: seq<Record>  // the records with an index entry
    ghost var orphans: seq<byte>    // store bytes after them, left by an append the index refused
    ghost var mark: nat             // records from this offset on are out of reach of a copy of the file

    ghost predicate Valid()
      reads this, store, index, index.mmap
    {
      && store.Valid() && index.Valid()
      && GoodConfig(config) && index.mmap.Length == config.maxIndex
      && |index.entries| == |records|
      && Coherent(store.Data(), index.entries, base, records, orphans)
      && next == base + |records| < U64
      && (orphans != [] ==> index.IsMaxed())
      && Deliverable(store.Unread(), store.Data(), records, Below(base, |records|, mark), orphans)
    }

    /** No heap location is shared by two segments. */
    ghost predicate Apart(other: Segment) {
      && this != other && store != other.store && index != other.index
      && index.mmap != other.index.mmap
    }

    /** newSegment: opens or creates the two files; the next offset comes from the last entry. */
    constructor (disk: Disk, base: u64, config: Config, ghost rs: seq<Record>, ghost mark: nat)
      requires GoodConfig(config) && Stamped(base, rs) && base + |rs| < U64
      requires |RecordFrames(rs)| < U64 && ENT_WIDTH * |rs| <= config.maxIndex
      requires Openable(disk.files, base, rs) && (rs == [] || base + |rs| <= mark)
      modifies disk`files
      ensures Valid() && records == rs && orphans == [] && this.mark == mark
      ensures this.base == base && this.config == config
      ensures fresh(store) && fresh(index) && fresh(index.mmap)
      ensures disk.files == old(disk.files)[StoreName(base) := RecordFrames(rs)]
                                           [IndexName(base) := IndexBytes(Entries(rs))]
    {
      hide StoreName, IndexName, RecordFrames, IndexBytes, Coherent, Openable, Deliverable;
      EntriesFit(rs);
      CoherentOpen(base, rs);
      DeliverableOpen(rs, base, mark);
      this.base, this.config := base, config;
      var stored, indexed := OpenFiles(disk, base, rs);
      var ix := new Index(indexed, config.maxIndex, Entries(rs));
      store := new Store(stored);
      index := ix;
      records, orphans, this.mark := rs, [], mark;
      var last := ix.Read(-1);
      next := if last.Err? then base else base + last.value.0 + 1;
    }

    /** Stamps the record with the next offset, writes its frame, then its index entry. With no room
        in the index the frame stays behind as an orphan and the segment's records do not change. */
    method Append(record: Record) returns (r: Result<u64>)
      requires Valid() && Storable(record) && next < U64 - 1 && store.size < 0x8000_0000_0000_0000
      modifies this, store, index, index.mmap
      ensures Valid()
      ensures r == if old(index.IsMaxed()) then Err(EOF) else Ok(old(next))
      ensures r.Ok? ==> records == old(records) + [record.(offset := old(next))] && orphans == old(orphans)
      ensures mark == if old(mark) <= old(next) then old(mark) else old(next)
      ensures r.Err? ==> records == old(records) &&
                         orphans == old(orphans) + Frame(Marshal(record.(offset := old(next))))
    {
      hide Coherent, Marshal, Frame, Index.Valid, Deliverable, Below, Store.Data, Store.Unread;
      var cur := next;
      var stamped := record.(offset := cur);
      var p := Marshal(stamped);
      MarshalRoundTrip(stamped);
      ghost var data := store.Data();
      var _, pos := store.Append(p);
      mark := if mark <= next then mark else next;
      DeliverableAppend(store.Unread(), old(store.Unread()), data, store.Data(), records, stamped, base, old(mark),
                        mark, orphans, p);
      var ok := index.Write((next - base) % U32, pos);
      if !ok {
        CoherentOrphan(data, index.entries, base, records, orphans, p);
        orphans := orphans + Frame(p);
        return Err(EOF);
      }
      CoherentAppend(data, old(index.entries), base, records, stamped);
      records := records + [stamped];
      next := next + 1;
      return Ok(cur);
    }

    method Read(off: u64) returns (r: Result<Record>)
      requires Valid()
      modifies store
      ensures Valid() && store.Data() == old(store.Data())
      ensures r == if records == [] then Err(EOF)
                   else var k := Slot(Relative(off, base), |records|);
                     if k < |records| then Ok(records[k]) else Err(EOF)
    {
      hide Coherent, ReadFrame, Marshal, Unmarshal;
      var at := index.Read(Relative(off, base));
      if at.Err? {
        return Err(at.error);
      }
      CoherentRead(store.Data(), index.entries, base, records, orphans, Slot(Relative(off, base), |records|));
      var p := store.Read(at.value.1);
      match p {
        case Err(e) => r := Err(e);
        case Ok(bytes) => r := Unmarshal(bytes);
      }
    }

    /** io.Copy of the segment's file. Whatever it delivers, the next copy delivers nothing. */
    method CopyOut() returns (bytes: seq<byte>)
      requires Valid()
      modifies this`mark, store`at
      ensures Valid() && mark == 0
      ensures Deliverable(bytes, store.Data(), records, Below(base, |records|, old(mark)), orphans)
    {
      hide Coherent, Index.Valid, RecordFrames;
      bytes := store.CopyOut();
      mark := 0;
      EmptyStream();
      NothingStored(store.Data(), index.entries, base, records, orphans);
    }

    /** With no record below the mark, the mark does not matter. */
    ghost method ForgetMark()
      requires Valid() && mark <= base
      modifies this`mark
      ensures Valid() && mark == 0
    {
      hide Coherent, Index.Valid, Deliverable;
      mark := 0;
    }

    predicate IsMaxed()
      reads this, store, index
    {
      || store.size >= config.maxStore
      || index.size >= config.maxIndex
      || index.IsMaxed()
    }

    /** Closes index then store; their closed files hold exactly the segment's records. */
    method Close(disk: Disk)
      requires Valid()
      modifies store, disk`files
      ensures Valid() && store.Data() == old(store.Data())
      ensures disk.files == old(disk.files)[IndexName(base) := IndexBytes(Entries(records))]
                                           [StoreName(base) := RecordFrames(records) + orphans]
    {
      hide StoreName, IndexName, RecordFrames, Entries, IndexBytes;
      var indexed := index.Close();
      disk.Put(IndexName(base), indexed);
      var stored := store.Close();
      disk.Put(StoreName(base), stored);
    }

    method Remove(disk: Disk)
      requires Valid()
      modifies store, disk`files
      ensures Valid() && store.Data() == old(store.Data())
      ensures disk.files == old(disk.files) - {IndexName(base), StoreName(base)}
    {
      hide StoreName, IndexName, RecordFrames, Entries, IndexBytes;
      Close(disk);
      disk.Delete(IndexName(base));
      disk.Delete(StoreName(base));
    }
  }

  // ----- failing inputs -----

  /** Offsets a segment does not hold and yet answers: just below the base it returns its last record, and 2^32
      beyond a record it returns that record. */
  method AliasedReads(s: Segment, k: nat) returns (below: Result<Record>, beyond: Result<Record>)
    requires s.Valid() && 0 < s.base && k < |s.records| && s.base + U32 + k < U64
    modifies s.store
    ensures s.Valid()
    ensures below == Ok(s.records[|s.records| - 1]) && beyond == Ok(s.records[k])
  {
    hide Relative, Slot, Coherent, Deliverable, RecordFrames;
    ghost var n := |s.records|;
    assert n <= U32;
    AliasedSlots(s.base, n, k);
    below := s.Read(s.base - 1);
    beyond := s.Read(s.base + U32 + k);
  }

  /** Which record any offset at all addresses in a segment of n: the last one just below the base, otherwise the one
      at the distance from the base cut to 32 bits, if there is one. */
  lemma SlotAddressed(off: u64, base: u64, n: nat)
    requires 0 < n <= U32
    ensures Slot(Relative(off, base), n) == if off - base == -1 || off - base == U64 - 1 then n - 1
                                            else (off - base) % U32
  {
    WordsInWords(off - base);
  }

  /** Going round 64 bits does not show in the low 32. */
  lemma WordsInWords(d: int)
    ensures (d % U64) % U32 == d % U32 && (d % U64 - U64) % U32 == d % U32
  {
    var q, r := d / U64, d % U64;
    assert d == U32 * (U32 * q) + r;
    SameRemainder(r, U32 * q);
    SameRemainder(r, -U32);
  }

  lemma SameRemainder(r: int, k: int)
    ensures (U32 * k + r) % U32 == r % U32
  {
    assert U32 * k + r == U32 * (k + r / U32) + r % U32;
  }

  lemma AliasedSlots(base: u64, n: nat, k: nat)
    requires 0 < base && k < n <= U32 && base + U32 + k < U64
    ensures Slot(Relative(base - 1, base), n) == n - 1
    ensures Slot(Relative(base + U32 + k, base), n) == k
  {
    assert (U32 + k) % U32 == k;
  }

  /** An index with room for one entry and two appends: the second fails and leaves its frame in the store. */
  method OrphanFrame(r: Record) returns (s: Segment, result: Result<u64>)
    requires Storable(r)
    ensures s.Valid() && result == Err(EOF) && s.records == [r.(offset := 0)] && |s.index.entries| == 1
    ensures s.store.Data() == RecordFrames(s.records) + Frame(Marshal(r.(offset := 1)))
  {
    hide StoreName, IndexName, RecordFrames, IndexBytes, Frame, Marshal, Segment.Valid;
    EmptyFiles();
    var disk := new Disk();
    s := new Segment(disk, 0, Config(1024, ENT_WIDTH, 0), [], 0);
    SegmentSizes(s);
    result := s.Append(r);
    SegmentSizes(s);
    MarshalRoundTrip(r.(offset := 0));
    RecordFramesSnoc([], r.(offset := 0));
    assert [] + [r.(offset := 0)] == s.records;
    result := s.Append(r);
    SegmentSizes(s);
  }

  lemma SegmentSizes(s: Segment)
    requires s.Valid()
    ensures s.store.Data() == RecordFrames(s.records) + s.orphans && s.store.size == |s.store.Data()|
    ensures |s.index.entries| == |s.records| && s.next == s.base + |s.records|
    ensures s.index.IsMaxed() <==> s.config.maxIndex < ENT_WIDTH * |s.records| + ENT_WIDTH
  {
    hide RecordFrames, Deliverable;
  }
}
