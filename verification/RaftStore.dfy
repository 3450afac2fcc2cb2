/** internal/log/distributed.go, logStore: the log as Raft's own log store. */
module RaftStore {
  import opened Bytes
  import opened Codec
  import opened Layouts
  import opened Logs
  import opened Runs
  import opened Disks
  import opened Images
  import opened Formats

  /** The fields of a raft.Log that the store keeps; LogType is an unsigned byte. */
  datatype Entry = Entry(index: nat, term: u64, kind: byte, data: seq<byte>)

  function ToRecord(e: Entry): Record {
    Record(e.data, 0, e.term, e.kind)
  }

  function FromRecord(r: Record): Entry {
    Entry(r.offset, r.term, r.kind % 256, r.value)
  }

  function FirstIndex(l: Layout): nat {
    l.base
  }

  function LastIndex(l: Layout): nat {
    if l.Next() == 0 then 0 else l.Next() - 1
  }

  function GetLog(l: Layout, index: nat): Result<Entry> {
    match l.Read(index)
    case Ok(r) => Ok(FromRecord(r))
    case Err(e) => Err(e)
  }

  predicate Fitting(l: Layout, batch: seq<Entry>) {
    && l.chunks != [] && l.Next() + |batch| < U64
    && forall i | 0 <= i < |batch| :: |batch[i].data| < MAX_VALUE
  }

  /** StoreLogs: appends the batch in order. The index of an entry is not consulted. */
  function StoreLogs(l: Layout, batch: seq<Entry>): (m: Layout)
    requires l.Valid() && Fitting(l, batch)
    ensures m.Valid() && m.base == l.base && m.full == l.full
    ensures m.Next() == l.Next() + |batch|
    ensures m.Records()[..|l.Records()|] == l.Records()
  {
    if batch == [] then l
    else
      var m := StoreLogs(l, batch[..|batch| - 1]);
      AppendEffect(m, ToRecord(batch[|batch| - 1]));
      m.Append(ToRecord(batch[|batch| - 1]))
  }

  /** The k-th entry of a batch is stored at the k-th offset after the old end, data, term and type each in its own
      field of the record, and is found there. */
  lemma {:induction false} StoredAt(l: Layout, batch: seq<Entry>, k: nat)
    requires l.Valid() && Fitting(l, batch) && k < |batch|
    ensures StoreLogs(l, batch).Read(l.Next() + k)
            == Ok(Record(batch[k].data, (l.Next() + k) % U64, batch[k].term, batch[k].kind))
    ensures GetLog(StoreLogs(l, batch), l.Next() + k) == Ok(batch[k].(index := l.Next() + k))
  {
    hide Layout.Valid, Layout.Append, Layout.Read;
    var before, last := batch[..|batch| - 1], batch[|batch| - 1];
    var m := StoreLogs(l, before);
    AppendReads(m, ToRecord(last), l.Next() + k);
    if k < |before| {
      StoredAt(l, before, k);
    }
  }

  lemma EarlierUnchanged(l: Layout, batch: seq<Entry>, i: nat)
    requires l.Valid() && Fitting(l, batch) && i < l.Next()
    ensures GetLog(StoreLogs(l, batch), i) == GetLog(l, i)
  {
    hide StoreLogs, Concat, Fitting;
    var m := StoreLogs(l, batch);
    if l.base <= i {
      assert m.Records()[..|l.Records()|][i - l.base] == m.Records()[i - l.base];
    }
  }

  /** The entries are numbered on from the store's last index. */
  predicate Consecutive(first: nat, batch: seq<Entry>) {
    forall k | 0 <= k < |batch| :: batch[k].index == first + k
  }

  /** Round trip: a batch numbered from Next comes back at every index, across any rollovers, and no
      earlier index changes its answer. */
  lemma StoreRoundTrip(l: Layout, batch: seq<Entry>)
    requires l.Valid() && Fitting(l, batch) && Consecutive(l.Next(), batch)
    ensures forall k | 0 <= k < |batch| :: GetLog(StoreLogs(l, batch), batch[k].index) == Ok(batch[k])
    ensures forall i: nat | i < l.Next() :: GetLog(StoreLogs(l, batch), i) == GetLog(l, i)
  {
    hide Layout.Valid, StoreLogs, GetLog, Layout.Next, Fitting;
    var m := StoreLogs(l, batch);
    forall k | 0 <= k < |batch| ensures GetLog(m, batch[k].index) == Ok(batch[k]) {
      StoredAt(l, batch, k);
    }
    forall i: nat | i < l.Next() ensures GetLog(m, i) == GetLog(l, i) {
      EarlierUnchanged(l, batch, i);
    }
  }

  /** Raft numbers entries from LastIndex + 1 and derives their count from the two ends. Both agree
      with the log exactly when it does not start empty at offset 0. */
  lemma IndexArithmetic(l: Layout)
    ensures l.Next() == LastIndex(l) + 1 <==> l.base > 0 || l.Records() != []
    ensures |l.Records()| == LastIndex(l) + 1 - FirstIndex(l) <==> l.base > 0 || l.Records() != []
  {
  }

  /** The failing input: a log created at offset 0 that has no record yet claims to end at 0. */
  lemma EmptyAtZero(full: Rule)
    ensures var l := Fresh(full, 0);
            l.Records() == [] && LastIndex(l) + 1 - FirstIndex(l) == 1 && l.Next() != LastIndex(l) + 1
  {
    ConcatSnoc([], []);
    assert Fresh(full, 0).chunks == [] + [[]];
  }

  /** setupRaft sets the store's initial offset to 1: over every legal run from there, truncations and
      reopenings included, the next index is LastIndex + 1 and the count is that of the entries. */
  lemma RaftStoreCounts(full: Rule, ops: seq<Op>)
    requires !full([]) && LegalRun(Fresh(full, 1), ops)
    ensures var l := Run(Fresh(full, 1), ops).0;
            l.Next() == LastIndex(l) + 1 && |l.Records()| == LastIndex(l) + 1 - FirstIndex(l)
  {
    hide Run, Layout.Valid, Concat, Fresh;
    FreshIsValid(full, 1);
    RunKeepsValid(Fresh(full, 1), ops);
    IndexArithmetic(Run(Fresh(full, 1), ops).0);
  }

  /** Raft's way of storing: whatever has happened to a store begun at 1, a batch numbered on from LastIndex + 1
      comes back entry for entry, and no earlier index changes its answer. */
  lemma RaftBatchRoundTrip(full: Rule, ops: seq<Op>, batch: seq<Entry>)
    requires !full([]) && LegalRun(Fresh(full, 1), ops)
    requires var l := Run(Fresh(full, 1), ops).0; Fitting(l, batch) && Consecutive(LastIndex(l) + 1, batch)
    ensures var l := Run(Fresh(full, 1), ops).0;
            && l.Valid()
            && (forall k | 0 <= k < |batch| :: GetLog(StoreLogs(l, batch), batch[k].index) == Ok(batch[k]))
            && (forall i: nat | i <= LastIndex(l) :: GetLog(StoreLogs(l, batch), i) == GetLog(l, i))
  {
    hide Run, Layout.Valid, Concat, Fresh, StoreLogs, GetLog, Fitting, Consecutive, LegalRun;
    FreshIsValid(full, 1);
    RunKeepsValid(Fresh(full, 1), ops);
    RaftStoreCounts(full, ops);
    StoreRoundTrip(Run(Fresh(full, 1), ops).0, batch);
  }

  // ----- DeleteRange -----

  /** DeleteRange truncates at max; min is ignored. */
  function DeleteRange(l: Layout, min: u64, max: u64): Layout {
    Truncate(l, max)
  }

  ghost predicate Live(l: Layout, i: nat) {
    l.base <= i < l.Next()
  }

  /** m is l with exactly the entries from min to max gone. */
  ghost predicate ExactDeletion(l: Layout, m: Layout, min: nat, max: nat) {
    forall i: nat :: Live(m, i) <==> Live(l, i) && !(min <= i <= max)
  }

  /** max + 1 starts a segment. */
  ghost predicate AtBoundary(l: Layout, max: nat) {
    exists i | 0 <= i < |l.chunks| :: l.Start(i) == max + 1
  }

  /** Some live entry is among those to be deleted. */
  predicate Asked(l: Layout, min: nat, max: nat) {
    l.base <= max && min < l.Next() && min <= max && l.Records() != []
  }

  /** Where a truncation that removes something live leaves the first index: at max + 1 exactly on a boundary. */
  lemma FirstAfterDelete(l: Layout, max: u64)
    requires l.Valid() && l.base <= max && max < U64 - 1 && InRange(l, max)
    ensures var m := Truncate(l, max);
            && l.base <= m.base <= max + 1 && m.Next() == l.Next()
            && (m.base == max + 1 <==> AtBoundary(l, max))
  {
    hide Layout.Valid, Truncate, Layout.Start;
    ValidFacts(l);
    assert Limit(max) == max + 1;
    TruncateEffect(l, max);
    var k := DropCount(l.base, l.chunks, max + 1);
    if AtBoundary(l, max) {
      var i :| 0 <= i < |l.chunks| && l.Start(i) == max + 1;
      StartStep(l, k);
      if i < k {
        StartMonotone(l, i, k);
      } else if k < i {
        StartMonotone(l, k + 1, i);
      }
    }
  }

  /** A truncation removes nothing exactly when the first segment reaches beyond its limit. */
  lemma NothingDropped(l: Layout, max: u64)
    requires l.Valid() && InRange(l, max)
    ensures var m := Truncate(l, max);
            && l.base <= m.base && m.Next() == l.Next()
            && (m.base == l.base <==> Limit(max) < l.base + |l.chunks[0]|)
  {
    hide Layout.Valid, Layout.Start, Concat;
    ValidFacts(l);
    StartEnds(l);
    StartStep(l, 0);
    TruncateEffect(l, max);
    var k := DropCount(l.base, l.chunks, Limit(max));
    if k > 0 {
      StartMonotone(l, 0, k);
    }
  }

  lemma FirstNotEmpty(l: Layout)
    requires l.Valid() && l.Records() != []
    ensures l.chunks[0] != []
  {
    if |l.chunks| > 1 {
      assert Sealed(l.full, l.chunks[0]);
    } else {
      assert l.chunks == [] + [l.chunks[0]];
      ConcatSnoc([], l.chunks[0]);
    }
  }

  /** With something live to delete, in range: the range has to begin at or below the first entry and to end
      with a segment. */
  lemma ExactAsked(l: Layout, min: u64, max: u64)
    requires l.Valid() && InRange(l, max) && Asked(l, min, max)
    ensures ExactDeletion(l, Truncate(l, max), min, max)
            <==> min <= l.base && max < U64 - 1 && AtBoundary(l, max)
  {
    hide Layout.Valid, Truncate, AtBoundary, Concat;
    var m := Truncate(l, max);
    NothingDropped(l, max);
    FirstNotEmpty(l);
    if max < U64 - 1 {
      FirstAfterDelete(l, max);
    }
    var first := if min <= l.base then l.base else min;
    assert Live(l, l.base) && Live(l, first) && min <= first <= max;
    if ExactDeletion(l, m, min, max) {
      assert !Live(m, first);
      assert min > l.base ==> Live(m, l.base);
      assert max < U64 - 1 ==> Live(l, max) && !Live(m, max);
    }
  }

  /** With nothing live to delete, in range: the first segment has to stay. */
  lemma ExactUnasked(l: Layout, min: u64, max: u64)
    requires l.Valid() && InRange(l, max) && !Asked(l, min, max)
    ensures ExactDeletion(l, Truncate(l, max), min, max) <==> Limit(max) < l.base + |l.chunks[0]|
  {
    hide Layout.Valid, Truncate, Concat;
    var m := Truncate(l, max);
    NothingDropped(l, max);
    if m.base != l.base {
      assert Live(l, l.base) && !Live(m, l.base);
    }
  }

  /** Out of range everything goes, so the entries below the range go with it. */
  lemma ExactOutOfRange(l: Layout, min: u64, max: u64)
    requires l.Valid() && !InRange(l, max)
    ensures Truncate(l, max).chunks == []
    ensures ExactDeletion(l, Truncate(l, max), min, max) <==> l.Records() == [] || min <= l.base
  {
    hide Layout.Valid, Truncate, Concat;
    TruncateEverything(l, max);
    var m := Truncate(l, max);
    NoneLive(m);
    if l.Records() != [] && min > l.base {
      assert Live(l, l.base) && !Live(m, l.base);
    }
  }

  lemma NoneLive(m: Layout)
    requires m.chunks == []
    ensures forall i: nat :: !Live(m, i) && GetLog(m, i) == Err(OffsetOutOfRange(i))
  {
  }

  /** DeleteRange for every request: the effect never depends on min. The store keeps a segment if and only if
      max + 1, in 64 bits, is below the next index. Then exactly [min, max] is deleted if and only if the range
      holds a live entry, begins at or below the first and ends with a segment, or it holds none and the first
      segment reaches beyond it. Otherwise no segment is left, which is exact if and only if nothing live lies
      below min. */
  lemma DeleteRangeExact(l: Layout, min: u64, max: u64)
    requires l.Valid()
    ensures forall other: u64 :: DeleteRange(l, other, max) == DeleteRange(l, min, max)
    ensures DeleteRange(l, min, max).chunks != [] <==> InRange(l, max)
    ensures ExactDeletion(l, DeleteRange(l, min, max), min, max)
            <==> if !InRange(l, max) then l.Records() == [] || min <= l.base
                 else if Asked(l, min, max) then min <= l.base && max < U64 - 1 && AtBoundary(l, max)
                 else Limit(max) < l.base + |l.chunks[0]|
  {
    hide Layout.Valid, Truncate, AtBoundary, Concat, ExactDeletion, Asked, InRange;
    TruncateEverything(l, max);
    if !InRange(l, max) {
      ExactOutOfRange(l, min, max);
    } else if Asked(l, min, max) {
      ExactAsked(l, min, max);
    } else {
      ExactUnasked(l, min, max);
    }
  }

  /** The failing input Raft sends to drop a conflicting suffix, entries min to the last one: no segment is left,
      and the entries below min, which were to stay, are gone with the rest. */
  lemma SuffixDeletionLosesAll(l: Layout, min: u64, i: nat)
    requires l.Valid() && l.base < min < l.Next() && l.base <= i < min
    ensures LastIndex(l) == l.Next() - 1 && GetLog(l, i).Ok?
    ensures var m := DeleteRange(l, min, LastIndex(l));
            && m.chunks == [] && GetLog(m, i) == Err(OffsetOutOfRange(i))
            && !ExactDeletion(l, m, min, LastIndex(l))
  {
    hide Layout.Valid, Truncate, Concat, ExactDeletion;
    ValidFacts(l);
    DeleteRangeExact(l, min, l.Next() - 1);
    NoneLive(DeleteRange(l, min, l.Next() - 1));
  }

  /** A request that ends inside a segment removes nothing of it. */
  lemma InsideSegment(l: Layout)
    requires l.Valid() && |l.chunks[0]| >= 2 && l.Next() > l.base + 1
    ensures DeleteRange(l, l.base, l.base) == l
    ensures !ExactDeletion(l, l, l.base, l.base)
  {
    hide Layout.Start, Concat;
    ValidFacts(l);
    StartEnds(l);
    DropCountUnique(l, 0, l.base + 1);
    assert l.chunks[0..] == l.chunks;
    assert Live(l, l.base);
  }

  // ----- the store over the byte-level log -----

  class LogStore {
    const log: Log

    constructor (log: Log)
      ensures this.log == log
    {
      this.log := log;
    }

    method Get(index: u64) returns (r: Result<Entry>)
      requires log.Valid()
      modifies log.Repr
      ensures log.Valid() && r == GetLog(log.state, index)
      ensures log.state == old(log.state) && log.config == old(log.config)
    {
      var found := log.Read(index);
      match found {
        case Err(e) => r := Err(e);
        case Ok(rec) => r := Ok(FromRecord(rec));
      }
    }

    method StoreAll(batch: seq<Entry>) returns (r: Result<()>)
      requires log.Valid() && Fitting(log.state, batch)
      modifies log, log.dir, log.Repr
      ensures log.Valid() && r == Ok(()) && log.state == StoreLogs(old(log.state), batch)
      ensures fresh(log.Repr - old(log.Repr))
    {
      hide Layout.Valid, Log.Valid, Layout.Append, Layout.Next;
      ghost var l := log.state;
      ValidState(log);
      assert batch[..0] == [];
      var i := 0;
      while i < |batch|
        invariant i <= |batch| && log.Valid() && fresh(log.Repr - old(log.Repr))
        invariant Fitting(l, batch[..i]) && log.state == StoreLogs(l, batch[..i])
      {
        assert batch[..i + 1][..i] == batch[..i];
        var off := log.Append(ToRecord(batch[i]));
        match off {
          case Err(e) => return Err(e);
          case Ok(_) =>
        }
        i := i + 1;
      }
      assert batch[..i] == batch;
      r := Ok(());
    }

    method Delete(min: u64, max: u64)
      requires log.Valid()
      modifies log, log.dir, log.Repr
      ensures InRange(old(log.state), max) ==> log.Valid() && log.state == DeleteRange(old(log.state), min, max)
      ensures !InRange(old(log.state), max) ==> log.segments == []
      ensures log.config == old(log.config) && log.Repr == old(log.Repr)
    {
      log.Truncate(max);
    }
  }

  /** The failing input: a log opened with no limits configured, as the agent does, and two small entries, of which
      the first is to go. Both are in one segment of 1024 bytes, so it is still there afterwards. */
  method DeleteRangeMisses(term: u64) returns (log: Log, ghost before: Layout, kept: Result<Entry>)
    ensures log.Valid() && log.config == Config(1024, 1024, 1)
    ensures Live(before, 1) && Live(before, 2) && log.state == before && !ExactDeletion(before, log.state, 1, 1)
    ensures kept == Ok(Entry(1, term, 0, [7]))
  {
    hide Log.Valid, Layout.Valid, Layout.Append, RuleOf, Loadable, Concat, DeleteRange, ExactDeletion, Fitting,
         GetLog;
    var c, r := Config(0, 0, 1), Record([7], 0, term, 0);
    NothingToLoad(c);
    FreshIsValid(RuleOf(Defaulted(c)), 1);
    var dir := new Disk();
    log := SetupLog(dir, c, Fresh(RuleOf(Defaulted(c)), 1));
    ghost var l := TwoSmallRecords(Defaulted(c), r, r);
    var off := log.Append(r);
    off := log.Append(r);
    before := log.state;
    var store := new LogStore(log);
    InsideSegment(before);
    store.Delete(1, 1);
    FirstOfTwo(before, r);
    kept := store.Get(1);
  }

  lemma FirstOfTwo(l: Layout, r: Record)
    requires l.Valid() && l.base == 1 && l.Next() == 3
    requires l.chunks == [[r.(offset := 1), r.(offset := 2)]]
    ensures GetLog(l, 1) == Ok(FromRecord(r.(offset := 1))) && InRange(l, 1)
  {
    OneSegment(l, 1, 0);
    assert l.chunks[..0] == [];
  }
}
