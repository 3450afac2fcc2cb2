/** internal/log/log.go: segments that tile the offset space. */
module Logs {
  import opened Bytes
  import opened Codec
  import opened Framing
  import opened IndexFile
  import opened Disks
  import opened Layouts
  import opened Segments
  import opened Images

  ghost function Footprint(s: Segment): set<object> {
    {s, s.store, s.index, s.index.mmap}
  }

  /** Segment s is the i-th segment of layout l. */
  ghost predicate Carries(s: Segment, l: Layout, i: nat, cfg: Config)
    requires i < |l.chunks|
    reads Footprint(s)
  {
    && s.Valid() && s.orphans == [] && SameLimits(s.config, cfg)
    && s.records == l.chunks[i] && s.base == l.Start(i)
  }

  ghost predicate AllApart(ss: seq<Segment>) {
    forall i, j | 0 <= i < j < |ss| :: ss[i].Apart(ss[j])
  }

  /** The open segments hold the layout's records, byte for byte, and live in repr. */
  ghost predicate Holds(ss: seq<Segment>, l: Layout, cfg: Config, repr: set<object>)
    reads repr
  {
    && |ss| == |l.chunks|
    && AllApart(ss)
    && forall i | 0 <= i < |ss| :: Footprint(ss[i]) <= repr && Carries(ss[i], l, i, cfg)
  }

  /** All open segments agree on what a copy of their files no longer delivers. */
  ghost predicate Marked(ss: seq<Segment>, mark: nat)
    reads ss
  {
    forall i | 0 <= i < |ss| :: ss[i].mark == mark
  }

  /** segment.IsMaxed is the configured rule applied to the segment's records. */
  lemma MaxedIsFull(s: Segment, cfg: Config)
    requires s.Valid() && s.orphans == [] && SameLimits(s.config, cfg)
    ensures s.IsMaxed() == RuleOf(cfg)(s.records)
  {
    assert s.store.Data() == RecordFrames(s.records);
  }

  lemma StoreOf(s: Segment)
    requires s.Valid() && s.orphans == []
    ensures s.store.Valid() && s.store.Data() == RecordFrames(s.records)
  {
    assert RecordFrames(s.records) + [] == RecordFrames(s.records);
  }

  lemma FrameFits(r: Record)
    requires Storable(r)
    ensures |Frame(Marshal(r))| <= MAX_VALUE + 52
  {
    MarshalRoundTrip(r);
  }

  /** A segment that was not full before its last record has room for that record's entry, and its
      frames stay within the file API's range. */
  lemma LastFits(cfg: Config, rs: seq<Record>)
    requires GoodConfig(cfg) && rs != [] && !RuleOf(cfg)(rs[..|rs| - 1]) && Storable(rs[|rs| - 1])
    ensures |RecordFrames(rs)| < cfg.maxStore + MAX_VALUE + 52 && ENT_WIDTH * |rs| <= cfg.maxIndex
  {
    hide RecordFrames, Marshal, Frame;
    var front, r := rs[..|rs| - 1], rs[|rs| - 1];
    assert rs == front + [r];
    assert !Full(cfg.maxStore, cfg.maxIndex, front);
    RecordFramesSnoc(front, r);
    FrameFits(r);
  }

  /** Every segment of a valid layout can be opened. */
  lemma ChunkFits(l: Layout, cfg: Config, i: nat)
    requires l.Valid() && GoodConfig(cfg) && l.full == RuleOf(cfg) && i < |l.chunks|
    ensures Stamped(l.Start(i), l.chunks[i]) && l.Start(i) + |l.chunks[i]| < U64
    ensures |RecordFrames(l.chunks[i])| < U64 && ENT_WIDTH * |l.chunks[i]| <= cfg.maxIndex
  {
    var rs := l.chunks[i];
    ChunkStamped(l, i);
    if i < |l.chunks| - 1 {
      assert Sealed(l.full, rs);
      LastFits(cfg, rs);
    } else {
      assert !Full(cfg.maxStore, cfg.maxIndex, rs);
    }
  }

  lemma ChunkStamped(l: Layout, i: nat)
    requires Stamped(l.base, l.Records()) && i < |l.chunks|
    ensures Stamped(l.Start(i), l.chunks[i]) && l.Start(i) + |l.chunks[i]| <= l.Next()
  {
    ChunkSlice(l, i);
    var lo := l.Start(i) - l.base;
    forall k | 0 <= k < |l.chunks[i]|
      ensures l.chunks[i][k].offset == l.Start(i) + k && Storable(l.chunks[i][k])
    {
      assert l.chunks[i][k] == l.Records()[lo + k];
    }
  }

  class Log {
    const dir: Disk
    var config: Config
    var active: Segment?
    var segments: seq<Segment>
    ghost var state: Layout
    ghost var mark: nat          // the next offset when the files were opened, or 0 once they have been copied

    ghost var Repr: set<object>  // the objects the open segments are made of

    ghost predicate Valid()
      reads this, dir, Repr
    {
      && Separate()
      && GoodConfig(config)
      && state.Valid() && state.full == RuleOf(config)
      && Holds(segments, state, config, Repr)
      && active == segments[|segments| - 1]
      && Marked(segments, mark) && mark <= state.Next()
      && dir.present && dir.files.Keys == NamesOf(Starts(state))
    }

    ghost predicate Separate()
      reads this
    {
      this !in Repr && dir !in Repr
    }

    /** newSegment: opens a segment at off, appends it to the list and makes it active. */
    method NewSegment(off: u64, ghost l: Layout, ghost rs: seq<Record>)
      requires Separate() && GoodConfig(config) && Holds(segments, l, config, Repr)
      requires off == l.Next()
      requires Stamped(off, rs) && off + |rs| < U64
      requires |RecordFrames(rs)| < U64 && ENT_WIDTH * |rs| <= config.maxIndex
      requires Openable(dir.files, off, rs)
      requires Marked(segments, mark) && (rs == [] || off + |rs| <= mark)
      modifies this`segments, this`active, this`Repr, dir`files
      ensures Marked(segments, mark)
      ensures Separate() && Holds(segments, l.(chunks := l.chunks + [rs]), config, Repr)
      ensures |segments| == |old(segments)| + 1 && active == segments[|segments| - 1]
      ensures old(segments) <= segments
      ensures fresh(Repr - old(Repr))
      ensures dir.files == old(dir.files)[StoreName(off) := RecordFrames(rs)]
                                         [IndexName(off) := IndexBytes(Entries(rs))]
    {
      hide Openable, StoreName, IndexName, RecordFrames, IndexBytes, Stamped, Concat, Segment.Valid, GoodConfig,
           Entries;
      var s := new Segment(dir, off, config, rs, mark);
      ghost var l' := l.(chunks := l.chunks + [rs]);
      assert l'.chunks[..|l.chunks|] == l.chunks;
      forall i | 0 <= i < |segments| ensures Carries(segments[i], l', i, config) {
        assert l'.chunks[..i] == l.chunks[..i];
        assert Carries(segments[i], l, i, config);
      }
      segments := segments + [s];
      active := s;
      Repr := Repr + Footprint(s);
    }

    /** Appends to the active segment; only that segment's objects change. */
    method AppendActive(record: Record, ghost l: Layout) returns (r: Result<u64>)
      requires l.chunks != [] && Separate() && Holds(segments, l, config, Repr) && active == segments[|segments| - 1]
      requires Storable(record) && l.Start(|l.chunks| - 1) + |l.Last()| == l.Next() < U64 - 1
      requires GoodConfig(config) && !RuleOf(config)(l.Last()) && Marked(segments, mark) && mark <= l.Next()
      modifies active, active.store, active.index, active.index.mmap
      ensures r == Ok(l.Next()) && Marked(segments, mark)
      ensures Holds(segments, WithLast(l, l.Last() + [record.(offset := l.Next())]), config, Repr)
    {
      hide Segment.Valid, Layout.Start, Layout.Next, RuleOf, Storable, Concat, GoodConfig;
      ghost var n := |segments| - 1;
      assert Carries(segments[n], l, n, config);
      RoomForOne(active, config);
      ActiveNext(active, l);
      r := active.Append(record);
      ghost var l' := WithLast(l, l.Last() + [record.(offset := l.Next())]);
      WithLastStarts(l, l'.Last());
      forall i | 0 <= i < |segments| ensures Carries(segments[i], l', i, config) {
        assert Starts(l')[i] == Starts(l)[i];
        if i < n {
          assert Carries(segments[i], l, i, config);
          assert segments[i].Apart(segments[n]);
        }
      }
    }

    /** Starts a new segment at `next` when the active one has become full. */
    method RollIfMaxed(next: u64, ghost l: Layout)
      requires Separate() && GoodConfig(config) && l.chunks != [] && Holds(segments, l, config, Repr)
      requires active == segments[|segments| - 1] && next == l.Next()
      requires StoreName(next) !in dir.files && IndexName(next) !in dir.files && Marked(segments, mark)
      modifies this`segments, this`active, this`Repr, dir`files
      ensures var rolled := RuleOf(config)(l.Last());
              && Separate()
              && Holds(segments, if rolled then l.(chunks := l.chunks + [[]]) else l, config, Repr)
              && dir.files.Keys == old(dir.files.Keys) + if rolled then {StoreName(next), IndexName(next)} else {}
      ensures |segments| > 0 && active == segments[|segments| - 1] && fresh(Repr - old(Repr))
      ensures old(segments) <= segments && Marked(segments, mark)
    {
      hide Holds, RuleOf, GoodConfig, RecordFrames, IndexBytes, StoreName, IndexName, Layout.Next, Openable, Stamped;
      LastCarried(segments, l, config, Repr);
      MaxedIsFull(active, config);
      if active.IsMaxed() {
        NewFilesOpenable(dir.files, next);
        NewSegment(next, l, []);
      }
    }

    /** Adds the record at the end, rolling over to a new segment when the active one became full. */
    method Append(record: Record) returns (r: Result<u64>)
      requires Valid() && Storable(record) && state.Next() < U64 - 1
      modifies this, dir`files, Repr
      ensures Valid() && state == old(state).Append(record)
      ensures r == Ok(old(state).Next())
      ensures config == old(config) && fresh(Repr - old(Repr)) && old(segments) <= segments && mark == old(mark)
    {
      hide Holds, Layout.Valid, RuleOf, GoodConfig, RecordFrames, IndexBytes, Layout.Append, WithLast,
           StoreName, IndexName, Layout.Next, Openable, NamesOf, Starts, Stamped, Storable, Layout.Start;
      ghost var l := state;
      LastRoom(l);
      LastCarried(segments, l, config, Repr);
      r := AppendActive(record, l);
      match r {
        case Err(_) => return;
        case Ok(off) =>
          ghost var l' := WithLast(l, l.Last() + [record.(offset := l.Next())]);
          AppendEffect(l, record);
          RollOver(l, record, l');
          RollIfMaxed(off + 1, l');
          state := state.Append(record);
      }
    }

    /** Reading one segment flushes its store and changes nothing else. */
    method ReadSegment(i: nat, off: u64, ghost l: Layout) returns (r: Result<Record>)
      requires Holds(segments, l, config, Repr) && Separate() && i < |segments|
      requires l.Start(i) <= off < l.Start(i) + |l.chunks[i]|
      modifies segments[i].store
      ensures Holds(segments, l, config, Repr)
      ensures r == Ok(l.chunks[i][off - l.Start(i)])
    {
      hide Layout.Start, Segment.Valid;
      assert Carries(segments[i], l, i, config);
      AddressInSegment(segments[i], off);
      r := segments[i].Read(off);
      forall j | 0 <= j < |segments| ensures Carries(segments[j], l, j, config) {
        if j < i {
          assert segments[j].Apart(segments[i]);
        } else if i < j {
          assert segments[i].Apart(segments[j]);
        }
      }
    }

    /** Scans the segments for the one that holds the offset. */
    method Read(off: u64) returns (r: Result<Record>)
      requires Valid()
      modifies Repr
      ensures Valid() && r == state.Read(off) && mark == old(mark)
    {
      hide Layout.Start, Layout.Valid, Layout.Read, Holds, GoodConfig, NamesOf, Starts, RuleOf;
      HoldsFootprint(segments, state, config, Repr);
      var at, i := -1, 0;
      while i < |segments|
        invariant 0 <= i <= |segments| && -1 <= at < i
        invariant at >= 0 ==> state.Start(at) <= off < state.Start(at) + |state.chunks[at]|
        invariant at < 0 ==> forall j | 0 <= j < i ::
                    !(state.Start(j) <= off < state.Start(j) + |state.chunks[j]|)
        modifies {}
      {
        SegmentBounds(segments, state, config, Repr, i);
        if segments[i].base <= off && off < segments[i].next {
          at := i;
        }
        i := i + 1;
      }
      if at < 0 {
        NotLive(state, off);
        return Err(OffsetOutOfRange(off));
      }
      ValidFacts(state);
      OneSegment(state, off, at);
      r := ReadSegment(at, off, state);
    }

    function LowestOffset(): (off: nat)
      requires Valid()
      reads this, dir, Repr
      ensures off == state.base
    {
      SegmentBounds(segments, state, config, Repr, 0);
      StartEnds(state);
      segments[0].base
    }

    /** The last offset in use; 0 also stands for the empty log that starts at 0. */
    function HighestOffset(): (off: nat)
      requires Valid()
      reads this, dir, Repr
      ensures off == if state.Next() == 0 then 0 else state.Next() - 1
    {
      SegmentBounds(segments, state, config, Repr, |segments| - 1);
      LastRoom(state);
      var off := segments[|segments| - 1].next;
      if off == 0 then 0 else off - 1
    }

    method CloseSegment(i: nat, ghost l: Layout)
      requires Holds(segments, l, config, Repr) && Separate() && i < |segments|
      modifies segments[i].store, dir`files
      ensures Holds(segments, l, config, Repr)
      ensures dir.files == old(dir.files)[IndexName(l.Start(i)) := IndexBytes(Entries(l.chunks[i]))]
                                         [StoreName(l.Start(i)) := RecordFrames(l.chunks[i])]
    {
      hide Layout.Start, Segment.Valid, StoreName, IndexName, IndexBytes, Entries, RecordFrames;
      assert Carries(segments[i], l, i, config);
      segments[i].Close(dir);
      assert RecordFrames(l.chunks[i]) + [] == RecordFrames(l.chunks[i]);
      forall j | 0 <= j < |segments| ensures Carries(segments[j], l, j, config) {
        if j < i {
          assert segments[j].Apart(segments[i]);
        } else if i < j {
          assert segments[i].Apart(segments[j]);
        }
      }
    }

    /** Closes every segment; the directory is then a clean image of the log. */
    method Close()
      requires Valid()
      modifies dir`files, Repr
      ensures Valid() && state == old(state) && CleanImage(dir.files, state)
    {
      hide Layout.Start, Layout.Valid, Layout.Next, Holds, GoodConfig, NamesOf, Starts, RuleOf, SegmentFiles,
           IndexName, StoreName, IndexBytes, Entries, RecordFrames;
      HoldsFootprint(segments, state, config, Repr);
      var i := 0;
      while i < |segments|
        invariant i <= |segments|
        invariant Holds(segments, state, config, Repr) && dir.files.Keys == NamesOf(Starts(state))
        invariant Marked(segments, mark)
        invariant forall j | 0 <= j < i :: SegmentFiles(dir.files, state.Start(j), state.chunks[j])
      {
        ghost var before := dir.files;
        CloseSegment(i, state);
        CloseStep(before, dir.files, state, i);
        i := i + 1;
      }
    }

    method RemoveSegment(i: nat, ghost l: Layout)
      requires Holds(segments, l, config, Repr) && Separate() && i < |segments|
      modifies segments[i].store, dir`files
      ensures Holds(segments, l, config, Repr)
      ensures dir.files == old(dir.files) - {IndexName(l.Start(i)), StoreName(l.Start(i))}
    {
      hide Layout.Start, Segment.Valid, StoreName, IndexName;
      assert Carries(segments[i], l, i, config);
      segments[i].Remove(dir);
      forall j | 0 <= j < |segments| ensures Carries(segments[j], l, j, config) {
        if j < i {
          assert segments[j].Apart(segments[i]);
        } else if i < j {
          assert segments[i].Apart(segments[j]);
        }
      }
    }

    /** Removes every segment that ends at or below lowest + 1, computed in 64 bits. An argument out
        of range removes all of them and leaves the active segment dangling. */
    method Truncate(lowest: u64)
      requires Valid()
      modifies this`segments, this`state, dir`files, Repr
      ensures InRange(old(state), lowest) ==> Valid() && state == Layouts.Truncate(old(state), lowest)
      ensures mark == old(mark) && config == old(config) && Repr == old(Repr) && dir.present
      ensures !InRange(old(state), lowest) ==>
                segments == [] && active == old(active) && active != null && dir.files.Keys == {}
    {
      hide Layout.Start, Layout.Valid, Layout.Next, Holds, GoodConfig, NamesOf, Starts, RuleOf, IndexName, StoreName,
           DropCount, InRange, Layouts.Truncate, Marked;
      ghost var l, limit := state, Limit(lowest);
      ghost var k := DropCount(l.base, l.chunks, limit);
      ghost var gone := 0;
      var kept, i := [], 0;
      HoldsFootprint(segments, l, config, Repr);
      NothingGone(Starts(l));
      ValidFacts(l);
      while i < |segments|
        invariant segments == old(segments) && state == l
        invariant 0 <= i <= |segments| && gone == if i <= k then i else k
        invariant Holds(segments, l, config, Repr) && Marked(segments, mark)
        invariant kept == if i <= k then [] else segments[k..i]
        invariant dir.files.Keys == NamesOf(Starts(l)) - NamesOf(Starts(l)[..gone])
      {
        SegmentBounds(segments, l, config, Repr, i);
        DropIff(l, limit, i);
        if segments[i].next <= (lowest + 1) % U64 {
          RemoveSegment(i, l);
          RemoveStep(Starts(l), i);
          gone := gone + 1;
        } else {
          kept := kept + [segments[i]];
          SliceSnoc(segments, k, i);
        }
        i := i + 1;
      }
      TruncateEverything(l, lowest);
      KeptNames(l, k);
      segments := kept;
      state := Layouts.Truncate(l, lowest);
      TruncateShape(l, lowest, k);
      NoNames(state);
      if InRange(l, lowest) {
        TruncateEffect(l, lowest);
        HoldsSuffix(old(segments), l, config, Repr, k);
        MarkedSuffix(old(segments), mark, k);
        assert segments == old(segments)[k..];
      }
    }

    method SetInitial(off: u64)
      requires Valid()
      modifies this`config
      ensures Valid() && config == old(config).(initial := off)
    {
      hide Holds, Layout.Valid, NamesOf, Starts, SizeRule;
      config := config.(initial := off);
      HoldsSameLimits(segments, state, old(config), config, Repr);
    }

    /** Remove closes the log and deletes its directory. */
    method Remove()
      requires Valid()
      modifies dir, Repr
      ensures !dir.present && dir.files == map[]
    {
      Close();
      dir.RemoveAll();
    }

    /** Reset as written: setup lists a directory that Remove has just deleted. The data is gone, and the
        log still lists the segments it has closed. */
    method Reset() returns (r: Result<()>)
      requires Valid()
      modifies this, dir, Repr
      ensures r == Err(NotExist) && !dir.present && dir.files == map[]
      ensures segments == old(segments) && segments != [] && active == old(active)
    {
      hide Layout.Valid, Holds, GoodConfig, RuleOf, NamesOf, Starts, Loadable;
      ValidState(this);
      HoldsFootprint(segments, state, config, Repr);
      Remove();
      r := Setup(state);
    }

    /** Reset by its comment: the data is gone and a brand new log takes its place. */
    method ResetAsDocumented() returns (r: Result<()>)
      requires Valid()
      modifies this, dir, Repr
      ensures r == Ok(()) && Valid() && state == Fresh(RuleOf(config), config.initial)
      ensures config == old(config) && fresh(Repr)
    {
      hide Layout.Valid, Holds, RuleOf;
      Remove();
      dir.present := true;
      segments, active, Repr := [], null, {};
      RuleOfAccepts(config);
      FreshIsValid(RuleOf(config), config.initial);
      r := Setup(Fresh(RuleOf(config), config.initial));
    }

    constructor (dir: Disk, c: Config, ghost l: Layout)
      requires GoodConfig(Defaulted(c)) && dir.present
      requires Loadable(dir.files, Defaulted(c), l)
      modifies dir`files
      ensures Valid() && state == l && this.dir == dir && config == Defaulted(c)
      ensures fresh(Repr) && mark == l.Next()
      ensures config.maxStore == (if c.maxStore == 0 then 1024 else c.maxStore)
      ensures config.maxIndex == (if c.maxIndex == 0 then 1024 else c.maxIndex)
      ensures config.initial == c.initial
    {
      hide Loadable, Holds, GoodConfig, RuleOf, Layout.Valid, NamesOf, Starts;
      this.dir := dir;
      config := Defaulted(c);
      segments, active := [], null;
      state, Repr := l, {};
      new;
      var r := Setup(l);
    }

    /** Opens one segment per pair of equal offsets. */
    method LoadSegments(offsets: seq<nat>, ghost l: Layout)
      requires Separate() && GoodConfig(config) && l.full == RuleOf(config) && l.Valid()
      requires segments == [] && CleanImage(dir.files, l) && offsets == Doubled(Starts(l)) && mark == l.Next()
      modifies this`segments, this`active, this`Repr, dir`files
      ensures Separate() && Holds(segments, l, config, Repr) && active == segments[|segments| - 1]
      ensures |segments| == |l.chunks| && fresh(Repr - old(Repr)) && dir.files == old(dir.files)
      ensures Marked(segments, mark)
    {
      hide Holds, Layout.Valid, RuleOf, GoodConfig, StoreName, IndexName, RecordFrames, IndexBytes, Stamped, Doubled,
           CleanImage, Layout.Start, Layout.Next, Openable;
      var i := 0;
      ghost var m := 0;
      HoldsNothing(l.(chunks := []), config, Repr);
      ValidFacts(l);
      assert l.chunks[..0] == [];
      while i < |offsets|
        invariant i == 2 * m && m <= |l.chunks| && |segments| == m
        invariant Holds(segments, l.(chunks := l.chunks[..m]), config, Repr)
        invariant Separate() && fresh(Repr - old(Repr)) && dir.files == old(dir.files)
        invariant m > 0 ==> active == segments[|segments| - 1]
        invariant Marked(segments, mark)
      {
        LoadStep(dir.files, l, config, m);
        NewSegment(offsets[i], l.(chunks := l.chunks[..m]), l.chunks[m]);
        assert l.chunks[..m + 1] == l.chunks[..m] + [l.chunks[m]];
        m := m + 1;
        i := i + 2;
      }
      assert l.chunks[..m] == l.chunks;
    }

    /** The parsed and sorted offsets of the directory's files. */
    method ListOffsets(ghost l: Layout) returns (r: Result<seq<nat>>)
      ensures if dir.present then r.Ok? else r == Err(NotExist)
      ensures dir.present && dir.files == map[] ==> r == Ok([])
      ensures dir.present && CleanImage(dir.files, l) && l.Tiled() && l.Next() < U64 ==>
                r == Ok(Doubled(Starts(l)))
    {
      hide NameOffset, Offsets, Sort, Doubled, Starts, Layout.Tiled, Layout.Next;
      var listing := dir.ReadDir();
      if listing.Err? {
        return Err(listing.error);
      }
      var names, offsets: seq<nat>, k := listing.value, [], 0;
      OffsetsEmpty();
      assert |names| == |multiset(names)|;
      while k < |names|
        invariant k <= |names| && offsets == Offsets(names[..k])
      {
        OffsetsSnoc(names[..k], names[k]);
        assert names[..k + 1] == names[..k] + [names[k]];
        offsets := offsets + [NameOffset(names[k])];
        k := k + 1;
      }
      assert names[..k] == names;
      if CleanImage(dir.files, l) && l.Tiled() && l.Next() < U64 {
        SetupOffsets(names, l);
      }
      return Ok(Sort(offsets));
    }

    /** Loads the segments found on disk, or starts the first one. */
    method Setup(ghost l: Layout) returns (r: Result<()>)
      requires Separate() && GoodConfig(config)
      requires dir.present ==> segments == [] && Loadable(dir.files, config, l)
      modifies this, dir`files
      ensures !dir.present ==> r == Err(NotExist) && segments == old(segments) && active == old(active)
                                && dir.files == old(dir.files)
      ensures dir.present ==> r == Ok(()) && Valid() && state == l && fresh(Repr - old(Repr)) && mark == l.Next()
      ensures config == old(config)
    {
      hide Holds, Layout.Valid, Layout.Tiled, RuleOf, GoodConfig, CleanImage, Doubled, RecordFrames, IndexBytes,
           StoreName, IndexName, Loadable, Layout.Next, Openable, NamesOf, Starts, Stamped;
      var offsets := ListOffsets(l);
      if offsets.Err? {
        return Err(offsets.error);
      }
      LoadableFacts(dir.files, config, l);
      mark := l.Next();
      if offsets.value != [] {
        LoadSegments(offsets.value, l);
      }
      if segments == [] {
        HoldsNothing(l.(chunks := []), config, Repr);
        NewSegment(config.initial, l.(chunks := []), []);
        assert l.(chunks := [] + [[]]) == l;
      }
      state := l;
      r := Ok(());
    }
  }

  /** The layout with its last segment replaced. */
  function WithLast(l: Layout, rs: seq<Record>): Layout
    requires l.chunks != []
  {
    l.(chunks := l.chunks[..|l.chunks| - 1] + [rs])
  }

  lemma WithLastStarts(l: Layout, rs: seq<Record>)
    requires l.chunks != []
    ensures Starts(WithLast(l, rs)) == Starts(l)
  {
    hide Concat;
    forall i | 0 <= i < |l.chunks| ensures WithLast(l, rs).Start(i) == l.Start(i) {
      assert WithLast(l, rs).chunks[..i] == l.chunks[..i];
    }
  }

  lemma SnocStarts(l: Layout, rs: seq<Record>)
    ensures Starts(l.(chunks := l.chunks + [rs])) == Starts(l) + [l.Next()]
  {
    hide Concat;
    var t := l.(chunks := l.chunks + [rs]);
    forall i | 0 <= i <= |l.chunks| ensures t.chunks[..i] == l.chunks[..i] {
    }
    assert l.chunks[..|l.chunks|] == l.chunks;
  }

  lemma RollOverShape(l: Layout, r: Record, l': Layout)
    requires l.Valid() && Storable(r) && l.Next() < U64 - 1
    requires l' == WithLast(l, l.Last() + [r.(offset := l.Next())])
    ensures l'.Next() == l.Next() + 1
    ensures l.Append(r) == if l.full(l'.Last()) then l'.(chunks := l'.chunks + [[]]) else l'
  {
    ValidFacts(l);
    hide Layout.Valid;
    var front := l.chunks[..|l.chunks| - 1];
    assert l.chunks == front + [l.Last()];
    ConcatSnoc(front, l.Last());
    ConcatSnoc(front, l'.Last());
    assert l'.chunks == front + [l'.Last()] + [];
  }

  lemma NextIsNew(l: Layout)
    requires l.Next() < U64 - 1
    ensures StoreName(l.Next() + 1) !in NamesOf(Starts(l)) && IndexName(l.Next() + 1) !in NamesOf(Starts(l))
  {
    hide StoreName, IndexName, NamesOf, Concat;
    forall i | 0 <= i < |Starts(l)| ensures Starts(l)[i] < l.Next() + 1 {
      ChunkSlice(l, i);
    }
    NameNotAmong(Starts(l), l.Next() + 1);
  }

  /** Rolling over after an append: the new segment's files are new to the directory. */
  lemma RollOver(l: Layout, r: Record, l': Layout)
    requires l.Valid() && Storable(r) && l.Next() < U64 - 1
    requires l' == WithLast(l, l.Last() + [r.(offset := l.Next())])
    ensures l'.Next() == l.Next() + 1 && Starts(l') == Starts(l)
    ensures StoreName(l.Next() + 1) !in NamesOf(Starts(l)) && IndexName(l.Next() + 1) !in NamesOf(Starts(l))
    ensures NamesOf(Starts(l'.(chunks := l'.chunks + [[]])))
            == NamesOf(Starts(l)) + {StoreName(l.Next() + 1), IndexName(l.Next() + 1)}
    ensures l.Append(r) == if l.full(l'.Last()) then l'.(chunks := l'.chunks + [[]]) else l'
  {
    hide StoreName, IndexName, Layout.Valid, Layout.Append, Concat, NamesOf, Starts;
    ValidFacts(l);
    RollOverShape(l, r, l');
    NextIsNew(l);
    WithLastStarts(l, l.Last() + [r.(offset := l.Next())]);
    SnocStarts(l', []);
    NamesOfSnoc(Starts(l'), l'.Next());
  }

  lemma NewFilesOpenable(files: map<string, seq<byte>>, base: nat)
    requires StoreName(base) !in files && IndexName(base) !in files
    ensures Openable(files, base, []) && Stamped(base, []) && RecordFrames([]) == []
  {
  }

  lemma LastCarried(ss: seq<Segment>, l: Layout, cfg: Config, repr: set<object>)
    requires l.chunks != [] && Holds(ss, l, cfg, repr)
    ensures |ss| == |l.chunks|
    ensures var s := ss[|ss| - 1];
            && Footprint(s) <= repr && s.Valid() && s.orphans == [] && SameLimits(s.config, cfg)
            && s.records == l.Last() && s.base == l.Start(|l.chunks| - 1)
  {
    assert Carries(ss[|ss| - 1], l, |ss| - 1, cfg);
  }

  lemma ActiveNext(s: Segment, l: Layout)
    requires s.Valid() && l.chunks != [] && s.records == l.Last() && s.base == l.Start(|l.chunks| - 1)
    requires l.Start(|l.chunks| - 1) + |l.Last()| == l.Next()
    ensures s.next == l.Next()
  {
  }

  /** A segment that is not full takes another record without running out of index. */
  lemma RoomForOne(s: Segment, cfg: Config)
    requires s.Valid() && s.orphans == [] && SameLimits(s.config, cfg) && !RuleOf(cfg)(s.records)
    ensures !s.index.IsMaxed() && s.store.size < cfg.maxStore <= 0x4000_0000_0000_0000
  {
    assert s.store.Data() == RecordFrames(s.records);
    assert !Full(cfg.maxStore, cfg.maxIndex, s.records);
  }

  lemma LastRoom(l: Layout)
    requires l.Valid()
    ensures |l.chunks| > 0 && !l.full(l.Last()) && l.Start(|l.chunks| - 1) + |l.Last()| == l.Next()
  {
    StartEnds(l);
    StartStep(l, |l.chunks| - 1);
  }

  lemma RelativeInRange(off: u64, base: u64, count: nat)
    requires base <= off < base + count && count <= U32
    ensures Slot(Relative(off, base), count) == off - base
  {
    assert (off - base) % U64 == off - base;
  }

  lemma AddressInSegment(s: Segment, off: u64)
    requires s.Valid() && s.base <= off < s.base + |s.records|
    ensures s.records != [] && |s.records| <= U32
    ensures Slot(Relative(off, s.base), |s.records|) == off - s.base
  {
    hide Coherent, Relative, Slot;
    assert s.index.Valid();
    RelativeInRange(off, s.base, |s.records|);
  }

  lemma SegmentBounds(ss: seq<Segment>, l: Layout, cfg: Config, repr: set<object>, i: nat)
    requires Holds(ss, l, cfg, repr) && i < |ss|
    ensures i < |l.chunks| && ss[i].base == l.Start(i) && ss[i].next == l.Start(i) + |l.chunks[i]|
    ensures Footprint(ss[i]) <= repr
  {
    assert Carries(ss[i], l, i, cfg);
  }

  lemma HoldsFootprint(ss: seq<Segment>, l: Layout, cfg: Config, repr: set<object>)
    requires Holds(ss, l, cfg, repr)
    ensures |ss| == |l.chunks| && forall i | 0 <= i < |ss| :: ss[i] in repr && ss[i].store in repr
  {
    forall i | 0 <= i < |ss| ensures ss[i] in repr && ss[i].store in repr {
      assert Footprint(ss[i]) <= repr;
    }
  }

  /** An offset no segment holds is out of range. */
  lemma NotLive(l: Layout, off: nat)
    requires forall j | 0 <= j < |l.chunks| :: !(l.Start(j) <= off < l.Start(j) + |l.chunks[j]|)
    ensures l.Read(off) == Err(OffsetOutOfRange(off))
  {
    StartEnds(l);
    if l.base <= off < l.Next() {
      var j := SomeSegment(l, off, |l.chunks|);
      assert false;
    }
  }

  lemma NameAmong(bs: seq<nat>, i: nat)
    requires i < |bs|
    ensures StoreName(bs[i]) in NamesOf(bs) && IndexName(bs[i]) in NamesOf(bs)
  {
    if i < |bs| - 1 {
      NameAmong(bs[..|bs| - 1], i);
    }
  }

  lemma CloseStep(before: map<string, seq<byte>>, after: map<string, seq<byte>>, l: Layout, i: nat)
    requires l.Valid() && i < |l.chunks| && before.Keys == NamesOf(Starts(l))
    requires forall j | 0 <= j < i :: SegmentFiles(before, l.Start(j), l.chunks[j])
    requires after == before[IndexName(l.Start(i)) := IndexBytes(Entries(l.chunks[i]))]
                            [StoreName(l.Start(i)) := RecordFrames(l.chunks[i])]
    ensures after.Keys == NamesOf(Starts(l))
    ensures forall j | 0 <= j <= i :: SegmentFiles(after, l.Start(j), l.chunks[j])
  {
    hide StoreName, IndexName, IndexBytes, Entries, RecordFrames, NamesOf, Layout.Start, Layout.Valid;
    ValidFacts(l);
    StartsFit(l);
    StartsAscend(l);
    NameAmong(Starts(l), i);
    NamesParse(l.Start(i));
    forall j | 0 <= j <= i ensures SegmentFiles(after, l.Start(j), l.chunks[j]) {
      if j < i {
        assert Starts(l)[j] < Starts(l)[i];
        NamesDistinct(l.Start(j), l.Start(i));
        NamesDistinct(l.Start(i), l.Start(j));
        assert SegmentFiles(before, l.Start(j), l.chunks[j]);
      }
    }
  }

  /** The test Truncate makes on each segment selects exactly a prefix of them. */
  lemma DropIff(l: Layout, limit: nat, i: nat)
    requires l.Valid() && i < |l.chunks|
    ensures l.Start(i) + |l.chunks[i]| <= limit <==> i < DropCount(l.base, l.chunks, limit)
  {
    hide Layout.Valid, DropCount, Layout.Start;
    ValidFacts(l);
    StartEnds(l);
    StartStep(l, i);
    StartMonotone(l, 0, i);
    var k := DropCount(l.base, l.chunks, limit);
    if limit < l.base {
      BelowEverything(l, limit);
    } else {
      assert l.chunks[0..] == l.chunks;
      DropCountMeaning(l, 0, limit);
      if i < k {
        StartMonotone(l, i + 1, k);
      } else {
        StartStep(l, k);
        StartMonotone(l, k + 1, i + 1);
      }
    }
  }

  lemma SliceSnoc<T>(s: seq<T>, k: nat, i: nat)
    requires k <= i < |s|
    ensures s[k..i] + [s[i]] == s[k..i + 1]
  {
  }

  lemma NothingGone(bs: seq<nat>)
    ensures NamesOf(bs[..0]) == {}
  {
  }

  lemma RemoveStep(bs: seq<nat>, i: nat)
    requires i < |bs|
    ensures NamesOf(bs[..i + 1]) == NamesOf(bs[..i]) + {StoreName(bs[i]), IndexName(bs[i])}
  {
    assert bs[..i + 1] == bs[..i] + [bs[i]];
    NamesOfSnoc(bs[..i], bs[i]);
  }

  lemma StartsSuffix(l: Layout, k: nat)
    requires k <= |l.chunks|
    ensures Starts(Layout(l.full, l.Start(k), l.chunks[k..])) == Starts(l)[k..]
  {
    hide Layout.Start;
    var t := Layout(l.full, l.Start(k), l.chunks[k..]);
    forall i | 0 <= i < |t.chunks| ensures Starts(t)[i] == Starts(l)[k + i] {
      StartAfterDrop(l, k, i);
    }
  }

  /** Removing the first k segments' names leaves those of the rest. */
  lemma NamesSplit(bs: seq<nat>, k: nat)
    requires k <= |bs| && Ascending(bs) && forall i | 0 <= i < |bs| :: bs[i] < U64
    ensures NamesOf(bs) - NamesOf(bs[..k]) == NamesOf(bs[k..])
  {
    hide NamesOf;
    var a, b := bs[..k], bs[k..];
    assert bs == a + b;
    NamesOfConcat(a, b);
    NamesDisjoint(a, b);
  }

  lemma KeptNames(l: Layout, k: nat)
    requires l.Valid() && k <= |l.chunks|
    ensures NamesOf(Starts(l)) - NamesOf(Starts(l)[..k])
            == NamesOf(Starts(Layout(l.full, l.Start(k), l.chunks[k..])))
  {
    hide Layout.Valid, NamesOf, Layout.Start, Ascending;
    ValidFacts(l);
    StartsFit(l);
    StartsAscend(l);
    NamesSplit(Starts(l), k);
    StartsSuffix(l, k);
  }

  lemma NoNames(l: Layout)
    ensures l.chunks == [] ==> NamesOf(Starts(l)) == {}
  {
  }

  lemma MarkedSuffix(ss: seq<Segment>, mark: nat, k: nat)
    requires Marked(ss, mark) && k <= |ss|
    ensures Marked(ss[k..], mark)
  {
  }

  lemma HoldsSuffix(ss: seq<Segment>, l: Layout, cfg: Config, repr: set<object>, k: nat)
    requires Holds(ss, l, cfg, repr) && k <= |ss|
    ensures Holds(ss[k..], Layout(l.full, l.Start(k), l.chunks[k..]), cfg, repr)
  {
    hide Segment.Valid, Layout.Start;
    var t := Layout(l.full, l.Start(k), l.chunks[k..]);
    forall i | 0 <= i < |ss| - k ensures Footprint(ss[k..][i]) <= repr && Carries(ss[k..][i], t, i, cfg) {
      StartAfterDrop(l, k, i);
      assert Carries(ss[k + i], l, k + i, cfg);
    }
  }

  lemma HoldsSameLimits(ss: seq<Segment>, l: Layout, a: Config, b: Config, repr: set<object>)
    requires Holds(ss, l, a, repr) && SameLimits(a, b)
    ensures Holds(ss, l, b, repr)
  {
    hide Segment.Valid, Layout.Start;
    forall i | 0 <= i < |ss| ensures Carries(ss[i], l, i, b) {
      assert Carries(ss[i], l, i, a);
    }
  }

  lemma ValidState(log: Log)
    requires log.Valid()
    ensures log.state.Valid() && log.state.chunks != [] && log.state.Next() < U64
  {
  }

  /** setupLog: makes the directory if it is missing, then opens the log in it, whether new or closed
      there before. */
  method SetupLog(dir: Disk, c: Config, ghost l: Layout) returns (log: Log)
    requires GoodConfig(Defaulted(c))
    requires Loadable(if dir.present then dir.files else map[], Defaulted(c), l)
    modifies dir
    ensures log.Valid() && log.state == l && log.config == Defaulted(c) && log.dir == dir
    ensures fresh(log) && fresh(log.Repr) && log.mark == l.Next()
    ensures log.config.maxStore == (if c.maxStore == 0 then 1024 else c.maxStore)
    ensures log.config.maxIndex == (if c.maxIndex == 0 then 1024 else c.maxIndex)
    ensures log.config.initial == c.initial
  {
    dir.MakeAll();
    log := new Log(dir, c, l);
  }

  /** A fresh log can be opened in a directory that holds nothing. */
  lemma NothingToLoad(c: Config)
    requires GoodConfig(Defaulted(c))
    ensures Loadable(map[], Defaulted(c), Fresh(RuleOf(Defaulted(c)), c.initial))
    ensures !RuleOf(Defaulted(c))([])
  {
    hide RuleOf, Layout.Valid;
    RuleOfAccepts(Defaulted(c));
    FreshIsValid(RuleOf(Defaulted(c)), c.initial);
  }

  /** What Valid means for the objects: adjacent segments meet without gap or overlap, all but the last are
      non-empty, the active one is the last and is not maxed, and no store holds a frame that its index
      does not list. */
  lemma SegmentsTile(log: Log)
    requires log.Valid()
    ensures log.segments != [] && log.active == log.segments[|log.segments| - 1] && !log.active.IsMaxed()
    ensures forall i | 0 <= i < |log.segments| - 1 ::
              log.segments[i].next == log.segments[i + 1].base && log.segments[i].base < log.segments[i].next
    ensures forall i | 0 <= i < |log.segments| :: ClosedUnderIndex(log.segments[i])
  {
    hide Layout.Valid, Holds, RuleOf, GoodConfig, NamesOf, Starts, ClosedUnderIndex, Layout.Start, Segment.Valid;
    var ss, l := log.segments, log.state;
    LastRoom(l);
    LastCarried(ss, l, log.config, log.Repr);
    MaxedIsFull(log.active, log.config);
    forall i | 0 <= i < |ss| - 1 ensures ss[i].next == ss[i + 1].base && ss[i].base < ss[i].next {
      SegmentBounds(ss, l, log.config, log.Repr, i);
      SegmentBounds(ss, l, log.config, log.Repr, i + 1);
      StartStep(l, i);
      SealedNotEmpty(l, i);
    }
    forall i | 0 <= i < |ss| ensures ClosedUnderIndex(ss[i]) {
      IndexListsAll(ss, l, log.config, log.Repr, i);
    }
  }

  /** The store is exactly the frames of the records the index lists. */
  ghost predicate ClosedUnderIndex(s: Segment)
    reads Footprint(s)
  {
    && |s.index.entries| == |s.records|
    && s.store.Data() == RecordFrames(s.records) && s.index.entries == Entries(s.records)
  }

  lemma IndexListsAll(ss: seq<Segment>, l: Layout, cfg: Config, repr: set<object>, i: nat)
    requires Holds(ss, l, cfg, repr) && i < |ss|
    ensures ClosedUnderIndex(ss[i])
  {
    hide RecordFrames, Entries, Layout.Start;
    assert Carries(ss[i], l, i, cfg);
    assert RecordFrames(ss[i].records) + [] == RecordFrames(ss[i].records);
  }

  lemma SealedNotEmpty(l: Layout, i: nat)
    requires l.Valid() && i < |l.chunks| - 1
    ensures l.chunks[i] != []
  {
    assert Sealed(l.full, l.chunks[i]);
  }

  lemma HoldsNothing(l: Layout, cfg: Config, repr: set<object>)
    requires l.chunks == []
    ensures Holds([], l, cfg, repr)
  {
  }

  /** What opening the m-th segment of a clean image needs. */
  lemma LoadStep(files: map<string, seq<byte>>, l: Layout, cfg: Config, m: nat)
    requires l.Valid() && GoodConfig(cfg) && l.full == RuleOf(cfg)
    requires CleanImage(files, l) && m < |l.chunks|
    ensures var b, rs := l.Start(m), l.chunks[m];
            && 2 * m < |Doubled(Starts(l))| && Doubled(Starts(l))[2 * m] == b < U64
            && b == l.(chunks := l.chunks[..m]).Next()
            && Stamped(b, rs) && b + |rs| < U64 && b + |rs| <= l.Next()
            && |RecordFrames(rs)| < U64 && ENT_WIDTH * |rs| <= cfg.maxIndex
            && Openable(files, b, rs)
            && files == files[StoreName(b) := RecordFrames(rs)][IndexName(b) := IndexBytes(Entries(rs))]
  {
    hide StoreName, IndexName, RecordFrames, IndexBytes, Entries, RuleOf, Stamped, Concat;
    DoubledAt(Starts(l), m);
    ChunkFits(l, cfg, m);
    ChunkSlice(l, m);
    assert SegmentFiles(files, l.Start(m), l.chunks[m]);
  }

  /** The two starting points of setup, in the form its steps need. */
  lemma LoadableFacts(files: map<string, seq<byte>>, cfg: Config, l: Layout)
    requires Loadable(files, cfg, l) && GoodConfig(cfg)
    ensures l.Valid() && l.Tiled() && l.Next() < U64 && l.chunks != [] && l.full == RuleOf(cfg)
    ensures files == map[] || CleanImage(files, l)
    ensures |Doubled(Starts(l))| > 0
    ensures CleanImage(files, l) ==> files != map[] && files.Keys == NamesOf(Starts(l))
    ensures files == map[] ==>
              && l.chunks == [] + [[]] && l.(chunks := []).Next() == cfg.initial
              && Stamped(cfg.initial, []) && cfg.initial < U64
              && RecordFrames([]) == [] && Openable(files, cfg.initial, [])
              && NamesOf(Starts(l)) == {StoreName(cfg.initial), IndexName(cfg.initial)}
  {
  }
}
