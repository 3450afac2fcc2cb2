/** internal/log/log.go, Reader: the stores of all segments as one byte stream, read in chunks while the
    log goes on appending. Everything here is about a stream drained through Read. */
module Readers {
  import opened Bytes
  import opened Codec
  import opened Framing
  import opened StoreFile
  import opened Layouts
  import opened Segments
  import opened Logs
  import opened Images
  import opened Snapshots

  /** A reader over the first `count` segments: segment `at` has been read up to `off`, the ones before
      it to their end (`taken` records in all), and `out` is everything delivered. */
  datatype Cursor = Cursor(at: nat, count: nat, off: nat, taken: nat, out: seq<byte>)

  function Data(l: Layout, i: nat): seq<byte>
    requires i < |l.chunks|
  {
    RecordFrames(l.chunks[i])
  }

  predicate Positioned(l: Layout, c: Cursor) {
    && c.at <= c.count <= |l.chunks|
    && (c.at < c.count ==> c.off <= |Data(l, c.at)|)
  }

  /** Log.Reader captures the segments that exist at that moment. */
  function Open(l: Layout): Cursor {
    Cursor(0, |l.chunks|, 0, 0, [])
  }

  /** One Read of the MultiReader: the head store delivers what it has up to `want` bytes and is dropped
      when that was fewer; an exhausted store that delivered nothing gives way to the next at once. */
  function Pull(l: Layout, c: Cursor, want: nat): (r: (Cursor, bool))
    requires Positioned(l, c)
    ensures Positioned(l, r.0) && r.0.count == c.count
    decreases c.count - c.at
  {
    if c.at == c.count then (c, true)
    else
      var d := Data(l, c.at);
      var eof := |d| < c.off + want;
      var bytes := d[c.off..if eof then |d| else c.off + want];
      var next := if eof then Cursor(c.at + 1, c.count, 0, c.taken + |l.chunks[c.at]|, c.out + bytes)
                  else c.(off := c.off + want, out := c.out + bytes);
      if bytes != [] || !eof then (next, eof && next.at == next.count) else Pull(l, next, want)
  }

  /** What a reader opened when the log had m records has delivered, in terms of the log as it is now. */
  ghost predicate Tracks(l: Layout, c: Cursor, m: nat) {
    && Positioned(l, c) && 0 < c.count
    && m <= |Concat(l.chunks[..c.count])|
    && if c.at < c.count then
         && c.taken == |Concat(l.chunks[..c.at])|
         && c.out == RecordFrames(Concat(l.chunks[..c.at])) + Data(l, c.at)[..c.off]
       else
         && m <= c.taken <= |Concat(l.chunks[..c.count])|
         && c.out == RecordFrames(Concat(l.chunks[..c.count])[..c.taken])
  }

  lemma OpenTracks(l: Layout)
    requires l.Valid()
    ensures Tracks(l, Open(l), |l.Records()|)
  {
    assert l.chunks[..|l.chunks|] == l.chunks;
    assert l.chunks[..0] == [];
    assert RecordFrames([]) == [];
  }

  lemma FramesThrough(l: Layout, i: nat)
    requires i < |l.chunks|
    ensures Concat(l.chunks[..i + 1]) == Concat(l.chunks[..i]) + l.chunks[i]
    ensures RecordFrames(Concat(l.chunks[..i + 1])) == RecordFrames(Concat(l.chunks[..i])) + Data(l, i)
  {
    hide RecordFrames;
    assert l.chunks[..i + 1] == l.chunks[..i] + [l.chunks[i]];
    ConcatSnoc(l.chunks[..i], l.chunks[i]);
    RecordFramesConcat(Concat(l.chunks[..i]), l.chunks[i]);
  }

  /** Delivering more of the current store. */
  lemma DeliverPart(l: Layout, c: Cursor, m: nat, to: nat)
    requires Tracks(l, c, m) && c.at < c.count && c.off <= to <= |Data(l, c.at)|
    ensures Tracks(l, c.(off := to, out := c.out + Data(l, c.at)[c.off..to]), m)
  {
    hide RecordFrames, Concat;
    var d := Data(l, c.at);
    assert d[..c.off] + d[c.off..to] == d[..to];
  }

  /** Delivering the rest of the current store and moving on. */
  lemma DeliverRest(l: Layout, c: Cursor, m: nat)
    requires Tracks(l, c, m) && c.at < c.count
    ensures Tracks(l, Cursor(c.at + 1, c.count, 0, c.taken + |l.chunks[c.at]|,
                             c.out + Data(l, c.at)[c.off..]), m)
  {
    hide RecordFrames, Concat;
    FramesThrough(l, c.at);
    var d := Data(l, c.at);
    assert d[..c.off] + d[c.off..] == d;
    var next := Cursor(c.at + 1, c.count, 0, c.taken + |l.chunks[c.at]|, c.out + d[c.off..]);
    assert next.out == RecordFrames(Concat(l.chunks[..c.at + 1]));
    if next.at < next.count {
      assert Data(l, next.at)[..0] == [];
    } else {
      var all := Concat(l.chunks[..c.count]);
      assert all[..next.taken] == all;
    }
  }

  lemma {:induction false} PullTracks(l: Layout, c: Cursor, want: nat, m: nat)
    requires Tracks(l, c, m)
    ensures Tracks(l, Pull(l, c, want).0, m)
    decreases c.count - c.at
  {
    hide Tracks, Data;
    TracksPosition(l, c, m);
    if c.at < c.count {
      var d := Data(l, c.at);
      if |d| < c.off + want {
        DeliverRest(l, c, m);
        assert d[c.off..|d|] == d[c.off..];
        var next := Cursor(c.at + 1, c.count, 0, c.taken + |l.chunks[c.at]|, c.out + d[c.off..]);
        if d[c.off..] == [] {
          PullTracks(l, next, want, m);
        }
      } else {
        DeliverPart(l, c, m, c.off + want);
      }
    }
  }

  lemma TracksPosition(l: Layout, c: Cursor, m: nat)
    requires Tracks(l, c, m)
    ensures Positioned(l, c)
  {
  }

  /** An append leaves all segments but the last alone and extends the last. */
  lemma AppendShape(l: Layout, r: Record)
    requires l.chunks != [] && l.Next() < U64
    ensures var t, n := l.Append(r), |l.chunks| - 1;
            && n < |t.chunks| && t.chunks[..n] == l.chunks[..n]
            && t.chunks[n] == l.chunks[n] + [r.(offset := l.Next())]
  {
  }

  lemma FeedPrefix(l: Layout, r: Record, i: nat)
    requires l.chunks != [] && l.Next() < U64 && i <= |l.chunks|
    ensures i <= |l.Append(r).chunks|
    ensures Concat(l.chunks[..i]) <= Concat(l.Append(r).chunks[..i])
    ensures i < |l.chunks| ==> l.Append(r).chunks[..i] == l.chunks[..i] && Data(l, i) <= Data(l.Append(r), i)
  {
    hide RecordFrames, Layout.Append;
    var t, n := l.Append(r), |l.chunks| - 1;
    AppendShape(l, r);
    if i <= n {
      assert t.chunks[..i] == t.chunks[..n][..i] && l.chunks[..i] == l.chunks[..n][..i];
      if i < n {
        assert t.chunks[i] == t.chunks[..n][i] && l.chunks[i] == l.chunks[..n][i];
      } else {
        RecordFramesSnoc(l.chunks[n], r.(offset := l.Next()));
      }
    } else {
      assert t.chunks[..i] == t.chunks[..n] + [t.chunks[n]] && l.chunks[..i] == l.chunks[..n] + [l.chunks[n]];
      ConcatSnoc(t.chunks[..n], t.chunks[n]);
      ConcatSnoc(l.chunks[..n], l.chunks[n]);
    }
  }

  /** An append between two reads does not disturb what has been delivered. */
  lemma FeedTracks(l: Layout, r: Record, c: Cursor, m: nat)
    requires Tracks(l, c, m) && l.Next() < U64
    ensures Tracks(l.Append(r), c, m)
  {
    hide RecordFrames, Concat, Layout.Append, Layout.Next, Data;
    FeedPrefix(l, r, c.count);
    var t := l.Append(r);
    if c.at < c.count {
      FeedPrefix(l, r, c.at);
      assert Data(t, c.at)[..c.off] == Data(l, c.at)[..c.off];
    } else {
      var before, after := Concat(l.chunks[..c.count]), Concat(t.chunks[..c.count]);
      assert after[..c.taken] == before[..c.taken];
    }
  }

  // ----- runs -----

  datatype Event = Feed(record: Record) | Fetch(want: nat)

  /** How many of the events append. */
  function Feeds(events: seq<Event>): (n: nat)
    ensures n <= |events|
  {
    if events == [] then 0 else Feeds(events[..|events| - 1]) + if events[|events| - 1].Feed? then 1 else 0
  }

  predicate Feasible(l: Layout, events: seq<Event>) {
    && l.Next() + Feeds(events) < U64
    && forall i | 0 <= i < |events| && events[i].Feed? :: Storable(events[i].record)
  }

  lemma {:induction false} FeedsPrefix(events: seq<Event>, i: nat)
    requires i <= |events|
    ensures Feeds(events[..i]) <= Feeds(events)
    decreases |events|
  {
    if i < |events| {
      FeedsPrefix(events[..|events| - 1], i);
      assert events[..|events| - 1][..i] == events[..i];
    } else {
      assert events[..i] == events;
    }
  }

  predicate Quiet(events: seq<Event>) {
    forall i | 0 <= i < |events| :: events[i].Fetch?
  }

  predicate Finished(c: Cursor) {
    c.at == c.count
  }

  /** The log and the reader after any interleaving of appends and reads. */
  ghost function Interleaved(l: Layout, events: seq<Event>): (r: (Layout, Cursor))
    requires l.Valid() && Feasible(l, events)
    ensures r.0.Valid() && r.0.base == l.base && r.0.Next() == l.Next() + Feeds(events)
    ensures l.Records() <= r.0.Records() && Tracks(r.0, r.1, |l.Records()|) && r.1.count == |l.chunks|
  {
    OpenTracks(l);
    if events == [] then (l, Open(l))
    else
      var (m, c) := Interleaved(l, events[..|events| - 1]);
      StepFacts(l, m, c, events[|events| - 1]);
      match events[|events| - 1]
      case Feed(r) => (m.Append(r), c)
      case Fetch(want) => (m, Pull(m, c, want).0)
  }

  lemma StepFacts(l: Layout, m: Layout, c: Cursor, e: Event)
    requires m.Valid() && m.base == l.base && l.Records() <= m.Records()
    requires Tracks(m, c, |l.Records()|) && (e.Feed? ==> m.Next() < U64 - 1 && Storable(e.record))
    ensures m.chunks != [] && Positioned(m, c)
    ensures e.Feed? ==>
              && m.Append(e.record).Valid() && m.Append(e.record).base == l.base
              && m.Append(e.record).Next() == m.Next() + 1
              && l.Records() <= m.Append(e.record).Records()
              && Tracks(m.Append(e.record), c, |l.Records()|)
    ensures e.Fetch? ==> Tracks(m, Pull(m, c, e.want).0, |l.Records()|)
  {
    hide Tracks, Layout.Append, Concat, Pull, Positioned;
    TracksPosition(m, c, |l.Records()|);
    match e
    case Feed(r) =>
      AppendEffect(m, r);
      FeedTracks(m, r, c, |l.Records()|);
    case Fetch(want) => PullTracks(m, c, want, |l.Records()|);
  }

  /** Reader under interleaved appends: once end of stream is reached, what was delivered is whole frames,
      the records from the lowest offset on without a gap, all that were there when the reader was opened,
      and beyond those only later ones of the last captured segment. */
  lemma StreamIsPrefix(l: Layout, events: seq<Event>)
    requires l.Valid() && Feasible(l, events)
    ensures var (m, c) := Interleaved(l, events);
            Finished(c) ==>
              && |l.Records()| <= c.taken <= |Concat(m.chunks[..c.count])| && c.taken <= |m.Records()|
              && c.out == RecordFrames(m.Records()[..c.taken])
  {
    hide Interleaved, RecordFrames, Concat;
    var (m, c) := Interleaved(l, events);
    if Finished(c) {
      PrefixOfRecords(m, c.count);
      assert m.Records()[..c.taken] == Concat(m.chunks[..c.count])[..c.taken];
    }
  }

  lemma PrefixOfRecords(l: Layout, i: nat)
    requires i <= |l.chunks|
    ensures Concat(l.chunks[..i]) <= l.Records()
  {
    assert l.chunks == l.chunks[..i] + l.chunks[i..];
    ConcatAppend(l.chunks[..i], l.chunks[i..]);
  }

  /** With no append in between, the stream is exactly the live records. */
  lemma QuiescentStream(l: Layout, events: seq<Event>)
    requires l.Valid() && Feasible(l, events) && Quiet(events)
    ensures Interleaved(l, events).0 == l
    ensures var c := Interleaved(l, events).1;
            Finished(c) ==> c.out == RecordFrames(l.Records())
  {
    hide Interleaved, RecordFrames, Concat, Tracks, Layout.Valid;
    QuietLog(l, events);
    StreamIsPrefix(l, events);
    var c := Interleaved(l, events).1;
    TracksPosition(l, c, |l.Records()|);
    PrefixOfRecords(l, c.count);
    assert l.Records()[..|l.Records()|] == l.Records();
  }

  lemma {:induction false} QuietLog(l: Layout, events: seq<Event>)
    requires l.Valid() && Feasible(l, events) && Quiet(events)
    ensures Interleaved(l, events).0 == l
  {
    hide Tracks, Layout.Valid, Pull;
    if events != [] {
      QuietLog(l, events[..|events| - 1]);
    }
  }

  // ----- when the stream is the log as it was -----

  /** These events are all reads and bring the reader to its end. */
  ghost predicate Drains(l: Layout, events: seq<Event>)
    requires l.Valid()
  {
    Feasible(l, events) && Quiet(events) && Finished(Interleaved(l, events).1)
  }

  /** The reader reached its end before the first append. */
  ghost predicate DrainedFirst(l: Layout, events: seq<Event>)
    requires l.Valid()
  {
    exists k | 0 <= k <= |events| :: Drains(l, events[..k])
  }

  /** Once finished, neither reads nor appends change the reader. */
  lemma FinishedStays(l: Layout, c: Cursor, want: nat)
    requires Positioned(l, c) && Finished(c)
    ensures Pull(l, c, want) == (c, true)
  {
  }

  /** The first append of an unfinished reader's life goes into the last segment it has captured. */
  lemma FirstAppendIsCaptured(l: Layout, r: Record, c: Cursor)
    requires l.Valid() && l.Next() < U64 - 1 && Storable(r)
    requires Tracks(l, c, |l.Records()|) && !Finished(c) && c.count == |l.chunks|
    ensures Tracks(l.Append(r), c, |l.Records()| + 1)
  {
    hide RecordFrames, Layout.Append, Concat;
    FeedTracks(l, r, c, |l.Records()|);
    AppendShape(l, r);
    var t, n := l.Append(r), |l.chunks| - 1;
    assert t.chunks[..n + 1] == t.chunks[..n] + [t.chunks[n]] && l.chunks == l.chunks[..n] + [l.chunks[n]];
    ConcatSnoc(t.chunks[..n], t.chunks[n]);
    ConcatSnoc(l.chunks[..n], l.chunks[n]);
  }

  lemma QuietTaken(l: Layout, events: seq<Event>)
    requires l.Valid() && Feasible(l, events) && Quiet(events) && Finished(Interleaved(l, events).1)
    ensures Interleaved(l, events).1.taken == |l.Records()|
  {
    hide Interleaved, RecordFrames, Concat;
    QuietLog(l, events);
    assert l.chunks[..|l.chunks|] == l.chunks;
  }

  /** Where a reader stands: drained before the first append; or no append yet and not drained; or it is bound
      to take in at least one record appended after it was opened. */
  lemma {:induction false} Timeline(l: Layout, events: seq<Event>)
    requires l.Valid() && Feasible(l, events)
    ensures var (m, c) := Interleaved(l, events);
            if DrainedFirst(l, events) then Finished(c) && c.taken == |l.Records()|
            else if Quiet(events) then !Finished(c)
            else Tracks(m, c, |l.Records()| + 1)
    decreases |events|
  {
    hide Tracks, Layout.Valid, Pull, Layout.Append, Positioned, Concat, DrainedFirst, Interleaved, Feasible;
    if events == [] {
      NothingDrained(l);
    } else {
      var i := |events| - 1;
      var front, e := events[..i], events[i];
      assert events[..i + 1] == events;
      InterleavedStep(l, events, i);
      Timeline(l, front);
      DrainedSnoc(l, events);
      var (m, c) := Interleaved(l, front);
      if DrainedFirst(l, front) {
        if e.Fetch? {
          FinishedStays(m, c, e.want);
        }
      } else if Quiet(front) {
        QuietLog(l, front);
        if e.Feed? {
          FirstAppendIsCaptured(l, e.record, c);
        } else if Finished(Interleaved(l, events).1) {
          QuietTaken(l, events);
        }
      } else if e.Feed? {
        FeedTracks(m, e.record, c, |l.Records()| + 1);
      } else {
        PullTracks(m, c, e.want, |l.Records()| + 1);
      }
    }
  }

  lemma NothingDrained(l: Layout)
    requires l.Valid() && Feasible(l, [])
    ensures !DrainedFirst(l, []) && !Finished(Interleaved(l, []).1)
  {
    hide Tracks;
    ValidFacts(l);
    var none: seq<Event> := [];
    assert none[..0] == none;
  }

  lemma DrainedSnoc(l: Layout, events: seq<Event>)
    requires l.Valid() && events != []
    ensures DrainedFirst(l, events) <==> DrainedFirst(l, events[..|events| - 1]) || Drains(l, events)
  {
    hide Drains, Layout.Valid;
    var n := |events| - 1;
    var front := events[..n];
    assert events[..n + 1] == events;
    if DrainedFirst(l, events) {
      var k :| 0 <= k <= |events| && Drains(l, events[..k]);
      if k <= n {
        assert front[..k] == events[..k];
      }
    }
    if DrainedFirst(l, front) {
      var k :| 0 <= k <= n && Drains(l, front[..k]);
      assert events[..k] == front[..k];
    }
  }

  /** A finished stream is exactly the log as it was when the reader was opened if and only if the reader was
      drained before the first append. */
  lemma StreamIsSnapshot(l: Layout, events: seq<Event>)
    requires l.Valid() && Feasible(l, events)
    ensures var c := Interleaved(l, events).1;
            Finished(c) ==> (c.taken == |l.Records()| <==> DrainedFirst(l, events))
  {
    hide Interleaved, DrainedFirst, RecordFrames, Concat;
    Timeline(l, events);
  }

  /** A snapshot persisted while appends go on restores to a prefix of the log that contains everything
      present when the snapshot was taken. */
  lemma ConcurrentSnapshot(l: Layout, events: seq<Event>, dst: Layout)
    requires l.Valid() && Feasible(l, events) && dst.Valid() && l.Records() != []
    ensures var (m, c) := Interleaved(l, events);
            Finished(c) ==>
            && InDomain(dst, c.out, true) && c.taken <= |m.Records()|
            && Restored(dst, c.out, true).1 == Ok(())
            && Restored(dst, c.out, true).0.base == l.base
            && Restored(dst, c.out, true).0.Records() == m.Records()[..c.taken]
            && l.Records() <= Restored(dst, c.out, true).0.Records()
  {
    hide Interleaved, RecordFrames, Concat, Restored, InDomain, Tracks;
    StreamIsPrefix(l, events);
    var (m, c) := Interleaved(l, events);
    if Finished(c) {
      RestoreStream(l.base, m.Records()[..c.taken], dst);
    }
  }

  // ----- the reader over the byte-level log -----

  /** Reading a captured store flushes it and leaves the log as it was. */
  method ReadCaptured(store: Store, want: nat, off: nat, ghost log: Log, ghost i: nat)
    returns (bytes: seq<byte>, eof: bool)
    requires log.Valid() && i < |log.segments| && store == log.segments[i].store
    requires i < |log.state.chunks| && off <= |Data(log.state, i)|
    modifies store
    ensures log.Valid()
    ensures eof == (|Data(log.state, i)| < off + want)
    ensures bytes == Data(log.state, i)[off..if eof then |Data(log.state, i)| else off + want]
  {
    hide Segment.Valid, Layout.Valid, Layout.Start, RuleOf, NamesOf, Starts, RecordFrames, GoodConfig;
    ghost var l := log.state;
    ghost var ss := log.segments;
    SegmentBounds(ss, l, log.config, log.Repr, i);
    assert Carries(ss[i], l, i, log.config);
    StoreOf(ss[i]);
    bytes, eof := store.ReadAt(want, off);
    StoreKept(ss[i]);
    forall j | 0 <= j < |ss| ensures Carries(ss[j], l, j, log.config) {
      if j < i {
        assert ss[j].Apart(ss[i]);
      } else if i < j {
        assert ss[i].Apart(ss[j]);
      }
    }
  }

  /** A flush keeps a segment valid: its logical bytes are the same. */
  twostate lemma StoreKept(s: Segment)
    requires old(s.Valid()) && s.store.Valid() && s.store.Data() == old(s.store.Data())
    requires unchanged(s) && unchanged(s.index) && unchanged(s.index.mmap)
    requires old(s.store.size) == s.store.size
    requires s.store.Unread() == if old(s.store.buf) == [] then old(s.store.Unread()) else []
    ensures s.Valid()
  {
    hide Coherent;
  }

  /** io.MultiReader over one originReader per captured segment. Only the head has been read from, so one
      position serves them all. */
  class MultiReader {
    var stores: seq<Store>
    var off: nat
    ghost var cursor: Cursor

    ghost predicate Attached(log: Log)
      reads this, log
    {
      && Positioned(log.state, cursor) && cursor.count <= |log.segments|
      && |stores| == cursor.count - cursor.at
      && (forall j | 0 <= j < |stores| :: stores[j] == log.segments[cursor.at + j].store)
      && (cursor.at < cursor.count ==> off == cursor.off)
    }

    constructor (log: Log)
      requires log.Valid()
      ensures Attached(log) && cursor == Open(log.state) && cursor.out == []
    {
      hide Layout.Valid, Carries, RecordFrames;
      stores := seq(|log.segments|, i requires 0 <= i < |log.segments| reads log => log.segments[i].store);
      off := 0;
      cursor := Open(log.state);
    }

    /** One Read: proved to deliver exactly what Pull says, and to leave the log untouched. */
    method Read(want: nat, ghost log: Log) returns (bytes: seq<byte>, eof: bool)
      requires log.Valid() && Attached(log) && this !in log.Repr
      modifies this, log.Repr
      ensures log.Valid() && Attached(log)
      ensures old(Positioned(log.state, cursor)) && (cursor, eof) == Pull(log.state, old(cursor), want)
      ensures cursor.out == old(cursor.out) + bytes
    {
      hide Log.Valid, Data, Pull, Positioned;
      bytes := [];
      while stores != []
        invariant log.Valid() && Attached(log) && log.segments == old(log.segments) && log.state == old(log.state)
        invariant log.Repr == old(log.Repr) && cursor.out == old(cursor.out) && bytes == []
        invariant Pull(log.state, cursor, want) == old(Pull(log.state, cursor, want))
        decreases |stores|
      {
        ghost var at := cursor.at;
        CapturedStore(log, at);
        var ended;
        StillPositioned(log.state, cursor);
        bytes, ended := ReadCaptured(stores[0], want, off, log, at);
        PullUnfolds(log.state, cursor, want, bytes, ended);
        if ended {
          stores, off := stores[1..], 0;
          cursor := Cursor(at + 1, cursor.count, 0, cursor.taken + |log.state.chunks[at]|, cursor.out + bytes);
        } else {
          off := off + want;
          cursor := cursor.(off := off, out := cursor.out + bytes);
        }
        if |bytes| > 0 || !ended {
          eof := ended && stores == [];
          return;
        }
      }
      StillPositioned(log.state, cursor);
      PullFinished(log.state, cursor, want);
      eof := true;
    }
  }

  /** A read of at least one byte moves the reader on, and end of stream means every store is used up. */
  lemma {:induction false} PullProgress(l: Layout, c: Cursor, want: nat)
    requires Positioned(l, c) && want > 0
    ensures var (next, eof) := Pull(l, c, want);
            && (eof <==> next.at == next.count)
            && (c.at < c.count ==> next.at > c.at || (next.at == c.at && next.off > c.off))
    decreases c.count - c.at
  {
    hide RecordFrames;
    if c.at < c.count {
      var d := Data(l, c.at);
      if |d| < c.off + want && d[c.off..] == [] {
        var next := Cursor(c.at + 1, c.count, 0, c.taken + |l.chunks[c.at]|, c.out + d[c.off..|d|]);
        PullProgress(l, next, want);
      }
    }
  }

  lemma WholeStream(l: Layout, c: Cursor)
    requires Tracks(l, c, |l.Records()|) && c.at == c.count == |l.chunks|
    ensures c.out == RecordFrames(l.Records())
  {
    hide RecordFrames, Concat;
    assert l.chunks[..|l.chunks|] == l.chunks;
    assert l.Records()[..c.taken] == l.Records();
  }

  /** snapshot.Persist with the reader of a quiescent log drained through Read, to its end. */
  method Persist(log: Log) returns (sink: seq<byte>)
    requires log.Valid()
    modifies log.Repr
    ensures log.Valid() && sink == RecordFrames(log.state.Records())
  {
    hide Log.Valid, Layout.Valid, Tracks, Pull, RecordFrames, Positioned, Concat;
    var reader := new MultiReader(log);
    OpenedOn(log);
    sink := [];
    var eof := false;
    while !eof
      invariant log.Valid() && log !in log.Repr && log.state == old(log.state) && log.Repr == old(log.Repr)
      invariant fresh(reader) && reader.Attached(log)
      invariant reader.cursor.count == |log.state.chunks| && reader.cursor.out == sink
      invariant Tracks(log.state, reader.cursor, |log.state.Records()|)
      invariant reader.cursor.at <= reader.cursor.count && (eof <==> reader.cursor.at == reader.cursor.count)
      decreases reader.cursor.count - reader.cursor.at, Left(log.state, reader.cursor)
    {
      ghost var c := reader.cursor;
      StillPositioned(log.state, c);
      PullTracks(log.state, c, 32768, |log.state.Records()|);
      PullProgress(log.state, c, 32768);
      var bytes;
      bytes, eof := reader.Read(32768, log);
      sink := sink + bytes;
      StillPositioned(log.state, reader.cursor);
    }
    WholeStream(log.state, reader.cursor);
  }

  lemma InterleavedStep(l: Layout, events: seq<Event>, i: nat)
    requires l.Valid() && Feasible(l, events) && i < |events|
    ensures Feasible(l, events[..i]) && Feasible(l, events[..i + 1])
    ensures var (m, c) := Interleaved(l, events[..i]);
            && m.chunks != [] && Positioned(m, c)
            && (events[i].Feed? ==> m.Next() < U64 - 1 && Storable(events[i].record))
            && Interleaved(l, events[..i + 1])
               == match events[i]
                  case Feed(r) => (m.Append(r), c)
                  case Fetch(want) => (m, Pull(m, c, want).0)
  {
    hide Tracks, Layout.Valid, Pull, Layout.Append, Positioned, Concat;
    assert events[..i + 1][..i] == events[..i];
    FeedsPrefix(events, i + 1);
    var (m, c) := Interleaved(l, events[..i]);
    ValidFacts(m);
    TracksPosition(m, c, |l.Records()|);
  }

  lemma PositionNow(l: Layout, events: seq<Event>)
    requires l.Valid() && Feasible(l, events)
    ensures Positioned(Interleaved(l, events).0, Interleaved(l, events).1)
  {
    TracksPosition(Interleaved(l, events).0, Interleaved(l, events).1, |l.Records()|);
  }

  /** An append while a reader is open: the captured segments keep their place in the list. */
  method FeedReader(log: Log, reader: MultiReader, r: Record)
    requires log.Valid() && reader.Attached(log) && reader !in log.Repr
    requires Storable(r) && log.state.chunks != [] && log.state.Next() < U64 - 1
    requires Positioned(log.state.Append(r), reader.cursor)
    modifies log, log.dir, log.Repr
    ensures log.Valid() && log.state == old(log.state).Append(r) && fresh(log.Repr - old(log.Repr))
    ensures reader.Attached(log) && reader.cursor == old(reader.cursor) && reader !in log.Repr
  {
    hide Log.Valid, Layout.Valid, Positioned, Layout.Append, Layout.Next;
    var off := log.Append(r);
  }

  /** One event of the interleaving, with the bytes it delivers. */
  method ReaderEvent(log: Log, reader: MultiReader, e: Event) returns (bytes: seq<byte>)
    requires log.Valid() && reader.Attached(log) && reader !in log.Repr
    requires log.state.chunks != [] && Positioned(log.state, reader.cursor)
    requires e.Feed? ==> log.state.Next() < U64 - 1 && Storable(e.record)
                         && Positioned(log.state.Append(e.record), reader.cursor)
    modifies log, log.dir, log.Repr, reader
    ensures log.Valid() && reader.Attached(log) && reader !in log.Repr && fresh(log.Repr - old(log.Repr))
    ensures reader.cursor.out == old(reader.cursor.out) + bytes
    ensures log.state == (if e.Feed? then old(log.state).Append(e.record) else old(log.state))
    ensures reader.cursor == if e.Feed? then old(reader.cursor)
                             else Pull(old(log.state), old(reader.cursor), e.want).0
  {
    hide Log.Valid, Layout.Valid, Pull, Positioned, Layout.Append, Layout.Next, MultiReader.Attached;
    bytes := [];
    SeparateLog(log);
    match e {
      case Feed(r) => FeedReader(log, reader, r);
      case Fetch(want) =>
        var eof;
        bytes, eof := reader.Read(want, log);
    }
  }

  /** The interleaving on real stores and files: appends to the log and chunked reads of a reader opened on
      it, in any order, end in the modelled log and cursor, with the modelled bytes delivered. */
  method RunInterleaved(log: Log, events: seq<Event>) returns (reader: MultiReader, delivered: seq<byte>)
    requires log.Valid() && Feasible(log.state, events)
    modifies log, log.dir, log.Repr
    ensures log.Valid() && reader.Attached(log) && delivered == reader.cursor.out
    ensures old(log.state).Valid() && (log.state, reader.cursor) == Interleaved(old(log.state), events)
    ensures fresh(log.Repr - old(log.Repr))
  {
    hide Log.Valid, Layout.Valid, Interleaved, Pull, Positioned, Layout.Append, Layout.Next, Feasible, Storable,
         MultiReader.Attached, Concat, Tracks, Open;
    ValidState(log);
    ghost var l := log.state;
    InterleavedNone(l, events);
    reader := new MultiReader(log);
    delivered := [];
    var i := 0;
    while i < |events|
      invariant i <= |events| && log.Valid() && fresh(log.Repr - old(log.Repr))
      invariant fresh(reader) && reader !in log.Repr && reader.Attached(log)
      invariant Feasible(l, events[..i]) && (log.state, reader.cursor) == Interleaved(l, events[..i])
      invariant delivered == reader.cursor.out
    {
      InterleavedStep(l, events, i);
      PositionNow(l, events[..i + 1]);
      var bytes := ReaderEvent(log, reader, events[i]);
      delivered := delivered + bytes;
      i := i + 1;
    }
    assert events[..i] == events;
  }

  lemma InterleavedNone(l: Layout, events: seq<Event>)
    requires l.Valid() && Feasible(l, events)
    ensures Feasible(l, events[..0]) && Interleaved(l, events[..0]) == (l, Open(l)) && Open(l).out == []
  {
  }

  lemma SeparateLog(log: Log)
    requires log.Valid()
    ensures log !in log.Repr && log.dir !in log.Repr
  {
  }

  ghost function Left(l: Layout, c: Cursor): int {
    if c.at < |l.chunks| then |Data(l, c.at)| - c.off else 0
  }

  lemma OpenedOn(log: Log)
    requires log.Valid()
    ensures Tracks(log.state, Open(log.state), |log.state.Records()|)
    ensures log !in log.Repr && |log.state.chunks| > 0
  {
    OpenTracks(log.state);
  }

  lemma StillPositioned(l: Layout, c: Cursor)
    requires Positioned(l, c)
    ensures c.at <= c.count <= |l.chunks| && (c.at < c.count ==> c.off <= |Data(l, c.at)|)
  {
  }

  /** One turn of the loop in Read, as Pull takes it. */
  lemma PullUnfolds(l: Layout, c: Cursor, want: nat, bytes: seq<byte>, eof: bool)
    requires Positioned(l, c) && c.at < c.count
    requires eof == (|Data(l, c.at)| < c.off + want)
    requires bytes == Data(l, c.at)[c.off..if eof then |Data(l, c.at)| else c.off + want]
    ensures var next := if eof then Cursor(c.at + 1, c.count, 0, c.taken + |l.chunks[c.at]|, c.out + bytes)
                        else c.(off := c.off + want, out := c.out + bytes);
            && Positioned(l, next)
            && Pull(l, c, want) == if bytes != [] || !eof then (next, eof && next.at == next.count)
                                   else Pull(l, next, want)
  {
    hide RecordFrames;
  }

  lemma PullFinished(l: Layout, c: Cursor, want: nat)
    requires Positioned(l, c) && c.at == c.count
    ensures Pull(l, c, want) == (c, true)
  {
  }

  lemma CapturedStore(log: Log, i: nat)
    requires log.Valid() && i < |log.segments|
    ensures |log.segments| == |log.state.chunks| && log.segments[i].store in log.Repr
    ensures log !in log.Repr
  {
    HoldsFootprint(log.segments, log.state, log.config, log.Repr);
  }

  /** A snapshot carried from one log to another: persisted from the one, restored into the other. */
  method InstallSnapshot(src: Log, fsm: Fsm) returns (r: Result<()>)
    requires src.Valid() && fsm.log.Valid() && src.state.Records() != []
    requires src != fsm.log && src.dir != fsm.log.dir && src.Repr !! fsm.log.Repr
    requires fsm.log !in src.Repr && fsm.log.dir !in src.Repr && src !in fsm.log.Repr && src.dir !in fsm.log.Repr
    requires |RecordFrames(src.state.Records())| < MAX_VALUE
    modifies src.Repr, fsm.log, fsm.log.dir, fsm.log.Repr
    ensures r == Ok(()) && fsm.log.Valid() && SameLog(fsm.log.state, old(src.state))
    ensures fsm.log.state.full == old(fsm.log.state.full)
    ensures src.Valid() && src.state == old(src.state)
  {
    hide Layout.Valid, Holds, RecordFrames, NamesOf, Starts, RuleOf, GoodConfig, Concat, InDomain, Restored;
    ghost var from, to := src.state, fsm.log.state;
    var sink := Persist(src);
    SnapshotFits(from, to);
    r := fsm.Restore(sink, AsDocumented);
  }

  lemma SnapshotFits(src: Layout, dst: Layout)
    requires src.Valid() && dst.Valid() && src.Records() != []
    ensures InDomain(dst, RecordFrames(src.Records()), true)
    ensures var (m, r) := Restored(dst, RecordFrames(src.Records()), true);
            r == Ok(()) && m.full == dst.full && SameLog(m, src)
  {
    RestoreStream(src.base, src.Records(), dst);
  }

  /** A snapshot persisted from a byte-level log while it goes on appending, installed in another: it has the
      first offset of the source and every record that was there when it was taken. */
  method InstallDuringAppends(src: Log, events: seq<Event>, fsm: Fsm) returns (installed: bool)
    requires src.Valid() && Feasible(src.state, events) && src.state.Records() != [] && fsm.log.Valid()
    requires src != fsm.log && src.dir != fsm.log.dir && src.Repr !! fsm.log.Repr
    requires fsm.log !in src.Repr && fsm.log.dir !in src.Repr && src !in fsm.log.Repr && src.dir !in fsm.log.Repr
    modifies src, src.dir, src.Repr, fsm.log, fsm.log.dir, fsm.log.Repr
    ensures old(src.state).Valid()
    ensures src.Valid() && src.state == Interleaved(old(src.state), events).0
    ensures var c := Interleaved(old(src.state), events).1;
            installed <==> Finished(c) && |c.out| < MAX_VALUE
    ensures !installed ==> fsm.log.Valid() && fsm.log.state == old(fsm.log.state)
    ensures installed ==>
              && fsm.log.Valid() && fsm.log.state.base == old(src.state).base
              && old(src.state).Records() <= fsm.log.state.Records()
              && var (m, c) := Interleaved(old(src.state), events);
                 c.taken <= |m.Records()| && fsm.log.state.Records() == m.Records()[..c.taken]
  {
    hide Layout.Valid, Holds, RecordFrames, NamesOf, Starts, RuleOf, GoodConfig, Concat, InDomain, Restored, Tracks,
         Interleaved, Positioned, Feasible;
    ValidState(src);
    ValidState(fsm.log);
    ghost var l, to := src.state, fsm.log.state;
    var reader, delivered := RunInterleaved(src, events);
    installed := reader.stores == [] && |delivered| < MAX_VALUE;
    if installed {
      StillPositioned(src.state, reader.cursor);
      ConcurrentSnapshot(l, events, to);
      var r := fsm.Restore(delivered, AsDocumented);
    }
  }
}
