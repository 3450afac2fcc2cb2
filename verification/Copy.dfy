/** internal/log/distributed.go, Persist, as io.Copy carries it out since Go 1.22. The reader embeds the store,
    which embeds the file, so io.Copy takes the file's own WriteTo for it: each file is copied from the position
    the open file happens to have, without a flush and without the reader's offset. */
module Copies {
  import opened Bytes
  import opened Codec
  import opened Framing
  import opened Layouts
  import opened Disks
  import opened Segments
  import opened Images
  import opened Logs
  import opened Runs
  import opened Readers

  /** `sink` is what copying the first i segments of l delivers: the frames of their first n records, none of
      them from `mark` on, and all of them exactly when none lies there. */
  ghost predicate Copied(l: Layout, mark: nat, i: nat, sink: seq<byte>, n: nat) {
    && i <= |l.chunks|
    && var rs := Concat(l.chunks[..i]);
       && n <= |rs| && sink == RecordFrames(rs[..n])
       && (n == 0 || l.base + n <= mark)
       && (n == |rs| <==> rs == [] || l.base + |rs| <= mark)
  }

  lemma NothingCopied(l: Layout, mark: nat)
    ensures Copied(l, mark, 0, [], 0)
  {
    assert l.chunks[..0] == [];
    EmptyStream();
  }

  /** How many records a piece holds, which is all of its segment's, those below the mark, or none. */
  lemma PieceOf(piece: seq<byte>, rs: seq<Record>, base: nat, mark: nat) returns (k: nat)
    requires Deliverable(piece, RecordFrames(rs), rs, Below(base, |rs|, mark), [])
    ensures k <= |rs| && piece == RecordFrames(rs[..k])
    ensures k > 0 ==> base + k <= mark
    ensures k == |rs| <==> rs == [] || base + |rs| <= mark
  {
    hide Frames;
    assert rs[..0] == [] && rs[..|rs|] == rs;
    EmptyStream();
    var b := Below(base, |rs|, mark);
    k := if b == |rs| || piece != [] then b else 0;
  }

  /** One more segment. */
  lemma CopyStep(l: Layout, mark: nat, i: nat, sink: seq<byte>, n: nat, piece: seq<byte>) returns (n': nat)
    requires i < |l.chunks| && Copied(l, mark, i, sink, n)
    requires Deliverable(piece, RecordFrames(l.chunks[i]), l.chunks[i],
                         Below(l.Start(i), |l.chunks[i]|, mark), [])
    ensures Copied(l, mark, i + 1, sink + piece, n')
  {
    hide RecordFrames, Concat, Deliverable, Below;
    var rs, x := Concat(l.chunks[..i]), l.chunks[i];
    var k := PieceOf(piece, x, l.Start(i), mark);
    assert l.chunks[..i + 1] == l.chunks[..i] + [x];
    ConcatSnoc(l.chunks[..i], x);
    RecordFramesConcat(rs[..n], x[..k]);
    n' := n + k;
    if k > 0 {
      assert rs[..n] == rs;
    }
    assert (rs + x)[..n'] == rs[..n] + x[..k];
  }

  // ----- the files of a byte-level log -----

  /** Copying one file moves its position and nothing else. */
  method CopySegment(s: Segment, ghost ss: seq<Segment>, ghost l: Layout, ghost cfg: Config, ghost repr: set<object>,
                     ghost i: nat)
    returns (piece: seq<byte>)
    requires Holds(ss, l, cfg, repr) && i < |ss| && s == ss[i]
    modifies s`mark, s.store`at
    ensures Holds(ss, l, cfg, repr) && s.mark == 0 && i < |l.chunks|
    ensures Deliverable(piece, RecordFrames(l.chunks[i]), l.chunks[i],
                        Below(l.Start(i), |l.chunks[i]|, old(s.mark)), [])
  {
    hide Segment.Valid, Layout.Start, Deliverable, RecordFrames, Below;
    assert Carries(ss[i], l, i, cfg);
    piece := s.CopyOut();
    StoreOf(s);
    forall j | 0 <= j < |ss| ensures Carries(ss[j], l, j, cfg) {
      if j < i {
        assert ss[j].Apart(ss[i]);
      } else if i < j {
        assert ss[i].Apart(ss[j]);
      }
    }
  }

  lemma Distinct(ss: seq<Segment>, l: Layout, cfg: Config, repr: set<object>, i: nat)
    requires Holds(ss, l, cfg, repr) && i < |ss|
    ensures forall j | 0 <= j < |ss| && j != i :: ss[j] != ss[i]
  {
    forall j | 0 <= j < |ss| && j != i ensures ss[j] != ss[i] {
      if j < i {
        assert ss[j].Apart(ss[i]);
      } else {
        assert ss[i].Apart(ss[j]);
      }
    }
  }

  /** Segments i and up have the mark, the ones below have none left. */
  ghost predicate MarkedFrom(ss: seq<Segment>, i: nat, mark: nat)
    reads ss
  {
    forall j | 0 <= j < |ss| :: ss[j].mark == if j < i then 0 else mark
  }

  /** A segment begun since the log was opened has no record below the mark. */
  ghost method ForgetOne(s: Segment, ss: seq<Segment>, l: Layout, cfg: Config, repr: set<object>, i: nat)
    requires Holds(ss, l, cfg, repr) && i < |ss| && s == ss[i] && s.mark <= s.base
    modifies s`mark
    ensures Holds(ss, l, cfg, repr) && s.mark == 0
  {
    hide Segment.Valid, Layout.Start;
    assert Carries(ss[i], l, i, cfg);
    s.ForgetMark();
    forall j | 0 <= j < |ss| ensures Carries(ss[j], l, j, cfg) {
      if j < i {
        assert ss[j].Apart(ss[i]);
      } else if i < j {
        assert ss[i].Apart(ss[j]);
      }
    }
  }

  lemma BegunLater(ss: seq<Segment>, l: Layout, cfg: Config, repr: set<object>, count: nat, i: nat, mark: nat)
    requires l.Valid() && Holds(ss, l, cfg, repr) && count <= i < |ss| && count < |l.chunks|
    requires mark <= l.Start(count)
    ensures mark <= ss[i].base && ss[i] in repr
  {
    hide Layout.Start, Layout.Valid, Holds;
    SegmentBounds(ss, l, cfg, repr, i);
    ValidFacts(l);
    StartMonotone(l, count, i);
  }

  /** What the log's mark comes to once the first `count` files have been copied. */
  ghost method ForgetRest(log: Log, count: nat)
    requires log.Separate() && log.state.Valid() && Holds(log.segments, log.state, log.config, log.Repr)
    requires count <= |log.segments| && MarkedFrom(log.segments, count, log.mark)
    requires count == |log.segments| || (count < |log.state.chunks| && log.mark <= log.state.Start(count))
    modifies log`mark, log.segments`mark
    ensures Holds(log.segments, log.state, log.config, log.Repr) && Marked(log.segments, 0) && log.mark == 0
  {
    hide Holds, Layout.Valid, Layout.Start, Segment.Valid;
    var l, mark, j := log.state, log.mark, count;
    while j < |log.segments|
      invariant count <= j <= |log.segments| && Holds(log.segments, l, log.config, log.Repr)
      invariant MarkedFrom(log.segments, j, mark)
    {
      BegunLater(log.segments, l, log.config, log.Repr, count, j, mark);
      Distinct(log.segments, l, log.config, log.Repr, j);
      ForgetOne(log.segments[j], log.segments, l, log.config, log.Repr, j);
      j := j + 1;
    }
    log.mark := 0;
  }

  /** The files of the first `count` segments, copied one after the other. The segments after those were begun
      since the log was opened. */
  method CopyFiles(log: Log, count: nat) returns (sink: seq<byte>, ghost n: nat)
    requires log.Valid() && count <= |log.segments|
    requires count == |log.segments| || (count < |log.state.chunks| && log.mark <= log.state.Start(count))
    modifies log`mark, log.Repr
    ensures log.Valid() && log.mark == 0 && log.state == old(log.state)
    ensures Copied(log.state, old(log.mark), count, sink, n)
  {
    hide Holds, Layout.Valid, RuleOf, GoodConfig, NamesOf, Starts, Copied, Deliverable, RecordFrames, Layout.Start,
         Below, Layout.Next;
    ghost var l, mark := log.state, log.mark;
    HoldsFootprint(log.segments, l, log.config, log.Repr);
    NothingCopied(l, mark);
    sink, n := [], 0;
    var i := 0;
    while i < count
      invariant i <= count && Holds(log.segments, l, log.config, log.Repr)
      invariant MarkedFrom(log.segments, i, mark) && Copied(l, mark, i, sink, n) && log.mark == mark
    {
      SegmentBounds(log.segments, l, log.config, log.Repr, i);
      Distinct(log.segments, l, log.config, log.Repr, i);
      var piece := CopySegment(log.segments[i], log.segments, l, log.config, log.Repr, i);
      n := CopyStep(l, mark, i, sink, n, piece);
      sink := sink + piece;
      i := i + 1;
    }
    ForgetRest(log, count);
  }

  // ----- when a copy is complete -----

  /** Fewer records, fewer bytes. */
  lemma FewerBytes(rs: seq<Record>, n: nat)
    requires n < |rs|
    ensures |RecordFrames(rs[..n])| < |RecordFrames(rs)|
  {
    hide RecordFrames, Frame, Marshal;
    assert rs == rs[..n] + ([rs[n]] + rs[n + 1..]);
    RecordFramesConcat(rs[..n], [rs[n]] + rs[n + 1..]);
    RecordFramesCons(rs[n], rs[n + 1..]);
  }

  /** A copy of all files is the whole stream exactly when no live record lies beyond the mark. */
  lemma CopiedWhole(l: Layout, mark: nat, sink: seq<byte>, n: nat)
    requires Copied(l, mark, |l.chunks|, sink, n)
    ensures n <= |l.Records()| && sink == RecordFrames(l.Records()[..n]) && (n == 0 || l.base + n <= mark)
    ensures n == |l.Records()| <==> l.Records() == [] || l.Next() <= mark
    ensures sink == RecordFrames(l.Records()) <==> l.Records() == [] || l.Next() <= mark
  {
    hide RecordFrames, Concat;
    assert l.chunks[..|l.chunks|] == l.chunks;
    if n < |l.Records()| {
      FewerBytes(l.Records(), n);
    } else {
      assert l.Records()[..n] == l.Records();
    }
  }

  /** snapshot.Persist on a quiescent log. It delivers whole frames of a prefix of the records, none of them
      appended since the log was opened; that is everything if and only if no live record was. Afterwards no
      record is left for the next snapshot. */
  method PersistFiles(log: Log) returns (sink: seq<byte>, ghost n: nat)
    requires log.Valid()
    modifies log`mark, log.Repr
    ensures log.Valid() && log.mark == 0 && log.state == old(log.state)
    ensures n <= |log.state.Records()| && sink == RecordFrames(log.state.Records()[..n])
    ensures n == 0 || log.state.base + n <= old(log.mark)
    ensures n == |log.state.Records()| <==> log.state.Records() == [] || log.state.Next() <= old(log.mark)
    ensures sink == RecordFrames(log.state.Records())
            <==> log.state.Records() == [] || log.state.Next() <= old(log.mark)
  {
    hide Log.Valid, Layout.Valid, Copied, RecordFrames, Concat;
    CapturedAll(log);
    sink, n := CopyFiles(log, |log.segments|);
    CopiedWhole(log.state, old(log.mark), sink, n);
  }

  lemma CapturedAll(log: Log)
    requires log.Valid()
    ensures |log.segments| == |log.state.chunks| && log !in log.Repr && log.mark <= log.state.Next()
  {
  }

  /** The failing input: one record appended to a new log, and nothing is copied. */
  method CopyLosesRecord(c: Config, r: Record) returns (log: Log, sink: seq<byte>)
    requires GoodConfig(Defaulted(c)) && c.initial < U64 - 1 && Storable(r)
    ensures log.Valid() && log.state.Records() == [r.(offset := c.initial)] && sink == []
  {
    hide Log.Valid, Layout.Valid, RuleOf, GoodConfig, Loadable, Layout.Append, Fresh, Concat, RecordFrames;
    NothingToLoad(c);
    FreshIsValid(RuleOf(Defaulted(c)), c.initial);
    var dir := new Disk();
    log := SetupLog(dir, c, Fresh(RuleOf(Defaulted(c)), c.initial));
    AppendEffect(log.state, r);
    var off := log.Append(r);
    assert [] + [r.(offset := c.initial)] == [r.(offset := c.initial)];
    ghost var n;
    sink, n := PersistFiles(log);
    assert log.state.Records()[..0] == [];
    EmptyStream();
  }

  /** A second snapshot of the same open log delivers nothing, however good the first one was. */
  method SecondSnapshot(log: Log) returns (first: seq<byte>, second: seq<byte>)
    requires log.Valid() && log.mark == log.state.Next()
    modifies log`mark, log.Repr
    ensures log.Valid() && first == RecordFrames(log.state.Records()) && second == []
  {
    hide Log.Valid, Layout.Valid, RecordFrames, Concat;
    CapturedAll(log);
    ghost var n;
    first, n := PersistFiles(log);
    second, n := PersistFiles(log);
    assert log.state.Records()[..0] == [];
    EmptyStream();
  }

  // ----- over whole runs -----

  predicate StandsSince(ops: seq<Op>, i: nat) {
    i < |ops| && ops[i].AppendOp? && forall j | i < j < |ops| :: !ops[j].ReopenOp?
  }

  /** Something was appended after the log was last opened. */
  predicate AppendedSinceOpen(ops: seq<Op>) {
    exists i | 0 <= i < |ops| :: StandsSince(ops, i)
  }

  lemma NothingAppended()
    ensures !AppendedSinceOpen([])
  {
  }

  lemma AppendedSnoc(ops: seq<Op>)
    requires ops != []
    ensures var front, op := ops[..|ops| - 1], ops[|ops| - 1];
            AppendedSinceOpen(ops) <==> op.AppendOp? || (!op.ReopenOp? && AppendedSinceOpen(front))
  {
    var n := |ops| - 1;
    var front, op := ops[..n], ops[n];
    if AppendedSinceOpen(ops) {
      var i :| 0 <= i < |ops| && StandsSince(ops, i);
      if i < n {
        assert !ops[n].ReopenOp?;
        assert StandsSince(front, i);
      }
    }
    if op.AppendOp? {
      assert StandsSince(ops, n);
    } else if !op.ReopenOp? && AppendedSinceOpen(front) {
      var i :| 0 <= i < n && StandsSince(front, i);
      assert StandsSince(ops, i);
    }
  }

  /** The mark of a log that was just opened falls behind exactly by the appends. */
  lemma {:induction false} MarkBehind(l: Layout, ops: seq<Op>)
    requires l.Valid() && LegalRun(l, ops)
    ensures var mark, next := MarkAfter(l.Next(), l, ops), Run(l, ops).0.Next();
            mark <= next && (mark < next <==> AppendedSinceOpen(ops))
  {
    hide Layout.Valid, Layout.Append, Truncate, Layout.Read, Concat, AppendedSinceOpen;
    NothingAppended();
    if ops != [] {
      var front, op := ops[..|ops| - 1], ops[|ops| - 1];
      MarkBehind(l, front);
      AppendedSnoc(ops);
      RunKeepsValid(l, front);
      var m := Run(l, front).0;
      match op
      case AppendOp(r) => AppendEffect(m, r);
      case TruncateOp(lowest) => TruncateEffect(m, lowest);
      case _ =>
    }
  }

  predicate OnlyAppends(ops: seq<Op>) {
    forall i | 0 <= i < |ops| :: ops[i].AppendOp?
  }

  /** Appends leave the captured segments in place: they still hold what they held, and more at most. */
  lemma {:induction false} CapturedKept(l: Layout, ops: seq<Op>)
    requires l.Valid() && LegalRun(l, ops) && OnlyAppends(ops)
    ensures var m, k := Run(l, ops).0, |l.chunks|;
            && m.base == l.base && k <= |m.chunks| && l.Records() <= Concat(m.chunks[..k])
            && (ops == [] ==> m == l)
  {
    hide Layout.Valid, Layout.Append, Concat;
    assert l.chunks[..|l.chunks|] == l.chunks;
    if ops != [] {
      var front, op := ops[..|ops| - 1], ops[|ops| - 1];
      CapturedKept(l, front);
      RunKeepsValid(l, front);
      var m := Run(l, front).0;
      AppendEffect(m, op.record);
      FeedPrefix(m, op.record, |l.chunks|);
    }
  }

  lemma {:induction false} MarkKept(mark: nat, l: Layout, ops: seq<Op>)
    requires LegalRun(l, ops) && OnlyAppends(ops)
    ensures MarkAfter(mark, l, ops) == mark
  {
    hide Run, Legal;
    if ops != [] {
      MarkKept(mark, l, ops[..|ops| - 1]);
    }
  }

  /** What a copy of the captured files means for the log as it was captured. */
  lemma CopiedCaptured(l: Layout, m: Layout, mark: nat, sink: seq<byte>, n: nat)
    requires l.base == m.base && |l.chunks| <= |m.chunks| && l.Records() <= Concat(m.chunks[..|l.chunks|])
    requires mark <= l.Next() && Copied(m, mark, |l.chunks|, sink, n)
    ensures n <= |l.Records()| && sink == RecordFrames(l.Records()[..n]) && (n == 0 || l.base + n <= mark)
    ensures m == l ==> (sink == RecordFrames(l.Records()) <==> l.Records() == [] || l.Next() <= mark)
  {
    hide RecordFrames, Concat;
    var rs := Concat(m.chunks[..|l.chunks|]);
    assert rs[..n] == l.Records()[..n];
    if m == l {
      CopiedWhole(l, mark, sink, n);
    }
  }

  /** A snapshot by copy, over every history: a directory is opened, any legal run is executed on the byte-level
      log, the snapshot is taken, more is appended, the snapshot is persisted. It holds a prefix of the log as
      it was, and nothing appended since the log was last opened. With no append in between it is complete if
      and only if there was no append since the log was last opened, or no record is live. */
  method SnapshotOfRun(dir: Disk, c: Config, ghost l: Layout, ops: seq<Op>, later: seq<Op>)
    returns (sink: seq<byte>, ghost n: nat)
    requires GoodConfig(Defaulted(c)) && Loadable(if dir.present then dir.files else map[], Defaulted(c), l)
    requires LegalRun(l, ops) && LegalRun(Run(l, ops).0, later) && OnlyAppends(later)
    modifies dir
    ensures var m := Run(l, ops).0;
            && n <= |m.Records()| && sink == RecordFrames(m.Records()[..n])
            && (n == 0 || m.base + n <= MarkAfter(l.Next(), l, ops))
            && (later == [] ==>
                  (sink == RecordFrames(m.Records()) <==> m.Records() == [] || !AppendedSinceOpen(ops)))
  {
    hide Log.Valid, Layout.Valid, Copied, RecordFrames, Concat, Run, LegalRun, Loadable, GoodConfig, AppendedSinceOpen,
         OnlyAppends, MarkAfter;
    var log := SetupLog(dir, c, l);
    ValidState(log);
    MarkBehind(l, ops);
    var replies;
    log, replies := Drive(log, ops);
    ghost var m := log.state;
    ValidState(log);
    var count := |log.segments|;
    CapturedAll(log);
    MarkKept(log.mark, m, later);
    CapturedKept(m, later);
    log, replies := Drive(log, later);
    CapturedAll(log);
    ghost var mark := log.mark;
    sink, n := CopyFiles(log, count);
    CopiedCaptured(m, log.state, mark, sink, n);
  }
}
