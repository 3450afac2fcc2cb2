/** Catching up from a snapshot: what a replica holds after installing a snapshot taken at some index and
    then applying the committed commands from that index on. */
module Replays {
  import opened Bytes
  import opened Codec
  import opened Framing
  import opened Layouts
  import opened Logs
  import opened Fsms
  import opened Snapshots
  import opened Readers
  import opened Runs
  import opened Copies

  /** A log after applying commands once, in order. */
  ghost function ApplyAll(l: Layout, cmds: seq<seq<byte>>): (m: Layout)
    requires l.Valid() && Committable(l.Next(), cmds)
    ensures m.Valid() && m.base == l.base && m.Next() <= l.Next() + |cmds|
  {
    if cmds == [] then l
    else
      var m := ApplyAll(l, cmds[..|cmds| - 1]);
      ApplyAllStep(l, m, cmds);
      Apply(m, cmds[|cmds| - 1]).0
  }

  lemma ApplyAllStep(l: Layout, m: Layout, cmds: seq<seq<byte>>)
    requires Committable(l.Next(), cmds) && cmds != []
    requires m.Valid() && m.base == l.base && m.Next() <= l.Next() + |cmds| - 1
    ensures Applicable(cmds[|cmds| - 1]) && m.chunks != [] && m.Next() < U64
    ensures var n := Apply(m, cmds[|cmds| - 1]).0;
            n.Valid() && n.base == l.base && n.Next() <= l.Next() + |cmds|
  {
    hide Apply, Layout.Valid, Concat;
    ValidFacts(m);
    ApplyKeeps(m, cmds[|cmds| - 1]);
    ApplyStep(m, cmds[|cmds| - 1]);
  }

  /** Replay adds the effects of the commands, numbered on from the log's end. */
  lemma {:induction false} ReplayAppends(l: Layout, cmds: seq<seq<byte>>)
    requires l.Valid() && Committable(l.Next(), cmds)
    ensures ApplyAll(l, cmds).Records() == l.Records() + Effects(l.Next(), cmds)
  {
    hide Apply, Applicable, Decoded, Layout.Valid, Concat;
    if cmds != [] {
      var front := cmds[..|cmds| - 1];
      ReplayAppends(l, front);
      var m := ApplyAll(l, front);
      ApplyAllStep(l, m, cmds);
      ApplyStep(m, cmds[|cmds| - 1]);
    }
  }

  lemma CommittableTail(b: nat, cmds: seq<seq<byte>>, i: nat, start: nat)
    requires Committable(b, cmds) && i <= |cmds| && start + |cmds| - i < U64
    ensures Committable(b, cmds[..i]) && Committable(start, cmds[i..])
  {
  }

  /** Replaying cmds[i..] on any log m gives the log of a replica that applied all of cmds if and only if m is
      the log of one that applied cmds[..i]: what a snapshot got wrong, no replay puts right. */
  lemma ReplayExact(full: Rule, b: nat, cmds: seq<seq<byte>>, i: nat, m: Layout)
    requires !full([]) && Committable(b, cmds) && i <= |cmds| && Committable(b, cmds[..i])
    requires m.Valid() && Committable(m.Next(), cmds[i..])
    ensures SameLog(ApplyAll(m, cmds[i..]), Replica(full, b, cmds).0)
            <==> SameLog(m, Replica(full, b, cmds[..i]).0)
  {
    hide ApplyAll, Replica, Effects, Applicable, Layout.Valid, Concat, Committable;
    ReplicaState(full, b, cmds);
    ReplicaState(full, b, cmds[..i]);
    ReplayAppends(m, cmds[i..]);
    assert cmds == cmds[..i] + cmds[i..];
    EffectsConcat(b, cmds[..i], cmds[i..]);
    EffectsRestamp(m.Next(), b + |Effects(b, cmds[..i])|, cmds[i..]);
    var was, now := Effects(b, cmds[..i]), Effects(m.Next(), cmds[i..]);
    if m.Records() + now == Effects(b, cmds) {
      assert m.Records() == (m.Records() + now)[..|was|];
    }
  }

  /** What restoring a finished stream gives: the records it took in, or the target itself if there were none. */
  lemma RestoredWhat(l: Layout, events: seq<Event>, dst: Layout)
    requires l.Valid() && Feasible(l, events) && dst.Valid()
    ensures var (n, c) := Interleaved(l, events);
            Finished(c) ==>
              && InDomain(dst, c.out, true) && |l.Records()| <= c.taken <= |n.Records()|
              && var m := Restored(dst, c.out, true).0;
                 && m.Valid()
                 && if c.taken > 0 then m.base == l.base && m.Records() == n.Records()[..c.taken] else m == dst
  {
    hide Interleaved, RecordFrames, Concat, Tracks, Layout.Valid, TakeRecord;
    StreamIsPrefix(l, events);
    var (n, c) := Interleaved(l, events);
    ValidFacts(dst);
    EmptyStream();
    if Finished(c) && c.taken > 0 {
      StampedPrefix(n, c.taken);
      RestoreStream(l.base, n.Records()[..c.taken], dst);
    }
  }

  lemma StampedPrefix(l: Layout, k: nat)
    requires l.Valid() && k <= |l.Records()|
    ensures Stamped(l.base, l.Records()[..k]) && l.base + k < U64
  {
  }

  /** Catching up from a snapshot, in full generality: the source has applied cmds[..i] when the snapshot is
      taken and may go on appending while it is persisted. Installing it and applying cmds[i..] gives the log
      of a replica that applied everything if and only if the stream was drained before the first of those
      later appends, and the source had records or the target already agreed with it. */
  lemma SnapshotThenReplay(full: Rule, b: nat, cmds: seq<seq<byte>>, i: nat, events: seq<Event>, dst: Layout)
    requires !full([]) && Committable(b, cmds) && i <= |cmds| && Committable(b, cmds[..i])
    requires b + |cmds| + Feeds(events) < U64 && dst.Valid() && dst.Next() + |cmds| < U64
    requires Feasible(Replica(full, b, cmds[..i]).0, events)
    ensures var l := Replica(full, b, cmds[..i]).0;
            var (_, c) := Interleaved(l, events);
            Finished(c) ==>
              && InDomain(dst, c.out, true)
              && var m := Restored(dst, c.out, true).0;
                 && m.Valid() && Committable(m.Next(), cmds[i..])
                 && (SameLog(ApplyAll(m, cmds[i..]), Replica(full, b, cmds).0)
                     <==> DrainedFirst(l, events) && (l.Records() != [] || SameLog(dst, l)))
  {
    hide ApplyAll, Replica, Effects, Applicable, Layout.Valid, Concat, Interleaved, Tracks, Restored, InDomain,
         RecordFrames, DrainedFirst;
    ReplicaState(full, b, cmds[..i]);
    var l := Replica(full, b, cmds[..i]).0;
    var (n, c) := Interleaved(l, events);
    if Finished(c) {
      RestoredWhat(l, events, dst);
      StreamIsSnapshot(l, events);
      var m := Restored(dst, c.out, true).0;
      CommittableTail(b, cmds, i, m.Next());
      ReplayExact(full, b, cmds, i, m);
    }
  }

  /** With nothing applied while the snapshot is persisted, catching up is exact. */
  lemma QuietSnapshotThenReplay(full: Rule, b: nat, cmds: seq<seq<byte>>, i: nat, events: seq<Event>, dst: Layout)
    requires !full([]) && Committable(b, cmds) && i <= |cmds| && Committable(b, cmds[..i])
    requires b + |cmds| + Feeds(events) < U64 && dst.Valid() && dst.Next() + |cmds| < U64
    requires Effects(b, cmds[..i]) != [] && Feasible(Replica(full, b, cmds[..i]).0, events) && Quiet(events)
    ensures var l := Replica(full, b, cmds[..i]).0;
            var c := Interleaved(l, events).1;
            Finished(c) ==>
              && InDomain(dst, c.out, true)
              && var m := Restored(dst, c.out, true).0;
                 && m.Valid() && Committable(m.Next(), cmds[i..])
                 && SameLog(ApplyAll(m, cmds[i..]), Replica(full, b, cmds).0)
  {
    hide ApplyAll, Replica, Effects, Applicable, Layout.Valid, Concat, Interleaved, Tracks, Restored, InDomain,
         RecordFrames, SameLog;
    var l := Replica(full, b, cmds[..i]).0;
    ReplicaState(full, b, cmds[..i]);
    if Finished(Interleaved(l, events).1) {
      assert events[..|events|] == events;
      assert DrainedFirst(l, events);
    }
    SnapshotThenReplay(full, b, cmds, i, events, dst);
  }

  // ----- on the byte-level log -----

  lemma ApplyAllPrefix(l: Layout, cmds: seq<seq<byte>>, i: nat)
    requires l.Valid() && Committable(l.Next(), cmds) && i < |cmds|
    ensures Committable(l.Next(), cmds[..i]) && Committable(l.Next(), cmds[..i + 1]) && Applicable(cmds[i])
    ensures var m := ApplyAll(l, cmds[..i]);
            m.Next() < U64 - 1 && m.chunks != [] && ApplyAll(l, cmds[..i + 1]) == Apply(m, cmds[i]).0
  {
    hide Apply, Applicable, Layout.Valid, Concat;
    assert cmds[..i + 1][..i] == cmds[..i];
    ValidFacts(ApplyAll(l, cmds[..i]));
  }

  /** The commands after the snapshot, applied to the byte-level log. */
  method ApplyRest(fsm: Fsm, cmds: seq<seq<byte>>)
    requires fsm.log.Valid() && Committable(fsm.log.state.Next(), cmds)
    modifies fsm.log, fsm.log.dir, fsm.log.Repr
    ensures fsm.log.Valid() && old(fsm.log.state).Valid() && fsm.log.state == ApplyAll(old(fsm.log.state), cmds)
    ensures fsm.log.mark == old(fsm.log.mark) && fresh(fsm.log.Repr - old(fsm.log.Repr))
  {
    hide Log.Valid, Layout.Valid, ApplyAll, Apply, Applicable, Layout.Next;
    ValidState(fsm.log);
    ghost var l := fsm.log.state;
    NothingApplied(l, cmds);
    var i := 0;
    while i < |cmds|
      invariant i <= |cmds| && fsm.log.Valid() && fresh(fsm.log.Repr - old(fsm.log.Repr))
      invariant Committable(l.Next(), cmds[..i]) && fsm.log.state == ApplyAll(l, cmds[..i])
      invariant fsm.log.mark == old(fsm.log.mark)
    {
      ApplyAllPrefix(l, cmds, i);
      var response := fsm.Apply(cmds[i]);
      i := i + 1;
    }
    assert cmds[..i] == cmds;
  }

  lemma NothingApplied(l: Layout, cmds: seq<seq<byte>>)
    requires l.Valid() && Committable(l.Next(), cmds)
    ensures Committable(l.Next(), cmds[..0]) && ApplyAll(l, cmds[..0]) == l
  {
  }

  /** The same on real stores and files: a replica is run, its reader is drained while it appends, the bytes are
      restored into another log, and the rest of the commands is applied there. */
  method CatchUp(c: Config, cmds: seq<seq<byte>>, i: nat, events: seq<Event>, fsm: Fsm) returns (done: bool)
    requires GoodConfig(Defaulted(c)) && i <= |cmds|
    requires Committable(c.initial, cmds) && Committable(c.initial, cmds[..i])
    requires Feasible(Replica(RuleOf(Defaulted(c)), c.initial, cmds[..i]).0, events)
    requires c.initial + |cmds| + Feeds(events) < U64
    requires fsm.log.Valid() && fsm.log.state.Next() + |cmds| < U64
    modifies fsm.log, fsm.log.dir, fsm.log.Repr
    ensures var l := Replica(RuleOf(Defaulted(c)), c.initial, cmds[..i]).0;
            var stream := Interleaved(l, events).1;
            && (done <==> Finished(stream) && |stream.out| < MAX_VALUE)
            && (!done ==> fsm.log.Valid() && fsm.log.state == old(fsm.log.state))
            && (done ==>
                  && fsm.log.Valid()
                  && (SameLog(fsm.log.state, Replica(RuleOf(Defaulted(c)), c.initial, cmds).0)
                      <==> DrainedFirst(l, events) && (l.Records() != [] || SameLog(old(fsm.log.state), l))))
  {
    hide Log.Valid, Layout.Valid, ApplyAll, Replica, Feasible, Interleaved, DrainedFirst, RuleOf, Concat, Tracks,
         Restored, InDomain, Committable, Applicable, GoodConfig, Positioned, SameLog;
    NothingToLoad(c);
    ValidState(fsm.log);
    ghost var to := fsm.log.state;
    SnapshotThenReplay(RuleOf(Defaulted(c)), c.initial, cmds, i, events, to);
    var src, responses := RunReplica(c, cmds[..i]);
    var reader, delivered := RunInterleaved(src, events);
    ReaderDone(reader, src);
    done := reader.stores == [] && |delivered| < MAX_VALUE;
    if done {
      var r := fsm.Restore(delivered, AsDocumented);
      ApplyRest(fsm, cmds[i..]);
    }
  }

  lemma ReaderDone(reader: MultiReader, log: Log)
    requires reader.Attached(log)
    ensures reader.stores == [] <==> Finished(reader.cursor)
  {
  }

  // ----- from a snapshot by copy -----

  /** Installing a stream of any number of the source's records and replaying the rest. */
  lemma PrefixThenReplay(full: Rule, b: nat, cmds: seq<seq<byte>>, i: nat, n: nat, dst: Layout)
    requires !full([]) && Committable(b, cmds) && i <= |cmds| && Committable(b, cmds[..i])
    requires dst.Valid() && dst.Next() + |cmds| < U64 && n <= |Effects(b, cmds[..i])|
    ensures var l := Replica(full, b, cmds[..i]).0;
            && l.Records() == Effects(b, cmds[..i])
            && InDomain(dst, RecordFrames(l.Records()[..n]), true)
            && var m := Restored(dst, RecordFrames(l.Records()[..n]), true).0;
               && m.Valid() && Committable(m.Next(), cmds[i..])
               && (SameLog(ApplyAll(m, cmds[i..]), Replica(full, b, cmds).0)
                   <==> if n > 0 then n == |l.Records()| else SameLog(dst, l))
  {
    hide ApplyAll, Replica, Effects, Applicable, Layout.Valid, Concat, RecordFrames, TakeRecord;
    ReplicaState(full, b, cmds[..i]);
    var l := Replica(full, b, cmds[..i]).0;
    var rs := l.Records()[..n];
    ValidFacts(dst);
    EmptyStream();
    if n > 0 {
      StampedPrefix(l, n);
      RestoreStream(b, rs, dst);
    }
    var m := Restored(dst, RecordFrames(rs), true).0;
    CommittableTail(b, cmds, i, m.Next());
    ReplayExact(full, b, cmds, i, m);
  }

  /** A replica stopped after the first j commands and brought on from there is the replica of them all. */
  lemma {:induction false} ReplicaResumed(full: Rule, b: nat, cmds: seq<seq<byte>>, j: nat)
    requires !full([]) && Committable(b, cmds) && j <= |cmds| && Committable(b, cmds[..j])
    ensures var l := Replica(full, b, cmds[..j]).0;
            Committable(l.Next(), cmds[j..]) && ApplyAll(l, cmds[j..]) == Replica(full, b, cmds).0
    decreases |cmds|
  {
    hide Apply, Applicable, Layout.Valid, Concat;
    ReplicaState(full, b, cmds[..j]);
    CommittableTail(b, cmds, j, Replica(full, b, cmds[..j]).0.Next());
    if j < |cmds| {
      var front := cmds[..|cmds| - 1];
      assert front[..j] == cmds[..j] && cmds[j..][..|cmds| - 1 - j] == front[j..];
      ReplicaResumed(full, b, front, j);
    } else {
      assert cmds[..j] == cmds;
    }
  }

  /** A replica that was closed and reopened after the first j commands. */
  method RestartedReplica(c: Config, cmds: seq<seq<byte>>, j: nat) returns (log: Log)
    requires GoodConfig(Defaulted(c)) && j <= |cmds|
    requires Committable(c.initial, cmds) && Committable(c.initial, cmds[..j])
    ensures log.Valid() && log.state == Replica(RuleOf(Defaulted(c)), c.initial, cmds).0
    ensures |Effects(c.initial, cmds[..j])| <= |Effects(c.initial, cmds)|
    ensures log.mark == c.initial + |Effects(c.initial, cmds[..j])|
    ensures fresh(log) && fresh(log.dir) && fresh(log.Repr)
  {
    hide Log.Valid, Layout.Valid, ApplyAll, Replica, Effects, RuleOf, Concat, Committable, Applicable, GoodConfig;
    NothingToLoad(c);
    ghost var full := RuleOf(Defaulted(c));
    ReplicaResumed(full, c.initial, cmds, j);
    ReplicaState(full, c.initial, cmds[..j]);
    assert cmds == cmds[..j] + cmds[j..];
    EffectsConcat(c.initial, cmds[..j], cmds[j..]);
    var responses, reply;
    log, responses := RunReplica(c, cmds[..j]);
    log, reply := Execute(log, ReopenOp);
    var fsm := new Fsm(log);
    ApplyRest(fsm, cmds[j..]);
  }

  /** Catching up from a snapshot by copy. The source has applied cmds[..j], was restarted, and has applied
      cmds[j..i] since; the snapshot is taken, installed, and cmds[i..] is replayed. At most the records from
      before the restart arrive. So unless the target already was what the source is, it catches up if and
      only if the source has records and none of them came after its restart. */
  method CatchUpByCopy(c: Config, cmds: seq<seq<byte>>, j: nat, i: nat, fsm: Fsm) returns (done: bool, ghost n: nat)
    requires GoodConfig(Defaulted(c)) && j <= i <= |cmds| && Committable(c.initial, cmds)
    requires Committable(c.initial, cmds[..i]) && Committable(c.initial, cmds[..j])
    requires fsm.log.Valid() && fsm.log.state.Next() + |cmds| < U64
    modifies fsm.log, fsm.log.dir, fsm.log.Repr
    ensures var l := Replica(RuleOf(Defaulted(c)), c.initial, cmds[..i]).0;
            var was, now := Effects(c.initial, cmds[..j]), Effects(c.initial, cmds[..i]);
            && n <= |was| <= |now| && (n == |now| <==> now == [] || |was| == |now|)
            && (done <==> |RecordFrames(now[..n])| < MAX_VALUE)
            && (!done ==> fsm.log.Valid() && fsm.log.state == old(fsm.log.state))
            && (done ==>
                  && fsm.log.Valid()
                  && (SameLog(fsm.log.state, Replica(RuleOf(Defaulted(c)), c.initial, cmds).0)
                      <==> if n > 0 then |was| == |now| else SameLog(old(fsm.log.state), l))
                  && (!SameLog(old(fsm.log.state), l) ==>
                        (SameLog(fsm.log.state, Replica(RuleOf(Defaulted(c)), c.initial, cmds).0)
                         <==> now != [] && |was| == |now|)))
  {
    hide Log.Valid, Layout.Valid, ApplyAll, Replica, Effects, RuleOf, Concat, RecordFrames,
         Restored, InDomain, Committable, Applicable, GoodConfig, SameLog;
    ValidState(fsm.log);
    NothingToLoad(c);
    assert cmds[..i][..j] == cmds[..j];
    ghost var full, to := RuleOf(Defaulted(c)), fsm.log.state;
    var src := RestartedReplica(c, cmds[..i], j);
    ReplicaState(full, c.initial, cmds[..i]);
    var sink;
    sink, n := PersistFiles(src);
    PrefixThenReplay(full, c.initial, cmds, i, n, to);
    done := |sink| < MAX_VALUE;
    if done {
      var r := fsm.Restore(sink, AsDocumented);
      ApplyRest(fsm, cmds[i..]);
    }
  }

  // ----- the failing input -----

  lemma OneSegmentLog(full: Rule, b: nat, r0: Record)
    requires !full([]) && b + 1 < U64 && Storable(r0) && !full([r0.(offset := b)])
    ensures Fresh(full, b).Valid() && Fresh(full, b).chunks != [] && Fresh(full, b).Next() == b
    ensures Fresh(full, b).Append(r0) == Layout(full, b, [[r0.(offset := b)]])
    ensures Fresh(full, b).Append(r0).Next() == b + 1
  {
    FreshIsValid(full, b);
    AppendEffect(Fresh(full, b), r0);
    assert [] + [r0.(offset := b)] == [r0.(offset := b)];
  }

  lemma ReplicaOfOne(full: Rule, b: nat, r0: Record)
    requires !full([]) && b + 1 < U64 && |r0.value| < MAX_VALUE - 64 && !full([r0.(offset := b)])
    ensures Committable(b, [Command(r0)])
    ensures Effects(b, [Command(r0)]) == [r0.(offset := b)]
    ensures Replica(full, b, [Command(r0)]).0 == Layout(full, b, [[r0.(offset := b)]])
  {
    hide Command, Applicable, Decoded, Layout.Append, Apply, Layout.Valid;
    CommandRoundTrip(r0);
    var cmds := [Command(r0)];
    assert cmds[..0] == [];
    OneSegmentLog(full, b, r0);
    assert Replica(full, b, cmds[..0]).0 == Fresh(full, b);
    ApplyIsAppend(Fresh(full, b), cmds[0]);
    OneEffect(b, cmds[0]);
  }

  /** Reading past the end of the one captured store takes it in whole. */
  lemma PullAll(l: Layout, want: nat)
    requires |l.chunks| > 0 && |Data(l, 0)| < want
    ensures var c := Cursor(0, 1, 0, 0, []);
            Positioned(l, c) && (Data(l, 0) != [] ==> Pull(l, c, want).0 == Cursor(1, 1, 0, |l.chunks[0]|, Data(l, 0)))
  {
    hide RecordFrames;
    var d := Data(l, 0);
    assert d[0..|d|] == d;
    assert [] + d == d;
  }

  lemma SecondAppend(full: Rule, b: nat, r0: Record, r1: Record)
    requires !full([]) && b + 4 < U64 && Storable(r0) && Storable(r1) && !full([r0.(offset := b)])
    ensures var l := Layout(full, b, [[r0.(offset := b)]]);
            && l.Valid() && l.Next() == b + 1
            && var m, rs := l.Append(r1), [r0.(offset := b), r1.(offset := b + 1)];
               m.Valid() && |m.chunks| > 0 && m.chunks[0] == rs && m.Records() == rs
  {
    hide Concat;
    OneSegmentLog(full, b, r0);
    AppendEffect(Fresh(full, b), r0);
    OneChunkRecords(full, b, r0);
    var l := Layout(full, b, [[r0.(offset := b)]]);
    AppendEffect(l, r1);
    AppendShape(l, r1);
  }

  /** The stream of a reader opened when the log held r0 alone, drained after r1 was appended. */
  lemma DrainedAfterAppend(full: Rule, b: nat, r0: Record, r1: Record, want: nat)
    requires !full([]) && b + 4 < U64 && Storable(r0) && Storable(r1) && !full([r0.(offset := b)])
    requires |RecordFrames([r0.(offset := b), r1.(offset := b + 1)])| < want
    ensures var l := Layout(full, b, [[r0.(offset := b)]]);
            && l.Valid() && Feasible(l, [Feed(r1), Fetch(want)])
            && var (m, c) := Interleaved(l, [Feed(r1), Fetch(want)]);
               && Finished(c) && c.taken == 2
               && m.Records() == [r0.(offset := b), r1.(offset := b + 1)]
  {
    hide RecordFrames, Tracks, Concat, Layout.Valid, Layout.Append, Interleaved, Pull;
    SecondAppend(full, b, r0, r1);
    var l := Layout(full, b, [[r0.(offset := b)]]);
    var m := l.Append(r1);
    TakeFirst(r0.(offset := b), [r1.(offset := b + 1)]);
    assert [r0.(offset := b)] + [r1.(offset := b + 1)] == m.chunks[0];
    PullAll(m, want);
    var events := [Feed(r1), Fetch(want)];
    InterleavedNone(l, events);
    InterleavedStep(l, events, 0);
    InterleavedStep(l, events, 1);
    assert events[..2] == events;
  }

  lemma OneChunkRecords(full: Rule, b: nat, r: Record)
    requires b < U64
    ensures Layout(full, b, [[r.(offset := b)]]).Records() == [r.(offset := b)]
  {
    ConcatSnoc([], [r.(offset := b)]);
    assert [] + [[r.(offset := b)]] == [[r.(offset := b)]];
  }

  lemma WitnessStream(full: Rule, b: nat, r0: Record, r1: Record, want: nat)
    requires !full([]) && b + 4 < U64 && Storable(r0) && Storable(r1) && !full([r0.(offset := b)])
    requires |RecordFrames([r0.(offset := b), r1.(offset := b + 1)])| < want
    ensures var l, rs := Layout(full, b, [[r0.(offset := b)]]), [r0.(offset := b), r1.(offset := b + 1)];
            && l.Valid() && Feasible(l, [Feed(r1), Fetch(want)]) && Stamped(b, rs)
            && Interleaved(l, [Feed(r1), Fetch(want)]).1.out == RecordFrames(rs)
  {
    hide RecordFrames, Tracks, Concat, Interleaved;
    DrainedAfterAppend(full, b, r0, r1, want);
    var l := Layout(full, b, [[r0.(offset := b)]]);
    var events := [Feed(r1), Fetch(want)];
    StreamIsPrefix(l, events);
    var rs := [r0.(offset := b), r1.(offset := b + 1)];
    assert rs[..2] == rs;
  }

  /** The failing input: a snapshot taken after c0 and persisted while c1 is applied brings r0 and r1; the
      replay of c1 then appends r1 again. */
  lemma ReplayRepeats(full: Rule, b: nat, r0: Record, r1: Record, want: nat, dst: Layout)
    requires !full([]) && b + 4 < U64 && !full([r0.(offset := b)]) && dst.Valid()
    requires |r0.value| < MAX_VALUE - 64 && |r1.value| < MAX_VALUE - 64
    requires |RecordFrames([r0.(offset := b), r1.(offset := b + 1)])| < want
    ensures var l := Layout(full, b, [[r0.(offset := b)]]);
            && Committable(b, [Command(r0)]) && l == Replica(full, b, [Command(r0)]).0
            && Feasible(l, [Feed(r1), Fetch(want)])
            && var c := Interleaved(l, [Feed(r1), Fetch(want)]).1;
               && Finished(c) && InDomain(dst, c.out, true)
               && var m := Restored(dst, c.out, true).0;
                  && m.Valid() && Committable(m.Next(), [Command(r1)])
                  && ApplyAll(m, [Command(r1)]).Records()
                     == [r0.(offset := b), r1.(offset := b + 1), r1.(offset := b + 2)]
  {
    hide Command, Applicable, Decoded, RecordFrames, Interleaved, Restored, InDomain, ApplyAll, Tracks, Replica,
         Effects, Layout.Append, Layout.Valid;
    ReplicaOfOne(full, b, r0);
    DrainedAfterAppend(full, b, r0, r1, want);
    var l := Layout(full, b, [[r0.(offset := b)]]);
    var events := [Feed(r1), Fetch(want)];
    var c := Interleaved(l, events).1;
    var rs := [r0.(offset := b), r1.(offset := b + 1)];
    WitnessStream(full, b, r0, r1, want);
    RestoreStream(b, rs, dst);
    var m := Restored(dst, c.out, true).0;
    CommandRoundTrip(r1);
    assert Committable(m.Next(), [Command(r1)]);
    ReplayAppends(m, [Command(r1)]);
    OneEffect(m.Next(), Command(r1));
  }
}
