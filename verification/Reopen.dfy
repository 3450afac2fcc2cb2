/** A closed directory determines the log: there is nothing else a reopened log could hold. */
module Reopen {
  import opened Bytes
  import opened Codec
  import opened Framing
  import opened Disks
  import opened Layouts
  import opened Segments
  import opened Images
  import opened Logs
  import opened Snapshots

  ghost predicate AllStorable(rs: seq<Record>) {
    forall i | 0 <= i < |rs| :: Storable(rs[i])
  }

  /** Store bytes determine the records. */
  lemma {:induction false} FramesInjective(a: seq<Record>, b: seq<Record>)
    requires AllStorable(a) && AllStorable(b) && RecordFrames(a) == RecordFrames(b)
    ensures a == b
    decreases |a|
  {
    hide RecordFrames, TakeRecord;
    EmptyStream();
    if a != [] && b != [] {
      assert a == [a[0]] + a[1..] && b == [b[0]] + b[1..];
      TakeFirst(a[0], a[1..]);
      TakeFirst(b[0], b[1..]);
      FramesInjective(a[1..], b[1..]);
    } else if a != [] {
      assert a == [a[0]] + a[1..];
      TakeFirst(a[0], a[1..]);
    } else if b != [] {
      assert b == [b[0]] + b[1..];
      TakeFirst(b[0], b[1..]);
    }
  }

  lemma {:induction false} DoubledInjective(a: seq<nat>, b: seq<nat>)
    requires Doubled(a) == Doubled(b)
    ensures a == b
  {
    assert |a| == |b|;
    forall i | 0 <= i < |a| ensures a[i] == b[i] {
      DoubledAt(a, i);
      DoubledAt(b, i);
    }
  }

  /** The file names determine how many segments there are and where each starts. */
  lemma NamesDetermineStarts(l: Layout, m: Layout)
    requires l.Tiled() && m.Tiled() && l.Next() < U64 && m.Next() < U64
    requires NamesOf(Starts(l)) == NamesOf(Starts(m))
    ensures Starts(l) == Starts(m)
  {
    hide NamesOf, Starts, Doubled, Sort, Offsets, Layout.Next, Layout.Tiled;
    var names := Listing(NamesOf(Starts(l)));
    SetupOffsets(names, l);
    SetupOffsets(names, m);
    DoubledInjective(Starts(l), Starts(m));
  }

  lemma Listing(s: set<string>) returns (names: seq<string>)
    ensures multiset(names) == multiset(s)
    decreases |s|
  {
    if s == {} {
      names := [];
    } else {
      var n :| n in s;
      var rest := Listing(s - {n});
      names := rest + [n];
      BagSnoc(rest, n);
      assert multiset(s) == multiset(s - {n}) + multiset{n};
    }
  }

  /** Reopening is unambiguous: two valid layouts with the same clean image are the same log, segment by
      segment and record by record. */
  lemma ImageDeterminesLog(files: map<string, seq<byte>>, l: Layout, m: Layout)
    requires l.Valid() && m.Valid() && l.full == m.full
    requires CleanImage(files, l) && CleanImage(files, m)
    ensures l == m
  {
    hide Layout.Valid, NamesOf, RecordFrames, StoreName, IndexName, Layout.Start;
    ValidFacts(l);
    ValidFacts(m);
    NamesDetermineStarts(l, m);
    ValidFacts(l);
    StartEnds(l);
    StartEnds(m);
    assert Starts(l)[0] == Starts(m)[0];
    assert |l.chunks| == |Starts(l)| == |m.chunks|;
    forall i | 0 <= i < |l.chunks| ensures l.chunks[i] == m.chunks[i] {
      assert Starts(l)[i] == Starts(m)[i];
      assert SegmentFiles(files, l.Start(i), l.chunks[i]) && SegmentFiles(files, m.Start(i), m.chunks[i]);
      ChunkStorable(l, i);
      ChunkStorable(m, i);
      FramesInjective(l.chunks[i], m.chunks[i]);
    }
  }

  lemma ChunkStorable(l: Layout, i: nat)
    requires l.Valid() && i < |l.chunks|
    ensures AllStorable(l.chunks[i])
  {
    ChunkStamped(l, i);
  }
}
