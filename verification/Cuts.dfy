/** Where segments begin, computed from the flat sequence of records alone. */
module Cuts {
  import opened Bytes
  import opened Codec
  import opened Layouts

  /** The index at which the segment begins that is open after these records: scanning from the start, a
      segment is closed by the record that makes it full. */
  function SegmentStart(full: Rule, rs: seq<Record>): (k: nat)
    ensures k <= |rs|
  {
    if rs == [] then 0
    else
      var k := SegmentStart(full, rs[..|rs| - 1]);
      if full(rs[k..]) then |rs| else k
  }

  /** Segment i begins where the scan of the history says, for every record it holds. */
  ghost predicate StartsAt(l: Layout, b: nat, h: seq<Record>, i: nat)
    requires i < |l.chunks|
  {
    forall x: nat | x <= |h| && l.Start(i) <= b + x < l.Start(i) + |l.chunks[i]| ::
      b + SegmentStart(l.full, h[..x]) == l.Start(i)
  }

  /** The layout's boundaries are those of the history, and its last segment is the open one. */
  ghost predicate Aligned(l: Layout, b: nat, h: seq<Record>) {
    && |l.chunks| > 0
    && (forall i | 0 <= i < |l.chunks| :: StartsAt(l, b, h, i))
    && b + SegmentStart(l.full, h) == l.Start(|l.chunks| - 1)
  }

  lemma FreshAligned(full: Rule, b: nat)
    ensures Aligned(Fresh(full, b), b, [])
  {
    assert Fresh(full, b).chunks[..0] == [];
  }

  /** The open segment of the history is the last segment of the layout. */
  lemma OpenIsLast(l: Layout, b: nat, h: seq<Record>)
    requires l.chunks != [] && b <= l.base && l.Next() == b + |h| && h[l.base - b..] == l.Records()
    ensures b <= l.Start(|l.chunks| - 1) <= b + |h| && h[l.Start(|l.chunks| - 1) - b..] == l.Last()
  {
    var n := |l.chunks| - 1;
    DropFrom(l, n);
    ConcatSnoc([], l.Last());
    assert l.chunks[n..] == [] + [l.Last()];
    var d := l.Start(n) - l.base;
    assert h[l.base - b..][d..] == h[l.Start(n) - b..];
    assert [] + l.Last() == l.Last();
  }

  lemma ScanSnoc(full: Rule, h: seq<Record>, r: Record)
    ensures var k := SegmentStart(full, h);
            SegmentStart(full, h + [r]) == if full(h[k..] + [r]) then |h| + 1 else k
  {
    var k := SegmentStart(full, h);
    assert (h + [r])[..|h|] == h;
    assert (h + [r])[k..] == h[k..] + [r];
  }

  lemma AppendStarts(l: Layout, r: Record, i: nat)
    requires l.chunks != [] && l.Next() < U64 && i < |l.chunks|
    ensures i < |l.Append(r).chunks| && l.Append(r).Start(i) == l.Start(i) && l.Append(r).full == l.full
    ensures i < |l.chunks| - 1 ==> l.Append(r).chunks[i] == l.chunks[i]
    ensures i == |l.chunks| - 1 ==> l.Append(r).chunks[i] == l.Last() + [r.(offset := l.Next())]
  {
    hide Concat;
    assert l.Append(r).chunks[..i] == l.chunks[..i];
  }

  /** An append keeps the boundaries where the history puts them. */
  lemma AppendAligned(l: Layout, b: nat, h: seq<Record>, r: Record)
    requires l.Valid() && l.Next() < U64 - 1 && Storable(r) && Aligned(l, b, h)
    requires b <= l.base && l.Next() == b + |h| && h[l.base - b..] == l.Records()
    ensures Aligned(l.Append(r), b, h + [r.(offset := l.Next())])
  {
    hide Concat, Layout.Start, Layout.Valid, SegmentStart, Layout.Append;
    ValidFacts(l);
    var stamped := r.(offset := l.Next());
    var t, g, n := l.Append(r), h + [stamped], |l.chunks| - 1;
    AppendEffect(l, r);
    OpenIsLast(l, b, h);
    ScanSnoc(l.full, h, stamped);
    LastStart(l);
    RolledLast(l, r);
    forall i | 0 <= i < |l.chunks| ensures StartsAt(t, b, g, i) {
      AppendStarts(l, r, i);
      AppendStartsAt(l, b, h, r, i);
    }
    if |t.chunks| == n + 2 {
      assert StartsAt(t, b, g, n + 1);
    }
    AppendStarts(l, r, n);
  }

  lemma LastStart(l: Layout)
    requires l.chunks != []
    ensures l.Start(|l.chunks| - 1) + |l.Last()| == l.Next()
  {
    StartEnds(l);
    StartStep(l, |l.chunks| - 1);
  }

  lemma RolledLast(l: Layout, r: Record)
    requires l.Valid() && l.Next() < U64 - 1 && Storable(r)
    ensures var t, n := l.Append(r), |l.chunks| - 1;
            if l.full(l.Last() + [r.(offset := l.Next())])
            then |t.chunks| == n + 2 && t.chunks[n + 1] == [] && t.Start(n + 1) == l.Next() + 1
            else |t.chunks| == n + 1
  {
    AppendEffect(l, r);
    if l.full(l.Last() + [r.(offset := l.Next())]) {
      LastStart(l.Append(r));
    }
  }

  lemma AppendStartsAt(l: Layout, b: nat, h: seq<Record>, r: Record, i: nat)
    requires l.chunks != [] && l.Next() == b + |h| && l.Next() < U64 && i < |l.chunks|
    requires Aligned(l, b, h)
    ensures i < |l.Append(r).chunks| && StartsAt(l.Append(r), b, h + [r.(offset := l.Next())], i)
  {
    hide Concat, Layout.Start, SegmentStart, Layout.Append;
    AppendStarts(l, r, i);
    LastStart(l);
    var t, g := l.Append(r), h + [r.(offset := l.Next())];
    assert StartsAt(l, b, h, i);
    ChunkSlice(l, i);
    forall x: nat | x <= |g| && t.Start(i) <= b + x < t.Start(i) + |t.chunks[i]|
      ensures b + SegmentStart(l.full, g[..x]) == t.Start(i)
    {
      assert x <= |h| && g[..x] == h[..x];
      if x == |h| {
        assert h[..x] == h;
      }
    }
  }

  /** Dropping leading segments leaves the rest where they are. */
  lemma DropAligned(l: Layout, b: nat, h: seq<Record>, k: nat)
    requires Aligned(l, b, h) && k < |l.chunks|
    ensures Aligned(Layout(l.full, l.Start(k), l.chunks[k..]), b, h)
  {
    hide Concat, Layout.Start, SegmentStart;
    var t := Layout(l.full, l.Start(k), l.chunks[k..]);
    forall i | 0 <= i < |t.chunks| ensures StartsAt(t, b, h, i) {
      StartAfterDrop(l, k, i);
      assert StartsAt(l, b, h, k + i);
    }
    StartAfterDrop(l, k, |t.chunks| - 1);
  }

  /** Where an in-range truncation leaves the log, said of the history alone: at the start of the segment the
      record lowest + 1 went into when it was appended. */
  lemma TruncateScan(l: Layout, b: nat, h: seq<Record>, lowest: u64)
    requires l.Valid() && InRange(l, lowest) && Aligned(l, b, h) && b <= l.base && l.Next() == b + |h|
    ensures Aligned(Truncate(l, lowest), b, h)
    ensures Truncate(l, lowest).base
            == if Limit(lowest) < l.base then l.base else b + SegmentStart(l.full, h[..Limit(lowest) - b])
  {
    hide Concat, Layout.Start, Layout.Valid, SegmentStart, Truncate;
    TruncateEffect(l, lowest);
    var k := DropCount(l.base, l.chunks, Limit(lowest));
    TruncateShape(l, lowest, k);
    DropAligned(l, b, h, k);
    assert StartsAt(l, b, h, k);
  }
}
