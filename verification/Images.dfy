/** What a cleanly closed log leaves in its directory. */
module Images {
  import opened Bytes
  import opened Disks
  import opened Layouts
  import opened Segments

  /** The base offsets of the segments, oldest first. */
  function Starts(l: Layout): (bs: seq<nat>)
    ensures |bs| == |l.chunks| && forall i | 0 <= i < |bs| :: bs[i] == l.Start(i)
  {
    seq(|l.chunks|, i requires 0 <= i < |l.chunks| => l.Start(i))
  }

  /** The file names of segments with these base offsets. */
  function NamesOf(bs: seq<nat>): set<string> {
    if bs == [] then {}
    else NamesOf(bs[..|bs| - 1]) + {StoreName(bs[|bs| - 1]), IndexName(bs[|bs| - 1])}
  }

  lemma NamesOfSnoc(bs: seq<nat>, b: nat)
    ensures NamesOf(bs + [b]) == NamesOf(bs) + {StoreName(b), IndexName(b)}
  {
    assert (bs + [b])[..|bs|] == bs;
  }

  /** The directory holds the files of every segment of l and nothing else. */
  ghost predicate CleanImage(files: map<string, seq<byte>>, l: Layout) {
    && files.Keys == NamesOf(Starts(l))
    && forall i | 0 <= i < |l.chunks| :: SegmentFiles(files, l.Start(i), l.chunks[i])
  }

  /** What setup can start from: an empty directory for a fresh log, or a clean image. */
  ghost predicate Loadable(files: map<string, seq<byte>>, cfg: Config, l: Layout) {
    && l.full == RuleOf(cfg) && l.Valid()
    && ((files == map[] && l == Fresh(RuleOf(cfg), cfg.initial)) || CleanImage(files, l))
  }

  predicate Ascending(bs: seq<nat>) {
    forall i, j | 0 <= i < j < |bs| :: bs[i] < bs[j]
  }

  lemma StartsAscend(l: Layout)
    requires l.Tiled()
    ensures Ascending(Starts(l))
  {
    forall i, j | 0 <= i < j < |l.chunks| ensures l.Start(i) < l.Start(j) {
      StartMonotone(l, i, j);
    }
  }

  lemma StartsFit(l: Layout)
    requires l.Next() < U64
    ensures forall i | 0 <= i < |l.chunks| :: l.Start(i) < U64
  {
    forall i | 0 <= i < |l.chunks| ensures l.Start(i) < U64 {
      ChunkSlice(l, i);
    }
  }

  /** A segment's names are not among those of segments with other bases. */
  lemma {:induction false} NameNotAmong(bs: seq<nat>, b: u64)
    requires forall i | 0 <= i < |bs| :: bs[i] < U64 && bs[i] != b
    ensures StoreName(b) !in NamesOf(bs) && IndexName(b) !in NamesOf(bs)
  {
    if bs != [] {
      NameNotAmong(bs[..|bs| - 1], b);
      NamesDistinct(b, bs[|bs| - 1]);
      NamesDistinct(bs[|bs| - 1], b);
    }
  }

  lemma {:induction false} NamesOfConcat(a: seq<nat>, b: seq<nat>)
    ensures NamesOf(a + b) == NamesOf(a) + NamesOf(b)
    decreases |b|
  {
    if b == [] {
      assert a + b == a;
    } else {
      NamesOfConcat(a, b[..|b| - 1]);
      assert (a + b)[..|a + b| - 1] == a + b[..|b| - 1];
    }
  }

  lemma {:induction false} NamesDisjoint(a: seq<nat>, b: seq<nat>)
    requires forall i | 0 <= i < |a| :: a[i] < U64
    requires forall j | 0 <= j < |b| :: b[j] < U64
    requires forall i, j | 0 <= i < |a| && 0 <= j < |b| :: a[i] != b[j]
    ensures NamesOf(a) !! NamesOf(b)
    decreases |b|
  {
    if b != [] {
      NamesDisjoint(a, b[..|b| - 1]);
      NameNotAmong(a, b[|b| - 1]);
    }
  }

  // ----- recovering the bases from directory entries -----

  function Offsets(names: seq<string>): (os: seq<nat>)
    ensures |os| == |names|
  {
    if names == [] then [] else Offsets(names[..|names| - 1]) + [NameOffset(names[|names| - 1])]
  }

  /** Each base twice, as the store and the index of a segment contribute it. */
  function Doubled(bs: seq<nat>): (os: seq<nat>)
    ensures |os| == 2 * |bs|
  {
    if bs == [] then [] else Doubled(bs[..|bs| - 1]) + [bs[|bs| - 1], bs[|bs| - 1]]
  }

  function Paired(bs: seq<nat>): seq<string> {
    if bs == [] then [] else Paired(bs[..|bs| - 1]) + [StoreName(bs[|bs| - 1]), IndexName(bs[|bs| - 1])]
  }

  lemma {:induction false} DoubledAt(bs: seq<nat>, i: nat)
    requires i < |bs|
    ensures Doubled(bs)[2 * i] == bs[i] && Doubled(bs)[2 * i + 1] == bs[i]
  {
    if i < |bs| - 1 {
      DoubledAt(bs[..|bs| - 1], i);
    }
  }

  predicate Sorted(s: seq<nat>) {
    forall i, j | 0 <= i < j < |s| :: s[i] <= s[j]
  }

  lemma DoubledSorted(bs: seq<nat>)
    requires Ascending(bs)
    ensures Sorted(Doubled(bs))
  {
    forall i, j | 0 <= i < j < 2 * |bs| ensures Doubled(bs)[i] <= Doubled(bs)[j] {
      DoubledAt(bs, i / 2);
      DoubledAt(bs, j / 2);
    }
  }

  lemma OffsetsSnoc(names: seq<string>, n: string)
    ensures Offsets(names + [n]) == Offsets(names) + [NameOffset(n)]
  {
    assert (names + [n])[..|names|] == names;
  }

  lemma OffsetsEmpty()
    ensures Offsets([]) == [] && Sort([]) == []
  {
  }

  lemma {:induction false} OffsetsOfPaired(bs: seq<nat>)
    requires forall i | 0 <= i < |bs| :: bs[i] < U64
    ensures Offsets(Paired(bs)) == Doubled(bs)
  {
    hide NameOffset, StoreName, IndexName, Offsets;
    if bs == [] {
      OffsetsEmpty();
    } else {
      var front, b := bs[..|bs| - 1], bs[|bs| - 1];
      OffsetsOfPaired(front);
      NamesParse(b);
      OffsetsSnoc(Paired(front), StoreName(b));
      OffsetsSnoc(Paired(front) + [StoreName(b)], IndexName(b));
      assert Paired(bs) == Paired(front) + [StoreName(b)] + [IndexName(b)];
    }
  }

  lemma BagOfTwo(names: set<string>, listed: seq<string>, x: string, y: string)
    requires multiset(listed) == multiset(names) && x !in names && y !in names && x != y
    ensures multiset(listed + [x, y]) == multiset(names + {x, y})
  {
    assert multiset(names + {x, y}) == multiset(names) + multiset{x, y};
  }

  /** The names in the directory, as a bag, are the paired list. */
  lemma {:induction false} PairedNames(bs: seq<nat>)
    requires Ascending(bs) && forall i | 0 <= i < |bs| :: bs[i] < U64
    ensures multiset(Paired(bs)) == multiset(NamesOf(bs))
  {
    hide StoreName, IndexName;
    if bs != [] {
      var front, b := bs[..|bs| - 1], bs[|bs| - 1];
      PairedNames(front);
      NameNotAmong(front, b);
      NamesParse(b);
      BagOfTwo(NamesOf(front), Paired(front), StoreName(b), IndexName(b));
    }
  }

  lemma BagMiddle<T>(a: seq<T>, x: T, b: seq<T>)
    ensures multiset((a + [x]) + b) == multiset(a + b) + multiset{x}
  {
  }

  lemma BagCancel<T>(a: multiset<T>, b: multiset<T>, x: T)
    requires a + multiset{x} == b + multiset{x}
    ensures a == b
  {
    assert a == a + multiset{x} - multiset{x};
    assert b == b + multiset{x} - multiset{x};
  }

  lemma BagSnoc<T>(a: seq<T>, x: T)
    ensures multiset(a + [x]) == multiset(a) + multiset{x}
  {
  }

  lemma SplitAt<T>(s: seq<T>, x: T) returns (left: seq<T>, right: seq<T>)
    requires x in multiset(s)
    ensures s == (left + [x]) + right
  {
    var k :| 0 <= k < |s| && s[k] == x;
    left, right := s[..k], s[k + 1..];
  }

  lemma UnSnoc<T>(s: seq<T>) returns (front: seq<T>, last: T)
    requires s != []
    ensures s == front + [last] && front == s[..|s| - 1] && last == s[|s| - 1]
  {
    front, last := s[..|s| - 1], s[|s| - 1];
  }

  lemma {:induction false} OffsetsConcat(a: seq<string>, b: seq<string>)
    ensures Offsets(a + b) == Offsets(a) + Offsets(b)
    decreases |b|
  {
    hide NameOffset;
    if b == [] {
      assert a + b == a;
    } else {
      var b' := b[..|b| - 1];
      OffsetsConcat(a, b');
      OffsetsSnoc(a + b', b[|b| - 1]);
      assert a + b == (a + b') + [b[|b| - 1]];
    }
  }

  lemma OffsetsMiddle(left: seq<string>, n: string, right: seq<string>)
    ensures multiset(Offsets((left + [n]) + right)) == multiset(Offsets(left + right)) + multiset{NameOffset(n)}
  {
    hide NameOffset, Offsets;
    OffsetsConcat(left + [n], right);
    OffsetsSnoc(left, n);
    OffsetsConcat(left, right);
    BagMiddle(Offsets(left), NameOffset(n), Offsets(right));
  }

  /** The order in which the directory lists its entries does not matter. */
  lemma {:induction false} OffsetsPermute(a: seq<string>, b: seq<string>)
    requires multiset(a) == multiset(b)
    ensures multiset(Offsets(a)) == multiset(Offsets(b))
    decreases |a|
  {
    if a == [] {
      assert |multiset(b)| == 0;
    } else {
      hide NameOffset, Offsets;
      var front, x := UnSnoc(a);
      BagSnoc(front, x);
      var left, right := SplitAt(b, x);
      BagMiddle(left, x, right);
      BagCancel(multiset(front), multiset(left + right), x);
      OffsetsPermute(front, left + right);
      OffsetsMiddle(left, x, right);
      OffsetsSnoc(front, x);
      BagSnoc(Offsets(front), NameOffset(x));
    }
  }

  // ----- sorting -----

  function Insert(x: nat, s: seq<nat>): seq<nat> {
    if s == [] || s[|s| - 1] <= x then s + [x] else Insert(x, s[..|s| - 1]) + [s[|s| - 1]]
  }

  lemma {:induction false} InsertSorts(x: nat, s: seq<nat>)
    requires Sorted(s)
    ensures Sorted(Insert(x, s)) && multiset(Insert(x, s)) == multiset(s) + multiset{x}
    decreases |s|
  {
    if s == [] || s[|s| - 1] <= x {
      BagSnoc(s, x);
    } else {
      var front, last := UnSnoc(s);
      hide Insert;
      InsertSorts(x, front);
      assert Sorted(front + [last]);
      InsertBelow(Insert(x, front), front, x, last);
      InsertUnfolds(x, s);
    }
  }

  lemma InsertUnfolds(x: nat, s: seq<nat>)
    requires s != [] && x < s[|s| - 1]
    ensures Insert(x, s) == Insert(x, s[..|s| - 1]) + [s[|s| - 1]]
  {
  }

  lemma InsertBelow(t: seq<nat>, front: seq<nat>, x: nat, last: nat)
    requires Sorted(t) && Sorted(front + [last]) && x < last && multiset(t) == multiset(front) + multiset{x}
    ensures Sorted(t + [last]) && multiset(t + [last]) == multiset(front + [last]) + multiset{x}
  {
    forall i | 0 <= i < |t| ensures t[i] <= last {
      FromBag(t, front, x, i);
      if t[i] != x {
        var j :| 0 <= j < |front| && front[j] == t[i];
        assert (front + [last])[j] <= (front + [last])[|front|];
      }
    }
    BagSnoc(t, last);
    BagSnoc(front, last);
  }

  lemma FromBag(t: seq<nat>, s: seq<nat>, x: nat, i: nat)
    requires i < |t| && multiset(t) == multiset(s) + multiset{x}
    ensures t[i] == x || t[i] in s
  {
    assert t[i] in multiset(t);
  }

  /** sort.Slice by numeric value. */
  function Sort(s: seq<nat>): (t: seq<nat>)
    ensures Sorted(t) && multiset(t) == multiset(s)
  {
    if s == [] then []
    else
      var front := Sort(s[..|s| - 1]);
      InsertSorts(s[|s| - 1], front);
      BagSnoc(s[..|s| - 1], s[|s| - 1]);
      assert s == s[..|s| - 1] + [s[|s| - 1]];
      Insert(s[|s| - 1], front)
  }

  lemma LastIsLargest(s: seq<nat>, x: nat)
    requires Sorted(s) && s != [] && x in multiset(s)
    ensures x <= s[|s| - 1]
  {
    assert x in s;
  }

  lemma SameLast(a: seq<nat>, b: seq<nat>)
    requires Sorted(a) && Sorted(b) && multiset(a) == multiset(b) && a != []
    ensures b != [] && a[|a| - 1] == b[|b| - 1]
  {
    assert a[|a| - 1] in multiset(b);
    assert b[|b| - 1] in multiset(a);
    LastIsLargest(b, a[|a| - 1]);
    LastIsLargest(a, b[|b| - 1]);
  }

  /** There is one way to sort a bag of numbers. */
  lemma {:induction false} SortedUnique(a: seq<nat>, b: seq<nat>)
    requires Sorted(a) && Sorted(b) && multiset(a) == multiset(b)
    ensures a == b
    decreases |a|
  {
    if a == [] {
      assert |multiset(b)| == 0;
    } else {
      SameLast(a, b);
      var a', x := UnSnoc(a);
      var b', y := UnSnoc(b);
      assert Sorted(a') && Sorted(b');
      BagSnoc(a', x);
      BagSnoc(b', x);
      BagCancel(multiset(a'), multiset(b'), x);
      SortedUnique(a', b');
    }
  }

  /** What setup computes from a clean image, in whatever order the directory is listed: every
      base offset exactly twice, ascending numerically. */
  lemma SetupOffsets(names: seq<string>, l: Layout)
    requires l.Tiled() && l.Next() < U64
    requires multiset(names) == multiset(NamesOf(Starts(l)))
    ensures Sort(Offsets(names)) == Doubled(Starts(l))
  {
    var bs := Starts(l);
    StartsAscend(l);
    StartsFit(l);
    PairedNames(bs);
    OffsetsPermute(names, Paired(bs));
    OffsetsOfPaired(bs);
    DoubledSorted(bs);
    SortedUnique(Sort(Offsets(names)), Doubled(bs));
  }
}
