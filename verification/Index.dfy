/** internal/log/index.go: fixed-width entries in a memory-mapped array. */
module IndexFile {
  import opened Bytes

  const OFF_WIDTH: nat := 4
  const POS_WIDTH: nat := 8
  const ENT_WIDTH: nat := 12

  datatype Entry = Entry(off: nat, pos: nat)

  /** The entries the two fixed-width fields can represent. */
  predicate Fits(es: seq<Entry>) {
    forall k | 0 <= k < |es| :: es[k].off < U32 && es[k].pos < U64
  }

  function EntryBytes(e: Entry): (s: seq<byte>)
    ensures |s| == ENT_WIDTH
  {
    BigEndian(e.off, OFF_WIDTH) + BigEndian(e.pos, POS_WIDTH)
  }

  /** The bytes of an index file that holds exactly these entries. */
  function IndexBytes(es: seq<Entry>): (s: seq<byte>)
    ensures |s| == ENT_WIDTH * |es|
  {
    if es == [] then [] else IndexBytes(es[..|es| - 1]) + EntryBytes(es[|es| - 1])
  }

  lemma IndexBytesSnoc(es: seq<Entry>, e: Entry)
    ensures IndexBytes(es + [e]) == IndexBytes(es) + EntryBytes(e)
  {
    assert (es + [e])[..|es|] == es;
  }

  lemma {:induction false} EntrySlice(es: seq<Entry>, k: nat)
    requires k < |es|
    ensures IndexBytes(es)[ENT_WIDTH * k..ENT_WIDTH * k + ENT_WIDTH] == EntryBytes(es[k])
  {
    var es' := es[..|es| - 1];
    if k < |es'| {
      EntrySlice(es', k);
      var lo := ENT_WIDTH * k;
      assert lo + ENT_WIDTH <= ENT_WIDTH * |es'|;
      assert IndexBytes(es)[lo..lo + ENT_WIDTH] == IndexBytes(es')[lo..lo + ENT_WIDTH];
    }
  }

  /** The two big-endian fields of the k-th slot decode to the k-th entry. */
  lemma EntryFields(es: seq<Entry>, k: nat)
    requires k < |es| && Fits(es)
    ensures var s := IndexBytes(es)[ENT_WIDTH * k..ENT_WIDTH * k + ENT_WIDTH];
            FromBigEndian(s[..OFF_WIDTH]) == es[k].off && FromBigEndian(s[OFF_WIDTH..]) == es[k].pos
  {
    EntrySlice(es, k);
    var s := EntryBytes(es[k]);
    assert s[..OFF_WIDTH] == BigEndian(es[k].off, OFF_WIDTH);
    assert s[OFF_WIDTH..] == BigEndian(es[k].pos, POS_WIDTH);
    WordRoundTrip(es[k].off, 4);
    WordRoundTrip(es[k].pos, 8);
  }

  lemma PrefixSlices(whole: seq<byte>, n: nat, lo: nat, mid: nat, hi: nat)
    requires lo <= mid <= hi <= n <= |whole|
    ensures whole[..n][lo..hi][..mid - lo] == whole[lo..mid]
    ensures whole[..n][lo..hi][mid - lo..] == whole[mid..hi]
  {
    assert whole[..n][lo..hi] == whole[lo..hi];
    assert whole[lo..hi][..mid - lo] == whole[lo..mid];
  }

  /** The same fields, read from any larger map whose used part holds the entries. */
  lemma MappedFields(whole: seq<byte>, es: seq<Entry>, k: nat)
    requires k < |es| && Fits(es) && ENT_WIDTH * |es| <= |whole| && whole[..ENT_WIDTH * |es|] == IndexBytes(es)
    ensures var at := ENT_WIDTH * k;
            && FromBigEndian(whole[at..at + OFF_WIDTH]) == es[k].off
            && FromBigEndian(whole[at + OFF_WIDTH..at + ENT_WIDTH]) == es[k].pos
  {
    EntryFields(es, k);
    var at := ENT_WIDTH * k;
    PrefixSlices(whole, ENT_WIDTH * |es|, at, at + OFF_WIDTH, at + ENT_WIDTH);
  }

  lemma TwoWrites(s0: seq<byte>, s1: seq<byte>, s2: seq<byte>, n: nat, a: seq<byte>, b: seq<byte>)
    requires n + |a| + |b| <= |s0|
    requires s1 == s0[..n] + a + s0[n + |a|..]
    requires s2 == s1[..n + |a|] + b + s1[n + |a| + |b|..]
    ensures s2[..n + |a| + |b|] == s0[..n] + (a + b)
  {
  }

  /** Writing the two fields one after the other extends the used part by one entry. */
  lemma MappedWrite(s0: seq<byte>, s1: seq<byte>, s2: seq<byte>, es: seq<Entry>, e: Entry)
    requires ENT_WIDTH * |es| + ENT_WIDTH <= |s0| && s0[..ENT_WIDTH * |es|] == IndexBytes(es)
    requires var n := ENT_WIDTH * |es|;
             && s1 == s0[..n] + BigEndian(e.off, OFF_WIDTH) + s0[n + OFF_WIDTH..]
             && s2 == s1[..n + OFF_WIDTH] + BigEndian(e.pos, POS_WIDTH) + s1[n + ENT_WIDTH..]
    ensures s2[..ENT_WIDTH * |es| + ENT_WIDTH] == IndexBytes(es + [e])
  {
    TwoWrites(s0, s1, s2, ENT_WIDTH * |es|, BigEndian(e.off, OFF_WIDTH), BigEndian(e.pos, POS_WIDTH));
    IndexBytesSnoc(es, e);
  }

  /** Index bytes determine the entries, so a reopened index holds what was written. */
  lemma IndexBytesInjective(a: seq<Entry>, b: seq<Entry>)
    requires Fits(a) && Fits(b) && IndexBytes(a) == IndexBytes(b)
    ensures a == b
  {
    assert |a| == |b|;
    forall k | 0 <= k < |a| ensures a[k] == b[k] {
      EntryFields(a, k);
      EntryFields(b, k);
    }
  }

  /** The slot a request addresses: -1 means the last, anything else is cut to 32 bits. */
  function Slot(request: int, count: nat): (k: nat)
    requires 0 < count <= U32
    ensures 0 <= request < count ==> k == request
    ensures k < count <==> request == -1 || request % U32 < count
  {
    if request == -1 then count - 1 else request % U32
  }

  class Index {
    const mmap: array<byte>
    var size: nat
    ghost var entries: seq<Entry>

    ghost predicate Valid()
      reads this, mmap
    {
      && size == ENT_WIDTH * |entries| <= mmap.Length
      && |entries| <= U32 && Fits(entries)
      && mmap[..size] == IndexBytes(entries)
    }

    /** Opens an index over the closed file's bytes, which it grows to maxBytes with zeroes. */
    constructor (contents: seq<byte>, maxBytes: nat, ghost es: seq<Entry>)
      requires contents == IndexBytes(es) && |contents| <= maxBytes && |es| <= U32 && Fits(es)
      ensures Valid() && entries == es && mmap.Length == maxBytes && fresh(mmap)
    {
      mmap := new byte[maxBytes](i requires 0 <= i => if i < |contents| then contents[i] else 0);
      size := |contents|;
      entries := es;
      new;
      assert mmap[..size] == contents;
    }

    predicate IsMaxed()
      reads this
    {
      mmap.Length < size + ENT_WIDTH
    }

    method Read(request: int) returns (r: Result<(u32, u64)>)
      requires Valid()
      ensures r == if entries == [] then Err(EOF)
                   else var k := Slot(request, |entries|);
                     if k < |entries| then Ok((entries[k].off, entries[k].pos)) else Err(EOF)
    {
      hide IndexBytes, FromBigEndian;
      if size == 0 {
        return Err(EOF);
      }
      var k: nat;
      if request == -1 {
        k := (size / ENT_WIDTH - 1) % U32;
      } else {
        k := request % U32;
      }
      var at := k * ENT_WIDTH;
      if size < at + ENT_WIDTH {
        return Err(EOF);
      }
      assert mmap[..][..size] == mmap[..size];
      MappedFields(mmap[..], entries, k);
      assert mmap[at..at + OFF_WIDTH] == mmap[..][at..at + OFF_WIDTH];
      assert mmap[at + OFF_WIDTH..at + ENT_WIDTH] == mmap[..][at + OFF_WIDTH..at + ENT_WIDTH];
      return Ok((FromBigEndian(mmap[at..at + OFF_WIDTH]), FromBigEndian(mmap[at + OFF_WIDTH..at + ENT_WIDTH])));
    }

    /** Writes the next entry, or fails and changes nothing when the map has no room. */
    method Write(off: u32, pos: u64) returns (ok: bool)
      requires Valid() && mmap.Length <= ENT_WIDTH * U32
      modifies this, mmap
      ensures Valid() && ok == !old(IsMaxed())
      ensures ok ==> |old(entries)| < U32
      ensures size == old(size) + if ok then ENT_WIDTH else 0
      ensures entries == if ok then old(entries) + [Entry(off, pos)] else old(entries)
    {
      if IsMaxed() {
        return false;
      }
      hide IndexBytes, BigEndian;
      var e := Entry(off, pos);
      ghost var s0 := mmap[..];
      PutBigEndian(mmap, size, off, OFF_WIDTH);
      ghost var s1 := mmap[..];
      PutBigEndian(mmap, size + OFF_WIDTH, pos, POS_WIDTH);
      MappedWrite(s0, s1, mmap[..], entries, e);
      size := size + ENT_WIDTH;
      entries := entries + [e];
      return true;
    }

    /** Syncs the map and trims the file to the entries in use; yields the closed file's bytes. */
    method Close() returns (contents: seq<byte>)
      requires Valid()
      ensures contents == IndexBytes(entries)
    {
      contents := mmap[..size];
    }
  }
}
