/** The formats on disk and on the wire, spelled out byte for byte at concrete values. What the other modules prove
    about encoders and decoders together is pinned here to the bytes themselves. */
module Formats {
  import opened Bytes
  import opened Codec
  import opened Framing
  import opened StoreFile
  import opened IndexFile
  import opened Disks
  import opened Layouts
  import opened Segments
  import opened Images
  import opened Logs
  import opened Fsms

  function Zeroes(w: nat): (s: seq<byte>)
    ensures |s| == w
  {
    seq(w, _ => 0)
  }

  /** A number below 256 is zeroes and one last byte. */
  lemma SmallWord(n: byte, w: nat)
    requires w > 0
    ensures BigEndian(n, w) == Zeroes(w - 1) + [n]
  {
    ZeroWord(w - 1);
  }

  lemma {:induction false} ZeroWord(w: nat)
    ensures BigEndian(0, w) == Zeroes(w)
  {
    if w > 0 {
      ZeroWord(w - 1);
    }
  }

  /** The length prefix is eight bytes, most significant first. */
  lemma SmallFrame(p: seq<byte>)
    requires |p| < 256
    ensures Frame(p) == [0, 0, 0, 0, 0, 0, 0, |p|] + p
  {
    SmallWord(|p|, 8);
    assert Zeroes(7) + [|p|] == [0, 0, 0, 0, 0, 0, 0, |p|];
  }

  /** One payload of one byte, appended and closed. */
  method OneByteStore() returns (file: seq<byte>)
    ensures file == [0, 0, 0, 0, 0, 0, 0, 1, 7]
  {
    var s := new Store([]);
    SmallFrame([7]);
    var _, _ := s.Append([7]);
    file := s.Close();
  }

  /** Lengths of more than one byte: 258 is written 1, 2. */
  lemma WiderWord()
    ensures BigEndian(258, 8) == [0, 0, 0, 0, 0, 0, 1, 2] && BigEndian(258, 4) == [0, 0, 1, 2]
  {
    ZeroWord(6);
    ZeroWord(2);
    SmallWord(1, 7);
    SmallWord(1, 3);
    assert Zeroes(6) + [1] == [0, 0, 0, 0, 0, 0, 1] && Zeroes(2) + [1] == [0, 0, 1];
  }

  /** Four bytes of relative offset, then eight of position. */
  lemma TwoEntries()
    ensures IndexBytes([Entry(0, 0), Entry(1, 258)])
            == [0, 0, 0, 0, 0, 0, 0, 0, 0, 0, 0, 0] + [0, 0, 0, 1, 0, 0, 0, 0, 0, 0, 1, 2]
  {
    hide BigEndian;
    WiderWord();
    SmallWord(0, 4);
    SmallWord(0, 8);
    SmallWord(1, 4);
    EntryOf(Entry(0, 0), [0, 0, 0, 0], [0, 0, 0, 0, 0, 0, 0, 0]);
    EntryOf(Entry(1, 258), [0, 0, 0, 1], [0, 0, 0, 0, 0, 0, 1, 2]);
    IndexOfTwo(Entry(0, 0), Entry(1, 258));
  }

  lemma EntryOf(e: Entry, off: seq<byte>, pos: seq<byte>)
    requires BigEndian(e.off, 4) == off && BigEndian(e.pos, 8) == pos
    ensures EntryBytes(e) == off + pos
  {
  }

  lemma IndexOfTwo(a: Entry, b: Entry)
    ensures IndexBytes([a, b]) == EntryBytes(a) + EntryBytes(b)
  {
    IndexBytesSnoc([], a);
    IndexBytesSnoc([a], b);
    assert [] + [a] == [a] && [a] + [b] == [a, b];
    assert IndexBytes([]) == [];
  }

  // ----- messages -----

  lemma ShortVarint(n: nat)
    ensures n < 128 ==> Varint(n) == [n]
    ensures Varint(300) == [172, 2]
  {
    assert Varint(2) == [2];
  }

  /** A record with every field set, and one with only a value and an offset. */
  lemma RecordBytes()
    ensures Marshal(Record([7], 300, 1, 2)) == [10, 1, 7, 16, 172, 2, 24, 1, 32, 2]
    ensures Marshal(Record([7], 0, 0, 0)) == [10, 1, 7]
    ensures Marshal(Record([7], 1, 0, 0)) == [10, 1, 7, 16, 1]
  {
    ShortVarint(1);
    ShortVarint(2);
    assert NumberField(2, 300) == [16, 172, 2] && NumberField(3, 1) == [24, 1] && NumberField(4, 2) == [32, 2];
  }

  /** What Raft is handed for an append: the request type, and the request with its one field. */
  lemma CommandBytes()
    ensures Command(Record([7], 0, 0, 0)) == [0, 10, 3, 10, 1, 7]
  {
    hide Marshal;
    RecordBytes();
    ShortVarint(3);
    assert ChunkField(1, [10, 1, 7]) == [10, 3, 10, 1, 7];
  }

  // ----- a whole directory -----

  /** Two small records after a fresh start under the default limits share one segment. */
  lemma TwoSmallRecords(cfg: Config, a: Record, b: Record) returns (l: Layout)
    requires cfg.maxStore == 1024 && cfg.maxIndex == 1024 && cfg.initial < U64 - 2
    requires |a.value| <= 2 && |b.value| <= 2
    ensures var f := Fresh(RuleOf(cfg), cfg.initial);
            && f.chunks != [] && f.Next() == cfg.initial && f.Append(a).chunks != []
            && f.Append(a).Next() == cfg.initial + 1
            && l == f.Append(a).Append(b)
    ensures l.Valid() && l.base == cfg.initial && l.Next() == cfg.initial + 2
    ensures l.chunks == [[a.(offset := cfg.initial), b.(offset := cfg.initial + 1)]]
  {
    hide RuleOf, Concat;
    var rule := RuleOf(cfg);
    RuleOfAccepts(cfg);
    FreshIsValid(rule, cfg.initial);
    var f := Fresh(rule, cfg.initial);
    AppendEffect(f, a);
    var r1, r2 := a.(offset := cfg.initial), b.(offset := cfg.initial + 1);
    SmallSegment(cfg, [r1]);
    assert [] + [r1] == [r1];
    var m := f.Append(a);
    AppendEffect(m, b);
    assert m.chunks == [[r1]];
    SmallSegment(cfg, [r1, r2]);
    assert [r1] + [r2] == [r1, r2];
    l := m.Append(b);
  }

  lemma {:induction false} SmallFrames(rs: seq<Record>)
    requires forall i | 0 <= i < |rs| :: |rs[i].value| <= 2
    ensures |RecordFrames(rs)| <= 54 * |rs|
  {
    hide Marshal, Frames;
    if rs == [] {
      EmptyStream();
    } else {
      var front, r := rs[..|rs| - 1], rs[|rs| - 1];
      SmallFrames(front);
      MarshalRoundTrip(r);
      RecordFramesSnoc(front, r);
      assert rs == front + [r];
    }
  }

  lemma SmallSegment(cfg: Config, rs: seq<Record>)
    requires cfg.maxStore == 1024 && cfg.maxIndex == 1024 && |rs| <= 2
    requires forall i | 0 <= i < |rs| :: |rs[i].value| <= 2
    ensures !RuleOf(cfg)(rs)
  {
    hide RecordFrames;
    SmallFrames(rs);
  }

  /** The frames of two records. */
  lemma FramesOfTwo(a: Record, b: Record)
    ensures RecordFrames([a, b]) == Frame(Marshal(a)) + Frame(Marshal(b))
    ensures Entries([a, b]) == [Entry(0, 0), Entry(1, |Frame(Marshal(a))|)]
  {
    hide Marshal, Frame;
    RecordFramesCons(a, [b]);
    RecordFramesCons(b, []);
    RecordFramesCons(a, []);
    EmptyStream();
    assert [a] + [b] == [a, b] && [b] + [] == [b] && [a] + [] == [a];
    assert [a, b][..0] == [] && [a, b][..1] == [a];
    assert Frame(Marshal(b)) + [] == Frame(Marshal(b));
  }

  const FIRST_FRAME: seq<byte> := [0, 0, 0, 0, 0, 0, 0, 3, 10, 1, 7]
  const SECOND_FRAME: seq<byte> := [0, 0, 0, 0, 0, 0, 0, 5, 10, 1, 7, 16, 1]

  lemma GoldenFrames()
    ensures Frame(Marshal(Record([7], 0, 0, 0))) == FIRST_FRAME
    ensures Frame(Marshal(Record([7], 1, 0, 0))) == SECOND_FRAME
  {
    hide Marshal, Frame;
    RecordBytes();
    SmallFrame([10, 1, 7]);
    SmallFrame([10, 1, 7, 16, 1]);
  }

  lemma GoldenFiles()
    ensures var rs := [Record([7], 0, 0, 0), Record([7], 1, 0, 0)];
            && RecordFrames(rs) == FIRST_FRAME + SECOND_FRAME
            && IndexBytes(Entries(rs))
               == [0, 0, 0, 0, 0, 0, 0, 0, 0, 0, 0, 0] + [0, 0, 0, 1, 0, 0, 0, 0, 0, 0, 0, 11]
  {
    hide Marshal, Frame, BigEndian, RecordFrames, Entries;
    GoldenFrames();
    FramesOfTwo(Record([7], 0, 0, 0), Record([7], 1, 0, 0));
    SmallWord(0, 4);
    SmallWord(0, 8);
    SmallWord(1, 4);
    SmallWord(11, 8);
    EntryOf(Entry(0, 0), [0, 0, 0, 0], [0, 0, 0, 0, 0, 0, 0, 0]);
    EntryOf(Entry(1, 11), [0, 0, 0, 1], [0, 0, 0, 0, 0, 0, 0, 11]);
    IndexOfTwo(Entry(0, 0), Entry(1, 11));
  }

  lemma GoldenNames(l: Layout)
    requires |l.chunks| == 1 && l.base == 0
    ensures StoreName(0) == "0.store" && IndexName(0) == "0.index"
    ensures l.Start(0) == 0 && NamesOf(Starts(l)) == {"0.store", "0.index"}
  {
    DecimalExamples();
    NamesSpelled(0);
    assert l.chunks[..0] == [];
    NamesOfSnoc([], 0);
    assert Starts(l) == [] + [0];
  }

  /** From an agent's configuration, which sets no limit, two appends and a clean shutdown: the directory, byte for
      byte. */
  method GoldenDirectory() returns (files: map<string, seq<byte>>)
    ensures files == map["0.store" := [0, 0, 0, 0, 0, 0, 0, 3, 10, 1, 7] + [0, 0, 0, 0, 0, 0, 0, 5, 10, 1, 7, 16, 1],
                         "0.index" := [0, 0, 0, 0, 0, 0, 0, 0, 0, 0, 0, 0] + [0, 0, 0, 1, 0, 0, 0, 0, 0, 0, 0, 11]]
  {
    hide Log.Valid, Layout.Valid, Layout.Append, RuleOf, Loadable, Concat, RecordFrames, IndexBytes, Entries, Marshal,
         StoreName, IndexName, NamesOf, Starts, Layout.Start;
    var c := Config(0, 0, 0);
    var r := Record([7], 0, 0, 0);
    NothingToLoad(c);
    var dir := new Disk();
    var log := SetupLog(dir, c, Fresh(RuleOf(Defaulted(c)), 0));
    ghost var l := TwoSmallRecords(Defaulted(c), r, r);
    var off := log.Append(r);
    off := log.Append(r);
    assert log.state == l;
    log.Close();
    GoldenNames(l);
    GoldenFiles();
    assert SegmentFiles(dir.files, l.Start(0), l.chunks[0]);
    files := dir.files;
  }
}
