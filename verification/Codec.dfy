/** The protobuf wire form of the two messages the log stores: Record and ProduceRequest. */
module Codec {
  import opened Bytes

  /** A log entry. On the wire the value is field 1, the offset field 2, the Raft term field 3 and the Raft
      entry type field 4. */
  datatype Record = Record(value: seq<byte>, offset: u64, term: u64, kind: u32)

  const EMPTY_RECORD: Record := Record([], 0, 0, 0)

  /** A Go slice length is an int, so every value a process can hold is far below 2^62 bytes. */
  const MAX_VALUE: int := 0x4000_0000_0000_0000

  predicate Storable(r: Record) {
    |r.value| < MAX_VALUE
  }

  // ----- varints -----

  function Varint(n: nat): (s: seq<byte>)
    ensures |s| > 0
  {
    if n < 128 then [n] else [n % 128 + 128] + Varint(n / 128)
  }

  function Pow128(w: nat): nat {
    if w == 0 then 1 else 128 * Pow128(w - 1)
  }

  /** Reads a varint of at most w bytes; yields the value and the bytes after it. */
  function TakeVarint(s: seq<byte>, w: nat): (r: Option<(nat, seq<byte>)>)
    ensures r.Some? ==> |r.value.1| < |s|
  {
    if w == 0 || s == [] then None
    else if s[0] < 128 then Some((s[0], s[1..]))
    else
      match TakeVarint(s[1..], w - 1)
      case None => None
      case Some((hi, rest)) => Some((hi * 128 + (s[0] - 128), rest))
  }

  /** A 64-bit varint: at most ten bytes, and an overflowing value is refused. */
  function ReadVarint(s: seq<byte>): (r: Option<(nat, seq<byte>)>)
    ensures r.Some? ==> |r.value.1| < |s| && r.value.0 < U64
  {
    match TakeVarint(s, 10)
    case None => None
    case Some((n, rest)) => if n < U64 then Some((n, rest)) else None
  }

  lemma {:induction false} TakeVarintRoundTrip(n: nat, w: nat, rest: seq<byte>)
    requires w > 0 && n < Pow128(w)
    ensures TakeVarint(Varint(n) + rest, w) == Some((n, rest))
    ensures |Varint(n)| <= w
  {
    var s := Varint(n) + rest;
    if n < 128 {
      assert s[1..] == rest;
    } else {
      assert n / 128 < Pow128(w - 1);
      TakeVarintRoundTrip(n / 128, w - 1, rest);
      assert s[1..] == Varint(n / 128) + rest;
    }
  }

  lemma VarintRoundTrip(n: nat, rest: seq<byte>)
    requires n < U64
    ensures ReadVarint(Varint(n) + rest) == Some((n, rest))
    ensures |Varint(n)| <= 10
  {
    assert Pow128(2) == 0x4000;
    assert Pow128(4) == 0x4000 * Pow128(2);
    assert Pow128(6) == 0x4000 * Pow128(4);
    assert Pow128(8) == 0x4000 * Pow128(6);
    assert Pow128(10) == 0x4000 * Pow128(8);
    TakeVarintRoundTrip(n, 10, rest);
  }

  /** What a string of 7-bit groups denotes, least significant group first. */
  function Groups(s: seq<byte>): nat {
    if s == [] then 0 else s[0] % 128 + 128 * Groups(s[1..])
  }

  /** How many 7-bit groups it takes to write n. */
  function GroupCount(n: nat): (k: nat)
    ensures k > 0 && n < Pow128(k)
    ensures k > 1 ==> Pow128(k - 1) <= n
  {
    if n < 128 then (assert Pow128(1) == 128; 1) else 1 + GroupCount(n / 128)
  }

  /** The varint of n is the shortest string of groups that denotes n: the top bit is set on all but the last
      byte. */
  lemma {:induction false} VarintForm(n: nat)
    ensures Groups(Varint(n)) == n && |Varint(n)| == GroupCount(n)
    ensures forall i | 0 <= i < |Varint(n)| :: Varint(n)[i] >= 128 <==> i < |Varint(n)| - 1
  {
    if n >= 128 {
      VarintForm(n / 128);
      assert Varint(n)[1..] == Varint(n / 128);
    } else {
      assert Varint(n)[1..] == [];
    }
  }

  // ----- fields -----

  datatype Payload = Number(n: u64) | Chunk(bytes: seq<byte>) | Fixed(bytes: seq<byte>)
  datatype Field = Field(num: nat, payload: Payload)

  /** Splits off the first field. Group wire types (3 and 4) and field number 0 are malformed. */
  function ReadField(s: seq<byte>): (r: Option<(Field, seq<byte>)>)
    ensures r.Some? ==> |r.value.1| < |s|
    ensures r.Some? && r.value.0.payload.Chunk? ==> |r.value.0.payload.bytes| <= |s|
  {
    match ReadVarint(s)
    case None => None
    case Some((tag, t)) =>
      var num := tag / 8;
      if num == 0 then None
      else
        match tag % 8
        case 0 => (match ReadVarint(t)
                   case None => None
                   case Some((n, rest)) => Some((Field(num, Number(n)), rest)))
        case 2 => (match ReadVarint(t)
                   case None => None
                   case Some((n, u)) =>
                     if n > |u| then None else Some((Field(num, Chunk(u[..n])), u[n..])))
        case 1 => if |t| < 8 then None else Some((Field(num, Fixed(t[..8])), t[8..]))
        case 5 => if |t| < 4 then None else Some((Field(num, Fixed(t[..4])), t[4..]))
        case _ => None
  }

  function NumberField(num: nat, n: nat): seq<byte>
    requires 0 < num < 16
  {
    [8 * num] + Varint(n)
  }

  function ChunkField(num: nat, bytes: seq<byte>): seq<byte>
    requires 0 < num < 16
  {
    [8 * num + 2] + Varint(|bytes|) + bytes
  }

  lemma ReadTag(tag: nat, rest: seq<byte>)
    requires tag < 128
    ensures ReadVarint([tag] + rest) == Some((tag, rest))
  {
    assert ([tag] + rest)[1..] == rest;
  }

  lemma ReadNumberField(num: nat, n: nat, rest: seq<byte>)
    requires 0 < num < 16 && n < U64
    ensures ReadField(NumberField(num, n) + rest) == Some((Field(num, Number(n)), rest))
    ensures |NumberField(num, n)| <= 11
  {
    assert NumberField(num, n) + rest == [8 * num] + (Varint(n) + rest);
    ReadTag(8 * num, Varint(n) + rest);
    VarintRoundTrip(n, rest);
  }

  lemma ReadChunkField(num: nat, bytes: seq<byte>, rest: seq<byte>)
    requires 0 < num < 16 && |bytes| < U64
    ensures ReadField(ChunkField(num, bytes) + rest) == Some((Field(num, Chunk(bytes)), rest))
    ensures |ChunkField(num, bytes)| <= 11 + |bytes|
  {
    var body := bytes + rest;
    assert ChunkField(num, bytes) + rest == [8 * num + 2] + (Varint(|bytes|) + body);
    ReadTag(8 * num + 2, Varint(|bytes|) + body);
    VarintRoundTrip(|bytes|, body);
    assert body[..|bytes|] == bytes && body[|bytes|..] == rest;
  }

  // ----- Record -----

  /** proto3 omits a field that holds its default value. */
  function OptNumber(num: nat, n: nat): seq<byte>
    requires 0 < num < 16
  {
    if n == 0 then [] else NumberField(num, n)
  }

  function OptChunk(num: nat, bytes: seq<byte>): seq<byte>
    requires 0 < num < 16
  {
    if bytes == [] then [] else ChunkField(num, bytes)
  }

  function Marshal(r: Record): seq<byte> {
    OptChunk(1, r.value)
    + (OptNumber(2, r.offset) + (OptNumber(3, r.term) + OptNumber(4, r.kind)))
  }

  /** One field merged into a record; unknown numbers and wrong wire types are skipped. */
  function MergeField(r: Record, f: Field): Record {
    match f
    case Field(1, Chunk(b)) => r.(value := b)
    case Field(2, Number(n)) => r.(offset := n)
    case Field(3, Number(n)) => r.(term := n)
    case Field(4, Number(n)) => r.(kind := n % U32)
    case _ => r
  }

  function Merge(r: Record, s: seq<byte>): (out: Option<Record>)
    ensures out.Some? && |r.value| <= |s| ==> |out.value.value| <= |s|
    ensures out.Some? ==> |out.value.value| <= |r.value| || |out.value.value| <= |s|
    decreases |s|
  {
    if s == [] then Some(r)
    else
      match ReadField(s)
      case None => None
      case Some((f, rest)) => Merge(MergeField(r, f), rest)
  }

  function Unmarshal(s: seq<byte>): (r: Result<Record>)
    ensures r.Ok? ==> |r.value.value| <= |s|
  {
    match Merge(EMPTY_RECORD, s)
    case None => Err(BadMessage)
    case Some(r) => Ok(r)
  }

  /** Decoding an optional number sets its field, and leaves it alone when the encoder left a zero out. */
  lemma MergeNumber(r: Record, num: nat, n: nat, rest: seq<byte>)
    requires 2 <= num <= 4 && n < U64
    ensures Merge(r, OptNumber(num, n) + rest)
            == Merge(if n == 0 then r else MergeField(r, Field(num, Number(n))), rest)
    ensures |OptNumber(num, n)| <= 11
  {
    if n == 0 {
      assert OptNumber(num, n) + rest == rest;
    } else {
      ReadNumberField(num, n, rest);
    }
  }

  lemma MergeValue(r: Record, value: seq<byte>, rest: seq<byte>)
    requires |value| < MAX_VALUE
    ensures Merge(r, OptChunk(1, value) + rest) == Merge(if value == [] then r else r.(value := value), rest)
    ensures |OptChunk(1, value)| <= |value| + 11
  {
    if value == [] {
      assert OptChunk(1, value) + rest == rest;
    } else {
      ReadChunkField(1, value, rest);
    }
  }

  /** A record with the non-default fields of another put over it. */
  function Overlay(under: Record, over: Record): Record {
    Record(if over.value == [] then under.value else over.value,
           if over.offset == 0 then under.offset else over.offset,
           if over.term == 0 then under.term else over.term,
           if over.kind == 0 then under.kind else over.kind)
  }

  lemma MergeNumbers(r: Record, m: Record, rest: seq<byte>)
    ensures Merge(r, OptNumber(2, m.offset) + (OptNumber(3, m.term) + (OptNumber(4, m.kind) + rest)))
            == Merge(Overlay(r, m.(value := [])), rest)
    ensures |OptNumber(2, m.offset) + (OptNumber(3, m.term) + OptNumber(4, m.kind))| <= 33
  {
    hide Merge, OptNumber;
    var r2 := if m.offset == 0 then r else r.(offset := m.offset);
    var r3 := if m.term == 0 then r2 else r2.(term := m.term);
    MergeNumber(r, 2, m.offset, OptNumber(3, m.term) + (OptNumber(4, m.kind) + rest));
    MergeNumber(r2, 3, m.term, OptNumber(4, m.kind) + rest);
    MergeNumber(r3, 4, m.kind, rest);
  }

  /** Reading an encoded record over another replaces exactly the fields it was not encoded without. */
  lemma MergeMarshal(r: Record, m: Record, rest: seq<byte>)
    requires Storable(m)
    ensures Merge(r, Marshal(m) + rest) == Merge(Overlay(r, m), rest)
    ensures |Marshal(m)| <= |m.value| + 44
  {
    hide Merge, OptNumber, OptChunk;
    var a, b, c := OptNumber(2, m.offset), OptNumber(3, m.term), OptNumber(4, m.kind);
    assert Marshal(m) + rest == OptChunk(1, m.value) + (a + (b + (c + rest)));
    MergeValue(r, m.value, a + (b + (c + rest)));
    MergeNumbers(if m.value == [] then r else r.(value := m.value), m, rest);
  }

  /** Every record, at every field value, survives the wire; its encoding stays small. */
  lemma MarshalRoundTrip(r: Record)
    requires Storable(r)
    ensures Unmarshal(Marshal(r)) == Ok(r)
    ensures |Marshal(r)| <= |r.value| + 44
  {
    hide Marshal;
    MergeMarshal(EMPTY_RECORD, r, []);
    assert Marshal(r) + [] == Marshal(r);
  }

  /** Two encodings in a row decode to the first with the second put over it, as the format promises. */
  lemma ConcatenationMerges(a: Record, b: Record)
    requires Storable(a) && Storable(b)
    ensures Unmarshal(Marshal(a) + Marshal(b)) == Ok(Overlay(a, b))
  {
    hide Marshal;
    MergeMarshal(EMPTY_RECORD, a, Marshal(b));
    MergeMarshal(a, b, []);
    assert Marshal(b) + [] == Marshal(b);
  }

  /** A number field the message does not have is skipped. */
  lemma UnknownSkipped(a: Record, num: nat, n: u64)
    requires Storable(a) && 4 < num < 16
    ensures Unmarshal(Marshal(a) + NumberField(num, n)) == Ok(a)
  {
    hide Marshal, NumberField;
    MergeMarshal(EMPTY_RECORD, a, NumberField(num, n));
    ReadNumberField(num, n, []);
    assert NumberField(num, n) + [] == NumberField(num, n);
    assert Overlay(EMPTY_RECORD, a) == a;
    OneField(a, NumberField(num, n), Field(num, Number(n)));
  }

  lemma OneField(r: Record, s: seq<byte>, f: Field)
    requires s != [] && ReadField(s) == Some((f, []))
    ensures Merge(r, s) == Some(MergeField(r, f))
  {
    hide ReadField;
    assert Merge(MergeField(r, f), []) == Some(MergeField(r, f));
  }

  // ----- what is refused -----

  lemma {:induction false} VarintCut(n: nat, k: nat, w: nat)
    requires k < |Varint(n)|
    ensures TakeVarint(Varint(n)[..k], w) == None
    decreases n
  {
    if k > 0 && w > 0 {
      assert Varint(n)[..k][1..] == Varint(n / 128)[..k - 1];
      VarintCut(n / 128, k - 1, w - 1);
    }
  }

  /** A field cut short anywhere is not a message. */
  lemma FieldCut(num: nat, bytes: seq<byte>, n: u64, k: nat)
    requires 0 < num < 16 && |bytes| < MAX_VALUE && k > 0
    ensures k < |ChunkField(num, bytes)| ==> Unmarshal(ChunkField(num, bytes)[..k]) == Err(BadMessage)
    ensures k < |NumberField(num, n)| ==> Unmarshal(NumberField(num, n)[..k]) == Err(BadMessage)
  {
    hide Varint, TakeVarint;
    if k < |ChunkField(num, bytes)| {
      ChunkCut(num, bytes, k);
      NotAField(ChunkField(num, bytes)[..k]);
    }
    if k < |NumberField(num, n)| {
      assert NumberField(num, n)[..k] == [8 * num] + Varint(n)[..k - 1];
      ReadTag(8 * num, Varint(n)[..k - 1]);
      VarintCut(n, k - 1, 10);
      NotAField(NumberField(num, n)[..k]);
    }
  }

  lemma ChunkCut(num: nat, bytes: seq<byte>, k: nat)
    requires 0 < num < 16 && |bytes| < MAX_VALUE && 0 < k < |ChunkField(num, bytes)|
    ensures ReadField(ChunkField(num, bytes)[..k]) == None
  {
    hide Varint, TakeVarint;
    var v := Varint(|bytes|);
    assert ChunkField(num, bytes)[..k] == [8 * num + 2] + (v + bytes)[..k - 1];
    ReadTag(8 * num + 2, (v + bytes)[..k - 1]);
    if k - 1 < |v| {
      assert (v + bytes)[..k - 1] == v[..k - 1];
      VarintCut(|bytes|, k - 1, 10);
    } else {
      assert (v + bytes)[..k - 1] == v + bytes[..k - 1 - |v|];
      VarintRoundTrip(|bytes|, bytes[..k - 1 - |v|]);
    }
  }

  lemma NotAField(s: seq<byte>)
    requires s != [] && ReadField(s) == None
    ensures Unmarshal(s) == Err(BadMessage)
  {
  }

  /** Field number 0, the two wire types that do not exist and a group's end without its start are malformed, and so
      is a varint of more than 64 bits. */
  lemma BadTags(tag: byte, rest: seq<byte>)
    requires tag < 128
    ensures tag / 8 == 0 || tag % 8 == 4 || tag % 8 > 5 ==> Unmarshal([tag] + rest) == Err(BadMessage)
    ensures Unmarshal([255, 255, 255, 255, 255, 255, 255, 255, 255, 255] + rest) == Err(BadMessage)
  {
    ReadTag(tag, rest);
    if tag / 8 == 0 || tag % 8 == 4 || tag % 8 > 5 {
      NotAField([tag] + rest);
    }
    var long := [255, 255, 255, 255, 255, 255, 255, 255, 255, 255] + rest;
    TooLong(long, 10);
    NotAField(long);
  }

  lemma {:induction false} TooLong(s: seq<byte>, w: nat)
    requires w <= |s| && forall i | 0 <= i < w :: s[i] >= 128
    ensures TakeVarint(s, w) == None
    decreases w
  {
    if w > 0 {
      TooLong(s[1..], w - 1);
    }
  }

  /** The exact size of an encoded record: a field at its default takes no room at all. Frame sizes, and with
      them the rollover of segments, follow from it. */
  lemma MarshalSize(r: Record)
    ensures |Marshal(r)| == (if r.value == [] then 0 else 1 + GroupCount(|r.value|) + |r.value|)
                            + (if r.offset == 0 then 0 else 1 + GroupCount(r.offset))
                            + (if r.term == 0 then 0 else 1 + GroupCount(r.term))
                            + (if r.kind == 0 then 0 else 1 + GroupCount(r.kind))
  {
    hide Varint, GroupCount;
    VarintForm(|r.value|);
    VarintForm(r.offset);
    VarintForm(r.term);
    VarintForm(r.kind);
  }

  // ----- ProduceRequest -----

  /** ProduceRequest has one field, the embedded record; a present record is always written. */
  function MarshalRequest(r: Record): seq<byte> {
    ChunkField(1, Marshal(r))
  }

  function MergeRequest(acc: Option<Record>, s: seq<byte>): (out: Option<Option<Record>>)
    ensures out.Some? && out.value.Some? ==>
              (acc.Some? && |out.value.value.value| <= |acc.value.value|) || |out.value.value.value| <= |s|
    decreases |s|
  {
    if s == [] then Some(acc)
    else
      match ReadField(s)
      case None => None
      case Some((Field(1, Chunk(b)), rest)) =>
        (match Merge(if acc.Some? then acc.value else EMPTY_RECORD, b)
         case None => None
         case Some(r) => MergeRequest(Some(r), rest))
      case Some((_, rest)) => MergeRequest(acc, rest)
  }

  /** The record carried by an encoded request; None when the request carries none. */
  function UnmarshalRequest(s: seq<byte>): (r: Result<Option<Record>>)
    ensures r.Ok? && r.value.Some? ==> |r.value.value.value| <= |s|
  {
    match MergeRequest(None, s)
    case None => Err(BadMessage)
    case Some(r) => Ok(r)
  }

  lemma RequestRoundTrip(r: Record)
    requires Storable(r)
    ensures UnmarshalRequest(MarshalRequest(r)) == Ok(Some(r))
    ensures |MarshalRequest(r)| <= |r.value| + 55
  {
    MarshalRoundTrip(r);
    ReadChunkField(1, Marshal(r), []);
    assert ChunkField(1, Marshal(r)) + [] == MarshalRequest(r);
    assert MergeRequest(Some(r), []) == Some(Some(r));
  }

  /** A repeated record field is merged into the one before, and an empty request carries none. */
  lemma RequestsMerge(a: Record, b: Record)
    requires Storable(a) && Storable(b)
    ensures UnmarshalRequest(MarshalRequest(a) + MarshalRequest(b)) == Ok(Some(Overlay(a, b)))
    ensures UnmarshalRequest([]) == Ok(None)
  {
    hide Marshal, Merge, ChunkField;
    MergeMarshal(EMPTY_RECORD, a, []);
    MergeMarshal(a, b, []);
    assert Marshal(a) + [] == Marshal(a) && Marshal(b) + [] == Marshal(b);
    assert Overlay(EMPTY_RECORD, a) == a;
    NothingMore(a);
    NothingMore(Overlay(a, b));
    MarshalRoundTrip(a);
    MarshalRoundTrip(b);
    ReadChunkField(1, Marshal(a), MarshalRequest(b));
    ReadChunkField(1, Marshal(b), []);
    assert MarshalRequest(b) + [] == MarshalRequest(b);
    assert MergeRequest(Some(Overlay(a, b)), []) == Some(Some(Overlay(a, b)));
    OneRequestField(Some(a), MarshalRequest(b), Marshal(b), []);
    OneRequestField(None, MarshalRequest(a) + MarshalRequest(b), Marshal(a), MarshalRequest(b));
  }

  lemma NothingMore(r: Record)
    ensures Merge(r, []) == Some(r)
  {
  }

  lemma OneRequestField(acc: Option<Record>, s: seq<byte>, b: seq<byte>, rest: seq<byte>)
    requires s != [] && ReadField(s) == Some((Field(1, Chunk(b)), rest))
    ensures |rest| < |s|
    ensures var m := Merge(if acc.Some? then acc.value else EMPTY_RECORD, b);
            m.Some? ==> MergeRequest(acc, s) == MergeRequest(Some(m.value), rest)
  {
    hide Merge, ReadField;
  }
}
