/** internal/log/store.go: an append-only file of frames behind a write buffer. */
module StoreFile {
  import opened Bytes
  import opened Framing

  class Store {
    var file: seq<byte>  // bytes that reached the file
    var buf: seq<byte>   // bytes still held by the buffered writer
    var size: nat
    var at: nat          // the position the open file keeps for itself

    ghost predicate Valid()
      reads this
    {
      size == |file| + |buf| && (at == 0 || at == |file|)
    }

    /** The logical contents: what a reader sees once the buffer is flushed. */
    ghost function Data(): seq<byte>
      reads this
    {
      file + buf
    }

    /** What the open file still delivers from its own position. Positioned reads leave that position alone;
        a write to a file opened for appending moves it to the end. */
    ghost function Unread(): seq<byte>
      requires at <= |file|
      reads this
    {
      file[at..]
    }

    constructor (contents: seq<byte>)
      ensures Valid() && Data() == contents && Unread() == contents
    {
      file, buf, size, at := contents, [], |contents|, 0;
    }

    /** The buffered writer: it keeps the bytes in order and hands any prefix it likes to the file. */
    method WriteBuffered(p: seq<byte>)
      requires at == 0 || at == |file|
      modifies this`file, this`buf, this`at
      ensures Data() == old(Data()) + p && (at == 0 || at == |file|)
      ensures Unread() == [] || Unread() == old(Unread())
    {
      var pending := buf + p;
      var spill :| 0 <= spill <= |pending|;
      if spill > 0 {
        file, buf := file + pending[..spill], pending[spill..];
        at := |file|;
      } else {
        buf := pending;
      }
    }

    method Flush()
      requires at == 0 || at == |file|
      modifies this`file, this`buf, this`at
      ensures file == old(Data()) && buf == [] && (at == 0 || at == |file|)
      ensures Unread() == if old(buf) == [] then old(Unread()) else []
    {
      if buf != [] {
        file, buf := file + buf, [];
        at := |file|;
      }
    }

    method Append(p: seq<byte>) returns (n: nat, pos: nat)
      requires Valid() && |p| < U64
      modifies this
      ensures Valid() && Data() == old(Data()) + Frame(p)
      ensures pos == |old(Data())| == old(size) && n == LEN_WIDTH + |p|
      ensures Unread() == [] || Unread() == old(Unread())
    {
      pos := size;
      WriteBuffered(BigEndian(|p|, LEN_WIDTH));
      WriteBuffered(p);
      n := |p| + LEN_WIDTH;
      size := size + n;
      assert Data() == old(Data()) + Frame(p);
    }

    method Read(pos: nat) returns (r: Result<seq<byte>>)
      requires Valid()
      modifies this
      ensures Valid() && Data() == old(Data())
      ensures r == ReadFrame(Data(), pos)
      ensures Unread() == if old(buf) == [] then old(Unread()) else []
    {
      Flush();
      if pos + LEN_WIDTH > |file| {
        return Err(EOF);
      }
      var n := FromBigEndian(file[pos..pos + LEN_WIDTH]);
      if pos + LEN_WIDTH + n > |file| {
        return Err(EOF);
      }
      return Ok(file[pos + LEN_WIDTH..pos + LEN_WIDTH + n]);
    }

    /** Up to `want` bytes from `off`; end of file is reported when fewer were available. */
    method ReadAt(want: nat, off: nat) returns (bytes: seq<byte>, eof: bool)
      requires Valid()
      modifies this
      ensures Valid() && Data() == old(Data())
      ensures eof == (want > 0 && |Data()| < off + want)
      ensures bytes == if off > |Data()| then [] else Data()[off..if eof then |Data()| else off + want]
      ensures Unread() == if old(buf) == [] then old(Unread()) else []
    {
      Flush();
      eof := want > 0 && |file| < off + want;
      bytes := if off > |file| then [] else file[off..if eof then |file| else off + want];
    }

    /** What io.Copy makes of an os.File since Go 1.22: everything from the file's own position on. The buffer
        is neither flushed nor consulted. */
    method CopyOut() returns (bytes: seq<byte>)
      requires Valid()
      modifies this`at
      ensures Valid() && bytes == old(Unread()) && Unread() == []
    {
      bytes := file[at..];
      at := |file|;
    }

    /** Persists the buffered bytes; the returned bytes are what the closed file holds. */
    method Close() returns (contents: seq<byte>)
      requires Valid()
      modifies this
      ensures Valid() && Data() == old(Data()) && contents == Data()
      ensures Unread() == if old(buf) == [] then old(Unread()) else []
    {
      Flush();
      contents := file;
    }
  }
}
