/** The data directory: file names, their printing and parsing, and the closed files' bytes. */
module Disks {
  import opened Bytes

  // ----- decimal numbers -----

  function Digit(d: nat): char
    requires d < 10
  {
    '0' + d as char
  }

  function Decimal(n: nat): (s: string)
    ensures |s| > 0
  {
    if n < 10 then [Digit(n)] else Decimal(n / 10) + [Digit(n % 10)]
  }

  /** The number a string of digits denotes; None when some character is not a digit. */
  function DigitsValue(s: string): Option<nat> {
    if s == [] then Some(0)
    else
      var c := s[|s| - 1];
      match DigitsValue(s[..|s| - 1])
      case None => None
      case Some(hi) => if '0' <= c <= '9' then Some(10 * hi + (c - '0') as nat) else None
  }

  /** strconv.ParseUint in base 10 with its error dropped: 0 for bad syntax, the largest value on overflow. */
  function ParseUint(s: string): u64 {
    if s == [] then 0
    else
      match DigitsValue(s)
      case None => 0
      case Some(n) => if n < U64 then n else U64 - 1
  }

  lemma {:induction false} DecimalValue(n: nat)
    ensures DigitsValue(Decimal(n)) == Some(n)
  {
    if n < 10 {
      assert Decimal(n)[..0] == [];
    } else {
      DecimalValue(n / 10);
      assert Decimal(n)[..|Decimal(n)| - 1] == Decimal(n / 10);
    }
  }

  /** Digits only, and none before the first that counts. */
  lemma {:induction false} DecimalForm(n: nat)
    ensures forall i | 0 <= i < |Decimal(n)| :: '0' <= Decimal(n)[i] <= '9'
    ensures n >= 10 ==> Decimal(n)[0] != '0'
    ensures n < 10 ==> Decimal(n) == [Digit(n)] && (Decimal(n)[0] == '0' <==> n == 0)
  {
    if n >= 10 {
      DecimalForm(n / 10);
      assert Decimal(n)[0] == Decimal(n / 10)[0];
    }
  }

  // ----- extensions -----

  /** Where the extension starts: the last dot, or the end when there is none. */
  function ExtStart(s: string): (k: nat)
    ensures k <= |s|
  {
    if '.' !in s then |s|
    else if s[|s| - 1] == '.' then |s| - 1
    else ExtStart(s[..|s| - 1])
  }

  function TrimExt(s: string): string {
    s[..ExtStart(s)]
  }

  lemma {:induction false} ExtStartAtDot(a: string, b: string)
    requires '.' !in b
    ensures ExtStart(a + "." + b) == |a|
  {
    var s := a + "." + b;
    assert s[|a|] == '.';
    if b == [] {
      assert s == a + ".";
    } else {
      ExtStartAtDot(a, b[..|b| - 1]);
      assert s[|s| - 1] == b[|b| - 1];
      assert b[|b| - 1] in b;
      assert s[..|s| - 1] == a + "." + b[..|b| - 1];
    }
  }

  function StoreName(base: nat): string {
    Decimal(base) + "." + "store"
  }

  function IndexName(base: nat): string {
    Decimal(base) + "." + "index"
  }

  /** The base offset setup recovers from a directory entry. */
  function NameOffset(name: string): u64 {
    ParseUint(TrimExt(name))
  }

  /** Both file names of a segment parse back to its base offset. */
  lemma NamesParse(base: u64)
    ensures NameOffset(StoreName(base)) == base
    ensures NameOffset(IndexName(base)) == base
    ensures StoreName(base) != IndexName(base)
  {
    DecimalValue(base);
    ExtStartAtDot(Decimal(base), "store");
    ExtStartAtDot(Decimal(base), "index");
    assert TrimExt(StoreName(base)) == Decimal(base);
    assert TrimExt(IndexName(base)) == Decimal(base);
    assert StoreName(base)[|StoreName(base)| - 1] == 'e';
    assert IndexName(base)[|IndexName(base)| - 1] == 'x';
  }

  lemma DecimalExamples()
    ensures Decimal(0) == "0" && Decimal(16) == "16"
  {
    assert Digit(1) == '1' && Digit(6) == '6';
  }

  /** How the names are spelled: the base in decimal without leading zeroes, a dot, and the kind of file. */
  lemma NamesSpelled(base: nat)
    ensures StoreName(base) == Decimal(base) + ".store" && IndexName(base) == Decimal(base) + ".index"
    ensures DigitsValue(Decimal(base)) == Some(base)
    ensures forall i | 0 <= i < |Decimal(base)| :: '0' <= Decimal(base)[i] <= '9'
    ensures base > 0 ==> Decimal(base)[0] != '0'
  {
    hide Decimal, DigitsValue;
    DecimalValue(base);
    DecimalForm(base);
    assert "." + "store" == ".store" && "." + "index" == ".index";
    assert Decimal(base) + "." + "store" == Decimal(base) + ("." + "store");
    assert Decimal(base) + "." + "index" == Decimal(base) + ("." + "index");
  }

  /** Distinct segments have four distinct file names. */
  lemma NamesDistinct(a: u64, b: u64)
    requires a != b
    ensures StoreName(a) != StoreName(b) && IndexName(a) != IndexName(b)
    ensures StoreName(a) != IndexName(b)
  {
    NamesParse(a);
    NamesParse(b);
  }

  // ----- the directory -----

  class Disk {
    var present: bool
    var files: map<string, seq<byte>>

    constructor ()
      ensures present && files == map[]
    {
      present, files := true, map[];
    }

    /** os.OpenFile with O_CREATE: an existing file keeps its bytes, a missing one starts empty. */
    method OpenOrCreate(name: string) returns (contents: seq<byte>)
      modifies this`files
      ensures contents == (if name in old(files) then old(files)[name] else [])
      ensures files == old(files)[name := contents]
    {
      if name !in files {
        files := files[name := []];
      }
      contents := files[name];
    }

    method Put(name: string, contents: seq<byte>)
      modifies this`files
      ensures files == old(files)[name := contents]
    {
      files := files[name := contents];
    }

    method Delete(name: string)
      modifies this`files
      ensures files == old(files) - {name}
    {
      files := files - {name};
    }

    method RemoveAll()
      modifies this
      ensures !present && files == map[]
    {
      present, files := false, map[];
    }

    /** os.MkdirAll: an existing directory keeps its files. */
    method MakeAll()
      modifies this
      ensures present && files == if old(present) then old(files) else map[]
    {
      if !present {
        present, files := true, map[];
      }
    }

    /** os.ReadDir: every name once, or an error when the directory is missing. */
    method ReadDir() returns (r: Result<seq<string>>)
      ensures !present ==> r == Err(NotExist)
      ensures present ==> r.Ok? && multiset(r.value) == multiset(files.Keys)
    {
      if !present {
        return Err(NotExist);
      }
      var names: seq<string>, rest := [], files.Keys;
      while rest != {}
        invariant multiset(names) + multiset(rest) == multiset(files.Keys)
        decreases |rest|
      {
        var n :| n in rest;
        names, rest := names + [n], rest - {n};
      }
      return Ok(names);
    }
  }
}
