/** The `ls` program: a client that reads the directory name by name until nothing comes. */
module Ls {
  import opened Bytes
  import opened FileImage
  import opened Names
  import opened Files
  import opened Descriptors

  /** "." and "directory open failed\n" */
  const DOT: seq<byte> := [46]
  const OPEN_FAILED: seq<byte> := [100, 105, 114, 101, 99, 116, 111, 114, 121, 32, 111, 112, 101, 110, 32, 102, 97, 105, 108, 101, 100, 10]

  /** One name a line; an empty name ends the listing. */
  function Listing(names: seq<seq<byte>>): seq<byte> {
    if names == [] || names[0] == [] then [] else names[0] + [LINE_FEED] + Listing(names[1..])
  }

  /** The names of the directory from entry `pos` on. */
  function NamesFrom(img: seq<byte>, pos: int): (names: seq<seq<byte>>)
    requires WellFormed(img) && 0 <= pos <= DirCount(img)
    ensures |names| == DirCount(img) - pos && forall k :: 0 <= k < |names| ==> names[k] == Name(img, pos + k)
  {
    seq(DirCount(img) - pos, k requires 0 <= k < DirCount(img) - pos => Name(img, pos + k))
  }

  /** The directory is open on `fd`. */
  predicate Listable(t: seq<Fd>, fd: int) {
    |t| == 8 && 0 <= fd < 8 && t[fd].used && t[fd].ops == DirOps
  }

  /** One read of up to 32 bytes: the whole name at the position, or nothing at the end. */
  method ReadName(p: Process, fd: int, buf: array<byte>, after: seq<byte>) returns (cnt: int)
    requires p.Valid() && Listable(p.fdt[..], fd) && buf.Length == 33 && 64 <= |after|
    modifies p.fdt, buf
    ensures p.Valid() && Listable(p.fdt[..], fd)
    ensures var pos := old(p.fdt[fd].pos);
            && 0 <= pos <= DirCount(p.img)
            && (if pos < DirCount(p.img)
                then 0 <= cnt <= 32 && buf[..cnt] == Name(p.img, pos) && p.fdt[fd].pos == pos + 1
                else cnt == 0 && p.fdt[fd].pos == pos)
  {
    cnt := p.DirRead(fd, buf, 32, after);
  }

  /** `names` are those of the directory from entry `from` on. */
  predicate TheNames(img: seq<byte>, from: nat, names: seq<seq<byte>>)
    requires WellFormed(img)
  {
    from + |names| == DirCount(img) && forall k :: 0 <= k < |names| ==> names[k] == Name(img, from + k)
  }

  /** Where `n` reads from `pos` on lead. */
  function PosAfter(names: seq<seq<byte>>, pos: nat, n: nat): nat {
    if pos + n < |names| then pos + n else |names|
  }

  /** One read more returns one name more of the listing. */
  lemma ListSnoc(names: seq<seq<byte>>, pos: nat, n: nat, name: seq<byte>)
    requires name == NameRead(names, PosAfter(names, pos, n)) && pos <= |names|
    ensures ListDir(names, pos, n) + [name] == ListDir(names, pos, n + 1)
  {
    forall k | 0 <= k < n + 1
      ensures (ListDir(names, pos, n) + [name])[k] == ListDir(names, pos, n + 1)[k]
    {
      DirectoryListed(names, pos, n + 1, k);
      if k < n {
        DirectoryListed(names, pos, n, k);
      }
    }
  }

  lemma ListedNames(img: seq<byte>, names: seq<seq<byte>>, pos: nat, n: nat)
    requires WellFormed(img) && TheNames(img, 0, names)
    ensures names == DirNames(img)
    ensures forall k :: 0 <= k < n ==> ListDir(names, pos, n)[k] == if pos + k < DirCount(img) then Name(img, pos + k) else []
  {
    forall k | 0 <= k < n
      ensures ListDir(names, pos, n)[k] == if pos + k < |names| then names[pos + k] else []
    {
      DirectoryListed(names, pos, n, k);
    }
  }

  method ReadOne(p: Process, fd: int, buf: array<byte>, after: seq<byte>, ghost names: seq<seq<byte>>, ghost pos: nat) returns (name: seq<byte>)
    requires p.Valid() && Listable(p.fdt[..], fd) && buf.Length == 33 && 64 <= |after|
    requires TheNames(p.img, 0, names) && p.fdt[fd].pos == pos <= |names|
    modifies p.fdt, buf
    ensures p.Valid() && Listable(p.fdt[..], fd) && p.fdt[fd].pos == NextPos(names, pos) && name == NameRead(names, pos)
  {
    var cnt := ReadName(p, fd, buf, after);
    name := buf[..cnt];
  }

  /** `n` reads of 32 bytes in a row return the names from the position on, in order, and then nothing. */
  method ReadNames(p: Process, fd: int, n: nat, after: seq<byte>, ghost pos: nat) returns (read: seq<seq<byte>>)
    requires p.Valid() && Listable(p.fdt[..], fd) && 64 <= |after| && p.fdt[fd].pos == pos <= DirCount(p.img)
    modifies p.fdt
    ensures p.Valid() && |read| == n
    ensures forall k :: 0 <= k < n ==> read[k] == if pos + k < DirCount(p.img) then Name(p.img, pos + k) else []
    ensures read == ListDir(DirNames(p.img), pos, n)
  {
    ghost var names := NamesFrom(p.img, 0);
    read := ReadUp(p, fd, n, after, names, pos);
    ListedNames(p.img, names, pos, n);
  }

  method ReadUp(p: Process, fd: int, n: nat, after: seq<byte>, ghost names: seq<seq<byte>>, ghost pos: nat) returns (read: seq<seq<byte>>)
    requires p.Valid() && Listable(p.fdt[..], fd) && 64 <= |after|
    requires TheNames(p.img, 0, names) && p.fdt[fd].pos == pos <= |names|
    modifies p.fdt
    ensures p.Valid() && read == ListDir(names, pos, n)
  {
    var buf := new byte[33](_ => NUL);
    read := [];
    var i := 0;
    while i < n
      invariant p.Valid() && Listable(p.fdt[..], fd) && fresh(buf) && buf.Length == 33
      invariant 0 <= i <= n && p.fdt[fd].pos == PosAfter(names, pos, i) && read == ListDir(names, pos, i)
    {
      var name := ReadOne(p, fd, buf, after, names, PosAfter(names, pos, i));
      ListSnoc(names, pos, i, name);
      read := read + [name];
      i := i + 1;
    }
  }

  lemma DirectoryOpened(img: seq<byte>, t: seq<Fd>, name: seq<byte>, u: seq<Fd>, fd: int)
    requires Sane(img, t) && TypeNamed(img, name) in {DIR_TYPE, -1} && (u, fd) == Open(img, t, name) && fd != -1
    ensures Listable(u, fd) && 0 <= u[fd].pos <= DirCount(img)
  {
    OpenSane(img, t, name);
    assert PositionFine(img, u[fd]);
  }

  /** Runs `ls`; `out` is what it writes. */
  method RunLs(p: Process, after: seq<byte>) returns (status: int, out: seq<byte>)
    requires p.Valid() && TypeNamed(p.img, DOT) in {DIR_TYPE, -1} && 64 <= |after|
    modifies p.fdt
    ensures p.Valid()
    ensures var (t, fd) := Open(p.img, old(p.fdt[..]), DOT);
            if fd == -1 then status == 2 && out == OPEN_FAILED
            else
              && 0 <= fd < 8 && |t| == 8 && 0 <= t[fd].pos <= DirCount(p.img)
              && status == 0 && out == Listing(NamesFrom(p.img, t[fd].pos))
  {
    ghost var before := p.fdt[..];
    var fd := p.SystemOpen(DOT);
    if fd == -1 { return 2, OPEN_FAILED; }
    DirectoryOpened(p.img, before, DOT, p.fdt[..], fd);
    out := ListAll(p, fd, after);
    status := 0;
  }

  /** With `out` written before name `k`, going on makes the whole. */
  predicate SoFar(names: seq<seq<byte>>, k: nat, out: seq<byte>, whole: seq<byte>)
    requires k <= |names|
    decreases |names| - k
  {
    if k == |names| || names[k] == [] then out == whole else SoFar(names, k + 1, out + (names[k] + [LINE_FEED]), whole)
  }

  lemma NextLine(names: seq<seq<byte>>, name: seq<byte>, out: seq<byte>, longer: seq<byte>, whole: seq<byte>)
    requires names != [] && names[0] == name != [] && longer == out + (name + [LINE_FEED]) && whole == out + Listing(names)
    ensures whole == longer + Listing(names[1..])
  {
  }

  lemma {:induction false} NothingYet(names: seq<seq<byte>>, k: nat, out: seq<byte>, whole: seq<byte>)
    requires k <= |names| && whole == out + Listing(names[k..])
    ensures SoFar(names, k, out, whole)
    decreases |names| - k
  {
    if k < |names| && names[k] != [] {
      var longer := out + (names[k] + [LINE_FEED]);
      NextLine(names[k..], names[k], out, longer, whole);
      assert names[k..][1..] == names[k + 1..];
      NothingYet(names, k + 1, longer, whole);
    }
  }

  method ListAll(p: Process, fd: int, after: seq<byte>) returns (out: seq<byte>)
    requires p.Valid() && Listable(p.fdt[..], fd) && 64 <= |after| && 0 <= p.fdt[fd].pos <= DirCount(p.img)
    modifies p.fdt
    ensures p.Valid()
    ensures out == Listing(NamesFrom(p.img, old(p.fdt[fd].pos)))
  {
    ghost var names := NamesFrom(p.img, p.fdt[fd].pos);
    NothingYet(names, 0, [], Listing(names));
    out := ListUp(p, fd, after, names, p.fdt[fd].pos, Listing(names));
  }

  /** The loop. */
  method ListUp(p: Process, fd: int, after: seq<byte>, ghost names: seq<seq<byte>>, ghost from: nat, ghost whole: seq<byte>)
    returns (out: seq<byte>)
    requires p.Valid() && Listable(p.fdt[..], fd) && 64 <= |after| && p.fdt[fd].pos == from
    requires TheNames(p.img, from, names) && SoFar(names, 0, [], whole)
    modifies p.fdt
    ensures p.Valid() && out == whole
  {
    ghost var k := 0;
    var buf := new byte[33](_ => NUL);
    out := [];
    while true
      invariant p.Valid() && Listable(p.fdt[..], fd) && fresh(buf) && buf.Length == 33
      invariant 0 <= k <= |names| && p.fdt[fd].pos == from + k && SoFar(names, k, out, whole)
      decreases |names| - k
    {
      var cnt, line := ReadLine(p, fd, buf, after, names, from, k);
      if cnt == 0 { break; }
      out, k := out + line, k + 1;
    }
  }

  /** A read, and the name with a line feed behind it. */
  method ReadLine(p: Process, fd: int, buf: array<byte>, after: seq<byte>, ghost names: seq<seq<byte>>, ghost from: nat, ghost k: nat)
    returns (cnt: int, line: seq<byte>)
    requires p.Valid() && Listable(p.fdt[..], fd) && buf.Length == 33 && 64 <= |after|
    requires TheNames(p.img, from, names) && k <= |names| && p.fdt[fd].pos == from + k
    modifies p.fdt, buf
    ensures p.Valid() && Listable(p.fdt[..], fd)
    ensures cnt == 0 <==> k == |names| || names[k] == []
    ensures cnt != 0 ==> line == names[k] + [LINE_FEED] && p.fdt[fd].pos == from + k + 1
  {
    cnt := ReadName(p, fd, buf, after);
    line := [];
    if cnt > 0 {
      ghost var name := buf[..cnt];
      buf[cnt] := LINE_FEED;
      assert buf[..cnt + 1] == name + [LINE_FEED];
      line := buf[..cnt + 1];
    }
  }
}
