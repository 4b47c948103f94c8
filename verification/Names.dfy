/**
 Directory lookup and autocompletion over the 63 directory entries of the boot block.  A
 stored name is cut at its first NUL or after 32 bytes.
 */
module Names {
  import opened Bytes
  import opened FileImage

  const ENTRIES := 63

  /** The 32 name bytes of entry `i`. */
  function Raw(img: seq<byte>, i: int): (r: seq<byte>)
    requires 4096 <= |img| && 0 <= i < ENTRIES
    ensures |r| == 32
  {
    img[64 + 64 * i..96 + 64 * i]
  }

  function TypeOf(img: seq<byte>, i: int): int
    requires 4096 <= |img| && 0 <= i < ENTRIES
  {
    Int32At(img, 96 + 64 * i)
  }

  function InodeOf(img: seq<byte>, i: int): int
    requires 4096 <= |img| && 0 <= i < ENTRIES
  {
    Int32At(img, 100 + 64 * i)
  }

  /** Everything before the first NUL. */
  function Cut(s: seq<byte>): (r: seq<byte>)
    ensures |r| <= |s| && r == s[..|r|] && NulFree(r)
    ensures |r| < |s| ==> s[|r|] == NUL
  {
    if s == [] || s[0] == NUL then [] else [s[0]] + Cut(s[1..])
  }

  function Name(img: seq<byte>, i: int): seq<byte>
    requires 4096 <= |img| && 0 <= i < ENTRIES
  {
    Cut(Raw(img, i))
  }

  lemma {:induction false} CutIs(s: seq<byte>, n: nat)
    requires n <= |s| && NulFree(s[..n]) && (n < |s| ==> s[n] == NUL)
    ensures Cut(s) == s[..n]
  {
    if n > 0 {
      assert s[0] == s[..n][0];
      assert s[1..][..n - 1] == s[..n][1..];
      CutIs(s[1..], n - 1);
    }
  }

  /** The least entry from `i` on with this name, or -1. */
  function Find(img: seq<byte>, name: seq<byte>, i: nat): (r: int)
    requires 4096 <= |img| && i <= ENTRIES
    ensures r == -1 || (i <= r < ENTRIES && Name(img, r) == name)
    ensures forall j :: i <= j < (if r == -1 then ENTRIES else r) ==> Name(img, j) != name
    decreases ENTRIES - i
  {
    if i == ENTRIES then -1 else if Name(img, i) == name then i else Find(img, name, i + 1)
  }

  // ----- Lookup -----

  /** The inner comparison loop of both lookups. */
  method SameName(img: seq<byte>, fname: seq<byte>, index: int) returns (found: bool)
    requires 4096 <= |img| && 0 <= index < ENTRIES && NulFree(fname)
    ensures found <==> Name(img, index) == fname
  {
    var raw := Raw(img, index);
    var k := 0;
    while k < 32
      invariant 0 <= k <= |fname| && k <= 32 && raw[..k] == fname[..k]
      invariant k == 32 ==> 32 < |fname|
    {
      if CharAt(fname, k) != raw[k] {
        Different(raw, fname, k);
        return false;
      }
      if CharAt(fname, k) == NUL {
        CutIs(raw, k);
        return true;
      }
      if k == 31 && CharAt(fname, k + 1) == NUL {
        assert raw[..32] == raw == fname;
        CutIs(raw, 32);
        return true;
      }
      assert raw[..k + 1] == raw[..k] + [raw[k]] && fname[..k + 1] == fname[..k] + [fname[k]];
      k := k + 1;
    }
    return false;
  }

  lemma Different(raw: seq<byte>, fname: seq<byte>, k: int)
    requires 0 <= k < |raw| && k <= |fname| && NulFree(fname) && CharAt(fname, k) != raw[k]
    ensures Cut(raw) != fname
  {
  }

  datatype Dentry = Dentry(name: seq<byte>, filetype: int, inode: int)

  function Entry(img: seq<byte>, i: int): Dentry
    requires 4096 <= |img| && 0 <= i < ENTRIES
  {
    Dentry(Raw(img, i), TypeOf(img, i), InodeOf(img, i))
  }

  /** 0 the clock, 1 a directory, 2 a file, -1 nothing of that name. */
  method GetFiletype(img: seq<byte>, fname: seq<byte>) returns (r: int)
    requires 4096 <= |img| && NulFree(fname)
    ensures r == if 1 <= |fname| <= 32 && Find(img, fname, 0) != -1 then TypeOf(img, Find(img, fname, 0)) else -1
  {
    if |fname| > 32 || |fname| == 0 { return -1; }
    var index := 0;
    while index < ENTRIES
      invariant 0 <= index <= ENTRIES && Find(img, fname, 0) == Find(img, fname, index)
    {
      var found := SameName(img, fname, index);
      if found { return TypeOf(img, index); }
      index := index + 1;
    }
    return -1;
  }

  /** The 32 name bytes at entry 0 to 63; entry 63 lies past the boot block, maybe in what memory holds behind the image. */
  function RawAt(img: seq<byte>, after: seq<byte>, i: int): (r: seq<byte>)
    requires 4096 <= |img| && 64 <= |after| && 0 <= i <= ENTRIES
    ensures |r| == 32 && (i < ENTRIES ==> r == Raw(img, i))
  {
    (img + after)[64 + 64 * i..96 + 64 * i]
  }

  function EntryAt(img: seq<byte>, after: seq<byte>, i: int): (d: Dentry)
    requires 4096 <= |img| && 64 <= |after| && 0 <= i <= ENTRIES
    ensures i < ENTRIES ==> d == Entry(img, i)
  {
    Dentry(RawAt(img, after, i), Int32At(img + after, 96 + 64 * i), Int32At(img + after, 100 + 64 * i))
  }

  /** Copies entry `index`; the check lets 63 through, which is one too many. */
  method ReadDentryByIndex(img: seq<byte>, after: seq<byte>, index: int) returns (r: int, dentry: Dentry)
    requires 4096 <= |img| && 64 <= |after| && 0 <= index
    ensures if index > ENTRIES then r == -1 else r == 0 && dentry == EntryAt(img, after, index)
    ensures index < ENTRIES ==> dentry == Entry(img, index)
  {
    if index > ENTRIES { return -1, Dentry([], 0, 0); }
    var memory := img + after;
    return 0, Dentry(memory[64 + 64 * index..96 + 64 * index], Int32At(memory, 96 + 64 * index), Int32At(memory, 100 + 64 * index));
  }

  /** Finds the first entry of exactly that name. */
  method ReadDentryByName(img: seq<byte>, fname: seq<byte>) returns (r: int, dentry: Dentry)
    requires 4096 <= |img| && NulFree(fname)
    ensures r == 0 <==> |fname| <= 32 && exists i :: 0 <= i < ENTRIES && Name(img, i) == fname
    ensures r == 0 || r == -1
    ensures r == 0 ==> 0 <= Find(img, fname, 0) && dentry == Entry(img, Find(img, fname, 0))
  {
    dentry := Dentry([], 0, 0);
    if |fname| > 32 { return -1, dentry; }
    var index := 0;
    while index < ENTRIES
      invariant 0 <= index <= ENTRIES && Find(img, fname, 0) == Find(img, fname, index)
    {
      var found := SameName(img, fname, index);
      if found {
        r, dentry := ReadDentryByIndex(img, seq(64, _ => NUL), index);
        return;
      }
      index := index + 1;
    }
    return -1, dentry;
  }

  /**
   The two lookups `open` makes for one name, one after the other: they succeed on the same
   names, except that only the first refuses the empty name, and then see the same entry, the
   first of that name.
   */
  method LookupsAgree(img: seq<byte>, name: seq<byte>) returns (kind: int, r: int, dentry: Dentry)
    requires 4096 <= |img| && NulFree(name)
    ensures r == 0 <==> |name| <= 32 && exists i :: 0 <= i < ENTRIES && Name(img, i) == name
    ensures name == [] || r != 0 ==> kind == -1
    ensures name != [] && r == 0 ==> kind == dentry.filetype
    ensures r == 0 ==> exists i :: 0 <= i < ENTRIES && dentry == Entry(img, i) && Name(img, i) == name
                                   && forall j :: 0 <= j < i ==> Name(img, j) != name
  {
    kind := GetFiletype(img, name);
    r, dentry := ReadDentryByName(img, name);
  }

  // ----- Autocompletion -----

  /** Where the last word of a line begins. */
  function WordStart(text: seq<byte>): (k: nat)
    ensures k <= |text| && (0 < k ==> text[k - 1] == SPACE)
    ensures forall i :: k <= i < |text| ==> text[i] != SPACE
  {
    if text == [] || text[|text| - 1] == SPACE then |text| else WordStart(text[..|text| - 1])
  }

  /** Entry `i` starts with `word` and goes on. */
  predicate Extends(img: seq<byte>, i: int, word: seq<byte>)
    requires 4096 <= |img| && 0 <= i < ENTRIES
  {
    |word| < 32 && Raw(img, i)[..|word|] == word && Raw(img, i)[|word|] != NUL
  }

  /** The first directory entry from `i` on that extends `word`, or -1. */
  function FirstExtending(img: seq<byte>, word: seq<byte>, i: nat): (r: int)
    requires 4096 <= |img| && DirCount(img) <= ENTRIES
    ensures r == -1 || (i <= r < DirCount(img) && Extends(img, r, word))
    ensures forall j :: i <= j < (if r == -1 then DirCount(img) else r) ==> !Extends(img, j, word)
    decreases DirCount(img) - i
  {
    if i >= DirCount(img) then -1 else if Extends(img, i, word) then i else FirstExtending(img, word, i + 1)
  }

  /** The line with its last word completed, as far as 127 characters allow. */
  function Complete(img: seq<byte>, text: seq<byte>): (r: seq<byte>)
    requires WellFormed(img) && |text| <= 127
    ensures |r| <= 127 && text <= r
  {
    var k := WordStart(text);
    if k == |text| then text else CompleteTo(img, text, k, FirstExtending(img, text[k..], 0))
  }

  /** The line with its last word, from `k` on, completed to the name of entry `i`; as it is for -1. */
  function CompleteTo(img: seq<byte>, text: seq<byte>, k: nat, i: int): (r: seq<byte>)
    requires WellFormed(img) && |text| <= 127 && k <= |text|
    requires i == -1 || (0 <= i < ENTRIES && |text| - k < 32)
    ensures |r| <= 127 && text <= r
  {
    if i == -1 then text else Append(text, Cut(Raw(img, i)[|text| - k..]))
  }

  /** `text` followed by as much of `rest` as 127 characters allow. */
  function Append(text: seq<byte>, rest: seq<byte>): (r: seq<byte>)
    requires |text| <= 127
    ensures |r| <= 127 && text <= r
  {
    text + rest[..if |text| + |rest| <= 127 then |rest| else 127 - |text|]
  }

  /** The comparison loop of `fs_search`; `after` is what memory holds behind the 128-byte buffer. */
  method WordMatches(img: seq<byte>, i: int, buf: array<byte>, start: int, idx: int, after: seq<byte>) returns (matched: bool)
    requires 4096 <= |img| && 0 <= i < ENTRIES && buf.Length == 128 && 0 <= start < idx <= 127 && 32 <= |after|
    ensures matched <==> Extends(img, i, buf[start..idx])
  {
    var raw := Raw(img, i);
    ghost var word := buf[start..idx];
    var k := 0;
    while k < 32
      invariant 0 <= k <= 32
      invariant start + k <= idx ==> raw[..k] == word[..k]
      invariant start + k > idx ==> !Extends(img, i, word)
    {
      if start + k == idx && raw[k] != NUL {
        assert word[..k] == word;
        return true;
      }
      var typed := if start + k < 128 then buf[start + k] else after[start + k - 128];
      if raw[k] != typed {
        if |word| < 32 && start + k < idx {
          assert word[k] == typed && raw[..|word|][k] == raw[k];
        }
        return false;
      }
      k := k + 1;
    }
    return false;
  }

  /** Walks back from `idx` to just after the last space. */
  method LastWord(buf: array<byte>, idx: int) returns (start: int)
    requires 0 <= idx <= buf.Length
    ensures start == WordStart(buf[..idx])
  {
    ghost var text := buf[..idx];
    start := idx;
    while start > 0 && buf[start - 1] != SPACE
      invariant 0 <= start <= idx
      invariant WordStart(text) == WordStart(text[..start])
    {
      assert text[..start][..start - 1] == text[..start - 1];
      start := start - 1;
    }
  }

  method FindExtending(img: seq<byte>, buf: array<byte>, start: int, idx: int, after: seq<byte>) returns (i: int)
    requires WellFormed(img) && buf.Length == 128 && 0 <= start < idx <= 127 && 32 <= |after|
    ensures i == FirstExtending(img, buf[start..idx], 0)
  {
    i := 0;
    while i < DirCount(img)
      invariant 0 <= i <= DirCount(img)
      invariant FirstExtending(img, buf[start..idx], 0) == FirstExtending(img, buf[start..idx], i)
    {
      var matched := WordMatches(img, i, buf, start, idx, after);
      if matched { return; }
      i := i + 1;
    }
    return -1;
  }

  /** Completes the last word of `buf[..idx]` in place and returns the new length. */
  method FsSearch(img: seq<byte>, buf: array<byte>, idx: int, after: seq<byte>) returns (r: int)
    requires WellFormed(img) && buf.Length == 128 && 0 <= idx <= 127 && 32 <= |after|
    modifies buf
    ensures idx <= r <= 127
    ensures buf[..r] == Complete(img, old(buf[..idx])) && buf[r..] == old(buf[r..])
  {
    ghost var text := buf[..idx];
    if idx > 0 && buf[idx - 1] == SPACE {
      NoWord(img, text);
      return idx;
    }
    var start := LastWord(buf, idx);
    if start == idx {
      NoWord(img, text);
      return idx;
    }
    r := CompleteWord(img, buf, start, idx, after);
  }

  lemma NoWord(img: seq<byte>, text: seq<byte>)
    requires WellFormed(img) && |text| <= 127
    requires WordStart(text) == |text| || (text != [] && text[|text| - 1] == SPACE)
    ensures Complete(img, text) == text
  {
  }

  /** Completes the word from `start` on. */
  method CompleteWord(img: seq<byte>, buf: array<byte>, start: int, idx: int, after: seq<byte>) returns (r: int)
    requires WellFormed(img) && buf.Length == 128 && 0 <= start < idx <= 127 && 32 <= |after| && start == WordStart(buf[..idx])
    modifies buf
    ensures idx <= r <= 127
    ensures buf[..r] == Complete(img, old(buf[..idx])) && buf[r..] == old(buf[r..])
  {
    ghost var text := buf[..idx];
    assert text[start..] == buf[start..idx];
    var i := FindExtending(img, buf, start, idx, after);
    CompleteIs(img, text, start, text[start..], i);
    if i == -1 { return idx; }
    r := CopyRest(img, i, buf, start, idx);
  }

  lemma CompleteIs(img: seq<byte>, text: seq<byte>, start: int, word: seq<byte>, i: int)
    requires WellFormed(img) && |text| <= 127 && 0 <= start == WordStart(text) < |text| && word == text[start..]
    requires i == FirstExtending(img, word, 0)
    ensures i != -1 ==> 0 <= i < DirCount(img) && |text| - start < 32
    ensures Complete(img, text) == CompleteTo(img, text, start, i)
  {
  }

  /** Appends what follows the word in the name of entry `i`. */
  method CopyRest(img: seq<byte>, i: int, buf: array<byte>, start: int, idx: int) returns (r: int)
    requires WellFormed(img) && 0 <= i < ENTRIES && buf.Length == 128 && 0 <= start < idx <= 127 && idx - start < 32
    modifies buf
    ensures idx <= r <= 127 && buf[r..] == old(buf[r..])
    ensures buf[..r] == Append(old(buf[..idx]), Cut(Raw(img, i)[idx - start..]))
  {
    ghost var before := buf[..];
    ghost var rest := Cut(Raw(img, i)[idx - start..]);
    CutIsRest(Raw(img, i), idx - start);
    r := CopyTail(Raw(img, i), buf, start, idx, rest);
    FilledParts(before, buf[..], idx, rest, r - idx);
  }

  /** The copying loop: stops at the end of the name or at a full line. */
  method CopyTail(raw: seq<byte>, buf: array<byte>, start: int, idx: int, ghost rest: seq<byte>) returns (r: int)
    requires |raw| == 32 && buf.Length == 128 && 0 <= start < idx <= 127 && IsRest(raw, idx - start, rest)
    modifies buf
    ensures r == if idx + |rest| <= 127 then idx + |rest| else 127
    ensures Filled(old(buf[..]), buf[..], idx, rest, r - idx)
  {
    ghost var before := buf[..];
    var k := idx - start;
    r := idx;
    while k < 32 && raw[k] != NUL && r <= 126
      invariant idx <= r <= 127 && k == r - start && r - idx <= |rest|
      invariant Filled(before, buf[..], idx, rest, r - idx)
    {
      assert raw[k] == rest[r - idx];
      FillOne(before, buf[..], idx, rest, r - idx);
      buf[r] := raw[k];
      r := r + 1;
      k := k + 1;
    }
    if r - idx < |rest| {
      assert raw[idx - start + (r - idx)] == rest[r - idx];
    }
  }

  /** `rest` is what `raw` holds from `from` on, up to a NUL or the end. */
  predicate IsRest(raw: seq<byte>, from: int, rest: seq<byte>) {
    && 0 <= from && from + |rest| <= |raw|
    && (forall n :: 0 <= n < |rest| ==> raw[from + n] == rest[n] && rest[n] != NUL)
    && (from + |rest| < |raw| ==> raw[from + |rest|] == NUL)
  }

  lemma CutIsRest(raw: seq<byte>, from: int)
    requires 0 <= from <= |raw|
    ensures IsRest(raw, from, Cut(raw[from..]))
  {
    var tail := raw[from..];
    assert forall m :: 0 <= m < |tail| ==> tail[m] == raw[from + m];
  }

  /** `now` is `before` with the first `n` bytes of `text` written at `at`. */
  predicate Filled(before: seq<byte>, now: seq<byte>, at: int, text: seq<byte>, n: int) {
    && |before| == |now| && 0 <= at && 0 <= n <= |text| && at + n <= |now|
    && forall m :: 0 <= m < |now| ==> now[m] == if at <= m < at + n then text[m - at] else before[m]
  }

  lemma FillOne(before: seq<byte>, now: seq<byte>, at: int, text: seq<byte>, n: int)
    requires Filled(before, now, at, text, n) && n < |text| && at + n < |now|
    ensures Filled(before, now[at + n := text[n]], at, text, n + 1)
  {
  }

  lemma FilledParts(before: seq<byte>, now: seq<byte>, at: int, text: seq<byte>, n: int)
    requires Filled(before, now, at, text, n)
    ensures now[..at + n] == before[..at] + text[..n] && now[at + n..] == before[at + n..]
  {
  }

  // ----- What a completion is -----

  /** Cutting after a NUL-free prefix. */
  lemma {:induction false} CutAfter(s: seq<byte>, n: nat)
    requires n <= |s| && NulFree(s[..n])
    ensures Cut(s) == s[..n] + Cut(s[n..])
  {
    if n > 0 {
      assert s[0] == s[..n][0];
      assert s[1..][..n - 1] == s[..n][1..];
      assert s[1..][n - 1..] == s[n..];
      CutAfter(s[1..], n - 1);
    }
  }

  /** An entry extends a word exactly when the word is a proper prefix of its name. */
  lemma ExtendsIsProperPrefix(img: seq<byte>, i: int, word: seq<byte>)
    requires 4096 <= |img| && 0 <= i < ENTRIES && NulFree(word)
    ensures Extends(img, i, word) <==> word < Name(img, i)
    ensures Extends(img, i, word) ==> Name(img, i) == word + Cut(Raw(img, i)[|word|..])
  {
    var raw := Raw(img, i);
    if Extends(img, i, word) {
      CutAfter(raw, |word|);
      assert raw[|word|..][0] == raw[|word|];
    }
  }

  /**
   A completed line keeps what was typed; its last word becomes the first name having it as
   a proper prefix (or as much of it as fits), and lookup then finds that name.
   */
  lemma CompletionSound(img: seq<byte>, text: seq<byte>)
    requires WellFormed(img) && |text| <= 127 && NulFree(text)
    ensures var k := WordStart(text);
            if k == |text| || forall j :: 0 <= j < DirCount(img) ==> !(text[k..] < Name(img, j)) then Complete(img, text) == text
            else CompletedBy(img, text, k, FirstExtending(img, text[k..], 0), Complete(img, text))
  {
    var k := WordStart(text);
    if k < |text| {
      CompletionOf(img, text, k, text[k..], FirstExtending(img, text[k..], 0), Complete(img, text));
    }
  }

  lemma CompletionOf(img: seq<byte>, text: seq<byte>, k: nat, word: seq<byte>, i: int, r: seq<byte>)
    requires WellFormed(img) && |text| <= 127 && NulFree(text) && k == WordStart(text) < |text| && word == text[k..]
    requires i == FirstExtending(img, word, 0) && r == Complete(img, text)
    ensures i == -1 <==> forall j :: 0 <= j < DirCount(img) ==> !(word < Name(img, j))
    ensures if i == -1 then r == text else CompletedBy(img, text, k, i, r)
  {
    FirstExtendingIs(img, word, i);
    CompleteIs(img, text, k, word, i);
    if i != -1 {
      CompletedWord(img, text, k, i, r);
    }
  }

  /** `r` is `text` with its last word, from `k` on, completed to the name of entry `i`, the first that has it as a proper prefix. */
  ghost predicate CompletedBy(img: seq<byte>, text: seq<byte>, k: nat, i: int, r: seq<byte>)
    requires WellFormed(img) && k <= |text|
  {
    && 0 <= i < DirCount(img) && text[k..] < Name(img, i)
    && (forall j :: 0 <= j < i ==> !(text[k..] < Name(img, j)))
    && text <= r && text[k..] <= r[k..] <= Name(img, i)
    && (if k + |Name(img, i)| <= 127 then r == text[..k] + Name(img, i) && Find(img, r[k..], 0) != -1
        else |r| == 127)
  }

  lemma CompletedWord(img: seq<byte>, text: seq<byte>, k: nat, i: int, r: seq<byte>)
    requires WellFormed(img) && |text| <= 127 && k <= |text| && 0 <= i < DirCount(img) && text[k..] < Name(img, i)
    requires forall j :: 0 <= j < i ==> !(text[k..] < Name(img, j))
    requires Name(img, i) == text[k..] + Cut(Raw(img, i)[|text| - k..]) && |text| - k < 32
    requires r == Append(text, Cut(Raw(img, i)[|text| - k..]))
    ensures CompletedBy(img, text, k, i, r)
  {
    AppendShape(text, k, Cut(Raw(img, i)[|text| - k..]));
    Found(img, Name(img, i), i);
  }

  /** The entry found is the first whose name has the word as a proper prefix. */
  lemma FirstExtendingIs(img: seq<byte>, word: seq<byte>, i: int)
    requires WellFormed(img) && NulFree(word) && i == FirstExtending(img, word, 0)
    ensures forall j :: 0 <= j < (if i == -1 then DirCount(img) else i) ==> !(word < Name(img, j))
    ensures i != -1 ==> word < Name(img, i) && Name(img, i) == word + Cut(Raw(img, i)[|word|..])
  {
    forall j | 0 <= j < DirCount(img)
      ensures Extends(img, j, word) <==> word < Name(img, j)
    {
      ExtendsIsProperPrefix(img, j, word);
    }
    if i != -1 {
      ExtendsIsProperPrefix(img, i, word);
    }
  }

  lemma Found(img: seq<byte>, name: seq<byte>, i: int)
    requires 4096 <= |img| && 0 <= i < ENTRIES && Name(img, i) == name
    ensures Find(img, name, 0) != -1
  {
  }

  lemma AppendShape(text: seq<byte>, k: nat, rest: seq<byte>)
    requires |text| <= 127 && k <= |text|
    ensures var name := text[k..] + rest; var r := Append(text, rest);
            && text[k..] <= r[k..] <= name
            && (if k + |name| <= 127 then r == text[..k] + name && r[k..] == name else |r| == 127)
  {
    var n := if |text| + |rest| <= 127 then |rest| else 127 - |text|;
    assert text == text[..k] + text[k..];
    Spliced(text[..k], text[k..], rest, n, Append(text, rest));
  }

  lemma Spliced(before: seq<byte>, word: seq<byte>, rest: seq<byte>, n: nat, r: seq<byte>)
    requires n <= |rest| && r == before + word + rest[..n]
    ensures r[|before|..] == word + rest[..n] && word <= r[|before|..] <= word + rest
    ensures n == |rest| ==> r == before + (word + rest)
  {
    assert r == before + (word + rest[..n]);
    assert n == |rest| ==> rest[..n] == rest;
  }
}
