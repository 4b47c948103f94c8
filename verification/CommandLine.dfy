/** The command given to `execute`: a program's name and the rest of the line as its argument. */
module CommandLine {
  import opened Bytes

  datatype Command = Command(name: seq<byte>, argument: seq<byte>) {
    /** What parsing a C string can yield. */
    predicate Parsed() {
      && NulFree(name) && NulFree(argument) && (forall i :: 0 <= i < |name| ==> name[i] != SPACE)
      && (argument != [] ==> argument[0] != SPACE && name != [])
    }
  }

  /** Without the spaces in front. */
  function Trim(text: seq<byte>): (r: seq<byte>)
    ensures |r| <= |text|
  {
    if text != [] && text[0] == SPACE then Trim(text[1..]) else text
  }

  /** Everything before the first space. */
  function Word(text: seq<byte>): (w: seq<byte>)
    ensures |w| <= |text|
  {
    if text == [] || text[0] == SPACE then [] else [text[0]] + Word(text[1..])
  }

  /** The name is the first word; the argument is all that follows the spaces behind it. */
  function Parse(text: seq<byte>): (c: Command)
    ensures |c.name| + |c.argument| <= |text|
  {
    var line := Trim(text);
    Command(Word(line), Trim(line[|Word(line)|..]))
  }

  /** Size of the array the name is copied to, and of the one for the argument. */
  const ROOM := 128

  /** Both copies stay within their arrays, the closing NUL included. */
  predicate Fits(c: Command) {
    |c.name| < ROOM && |c.argument| < ROOM
  }

  lemma {:induction false} TrimIs(text: seq<byte>, k: nat)
    requires k <= |text| && (forall i :: 0 <= i < k ==> text[i] == SPACE) && (k < |text| ==> text[k] != SPACE)
    ensures Trim(text) == text[k..]
  {
    if k > 0 {
      TrimIs(text[1..], k - 1);
    }
  }

  lemma {:induction false} WordIs(text: seq<byte>, k: nat)
    requires k <= |text| && (forall i :: 0 <= i < k ==> text[i] != SPACE) && (k < |text| ==> text[k] == SPACE)
    ensures Word(text) == text[..k]
  {
    if k > 0 {
      WordIs(text[1..], k - 1);
      assert text[1..][..k - 1] == text[..k][1..];
    }
  }

  lemma {:induction false} TrimFacts(text: seq<byte>)
    ensures Trim(text) == text[|text| - |Trim(text)|..] && (Trim(text) != [] ==> Trim(text)[0] != SPACE)
  {
    if text != [] && text[0] == SPACE {
      TrimFacts(text[1..]);
    }
  }

  lemma {:induction false} WordFacts(text: seq<byte>)
    ensures Word(text) == text[..|Word(text)|] && (forall i :: 0 <= i < |Word(text)| ==> Word(text)[i] != SPACE)
    ensures Word(text) == [] && text != [] ==> text[0] == SPACE
  {
    if text != [] && text[0] != SPACE {
      WordFacts(text[1..]);
    }
  }

  /** Parsing yields such commands. */
  lemma ParseParsed(text: seq<byte>)
    requires NulFree(text)
    ensures Parse(text).Parsed()
  {
    var line := Trim(text);
    var rest := line[|Word(line)|..];
    TrimFacts(text);
    WordFacts(line);
    TrimFacts(rest);
    NulFreePart(text, |text| - |line|, |text|);
    NulFreePart(line, 0, |Word(line)|);
    NulFreePart(line, |Word(line)|, |line|);
    NulFreePart(rest, |rest| - |Trim(rest)|, |rest|);
  }

  lemma NulFreePart(s: seq<byte>, i: nat, j: nat)
    requires NulFree(s) && i <= j <= |s|
    ensures NulFree(s[i..j])
  {
  }

  /** A command written out with one space. */
  function Text(c: Command): seq<byte> { c.name + [SPACE] + c.argument }

  /** Each of them is what its text parses to. */
  lemma ParseText(c: Command)
    requires c.Parsed()
    ensures Parse(Text(c)) == c && NulFree(Text(c))
  {
    var text := Text(c);
    assert forall i :: 0 <= i < |text| ==>
        text[i] == if i < |c.name| then c.name[i] else if i == |c.name| then SPACE else c.argument[i - |c.name| - 1];
    if c.name == [] {
      assert text == [SPACE];
      TrimIs(text, 1);
    } else {
      TrimIs(text, 0);
      WordIs(text, |c.name|);
      ArgumentBehind(text, |c.name|, c.argument);
    }
  }

  lemma ArgumentBehind(text: seq<byte>, k: nat, argument: seq<byte>)
    requires k < |text| && text[k] == SPACE && text[k + 1..] == argument && (argument != [] ==> argument[0] != SPACE)
    ensures Trim(text[k..]) == argument
  {
    TrimIs(text[k..], 1);
  }

  /** What of a copy, closing NUL included, goes on behind the array. */
  function Excess(text: seq<byte>): (r: seq<byte>)
    ensures r == [] <==> |text| < ROOM
  {
    if |text| < ROOM then [] else text[ROOM..] + [NUL]
  }

  /** A line short enough for the line editor never overruns the arrays. */
  lemma ShortLineFits(text: seq<byte>)
    requires |text| < ROOM
    ensures Fits(Parse(text))
  {
  }

  /** The copying of `system_execute`; what does not fit an array goes on behind it. */
  method ParseCommand(command: seq<byte>) returns (name: seq<byte>, argument: seq<byte>)
    requires NulFree(command)
    ensures Command(name, argument) == Parse(command)
  {
    var i := SkipSpaces(command, 0);
    assert command[0..] == command;
    var j;
    name, j := CopyWord(command, i);
    assert command[j..] == command[i..][|name|..];
    var k := SkipSpaces(command, j);
    argument := CopyAll(command, k);
  }

  method SkipSpaces(command: seq<byte>, from: int) returns (i: int)
    requires 0 <= from <= |command|
    ensures from <= i <= |command| && command[i..] == Trim(command[from..])
  {
    i := from;
    while CharAt(command, i) == SPACE
      invariant from <= i <= |command| && forall k :: from <= k < i ==> command[k] == SPACE
      decreases |command| - i
    {
      i := i + 1;
    }
    TrimIs(command[from..], i - from);
  }

  method CopyWord(command: seq<byte>, from: int) returns (word: seq<byte>, i: int)
    requires 0 <= from <= |command| && NulFree(command)
    ensures word == Word(command[from..]) && i == from + |word| <= |command|
  {
    i, word := from, [];
    while CharAt(command, i) != NUL
      invariant from <= i <= |command| && word == command[from..i] && forall k :: from <= k < i ==> command[k] != SPACE
      decreases |command| - i
    {
      if command[i] == SPACE { break; }
      word := word + [command[i]];
      i := i + 1;
    }
    WordIs(command[from..], i - from);
  }

  method CopyAll(command: seq<byte>, from: int) returns (rest: seq<byte>)
    requires 0 <= from <= |command| && NulFree(command)
    ensures rest == command[from..]
  {
    var i := from;
    rest := [];
    while CharAt(command, i) != NUL
      invariant from <= i <= |command| && rest == command[from..i]
      decreases |command| - i
    {
      rest := rest + [command[i]];
      i := i + 1;
    }
  }
}
