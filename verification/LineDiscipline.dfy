/**
 The line editor behind each terminal: keys build a line, Enter hands it to a mailbox for one
 line, and a read by a process of that terminal empties the mailbox.
 */
module LineDiscipline {
  import opened Bytes
  import opened FileImage
  import opened Names
  import opened Paging

  /** A key as decoded; `Char` never carries NUL, a line feed or the do-not-print code 255. */
  datatype Key = Char(c: byte) | Enter | Rubout | Tab | Silent

  predicate Decoded(k: Key) {
    k.Char? ==> k.c != NUL && k.c != LINE_FEED && k.c != 255
  }

  /** The line after a key. */
  function Edit(img: seq<byte>, line: seq<byte>, k: Key): (r: seq<byte>)
    requires WellFormed(img) && |line| <= 127
    ensures |r| <= 127
  {
    match k
    case Char(c) => if |line| == 127 then line else line + [c]
    case Enter => []
    case Rubout => if line == [] then line else line[..|line| - 1]
    case Tab => Complete(img, line)
    case Silent => line
  }

  predicate PlainLine(line: seq<byte>) {
    |line| <= 127 && forall i :: 0 <= i < |line| ==> line[i] != NUL && line[i] != LINE_FEED
  }

  /** Names hold no line feed, so completing a line brings none in. */
  predicate PlainNames(img: seq<byte>) {
    WellFormed(img) && forall i :: 0 <= i < ENTRIES ==> forall k :: 0 <= k < 32 ==> Raw(img, i)[k] != LINE_FEED
  }

  lemma CompletePlain(img: seq<byte>, line: seq<byte>)
    requires PlainNames(img) && PlainLine(line)
    ensures PlainLine(Complete(img, line))
  {
    var k := WordStart(line);
    if k < |line| {
      var i := FirstExtending(img, line[k..], 0);
      CompleteIs(img, line, k, line[k..], i);
      CompletedPlain(img, line, k, i);
    }
  }

  lemma CompletedPlain(img: seq<byte>, line: seq<byte>, k: nat, i: int)
    requires PlainNames(img) && PlainLine(line) && k <= |line| && (i == -1 || (0 <= i < ENTRIES && |line| - k < 32))
    ensures PlainLine(CompleteTo(img, line, k, i))
  {
    if i != -1 {
      TailPlain(img, i, |line| - k);
      AppendPlain(line, Cut(Raw(img, i)[|line| - k..]));
    }
  }

  lemma TailPlain(img: seq<byte>, i: int, n: int)
    requires PlainNames(img) && 0 <= i < ENTRIES && 0 <= n <= 32
    ensures var rest := Cut(Raw(img, i)[n..]); forall j :: 0 <= j < |rest| ==> rest[j] != NUL && rest[j] != LINE_FEED
  {
    var tail := Raw(img, i)[n..];
    assert forall j :: 0 <= j < |tail| ==> tail[j] == Raw(img, i)[n + j];
  }

  lemma AppendPlain(line: seq<byte>, rest: seq<byte>)
    requires PlainLine(line) && forall i :: 0 <= i < |rest| ==> rest[i] != NUL && rest[i] != LINE_FEED
    ensures PlainLine(Append(line, rest))
  {
  }

  lemma EditPlain(img: seq<byte>, line: seq<byte>, k: Key)
    requires PlainNames(img) && PlainLine(line) && Decoded(k)
    ensures PlainLine(Edit(img, line, k))
  {
    if k == Tab {
      CompletePlain(img, line);
    }
  }

  // ----- One terminal -----

  /** A line handed in with Enter, and whether a process has taken it. */
  datatype Sent = Sent(line: seq<byte>, taken: bool)

  /** The line being edited, the mailbox, every line handed in, and every line delivered. */
  datatype Desk = Desk(line: seq<byte>, mail: Option<seq<byte>>, log: seq<Sent>, got: seq<seq<byte>>)

  datatype DeskEvent = Press(k: Key) | Take

  function AtDesk(img: seq<byte>, d: Desk, e: DeskEvent): (r: Desk)
    requires WellFormed(img) && |d.line| <= 127
    ensures |r.line| <= 127
  {
    match e
    case Press(k) =>
      if k == Enter then Desk([], Some(d.line), d.log + [Sent(d.line, false)], d.got)
      else d.(line := Edit(img, d.line, k))
    case Take =>
      if d.mail == None then d
      else
        var log := if d.log == [] then [] else d.log[|d.log| - 1 := d.log[|d.log| - 1].(taken := true)];
        Desk(d.line, None, log, d.got + [d.mail.value])
  }

  function AllAtDesk(img: seq<byte>, d: Desk, events: seq<DeskEvent>): (r: Desk)
    requires WellFormed(img) && |d.line| <= 127
    ensures |r.line| <= 127
    decreases |events|, d
  {
    if events == [] then d else AllAtDesk(img, AtDesk(img, d, events[0]), events[1..])
  }

  // ----- What the keys do -----

  /** The keys for a text. */
  function Keys(text: seq<byte>): (keys: seq<DeskEvent>)
    ensures |keys| == |text|
  {
    seq(|text|, i requires 0 <= i < |text| => Press(Char(text[i])))
  }

  lemma {:induction false} DeskConcat(img: seq<byte>, d: Desk, a: seq<DeskEvent>, b: seq<DeskEvent>)
    requires WellFormed(img) && |d.line| <= 127
    ensures AllAtDesk(img, d, a + b) == AllAtDesk(img, AllAtDesk(img, d, a), b)
    decreases |a|
  {
    if a == [] {
      assert a + b == b;
    } else {
      assert (a + b)[1..] == a[1..] + b;
      DeskConcat(img, AtDesk(img, d, a[0]), a[1..], b);
    }
  }

  lemma OneAtDesk(img: seq<byte>, d: Desk, e: DeskEvent)
    requires WellFormed(img) && |d.line| <= 127
    ensures AllAtDesk(img, d, [e]) == AtDesk(img, d, e) && AllAtDesk(img, d, []) == d
  {
    assert AllAtDesk(img, AtDesk(img, d, e), [e][1..]) == AtDesk(img, d, e);
  }

  /** Text that fits is appended. */
  lemma {:induction false} TypingAppends(img: seq<byte>, d: Desk, text: seq<byte>)
    requires WellFormed(img) && |d.line| + |text| <= 127
    ensures AllAtDesk(img, d, Keys(text)) == d.(line := d.line + text)
    decreases |text|
  {
    if text == [] {
      assert d.line + text == d.line;
    } else {
      var e := AtDesk(img, d, Keys(text)[0]);
      assert Keys(text)[1..] == Keys(text[1..]);
      assert e.line + text[1..] == d.line + text;
      TypingAppends(img, e, text[1..]);
    }
  }

  /** A character for a full line is ignored, and so is a backspace in an empty one. */
  lemma KeysIgnored(img: seq<byte>, d: Desk, c: byte)
    requires WellFormed(img) && |d.line| <= 127
    ensures |d.line| == 127 ==> AtDesk(img, d, Press(Char(c))) == d
    ensures d.line == [] ==> AtDesk(img, d, Press(Rubout)) == d
  {
  }

  /**
   A tab completes the last word to the first name having it as a proper prefix, or as much of
   it as fits; without such a name, or behind a space, it changes nothing.
   */
  lemma TabCompletes(img: seq<byte>, d: Desk)
    requires WellFormed(img) && PlainLine(d.line)
    ensures var k := WordStart(d.line); var u := AtDesk(img, d, Press(Tab));
            && u == d.(line := u.line)
            && if k == |d.line| || forall j :: 0 <= j < DirCount(img) ==> !(d.line[k..] < Name(img, j)) then u.line == d.line
               else exists i :: CompletedBy(img, d.line, k, i, u.line)
  {
    CompletionSound(img, d.line);
  }

  /** `n` backspaces. */
  function Backspaces(n: nat): (keys: seq<DeskEvent>)
    ensures |keys| == n
  {
    seq(n, _ => Press(Rubout))
  }

  /** Each backspace takes back one character, the last one typed first. */
  lemma {:induction false} BackspacesTakeBack(img: seq<byte>, d: Desk, n: nat)
    requires WellFormed(img) && n <= |d.line| <= 127
    ensures AllAtDesk(img, d, Backspaces(n)) == d.(line := d.line[..|d.line| - n])
    decreases n
  {
    if n == 0 {
      assert d.line[..|d.line|] == d.line;
    } else {
      var e := AtDesk(img, d, Backspaces(n)[0]);
      assert Backspaces(n)[1..] == Backspaces(n - 1);
      assert e.line[..|e.line| - (n - 1)] == d.line[..|d.line| - n];
      BackspacesTakeBack(img, e, n - 1);
    }
  }

  /** Typing a text that fits and rubbing all of it out changes nothing. */
  lemma TypedAndTakenBack(img: seq<byte>, d: Desk, text: seq<byte>)
    requires WellFormed(img) && |d.line| + |text| <= 127
    ensures AllAtDesk(img, d, Keys(text) + Backspaces(|text|)) == d
  {
    var e := d.(line := d.line + text);
    DeskConcat(img, d, Keys(text), Backspaces(|text|));
    TypingAppends(img, d, text);
    BackspacesTakeBack(img, e, |text|);
    assert e.line[..|e.line| - |text|] == d.line;
  }

  /** A text typed with `n` characters too many, which are taken back, then Enter and a read: exactly the text is delivered. */
  lemma TypedLineDelivered(img: seq<byte>, d: Desk, text: seq<byte>, slip: seq<byte>)
    requires WellFormed(img) && d.line == [] && |text| + |slip| <= 127
    ensures var u := AllAtDesk(img, d, Keys(text) + (Keys(slip) + Backspaces(|slip|)) + [Press(Enter)] + [Take]);
            u.got == d.got + [text] && u.line == [] && u.mail == None
  {
    var correction := Keys(slip) + Backspaces(|slip|);
    var e := d.(line := d.line + text);
    TypingAppends(img, d, text);
    TypedAndTakenBack(img, e, slip);
    DeskConcat(img, d, Keys(text), correction);
    assert e.line == text;
    DeskConcat(img, d, Keys(text) + correction, [Press(Enter)]);
    OneAtDesk(img, e, Press(Enter));
    DeskConcat(img, d, Keys(text) + correction + [Press(Enter)], [Take]);
    OneAtDesk(img, AtDesk(img, e, Press(Enter)), Take);
  }

  const FRESH_DESK := Desk([], None, [], [])

  /** The lines of a log that were taken, in the order they were handed in. */
  function Taken(log: seq<Sent>): seq<seq<byte>> {
    if log == [] then []
    else Taken(log[..|log| - 1]) + (if log[|log| - 1].taken then [log[|log| - 1].line] else [])
  }

  /**
   What was delivered is what was taken, each line handed in at most once and in order; the
   mailbox holds the last line handed in, if it was not taken; all lines are plain.
   */
  predicate Orderly(d: Desk) {
    && PlainLine(d.line) && d.got == Taken(d.log)
    && (forall i :: 0 <= i < |d.log| ==> PlainLine(d.log[i].line))
    && (d.mail.Some? ==> d.log != [] && d.log[|d.log| - 1] == Sent(d.mail.value, false))
    && (d.mail.None? && d.log != [] ==> d.log[|d.log| - 1].taken)
  }

  lemma DeskOrderly(img: seq<byte>, d: Desk, e: DeskEvent)
    requires PlainNames(img) && Orderly(d) && (e.Press? ==> Decoded(e.k))
    ensures Orderly(AtDesk(img, d, e))
  {
    match e
    case Press(k) =>
      if k == Enter {
        EnterOrderly(img, d);
      } else {
        EditPlain(img, d.line, k);
      }
    case Take =>
      if d.mail.Some? {
        TakeOrderly(img, d);
      }
  }

  lemma EnterOrderly(img: seq<byte>, d: Desk)
    requires WellFormed(img) && Orderly(d)
    ensures Orderly(AtDesk(img, d, Press(Enter)))
  {
    TakenOneMore(d.log, Sent(d.line, false));
  }

  lemma TakenOneMore(log: seq<Sent>, s: Sent)
    ensures Taken(log + [s]) == Taken(log) + if s.taken then [s.line] else []
  {
    assert (log + [s])[..|log|] == log;
  }

  lemma TakeOrderly(img: seq<byte>, d: Desk)
    requires WellFormed(img) && Orderly(d) && d.mail.Some?
    ensures Orderly(AtDesk(img, d, Take))
  {
    var last := |d.log| - 1;
    var before := d.log[..last];
    assert d.log == before + [Sent(d.mail.value, false)];
    assert AtDesk(img, d, Take).log == before + [Sent(d.mail.value, true)];
    TakenOneMore(before, Sent(d.mail.value, false));
    TakenOneMore(before, Sent(d.mail.value, true));
  }

  lemma {:induction false} DeskRunOrderly(img: seq<byte>, d: Desk, events: seq<DeskEvent>)
    requires PlainNames(img) && Orderly(d) && forall e :: e in events && e.Press? ==> Decoded(e.k)
    ensures Orderly(AllAtDesk(img, d, events))
    decreases |events|
  {
    if events != [] {
      DeskOrderly(img, d, events[0]);
      DeskRunOrderly(img, AtDesk(img, d, events[0]), events[1..]);
    }
  }

  // ----- Three terminals -----

  /** A key on the keyboard, another terminal displayed, or a read by a process of terminal `owner`. */
  datatype LineEvent = Typed(k: Key) | Shown(terminal: int) | Asked(owner: int)

  datatype Desks = Desks(desk: seq<Desk>, active: int) {
    predicate Valid() {
      |desk| == 3 && 0 <= active < 3 && forall t :: 0 <= t < 3 ==> |desk[t].line| <= 127
    }
  }

  /** Keys go to the displayed terminal; a read succeeds only while its own terminal is displayed. */
  function AtDesks(img: seq<byte>, s: Desks, e: LineEvent): (u: Desks)
    requires WellFormed(img) && s.Valid()
    ensures u.Valid()
  {
    match e
    case Typed(k) => s.(desk := s.desk[s.active := AtDesk(img, s.desk[s.active], Press(k))])
    case Shown(t) => if 0 <= t < 3 then s.(active := t) else s
    case Asked(o) => if o == s.active then s.(desk := s.desk[o := AtDesk(img, s.desk[o], Take)]) else s
  }

  function AllAtDesks(img: seq<byte>, s: Desks, events: seq<LineEvent>): (u: Desks)
    requires WellFormed(img) && s.Valid()
    ensures u.Valid()
    decreases |events|, s
  {
    if events == [] then s else AllAtDesks(img, AtDesks(img, s, events[0]), events[1..])
  }

  /** The events of terminal `t`: keys typed and reads made while it is displayed. */
  function OwnEvents(active: int, events: seq<LineEvent>, t: int): seq<DeskEvent>
    decreases |events|
  {
    if events == [] then []
    else
      var rest := OwnEvents(if events[0].Shown? && 0 <= events[0].terminal < 3 then events[0].terminal else active, events[1..], t);
      match events[0]
      case Typed(k) => if active == t then [Press(k)] + rest else rest
      case Shown(_) => rest
      case Asked(o) => if active == t && o == t then [Take] + rest else rest
  }

  /** Each terminal's line, mailbox and deliveries depend on its own events only. */
  lemma {:induction false} DesksIndependent(img: seq<byte>, s: Desks, events: seq<LineEvent>, t: int)
    requires WellFormed(img) && s.Valid() && 0 <= t < 3
    ensures AllAtDesks(img, s, events).desk[t] == AllAtDesk(img, s.desk[t], OwnEvents(s.active, events, t))
    decreases |events|
  {
    if events != [] {
      var u := AtDesks(img, s, events[0]);
      DesksIndependent(img, u, events[1..], t);
      var own := OwnEvents(s.active, events, t);
      var rest := OwnEvents(u.active, events[1..], t);
      assert own == rest || own[1..] == rest;
    }
  }

  /** From start-up, over any keys, switches and reads: every delivery is a line handed in on that terminal, once, in order. */
  lemma LinesDelivered(img: seq<byte>, active: int, events: seq<LineEvent>, t: int)
    requires PlainNames(img) && 0 <= active < 3 && 0 <= t < 3
    requires forall e :: e in events && e.Typed? ==> Decoded(e.k)
    ensures Orderly(AllAtDesks(img, Desks([FRESH_DESK, FRESH_DESK, FRESH_DESK], active), events).desk[t])
  {
    DesksIndependent(img, Desks([FRESH_DESK, FRESH_DESK, FRESH_DESK], active), events, t);
    OwnDecoded(active, events, t);
    DeskRunOrderly(img, FRESH_DESK, OwnEvents(active, events, t));
  }

  lemma {:induction false} OwnDecoded(active: int, events: seq<LineEvent>, t: int)
    requires forall e :: e in events && e.Typed? ==> Decoded(e.k)
    ensures forall e :: e in OwnEvents(active, events, t) && e.Press? ==> Decoded(e.k)
    decreases |events|
  {
    if events != [] {
      OwnDecoded(if events[0].Shown? && 0 <= events[0].terminal < 3 then events[0].terminal else active, events[1..], t);
    }
  }
}
