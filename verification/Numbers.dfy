/**
 Number printing: `itoa` writes digits lowest first and reverses them in place, and the `%#x`
 conversion pads to eight digits; the digits evaluate back to the number.
 */
module Numbers {
  import opened Bytes

  const ZERO: byte := 48

  /** '0' to '9', then 'A' to 'Z'. */
  function DigitChar(d: int): byte
    requires 0 <= d < 36
  {
    if d < 10 then ZERO + d else 65 + d - 10
  }

  /** What a digit character stands for, or -1. */
  function DigitValue(c: byte): (d: int)
    ensures -1 <= d < 36
  {
    if ZERO <= c < ZERO + 10 then c - ZERO else if 65 <= c < 91 then c - 65 + 10 else -1
  }

  /** Reading a digit string from the left. */
  function Value(s: seq<byte>, radix: int): int {
    if s == [] then 0 else Value(s[..|s| - 1], radix) * radix + DigitValue(s[|s| - 1])
  }

  /** The digits of a number, lowest first; none for zero. */
  function LowFirst(v: nat, radix: int): (s: seq<byte>)
    requires 2 <= radix <= 36
    ensures v > 0 ==> s != []
  {
    if v == 0 then []
    else
      DigitsLess(v, radix, v / radix, v % radix);
      [DigitChar(v % radix)] + LowFirst(v / radix, radix)
  }

  lemma NextDigit(v: nat, radix: int)
    requires 2 <= radix <= 36 && v > 0
    ensures 0 <= v % radix < radix && 0 <= v / radix < v
    ensures LowFirst(v, radix) == [DigitChar(v % radix)] + LowFirst(v / radix, radix)
  {
    DigitsLess(v, radix, v / radix, v % radix);
    Unfolded(v, radix, v / radix, v % radix);
  }

  lemma DigitsLess(v: nat, radix: int, q: int, r: int)
    requires 2 <= radix && v > 0 && v == radix * q + r && 0 <= r < radix
    ensures 0 <= q < v
  {
    if q < 0 {
      Monotone(radix, q, -1);
    } else if q > 0 {
      Monotone(q, 2, radix);
    }
  }

  lemma Unfolded(v: nat, radix: int, q: nat, r: nat)
    requires 2 <= radix <= 36 && v > 0 && q == v / radix && r == v % radix
    ensures r < radix && LowFirst(v, radix) == [DigitChar(r)] + LowFirst(q, radix)
  {
  }

  function Reverse(s: seq<byte>): (r: seq<byte>)
    ensures |r| == |s|
    ensures forall i :: 0 <= i < |s| ==> r[i] == s[|s| - 1 - i]
  {
    seq(|s|, i requires 0 <= i < |s| => s[|s| - 1 - i])
  }

  /** How a number is written. */
  function Text(v: nat, radix: int): (s: seq<byte>)
    requires 2 <= radix <= 36
    ensures s != []
  {
    if v == 0 then [ZERO] else Reverse(LowFirst(v, radix))
  }

  predicate AllDigits(s: seq<byte>, radix: int) {
    forall i :: 0 <= i < |s| ==> 0 <= DigitValue(s[i]) < radix
  }

  lemma {:induction false} LowFirstValue(v: nat, radix: int)
    requires 2 <= radix <= 36
    ensures Value(Reverse(LowFirst(v, radix)), radix) == v
  {
    if v > 0 {
      NextDigit(v, radix);
      LowFirstValue(v / radix, radix);
      ReverseValue(v % radix, LowFirst(v / radix, radix), radix);
      Recombine(v, radix);
    }
  }

  lemma Recombine(v: nat, radix: int)
    requires radix > 0
    ensures v / radix * radix + v % radix == v
  {
  }

  lemma {:induction false} LowFirstDigits(v: nat, radix: int)
    requires 2 <= radix <= 36
    ensures AllDigits(LowFirst(v, radix), radix)
    ensures v > 0 ==> DigitValue(LowFirst(v, radix)[|LowFirst(v, radix)| - 1]) != 0
  {
    if v > 0 {
      NextDigit(v, radix);
      LowFirstDigits(v / radix, radix);
    }
  }

  lemma ReverseValue(d: int, rest: seq<byte>, radix: int)
    requires 0 <= d < 36
    ensures Value(Reverse([DigitChar(d)] + rest), radix) == Value(Reverse(rest), radix) * radix + d
  {
    var r := Reverse([DigitChar(d)] + rest);
    assert r[..|r| - 1] == Reverse(rest);
  }

  /** The written digits are valid, without a leading zero, and evaluate back to the number. */
  lemma TextRoundTrip(v: nat, radix: int)
    requires 2 <= radix <= 36
    ensures var s := Text(v, radix);
            Value(s, radix) == v && AllDigits(s, radix) && (|s| > 1 ==> DigitValue(s[0]) != 0)
  {
    LowFirstValue(v, radix);
    LowFirstDigits(v, radix);
    if v == 0 {
      assert [ZERO][..0] == [];
    }
  }

  lemma TextDigits(v: nat, radix: int)
    requires 2 <= radix <= 36
    ensures AllDigits(LowFirst(v, radix), radix)
    ensures Text(v, radix) == if v == 0 then [ZERO] else Reverse(LowFirst(v, radix))
  {
    LowFirstDigits(v, radix);
  }

  function Power(b: int, n: nat): int { if n == 0 then 1 else b * Power(b, n - 1) }

  lemma {:induction false} TextLength(v: nat, radix: int, n: nat)
    requires 2 <= radix <= 36 && v < Power(radix, n)
    ensures |LowFirst(v, radix)| <= n
  {
    if v > 0 {
      NextDigit(v, radix);
      var high := v / radix;
      Quotient(v, radix, Power(radix, n - 1));
      TextLength(high, radix, n - 1);
    }
  }

  lemma Quotient(v: nat, b: int, m: int)
    requires b >= 2 && v < b * m
    ensures v / b < m
  {
    var q := v / b;
    assert b * q <= v;
    if q >= m {
      Monotone(b, m, q);
    }
  }

  lemma Monotone(b: int, m: int, q: int)
    requires b >= 0 && m <= q
    ensures b * m <= b * q
  {
  }

  function Zeros(n: nat): (s: seq<byte>)
    ensures |s| == n && forall i :: 0 <= i < n ==> s[i] == ZERO
  {
    seq(n, i => ZERO)
  }

  /** Zeros in front change nothing. */
  lemma {:induction false} LeadingZeros(n: nat, s: seq<byte>, radix: int)
    requires AllDigits(s, radix) && radix >= 2
    ensures Value(Zeros(n) + s, radix) == Value(s, radix) && AllDigits(Zeros(n) + s, radix)
    decreases n + |s|
  {
    var padded := Zeros(n) + s;
    if s == [] {
      if n > 0 {
        assert padded[..n - 1] == Zeros(n - 1) + [];
        LeadingZeros(n - 1, [], radix);
      }
    } else {
      assert padded[..|padded| - 1] == Zeros(n) + s[..|s| - 1];
      LeadingZeros(n, s[..|s| - 1], radix);
    }
  }

  // ----- The code -----

  /** `n` is the length of the C string at `at`. */
  predicate Terminated(s: seq<byte>, at: int, n: int) {
    0 <= at && 0 <= n && at + n < |s| && s[at + n] == NUL && forall i :: at <= i < at + n ==> s[i] != NUL
  }

  method StrLen(s: array<byte>, at: int, ghost n: int) returns (len: int)
    requires Terminated(s[..], at, n)
    ensures len == n
  {
    len := 0;
    while s[at + len] != NUL
      invariant 0 <= len <= n
      decreases n - len
    {
      len := len + 1;
    }
  }

  /** Between `at` and `at + n` everything outside `beg` to `end` is mirrored, the rest is as before. */
  predicate Mirrored(before: seq<byte>, now: seq<byte>, at: int, n: int, beg: int, end: int) {
    && |now| == |before| && 0 <= at && 0 <= n && at + n <= |now| && beg + end == n - 1
    && forall p :: 0 <= p < |now| ==>
         now[p] == before[if at <= p < at + n && !(at + beg <= p <= at + end) then 2 * at + n - 1 - p else p]
  }

  lemma MirrorStep(before: seq<byte>, now: seq<byte>, at: int, n: int, beg: int, end: int)
    requires Mirrored(before, now, at, n, beg, end) && 0 <= beg < end < n
    ensures Mirrored(before, now[at + end := now[at + beg]][at + beg := now[at + end]], at, n, beg + 1, end - 1)
  {
  }

  lemma MirrorDone(before: seq<byte>, now: seq<byte>, at: int, n: int, beg: int, end: int)
    requires Mirrored(before, now, at, n, beg, end) && end <= beg
    ensures now[at..at + n] == Reverse(before[at..at + n])
    ensures now[..at] == before[..at] && now[at + n..] == before[at + n..]
  {
  }

  /** Reverses the C string at `at` in place. */
  method StrRev(s: array<byte>, at: int, ghost n: int)
    requires Terminated(s[..], at, n)
    modifies s
    ensures s[at..at + n] == Reverse(old(s[at..at + n]))
    ensures s[..at] == old(s[..at]) && s[at + n..] == old(s[at + n..])
  {
    ghost var before := s[..];
    var beg := 0;
    var end := StrLen(s, at, n);
    end := end - 1;
    while beg < end
      invariant 0 <= beg && end < n && Mirrored(before, s[..], at, n, beg, end)
    {
      MirrorStep(before, s[..], at, n, beg, end);
      var tmp := s[at + end];
      s[at + end] := s[at + beg];
      s[at + beg] := tmp;
      beg := beg + 1;
      end := end - 1;
    }
    MirrorDone(before, s[..], at, n, beg, end);
  }

  /** Writes a number at `at` and terminates it. */
  method Itoa(value: nat, buf: array<byte>, at: int, radix: int)
    requires value < 0x1_0000_0000 && 2 <= radix <= 36
    requires 0 <= at && at + |Text(value, radix)| < buf.Length
    modifies buf
    ensures var n := |Text(value, radix)|;
            && buf[at..at + n] == Text(value, radix) && buf[at + n] == NUL
            && buf[..at] == old(buf[..at]) && buf[at + n + 1..] == old(buf[at + n + 1..])
  {
    ghost var text := Text(value, radix);
    TextDigits(value, radix);
    if value == 0 {
      WriteZero(buf, at);
    } else {
      WriteReversed(value, buf, at, radix, text);
    }
  }

  method WriteZero(buf: array<byte>, at: int)
    requires 0 <= at && at + 1 < buf.Length
    modifies buf
    ensures buf[at..at + 1] == [ZERO] && buf[at + 1] == NUL
    ensures buf[..at] == old(buf[..at]) && buf[at + 2..] == old(buf[at + 2..])
  {
    buf[at] := ZERO;
    buf[at + 1] := NUL;
  }

  method WriteReversed(value: nat, buf: array<byte>, at: int, radix: int, ghost text: seq<byte>)
    requires 2 <= radix <= 36 && 0 <= at && at + |text| < buf.Length
    requires AllDigits(LowFirst(value, radix), radix) && text == Reverse(LowFirst(value, radix))
    modifies buf
    ensures var n := |text|;
            && buf[at..at + n] == text && buf[at + n] == NUL
            && buf[..at] == old(buf[..at]) && buf[at + n + 1..] == old(buf[at + n + 1..])
  {
    ghost var before := buf[..];
    ghost var digits := LowFirst(value, radix);
    var next := WriteLowFirst(value, buf, at, radix);
    HoldsAll(before, buf[..], at, next, digits);
    buf[next] := NUL;
    ghost var written := buf[..];
    DigitsTerminated(written, at, digits, radix);
    StrRev(buf, at, |digits|);
    Turned(before, written, buf[..], at, digits);
  }

  lemma DigitsTerminated(written: seq<byte>, at: int, digits: seq<byte>, radix: int)
    requires 0 <= at && at + |digits| < |written| && AllDigits(digits, radix)
    requires written[at..at + |digits|] == digits && written[at + |digits|] == NUL
    ensures Terminated(written, at, |digits|)
  {
    assert forall i :: at <= i < at + |digits| ==> written[i] == digits[i - at];
  }

  lemma HoldsAll(before: seq<byte>, buf: seq<byte>, at: int, next: int, digits: seq<byte>)
    requires Holds(before, buf, at, next, digits) && next == at + |digits|
    ensures buf[at..next] == digits && buf[..at] == before[..at] && buf[next..] == before[next..]
  {
  }

  /** Digits written after `at` and ended with a NUL, then turned round. */
  lemma Turned(before: seq<byte>, written: seq<byte>, after: seq<byte>, at: int, digits: seq<byte>)
    requires 0 <= at && at + |digits| < |before| == |written| == |after|
    requires written[at..at + |digits|] == digits && written[at + |digits|] == NUL
    requires written[..at] == before[..at] && written[at + |digits| + 1..] == before[at + |digits| + 1..]
    requires after[at..at + |digits|] == Reverse(written[at..at + |digits|])
    requires after[..at] == written[..at] && after[at + |digits|..] == written[at + |digits|..]
    ensures after[at..at + |digits|] == Reverse(digits) && after[at + |digits|] == NUL
    ensures after[..at] == before[..at] && after[at + |digits| + 1..] == before[at + |digits| + 1..]
  {
    var n := at + |digits|;
    assert after[n] == after[n..][0] == written[n..][0];
    assert after[n..][1..] == after[n + 1..] && written[n..][1..] == written[n + 1..];
  }

  /** `buf` holds `digits` from `at` up to `next` and is `before` elsewhere. */
  predicate Holds(before: seq<byte>, buf: seq<byte>, at: int, next: int, digits: seq<byte>) {
    && |buf| == |before| && 0 <= at <= next <= at + |digits| <= |buf|
    && forall p :: 0 <= p < |buf| ==> buf[p] == if at <= p < next then digits[p - at] else before[p]
  }

  lemma HoldsOneMore(before: seq<byte>, buf: seq<byte>, at: int, next: int, digits: seq<byte>, d: byte, rest: seq<byte>)
    requires Holds(before, buf, at, next, digits) && digits[next - at..] == [d] + rest
    ensures next < |buf| && Holds(before, buf[next := d], at, next + 1, digits) && digits[next + 1 - at..] == rest
  {
    assert digits[next - at..][0] == d && digits[next - at..][1..] == rest;
  }

  /** The digit loop of `itoa`: lowest digit first. */
  method WriteLowFirst(value: nat, buf: array<byte>, at: int, radix: int) returns (next: int)
    requires 2 <= radix <= 36 && 0 <= at && at + |LowFirst(value, radix)| < buf.Length
    modifies buf
    ensures next == at + |LowFirst(value, radix)| && Holds(old(buf[..]), buf[..], at, next, LowFirst(value, radix))
  {
    ghost var digits := LowFirst(value, radix);
    var newval := value;
    next := at;
    while newval > 0
      invariant 0 <= newval && Holds(old(buf[..]), buf[..], at, next, digits)
      invariant digits[next - at..] == LowFirst(newval, radix)
    {
      NextDigit(newval, radix);
      HoldsOneMore(old(buf[..]), buf[..], at, next, digits, DigitChar(newval % radix), LowFirst(newval / radix, radix));
      buf[next] := DigitChar(newval % radix);
      next := next + 1;
      newval := newval / radix;
    }
  }

  /** A 32-bit number has at most eight hexadecimal digits. */
  lemma HexLength(value: nat)
    requires value < 0x1_0000_0000
    ensures 1 <= |Text(value, 16)| <= 8
  {
    assert Power(16, 8) == 0x1_0000_0000;
    TextLength(value, 16, 8);
  }

  /** The `%#x` conversion: the characters it prints. */
  method PaddedHex(value: nat) returns (printed: seq<byte>)
    requires value < 0x1_0000_0000
    ensures |printed| == 8 && AllDigits(printed, 16) && Value(printed, 16) == value
  {
    var buf := new byte[64](_ => NUL);
    HexLength(value);
    TextRoundTrip(value, 16);
    Itoa(value, buf, 8, 16);
    printed := Pad(buf, Text(value, 16));
  }

  /** Fills with zeros from the length of the text up to it, and prints from there. */
  method Pad(buf: array<byte>, ghost text: seq<byte>) returns (printed: seq<byte>)
    requires buf.Length == 64 && 1 <= |text| <= 8 && AllDigits(text, 16)
    requires buf[8..8 + |text|] == text && buf[8 + |text|] == NUL
    modifies buf
    ensures |printed| == 8 && AllDigits(printed, 16) && Value(printed, 16) == Value(text, 16)
  {
    assert forall i :: 8 <= i < 8 + |text| ==> buf[i] == buf[8..8 + |text|][i - 8] == text[i - 8];
    var start := StrLen(buf, 8, |text|);
    var i := start;
    while i < 8
      invariant start <= i <= 8
      invariant forall k :: start <= k < i ==> buf[k] == ZERO
      invariant forall k :: 8 <= k < 8 + |text| ==> buf[k] == text[k - 8]
      invariant buf[8 + |text|] == NUL
    {
      buf[i] := ZERO;
      i := i + 1;
    }
    var n := StrLen(buf, start, 8);
    printed := buf[start..start + n];
    PaddedIs(printed, text);
    LeadingZeros(8 - start, text, 16);
  }

  lemma PaddedIs(printed: seq<byte>, text: seq<byte>)
    requires |printed| == 8 && 1 <= |text| <= 8
    requires forall k :: 0 <= k < 8 ==> printed[k] == if k < 8 - |text| then ZERO else text[k - (8 - |text|)]
    ensures printed == Zeros(8 - |text|) + text
  {
  }
}
