/** Base64 in src/httplib.h: the encoder with its 32-bit accumulator, against section 4 of RFC 4648. */
module Base64 {
  import opened Basics
  import opened ModularIndex

  type Byte = b: int | 0 <= b < 256

  /** Two's complement, as the accumulator wraps. */
  function Wrap32(x: int): int {
    (x + 0x8000_0000) % 0x1_0000_0000 - 0x8000_0000
  }

  /** A value of six bits, or the pad. */
  type Code = v: int | 0 <= v <= 64

  const PAD: Code := 64

  /** The table: capitals, small letters, digits, plus and slash. */
  function Symbol(v: Code): char {
    if v < 26 then ('A' as int + v) as char
    else if v < 52 then ('a' as int + v - 26) as char
    else if v < 62 then ('0' as int + v - 52) as char
    else if v == 62 then '+'
    else if v == 63 then '/'
    else '='
  }

  function Text(codes: seq<Code>): (t: string)
    ensures |t| == |codes|
  {
    seq(|codes|, i requires 0 <= i < |codes| => Symbol(codes[i]))
  }

  function Pow2(n: nat): nat {
    if n == 0 then 1 else 2 * Pow2(n - 1)
  }

  /** An arithmetic shift to the right, bit for bit. */
  function ShiftRight(x: int, n: nat): int
    decreases n
  {
    if n == 0 then x else ShiftRight(x / 2, n - 1)
  }

  lemma {:induction false} ShiftIs(x: int, n: nat, p: int, q: int, r: int)
    requires Pow2(n) == p && x == q * p + r && 0 <= r < p
    ensures ShiftRight(x, n) == q
    decreases n
  {
    if n > 0 {
      var half := Pow2(n - 1);
      assert x == 2 * (q * half) + r;
      ShiftIs(x / 2, n - 1, half, q, r / 2);
    }
  }

  /** The low six bits of a value shifted right. */
  function Digit(x: int, shift: nat): Code {
    ShiftRight(x, shift) % 64
  }

  // ----- the standard: 24 bits make four digits

  function First(a: Byte): Code {
    a / 4
  }

  function Second(a: Byte, b: Byte): Code {
    a % 4 * 16 + b / 16
  }

  function Third(b: Byte, c: Byte): Code {
    b % 16 * 4 + c / 64
  }

  function Fourth(c: Byte): Code {
    c % 64
  }

  /** These are the four digits of the 24-bit number that three bytes form, and so they determine the bytes. */
  lemma GroupsAreNumbers(a: Byte, b: Byte, c: Byte)
    ensures ((First(a) * 64 + Second(a, b)) * 64 + Third(b, c)) * 64 + Fourth(c) == a * 0x1_0000 + b * 0x100 + c
    ensures First(a) < 64 && Second(a, b) < 64 && Third(b, c) < 64 && Fourth(c) < 64
  {
  }

  function Four(a: Byte, b: Byte, c: Byte): seq<Code> {
    [First(a), Second(a, b), Third(b, c), Fourth(c)]
  }

  /** A last group of one or two bytes is filled with zeros; digits that hold none of its bits become pads. */
  function Codes(s: seq<Byte>): seq<Code>
    decreases |s|
  {
    if s == [] then []
    else if |s| == 1 then [First(s[0]), Second(s[0], 0), PAD, PAD]
    else if |s| == 2 then [First(s[0]), Second(s[0], s[1]), Third(s[1], 0), PAD]
    else Four(s[0], s[1], s[2]) + Codes(s[3..])
  }

  /** A number of whole groups. */
  predicate Whole(s: seq<Byte>)
    decreases |s|
  {
    s == [] || (|s| >= 3 && Whole(s[3..]))
  }

  lemma {:induction false} WholeGrows(s: seq<Byte>, g: seq<Byte>)
    requires Whole(s) && |g| == 3
    ensures Whole(s + g)
    decreases |s|
  {
    if s == [] {
      assert s + g == g && g[3..] == [];
    } else {
      assert (s + g)[3..] == s[3..] + g;
      WholeGrows(s[3..], g);
    }
  }

  lemma {:induction false} WholeLength(s: seq<Byte>)
    requires Whole(s)
    ensures 3 * |Codes(s)| == 4 * |s|
    decreases |s|
  {
    if s != [] {
      WholeLength(s[3..]);
      assert |Codes(s)| == 4 + |Codes(s[3..])|;
    }
  }

  lemma {:induction false} EncodeInGroups(s: seq<Byte>, t: seq<Byte>)
    requires Whole(s)
    ensures Codes(s + t) == Codes(s) + Codes(t)
    decreases |s|
  {
    if s == [] {
      assert s + t == t;
    } else {
      assert (s + t)[3..] == s[3..] + t;
      EncodeInGroups(s[3..], t);
    }
  }

  lemma LengthOfRest(s: seq<Byte>)
    requires |s| < 3
    ensures |Codes(s)| == if s == [] then 0 else 4
  {
  }

  lemma LengthOfGroup(s: seq<Byte>)
    requires |s| >= 3
    ensures |Codes(s)| == 4 + |Codes(s[3..])|
  {
  }

  lemma {:induction false} EncodedLength(s: seq<Byte>)
    ensures |Text(Codes(s))| == |Codes(s)| == 4 * ((|s| + 2) / 3)
    decreases |s|
  {
    if |s| >= 3 {
      LengthOfGroup(s);
      EncodedLength(s[3..]);
      assert 4 + 4 * ((|s| - 3 + 2) / 3) == 4 * ((|s| + 2) / 3);
    } else {
      LengthOfRest(s);
    }
  }

  // ----- the accumulator

  /** A value that differs by a multiple of 2^16 has the same low bits. */
  lemma SameLow(x: int, y: int, k: int)
    requires y == x + k * 0x1_0000
    ensures y % 0x1_0000 == x % 0x1_0000
  {
    QuotientRemainderUnique(y, 0x1_0000, x / 0x1_0000 + k, x % 0x1_0000);
  }

  /** Wrapping keeps the low bits. */
  lemma WrapKeepsLow(x: int)
    ensures Wrap32(x) % 0x1_0000 == x % 0x1_0000
  {
    var q := (x + 0x8000_0000) / 0x1_0000_0000;
    assert Wrap32(x) == x - q * 0x1_0000_0000;
    SameLow(x, Wrap32(x), -q * 0x1_0000);
  }

  /** After a byte is shifted in, the low sixteen bits are that byte and the one before. */
  lemma ShiftIn(val: int, c: Byte)
    ensures Wrap32(Wrap32(val * 0x100) + c) % 0x1_0000 == val % 0x100 * 0x100 + c
    ensures Wrap32(Wrap32(val * 0x100) + c) % 0x100 == c
  {
    var x, y := Wrap32(val * 0x100) + c, Wrap32(Wrap32(val * 0x100) + c);
    WrapKeepsLow(x);
    WrapKeepsLow(val * 0x100);
    var q := Wrap32(val * 0x100) / 0x1_0000;
    QuotientRemainderUnique(val * 0x100, 0x1_0000, val / 0x100, val % 0x100 * 0x100);
    QuotientRemainderUnique(x, 0x1_0000, q, val % 0x100 * 0x100 + c);
    QuotientRemainderUnique(y, 0x100, y / 0x1_0000 * 0x100 + val % 0x100, c);
  }

  /** The digit of a value taken apart at the shift. */
  lemma DigitIs(x: int, shift: nat, p: int, q: int, d: int, r: int)
    requires Pow2(shift) == p && 0 <= r < p && 0 <= d < 64
    requires x == (q * 64 + d) * p + r
    ensures Digit(x, shift) == d
  {
    ShiftIs(x, shift, p, q * 64 + d, r);
    QuotientRemainderUnique(q * 64 + d, 64, q, d);
  }

  lemma FirstDigit(val: int, a: Byte)
    requires val % 0x100 == a
    ensures Digit(val, 2) == First(a)
  {
    DigitIs(val, 2, 4, val / 0x100, a / 4, a % 4);
  }

  lemma SecondDigit(val: int, a: Byte, b: Byte)
    requires val % 0x1_0000 == a * 0x100 + b
    ensures Digit(val, 4) == Second(a, b)
  {
    DigitIs(val, 4, 16, val / 0x1_0000 * 64 + a / 4, Second(a, b), b % 16);
  }

  lemma ThirdDigit(val: int, b: Byte, c: Byte)
    requires val % 0x1_0000 == b * 0x100 + c
    ensures Digit(val, 6) == Third(b, c)
  {
    DigitIs(val, 6, 64, val / 0x1_0000 * 16 + b / 16, Third(b, c), c % 64);
  }

  lemma LastDigit(val: int, c: Byte)
    requires val % 0x100 == c
    ensures Digit(val, 0) == Fourth(c)
  {
    DigitIs(val, 0, 1, val / 0x100 * 4 + c / 64, Fourth(c), 0);
  }

  /** The digits emitted for the bytes of an unfinished group. */
  function Partial(s: seq<Byte>): seq<Code>
    requires |s| < 3
  {
    if s == [] then [] else if |s| == 1 then [First(s[0])] else [First(s[0]), Second(s[0], s[1])]
  }

  /** The inner loop, lines 2388-2391. */
  method Emit(before: string, val: int, valb0: int) returns (out: string, valb: int)
    requires valb0 in {2, 4, 6}
    ensures out == before + Text([Digit(val, valb0)] + if valb0 == 6 then [Digit(val, 0)] else [])
    ensures valb == if valb0 == 6 then -6 else valb0 - 6
  {
    out, valb := before, valb0;
    while valb >= 0
      invariant (valb == valb0 && out == before)
             || (valb == valb0 - 6 && out == before + Text([Digit(val, valb0)]))
             || (valb0 == 6 && valb == -6 && out == before + Text([Digit(val, 6), Digit(val, 0)]))
    {
      var digit := Digit(val, valb);
      out := out + [Symbol(digit)];
      valb := valb - 6;
    }
  }

  /** What the byte `c` adds to an unfinished group. */
  function Added(open: seq<Byte>, c: Byte): seq<Code>
    requires |open| < 3
  {
    if open == [] then [First(c)]
    else if |open| == 1 then [Second(open[0], c)]
    else [Third(open[1], c), Fourth(c)]
  }

  lemma OneGroup(g: seq<Byte>)
    requires |g| == 3
    ensures Codes(g) == Four(g[0], g[1], g[2])
  {
    assert Codes(g[3..]) == [];
  }

  lemma FourJoined(p: Code, q: Code, r: Code, s: Code)
    ensures [p, q] + [r, s] == [p, q, r, s]
  {
  }

  lemma GroupIsFull(open: seq<Byte>, c: Byte)
    requires |open| == 2
    ensures Partial(open) + Added(open, c) == Codes(open + [c])
  {
    OneGroup(open + [c]);
    FourJoined(First(open[0]), Second(open[0], open[1]), Third(open[1], c), Fourth(c));
  }

  lemma GroupGrows(open: seq<Byte>, c: Byte)
    requires |open| < 2
    ensures Partial(open) + Added(open, c) == Partial(open + [c])
  {
  }

  /** The inner loop emits just that. */
  lemma EmittedDigits(open: seq<Byte>, c: Byte, val: int)
    requires |open| < 3
    requires val % 0x100 == c && (open != [] ==> val % 0x1_0000 == open[|open| - 1] * 0x100 + c)
    ensures Added(open, c) ==
            if open == [] then [Digit(val, 2)]
            else if |open| == 1 then [Digit(val, 4)]
            else [Digit(val, 6), Digit(val, 0)]
  {
    if open == [] {
      FirstDigit(val, c);
    } else if |open| == 1 {
      SecondDigit(val, open[0], c);
    } else {
      ThirdDigit(val, open[1], c);
      LastDigit(val, c);
    }
  }

  lemma ShiftedOut(val: int)
    ensures Wrap32(val * 0x100) % 0x1_0000 == val % 0x100 * 0x100
  {
    WrapKeepsLow(val * 0x100);
    QuotientRemainderUnique(val * 0x100, 0x1_0000, val / 0x100, val % 0x100 * 0x100);
  }

  /** The digit made of the bits left over, and the pads. */
  lemma LastOfOne(a: Byte, val: int)
    requires val % 0x100 == a
    ensures Codes([a]) == Partial([a]) + [Digit(Wrap32(val * 0x100), 4)] + [PAD, PAD]
  {
    ShiftedOut(val);
    SecondDigit(Wrap32(val * 0x100), a, 0);
  }

  lemma LastOfTwo(a: Byte, b: Byte, val: int)
    requires val % 0x100 == b
    ensures Codes([a, b]) == Partial([a, b]) + [Digit(Wrap32(val * 0x100), 6)] + [PAD]
  {
    ShiftedOut(val);
    ThirdDigit(Wrap32(val * 0x100), b, 0);
  }

  /** The bytes seen so far are whole groups and an unfinished one, and their digits are out. */
  ghost predicate Progress(seen: seq<Byte>, groups: seq<Byte>, open: seq<Byte>, codes: seq<Code>) {
    seen == groups + open && Whole(groups) && |open| < 3 && codes == Codes(groups) + Partial(open)
  }

  function NextGroups(groups: seq<Byte>, open: seq<Byte>, c: Byte): seq<Byte> {
    if |open| == 2 then groups + (open + [c]) else groups
  }

  function NextOpen(open: seq<Byte>, c: Byte): seq<Byte> {
    if |open| == 2 then [] else open + [c]
  }

  lemma ProgressStep(seen: seq<Byte>, groups: seq<Byte>, open: seq<Byte>, codes: seq<Code>, c: Byte)
    requires Progress(seen, groups, open, codes)
    ensures Progress(seen + [c], NextGroups(groups, open, c), NextOpen(open, c), codes + Added(open, c))
  {
    Associate(groups, open, [c]);
    Associate(Codes(groups), Partial(open), Added(open, c));
    if |open| < 2 {
      GroupGrows(open, c);
    } else {
      GroupIsFull(open, c);
      WholeGrows(groups, open + [c]);
      EncodeInGroups(groups, open + [c]);
    }
  }

  /** What is missing from a multiple of four. */
  function Pads(length: nat): seq<Code> {
    if length % 4 == 0 then [] else if length % 4 == 3 then [PAD] else if length % 4 == 2 then [PAD, PAD] else [PAD, PAD, PAD]
  }

  /** The pads, lines 2396-2398. */
  method Pad(digits: string, ghost codes: seq<Code>) returns (out: string)
    requires digits == Text(codes)
    ensures out == Text(codes + Pads(|codes|))
  {
    out := digits;
    ghost var done := codes;
    while |out| % 4 != 0
      invariant out == Text(done) && done + Pads(|done|) == codes + Pads(|codes|)
      decreases (4 - |out| % 4) % 4
    {
      TextConcat(done, [PAD]);
      assert Symbol(PAD) == '=';
      assert done + Pads(|done|) == done + [PAD] + Pads(|done| + 1);
      done := done + [PAD];
      out := out + "=";
    }
  }

  lemma TextConcat(a: seq<Code>, b: seq<Code>)
    ensures Text(a + b) == Text(a) + Text(b)
  {
  }

  /** Lines 2386-2391: one byte, and the digits it completes. */
  method TakeByte(digits: string, val0: int, valb0: int, c: Byte, ghost open: seq<Byte>, ghost codes: seq<Code>)
    returns (out: string, val: int, valb: int)
    requires |open| < 3 && digits == Text(codes)
    requires valb0 == 2 * |open| - 6 && (open != [] ==> val0 % 0x100 == open[|open| - 1])
    ensures out == Text(codes + Added(open, c))
    ensures valb == 2 * |NextOpen(open, c)| - 6 && val % 0x100 == c
  {
    ShiftIn(val0, c);
    val := Wrap32(Wrap32(val0 * 0x100) + c);
    EmittedDigits(open, c, val);
    TextConcat(codes, Added(open, c));
    out, valb := Emit(digits, val, valb0 + 8);
  }

  /** Lines 2375-2401. */
  method Base64Encode(bytes: seq<Byte>) returns (out: string)
    ensures out == Text(Codes(bytes))
  {
    out := "";
    var val, valb := 0, -6;
    var i := 0;
    ghost var groups: seq<Byte>, open: seq<Byte>, codes: seq<Code> := [], [], [];
    while i < |bytes|
      invariant i <= |bytes|
      invariant Progress(bytes[..i], groups, open, codes) && out == Text(codes)
      invariant valb == 2 * |open| - 6
      invariant open != [] ==> val % 0x100 == open[|open| - 1]
    {
      var c := bytes[i];
      assert bytes[..i + 1] == bytes[..i] + [c];
      ProgressStep(bytes[..i], groups, open, codes, c);
      out, val, valb := TakeByte(out, val, valb, c, open, codes);
      groups, open, codes := NextGroups(groups, open, c), NextOpen(open, c), codes + Added(open, c);
      i := i + 1;
    }
    assert bytes[..i] == bytes;
    out := Finish(out, val, valb, groups, open, codes);
  }

  /** Lines 2394-2398: the bits left over, and the pads. */
  method Finish(digits: string, val: int, valb: int, ghost groups: seq<Byte>, ghost open: seq<Byte>, ghost codes: seq<Code>)
    returns (out: string)
    requires Progress(groups + open, groups, open, codes) && digits == Text(codes)
    requires valb == 2 * |open| - 6 && (open != [] ==> val % 0x100 == open[|open| - 1])
    ensures out == Text(Codes(groups + open))
  {
    out := digits;
    ghost var all := codes;
    EncodeInGroups(groups, open);
    LengthIsWhole(groups);
    if valb > -6 {
      var digit := Digit(Wrap32(val * 0x100), valb + 8);
      Finished(groups, open, val, codes);
      TextConcat(codes, [digit]);
      all := codes + [digit];
      out := out + [Symbol(digit)];
    }
    out := Pad(out, all);
  }

  lemma LengthIsWhole(groups: seq<Byte>)
    requires Whole(groups)
    ensures |Codes(groups)| % 4 == 0
  {
    WholeLength(groups);
    QuotientRemainderUnique(|Codes(groups)|, 4, |Codes(groups)| - |groups|, 0);
  }

  /** An unfinished group needs one more digit, and pads up to four. */
  lemma Finished(groups: seq<Byte>, open: seq<Byte>, val: int, codes: seq<Code>)
    requires Progress(groups + open, groups, open, codes) && open != []
    requires val % 0x100 == open[|open| - 1]
    ensures Codes(groups + open) == codes + [Digit(Wrap32(val * 0x100), 2 * |open| + 2)] + Pads(|codes| + 1)
  {
    var digit := Digit(Wrap32(val * 0x100), 2 * |open| + 2);
    EncodeInGroups(groups, open);
    LengthIsWhole(groups);
    LastOfOpen(open, val, digit);
    PadsShift(|Codes(groups)|, |open| + 1);
    Associate(Codes(groups), Partial(open), [digit]);
    Associate(Codes(groups), Partial(open) + [digit], Pads(|codes| + 1));
  }

  lemma PadsShift(k: nat, n: nat)
    requires k % 4 == 0
    ensures Pads(k + n) == Pads(n)
  {
    QuotientRemainderUnique(k + n, 4, k / 4 + n / 4, n % 4);
  }

  lemma LastOfOpen(open: seq<Byte>, val: int, digit: Code)
    requires 0 < |open| < 3 && val % 0x100 == open[|open| - 1]
    requires digit == Digit(Wrap32(val * 0x100), 2 * |open| + 2)
    ensures Codes(open) == Partial(open) + [digit] + Pads(|open| + 1) && |Partial(open)| == |open|
  {
    if |open| == 1 {
      assert open == [open[0]];
      LastOfOne(open[0], val);
    } else {
      assert open == [open[0], open[1]];
      LastOfTwo(open[0], open[1], val);
    }
  }

  // ----- the decoder

  function ValueOf(c: char): Option<Code> {
    if 'A' <= c <= 'Z' then Some(c as int - 'A' as int)
    else if 'a' <= c <= 'z' then Some(c as int - 'a' as int + 26)
    else if '0' <= c <= '9' then Some(c as int - '0' as int + 52)
    else if c == '+' then Some(62)
    else if c == '/' then Some(63)
    else if c == '=' then Some(PAD)
    else None
  }

  function CodesOf(t: string): Option<seq<Code>> {
    if t == "" then Some([])
    else if ValueOf(t[0]).None? || CodesOf(t[1..]).None? then None
    else Some([ValueOf(t[0]).value] + CodesOf(t[1..]).value)
  }

  /** Groups of four; only the last may be padded, and the bits a pad cuts off are zero. */
  function Decode(codes: seq<Code>): Option<seq<Byte>>
    decreases |codes|
  {
    if codes == [] then Some([])
    else if |codes| < 4 || codes[0] == PAD || codes[1] == PAD then None
    else if codes[2] == PAD then DecodeOne(codes)
    else if codes[3] == PAD then DecodeTwo(codes)
    else
      var p: int, q: int, r: int, s: int := codes[0], codes[1], codes[2], codes[3];
      var rest := Decode(codes[4..]);
      if rest.None? then None
      else Some([p * 4 + q / 16, q % 16 * 16 + r / 4, r % 4 * 64 + s] + rest.value)
  }

  function DecodeOne(codes: seq<Code>): Option<seq<Byte>>
    requires |codes| >= 4 && codes[0] != PAD && codes[1] != PAD
  {
    var p: int, q: int := codes[0], codes[1];
    if |codes| == 4 && codes[3] == PAD && q % 16 == 0 then Some([p * 4 + q / 16]) else None
  }

  function DecodeTwo(codes: seq<Code>): Option<seq<Byte>>
    requires |codes| >= 4 && codes[0] != PAD && codes[1] != PAD && codes[2] != PAD
  {
    var p: int, q: int, r: int := codes[0], codes[1], codes[2];
    if |codes| == 4 && r % 4 == 0 then Some([p * 4 + q / 16, q % 16 * 16 + r / 4]) else None
  }

  function DecodeText(t: string): Option<seq<Byte>> {
    var codes := CodesOf(t);
    if codes.None? then None else Decode(codes.value)
  }

  /** The digits of three bytes give these bytes back. */
  lemma BytesOfDigits(a: Byte, b: Byte, c: Byte)
    ensures First(a) as int * 4 + Second(a, b) as int / 16 == a
    ensures Second(a, b) as int % 16 * 16 + Third(b, c) as int / 4 == b
    ensures Third(b, c) as int % 4 * 64 + Fourth(c) as int == c
  {
  }

  lemma {:induction false} DecodeUndoesCodes(s: seq<Byte>)
    ensures Decode(Codes(s)) == Some(s)
    decreases |s|
  {
    if |s| >= 3 {
      BytesOfDigits(s[0], s[1], s[2]);
      assert Codes(s)[4..] == Codes(s[3..]);
      DecodeUndoesCodes(s[3..]);
      assert s == [s[0], s[1], s[2]] + s[3..];
    } else if |s| == 2 {
      BytesOfDigits(s[0], s[1], 0);
      assert s == [s[0], s[1]];
    } else if |s| == 1 {
      BytesOfDigits(s[0], 0, 0);
      assert s == [s[0]];
    }
  }

  lemma {:induction false} CodesUndoesDecode(codes: seq<Code>)
    requires Decode(codes).Some?
    ensures Codes(Decode(codes).value) == codes
    decreases |codes|
  {
    if codes != [] {
      if codes[2] == PAD {
        CodesOfOne(codes);
      } else if codes[3] == PAD {
        CodesOfTwo(codes);
      } else {
        CodesUndoesDecode(codes[4..]);
        assert Decode(codes).value[3..] == Decode(codes[4..]).value;
        CodesOfFour(codes, Decode(codes).value, codes[0], codes[1], codes[2], codes[3]);
      }
    }
  }

  /** The bytes of four digits have just these digits. */
  lemma DigitsOfBytes(a: Byte, b: Byte, c: Byte, p: int, q: int, r: int, s: int)
    requires 0 <= p < 64 && 0 <= q < 64 && 0 <= r < 64 && 0 <= s < 64
    requires a == p * 4 + q / 16 && b == q % 16 * 16 + r / 4 && c == r % 4 * 64 + s
    ensures First(a) == p && Second(a, b) == q && Third(b, c) == r && Fourth(c) == s
  {
  }

  lemma CodesOfFour(codes: seq<Code>, bytes: seq<Byte>, p: int, q: int, r: int, s: int)
    requires |codes| >= 4 && codes[0] == p && codes[1] == q && codes[2] == r && codes[3] == s
    requires p != PAD && q != PAD && r != PAD && s != PAD
    requires |bytes| >= 3 && Codes(bytes[3..]) == codes[4..]
    requires bytes[0] == p * 4 + q / 16 && bytes[1] == q % 16 * 16 + r / 4 && bytes[2] == r % 4 * 64 + s
    ensures Codes(bytes) == codes
  {
    DigitsOfBytes(bytes[0], bytes[1], bytes[2], p, q, r, s);
    FirstFour(codes);
  }

  lemma FirstFour(codes: seq<Code>)
    requires |codes| >= 4
    ensures codes == [codes[0], codes[1], codes[2], codes[3]] + codes[4..]
  {
  }

  lemma CodesOfOne(codes: seq<Code>)
    requires |codes| >= 4 && codes[0] != PAD && codes[1] != PAD && codes[2] == PAD && DecodeOne(codes).Some?
    ensures Codes(DecodeOne(codes).value) == codes
  {
  }

  lemma CodesOfTwo(codes: seq<Code>)
    requires |codes| >= 4 && codes[0] != PAD && codes[1] != PAD && codes[2] != PAD && codes[3] == PAD
    requires DecodeTwo(codes).Some?
    ensures Codes(DecodeTwo(codes).value) == codes
  {
    var bytes := DecodeTwo(codes).value;
    DigitsOfBytes(bytes[0], bytes[1], 0, codes[0], codes[1], codes[2], 0);
  }

  lemma SymbolReads(v: Code)
    ensures ValueOf(Symbol(v)) == Some(v)
  {
  }

  lemma {:induction false} TextReads(codes: seq<Code>)
    ensures CodesOf(Text(codes)) == Some(codes)
  {
    if codes != [] {
      SymbolReads(codes[0]);
      assert Text(codes)[1..] == Text(codes[1..]);
      TextReads(codes[1..]);
      assert codes == [codes[0]] + codes[1..];
    }
  }

  /** Decoding undoes encoding, for every input. */
  lemma DecodeUndoesEncode(s: seq<Byte>)
    ensures DecodeText(Text(Codes(s))) == Some(s)
  {
    TextReads(Codes(s));
    DecodeUndoesCodes(s);
  }
}
