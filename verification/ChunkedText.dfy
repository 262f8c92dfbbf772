/**
 The chunked transfer coding (section 7.1 of RFC 9112) as src/httplib.h writes and reads it: what a
 writer puts on the wire, what a reader makes of it, and how the two fit together.
 */
module ChunkedText {
  import opened Basics
  import opened HttpText
  import QueryText
  import opened SocketStream

  /** The largest value of an unsigned integer type of at least 32 bits. */
  type UnsignedMax = n: nat | n >= 0xFFFF_FFFF witness 0xFFFF_FFFF

  /** The largest value of unsigned long: a platform's choice, and on some narrower than sizes are. */
  const ULONG_MAX: UnsignedMax
  const HEADER_MAX_LENGTH := 8192

  // ----- sizes

  const CHARSET: string := "0123456789abcdef"

  function Hex(n: nat): (s: string)
    ensures s != ""
  {
    if n < 16 then [CHARSET[n]] else Hex(n / 16) + [CHARSET[n % 16]]
  }

  /** Lines 2331-2339. */
  method FromIToHex(size: nat) returns (ret: string)
    ensures ret == Hex(size)
  {
    var n: nat := size / 16;
    ret := [CHARSET[size % 16]];
    while n > 0
      invariant Hex(size) == if n == 0 then ret else Hex(n) + ret
      decreases n
    {
      ret := [CHARSET[n % 16]] + ret;
      n := n / 16;
    }
  }

  predicate IsHex(c: char) {
    QueryText.HexDigit(c).Some?
  }

  predicate AllHex(s: string) {
    forall i | 0 <= i < |s| :: IsHex(s[i])
  }

  function HexPrefix(s: string): (d: string)
    ensures d <= s && AllHex(d)
    ensures |d| < |s| ==> !IsHex(s[|d|])
  {
    if s != "" && IsHex(s[0]) then [s[0]] + HexPrefix(s[1..]) else ""
  }

  function ValueOf(d: string): nat
    requires AllHex(d)
  {
    if d == "" then 0
    else
      assert IsHex(d[|d| - 1]);
      ValueOf(d[..|d| - 1]) * 16 + QueryText.HexDigit(d[|d| - 1]).value
  }

  function SkipPrefix(s: string): string {
    if |s| >= 3 && s[0] == '0' && s[1] in {'x', 'X'} && IsHex(s[2]) then s[2..] else s
  }

  /** The C library's strtoul in base 16: blanks, a sign, a prefix 0x, digits; saturating. */
  function Strtoul(s: string): (r: Option<nat>)
    ensures r.Some? ==> r.value <= ULONG_MAX
  {
    var t := SkipSpace(s);
    var negative := t != "" && t[0] == '-';
    var u := if t != "" && t[0] in {'-', '+'} then t[1..] else t;
    var d := HexPrefix(SkipPrefix(u));
    if d == "" then None
    else if ValueOf(d) > ULONG_MAX then Some(ULONG_MAX)
    else if negative then Some(if ValueOf(d) == 0 then 0 else ULONG_MAX + 1 - ValueOf(d))
    else Some(ValueOf(d))
  }

  lemma {:induction false} HexIsHex(n: nat)
    ensures AllHex(Hex(n))
    ensures ValueOf(Hex(n)) == n
  {
    if n >= 16 {
      HexIsHex(n / 16);
      assert Hex(n)[..|Hex(n)| - 1] == Hex(n / 16);
    } else {
      assert Hex(n)[..0] == "";
    }
  }

  lemma {:induction false} HexPrefixEnds(d: string, c: char, t: string)
    requires AllHex(d)
    requires !IsHex(c)
    ensures HexPrefix(d + [c] + t) == d
  {
    if d != "" {
      assert (d + [c] + t)[1..] == d[1..] + [c] + t;
      HexPrefixEnds(d[1..], c, t);
    }
  }

  /** A number with neither blanks nor sign nor prefix. */
  lemma PlainStart(d: string, c: char, t: string)
    requires d != "" && AllHex(d) && c !in {'x', 'X'}
    ensures var s := d + [c] + t;
            SkipSpace(s) == s && s[0] !in {'-', '+'} && SkipPrefix(s) == s
  {
    var s := d + [c] + t;
    assert s[0] == d[0] && IsHex(d[0]);
    assert |d| > 1 ==> IsHex(d[1]);
    assert s[1] == if |d| == 1 then c else d[1];
  }

  lemma StrtoulOf(s: string, d: string)
    requires s != "" && SkipSpace(s) == s && s[0] !in {'-', '+'} && SkipPrefix(s) == s
    requires HexPrefix(s) == d && d != ""
    ensures Strtoul(s) == Some(Min(ValueOf(d), ULONG_MAX))
  {
  }

  lemma StrtoulPlain(d: string, c: char, t: string)
    requires d != "" && AllHex(d) && !IsHex(c) && c !in {'x', 'X'}
    ensures Strtoul(d + [c] + t) == Some(Min(ValueOf(d), ULONG_MAX))
  {
    PlainStart(d, c, t);
    HexPrefixEnds(d, c, t);
    StrtoulOf(d + [c] + t, d);
  }

  /** A printed size reads back from its line, as far as it fits. */
  lemma SizeReadsBack(n: nat)
    ensures Strtoul(Hex(n) + CRLF) == Some(Min(n, ULONG_MAX))
    ensures Free(Hex(n), '\n')
  {
    HexIsHex(n);
    StrtoulPlain(Hex(n), '\r', "\n");
    assert Hex(n) + CRLF == Hex(n) + ['\r'] + "\n";
    assert forall i | 0 <= i < |Hex(n)| :: IsHex(Hex(n)[i]);
  }

  // ----- reading

  /** What comparing with strcmp sees of a line. */
  function CString(s: string): string {
    s[..IndexOf(s, '\0')]
  }

  /** A line ends at its line feed, so one that compares equal to CRLF is CRLF. */
  lemma BlankLine(s: string)
    ensures CString(LineOf(s)) == CRLF <==> LineOf(s) == CRLF
  {
    if CString(LineOf(s)) == CRLF {
      LineEndsAt(s, 1);
    } else if LineOf(s) == CRLF {
      IndexOfNone(CRLF, '\0');
    }
  }

  lemma {:induction false} LineEndsAt(s: string, i: nat)
    requires i < |LineOf(s)| && LineOf(s)[i] == '\n'
    ensures |LineOf(s)| == i + 1
  {
    if s[0] != '\n' {
      LineEndsAt(s[1..], i - 1);
    }
  }

  lemma IndexOfNone(s: string, c: char)
    requires Free(s, c)
    ensures IndexOf(s, c) == |s|
  {
  }

  /** Lines 3948-3966: the trailer, whose field lines are not reported here. */
  function AfterTrailer(s: string): (rest: Option<string>)
    decreases |s|
  {
    if s == "" then None
    else if LineOf(s) == CRLF then Some(AfterLine(s))
    else if |LineOf(s)| > HEADER_MAX_LENGTH then None
    else AfterTrailer(AfterLine(s))
  }

  /** The size on a chunk's first line; none if there is no line or no usable number. */
  function SizeLine(s: string): (size: Option<nat>)
    ensures size.Some? ==> s != "" && size.value < ULONG_MAX
  {
    var size := Strtoul(LineOf(s));
    if s == "" || size.None? || size.value == ULONG_MAX then None else size
  }

  /** What follows a chunk of `size` characters and the line that closes it. */
  function AfterChunk(s: string, size: nat): (rest: Option<string>)
    ensures rest.Some? ==> size < |s| && |rest.value| < |s|
  {
    if |s| <= size || LineOf(s[size..]) != CRLF then None else Some(AfterLine(s[size..]))
  }

  function Prepend(data: string, r: Option<(string, string)>): Option<(string, string)> {
    if r.None? then None else Some((data + r.value.0, r.value.1))
  }

  /** Lines 3914-3967: the content of a chunked body, and what follows its end. */
  function DecodeChunked(s: string): (r: Option<(string, string)>)
    decreases |s|
  {
    var size, rest := SizeLine(s), AfterLine(s);
    if size.None? then None
    else if size.value == 0 then
      var after := AfterTrailer(rest);
      if after.None? then None else Some(("", after.value))
    else
      var next := AfterChunk(rest, size.value);
      if next.None? then None else Prepend(rest[..size.value], DecodeChunked(next.value))
  }

  // ----- the decoder is prefix-free


  lemma {:induction false} LineOfPrefix(s: string, k: nat)
    requires k <= |s|
    ensures LineOf(s[..k]) == LineOf(s)[..Min(k, |LineOf(s)|)]
    ensures k >= |LineOf(s)| ==> AfterLine(s[..k]) == AfterLine(s)[..k - |LineOf(s)|]
  {
    if k > 0 && s[0] != '\n' {
      assert s[..k][1..] == s[1..][..k - 1];
      LineOfPrefix(s[1..], k - 1);
    }
  }

  lemma {:induction false} LineBreakIsLast(s: string, k: nat)
    requires k < |LineOf(s)|
    ensures LineOf(s)[..k] != CRLF
  {
    if LineOf(s)[..k] == CRLF {
      assert LineOf(s)[..k][1] == LineOf(s)[1] == '\n';
      LineEndsAt(s, 1);
    }
  }

  /** What a reader is left with when only the first `k` characters arrive. */
  function Cut(rest: Option<string>, length: nat, k: nat): Option<string>
    requires rest.Some? ==> |rest.value| <= length
    requires k <= length
  {
    if rest.None? || k < length - |rest.value| then None
    else Some(rest.value[..k - (length - |rest.value|)])
  }

  lemma {:induction false} TrailerIsSuffix(s: string)
    ensures AfterTrailer(s).Some? ==> |AfterTrailer(s).value| < |s|
    decreases |s|
  {
    if s != "" && LineOf(s) != CRLF {
      TrailerIsSuffix(AfterLine(s));
    }
  }

  lemma {:induction false} TrailerPrefixFree(s: string, k: nat)
    requires k <= |s| && AfterTrailer(s).Some?
    ensures |AfterTrailer(s).value| <= |s|
    ensures AfterTrailer(s[..k]) == Cut(AfterTrailer(s), |s|, k)
    decreases |s|
  {
    TrailerIsSuffix(s);
    LineOfPrefix(s, k);
    if k == 0 {
    } else if k < |LineOf(s)| {
      LineBreakIsLast(s, k);
      assert AfterLine(s[..k]) == "";
      if LineOf(s) != CRLF {
        TrailerIsSuffix(AfterLine(s));
      }
    } else if LineOf(s) != CRLF {
      TrailerPrefixFree(AfterLine(s), k - |LineOf(s)|);
    }
  }

  lemma {:induction false} DecodedIsSuffix(s: string)
    ensures DecodeChunked(s).Some? ==> |DecodeChunked(s).value.1| < |s|
    decreases |s|
  {
    if DecodeChunked(s).Some? {
      var size, rest := SizeLine(s).value, AfterLine(s);
      if size == 0 {
        TrailerIsSuffix(rest);
      } else {
        DecodedIsSuffix(AfterChunk(rest, size).value);
      }
    }
  }

  /** A cut inside the size line leaves no text for anything after it. */
  lemma CutInSize(s: string, k: nat)
    requires k < |LineOf(s)|
    ensures DecodeChunked(s[..k]).None?
  {
    LineOfPrefix(s, k);
    assert AfterLine(s[..k]) == "";
  }

  lemma SizeLinePrefix(s: string, k: nat)
    requires |LineOf(s)| <= k <= |s| && s != ""
    ensures SizeLine(s[..k]) == SizeLine(s)
    ensures AfterLine(s[..k]) == AfterLine(s)[..k - |LineOf(s)|]
  {
    LineOfPrefix(s, k);
    assert LineOf(s)[..|LineOf(s)|] == LineOf(s);
  }

  lemma ChunkPrefixFree(s: string, size: nat, k: nat)
    requires AfterChunk(s, size).Some? && k <= |s|
    ensures AfterChunk(s[..k], size) == Cut(AfterChunk(s, size), |s|, k)
  {
    if k > size {
      assert s[..k][size..] == s[size..][..k - size];
      LineOfPrefix(s[size..], k - size);
      if k < size + 2 {
        LineBreakIsLast(s[size..], k - size);
      }
    }
  }

  /** What the first `k` characters decode to, when the whole text of this length decodes. */
  function CutContent(r: Option<(string, string)>, length: nat, k: nat): Option<(string, string)>
    requires r.Some? ==> |r.value.1| <= length
    requires k <= length
  {
    if r.None? || k < length - |r.value.1| then None
    else Some((r.value.0, r.value.1[..k - (length - |r.value.1|)]))
  }

  lemma CutInTrailer(s: string, k: nat)
    requires |LineOf(s)| <= k <= |s| && DecodeChunked(s).Some? && SizeLine(s).value == 0
    ensures |DecodeChunked(s).value.1| <= |s|
    ensures DecodeChunked(s[..k]) == CutContent(DecodeChunked(s), |s|, k)
  {
    SizeLinePrefix(s, k);
    TrailerPrefixFree(AfterLine(s), k - |LineOf(s)|);
  }

  lemma CutInChunk(s: string, k: nat)
    requires |LineOf(s)| <= k <= |s| && DecodeChunked(s).Some? && SizeLine(s).value > 0
    requires k - |LineOf(s)| < |AfterLine(s)| - |AfterChunk(AfterLine(s), SizeLine(s).value).value|
    ensures DecodeChunked(s[..k]).None?
  {
    SizeLinePrefix(s, k);
    ChunkPrefixFree(AfterLine(s), SizeLine(s).value, k - |LineOf(s)|);
  }

  lemma DecodeVia(s: string, size: nat, next: string)
    requires SizeLine(s) == Some(size) && size > 0 && AfterChunk(AfterLine(s), size) == Some(next)
    ensures DecodeChunked(s) == Prepend(AfterLine(s)[..size], DecodeChunked(next))
  {
  }

  lemma CutLater(s: string, size: nat, next: string, k: nat, j: nat)
    requires SizeLine(s) == Some(size) && size > 0 && AfterChunk(AfterLine(s), size) == Some(next)
    requires |LineOf(s)| <= k <= |s| && j <= |next| && |s| - k == |next| - j
    requires DecodeChunked(next).Some? && |DecodeChunked(next).value.1| <= |next|
    requires DecodeChunked(next[..j]) == CutContent(DecodeChunked(next), |next|, j)
    ensures DecodeChunked(s).Some? && |DecodeChunked(s).value.1| <= |s|
    ensures DecodeChunked(s[..k]) == CutContent(DecodeChunked(s), |s|, k)
  {
    var rest, i := AfterLine(s), k - |LineOf(s)|;
    DecodeVia(s, size, next);
    SizeLinePrefix(s, k);
    ChunkPrefixFree(rest, size, i);
    assert rest[..i][..size] == rest[..size];
    DecodeVia(s[..k], size, next[..j]);
    PrependCut(rest[..size], DecodeChunked(next), |next|, j, |s|, k);
  }

  /** A cut leaves the same whether the data of the chunks before it is put in front or not. */
  lemma PrependCut(data: string, r: Option<(string, string)>, length: nat, j: nat, whole: nat, k: nat)
    requires r.Some? && |r.value.1| <= length && j <= length && k <= whole && whole - k == length - j
    requires length <= whole
    ensures Prepend(data, CutContent(r, length, j)) == CutContent(Prepend(data, r), whole, k)
  {
  }

  /**
   The outcome is settled by the characters up to the end of the terminator: no shorter text is taken
   for a whole body, and nothing later matters.
   */
  lemma {:induction false} DecodeIsPrefixFree(s: string, k: nat)
    requires k <= |s| && DecodeChunked(s).Some?
    ensures |DecodeChunked(s).value.1| <= |s|
    ensures DecodeChunked(s[..k]) == CutContent(DecodeChunked(s), |s|, k)
    decreases |s|
  {
    var n := |LineOf(s)|;
    if k < n {
      DecodedIsAfterLine(s);
      CutInSize(s, k);
    } else if SizeLine(s).value == 0 {
      CutInTrailer(s, k);
    } else {
      var next := AfterChunk(AfterLine(s), SizeLine(s).value).value;
      DecodeVia(s, SizeLine(s).value, next);
      if k < |s| - |next| {
        CutBeforeNext(s, next, k);
      } else {
        DecodeIsPrefixFree(next, k - (|s| - |next|));
        CutLater(s, SizeLine(s).value, next, k, k - (|s| - |next|));
      }
    }
  }

  lemma CutBeforeNext(s: string, next: string, k: nat)
    requires DecodeChunked(s).Some? && SizeLine(s).value > 0
    requires AfterChunk(AfterLine(s), SizeLine(s).value) == Some(next)
    requires |LineOf(s)| <= k < |s| - |next|
    ensures |DecodeChunked(s).value.1| <= |s|
    ensures DecodeChunked(s[..k]) == CutContent(DecodeChunked(s), |s|, k)
  {
    DecodeVia(s, SizeLine(s).value, next);
    DecodedIsSuffix(next);
    CutInChunk(s, k);
  }

  lemma DecodedIsAfterLine(s: string)
    requires DecodeChunked(s).Some?
    ensures |DecodeChunked(s).value.1| <= |AfterLine(s)|
  {
    if SizeLine(s).value == 0 {
      TrailerIsSuffix(AfterLine(s));
    } else {
      DecodedIsSuffix(AfterChunk(AfterLine(s), SizeLine(s).value).value);
    }
  }

  // ----- writing

  /** What a content provider does with its sink: write a piece, or say that it is done. */
  datatype SinkOp = Write(data: string) | Done

  /** One call of the content provider: what it did, and whether it returned true. */
  datatype Call = Call(ops: seq<SinkOp>, success: bool)

  datatype Outcome = Success | WriteError | Canceled

  const LAST_CHUNK: string := "0" + CRLF + CRLF

  function Chunk(data: string): string {
    Hex(|data|) + CRLF + data + CRLF
  }

  function OpWire(op: SinkOp): string {
    match op
    case Write(data) => if data == "" then "" else Chunk(data)
    case Done => LAST_CHUNK
  }

  function OpsWire(ops: seq<SinkOp>): string {
    if ops == [] then "" else OpWire(ops[0]) + OpsWire(ops[1..])
  }

  /** Whether the loop goes on: the last operation of the call was the write of something. */
  predicate Available(ops: seq<SinkOp>) {
    ops == [] || (ops[|ops| - 1].Write? && ops[|ops| - 1].data != "")
  }

  /** What the provider's calls put on the wire, up to the one that ends the body. */
  function Sent(calls: seq<Call>): (string, Outcome) {
    if calls == [] then ("", Success)
    else
      var wire := OpsWire(calls[0].ops);
      if !calls[0].success then (wire, Canceled)
      else if !Available(calls[0].ops) then (wire, Success)
      else var (more, outcome) := Sent(calls[1..]); (wire + more, outcome)
  }

  function Ops(calls: seq<Call>): seq<SinkOp> {
    if calls == [] then [] else calls[0].ops + Ops(calls[1..])
  }

  function Writes(pieces: seq<string>): (ops: seq<SinkOp>)
    ensures |ops| == |pieces|
    ensures forall i | 0 <= i < |pieces| :: ops[i] == Write(pieces[i])
  {
    seq(|pieces|, i requires 0 <= i < |pieces| => Write(pieces[i]))
  }

  function Concat(pieces: seq<string>): string {
    if pieces == [] then "" else pieces[0] + Concat(pieces[1..])
  }

  ghost predicate NonEmptyPieces(pieces: seq<string>) {
    forall i | 0 <= i < |pieces| :: pieces[i] != ""
  }

  /** Every piece is shorter than the value strtoul returns on overflow. */
  ghost predicate BelowLimit(pieces: seq<string>) {
    forall i | 0 <= i < |pieces| :: |pieces[i]| < ULONG_MAX
  }

  /** The chunked coding of a list of pieces. */
  function Encode(pieces: seq<string>): string {
    if pieces == [] then LAST_CHUNK else Chunk(pieces[0]) + Encode(pieces[1..])
  }

  lemma {:induction false} OpsWireOfWrites(pieces: seq<string>)
    requires forall i | 0 <= i < |pieces| :: pieces[i] != ""
    ensures OpsWire(Writes(pieces)) + LAST_CHUNK == Encode(pieces)
    decreases |pieces|
  {
    if pieces != [] {
      assert Writes(pieces)[1..] == Writes(pieces[1..]);
      OpsWireOfWrites(pieces[1..]);
      Associate(Chunk(pieces[0]), OpsWire(Writes(pieces[1..])), LAST_CHUNK);
    }
  }

  lemma {:induction false} OpsWireConcat(a: seq<SinkOp>, b: seq<SinkOp>)
    ensures OpsWire(a + b) == OpsWire(a) + OpsWire(b)
    decreases |a|
  {
    if a == [] {
      assert a + b == b;
    } else {
      assert (a + b)[1..] == a[1..] + b;
      OpsWireConcat(a[1..], b);
      Associate(OpWire(a[0]), OpsWire(a[1..]), OpsWire(b));
    }
  }

  ghost predicate AllSucceed(calls: seq<Call>) {
    forall i | 0 <= i < |calls| :: calls[i].success
  }

  /** However the provider spreads its writes over calls, the wire carries them in order. */
  lemma {:induction false} GroupingDoesNotMatter(calls: seq<Call>, pieces: seq<string>, last: SinkOp)
    requires AllSucceed(calls) && last in {Done, Write("")}
    requires forall i | 0 <= i < |pieces| :: pieces[i] != ""
    requires Ops(calls) == Writes(pieces) + [last]
    ensures Sent(calls) == (OpsWire(Writes(pieces) + [last]), Success)
  {
    var ops, k := calls[0].ops, |calls[0].ops|;
    assert ops == (Writes(pieces) + [last])[..k];
    if k == |pieces| + 1 {
      assert ops == Writes(pieces) + [last];
    } else {
      assert ops == Writes(pieces[..k]);
      assert Ops(calls[1..]) == (Writes(pieces) + [last])[k..] == Writes(pieces[k..]) + [last];
      GroupingDoesNotMatter(calls[1..], pieces[k..], last);
      assert Writes(pieces) + [last] == ops + (Writes(pieces[k..]) + [last]);
      OpsWireConcat(ops, Writes(pieces[k..]) + [last]);
    }
  }

  // ----- the round trip

  lemma BlankLineFirst(rest: string)
    ensures LineOf(CRLF + rest) == CRLF && AfterLine(CRLF + rest) == rest
  {
    assert CRLF + rest == "\r" + "\n" + rest;
    LineOfWithBreak("\r", rest);
    assert (CRLF + rest)[|CRLF|..] == rest;
  }

  /** The line of a size, and what follows it. */
  lemma SizeLineReads(n: nat, rest: string)
    ensures var s := Hex(n) + CRLF + rest;
            && SizeLine(s) == (if n >= ULONG_MAX then None else Some(n))
            && AfterLine(s) == rest
  {
    SizeReadsBack(n);
    LineLayout(Hex(n), rest);
    LineOfWithBreak(Hex(n) + "\r", rest);
    assert (Hex(n) + CRLF + rest)[|Hex(n) + CRLF|..] == rest;
  }

  lemma LineLayout(a: string, rest: string)
    ensures a + CRLF + rest == (a + "\r") + "\n" + rest
    ensures a + CRLF == (a + "\r") + "\n"
  {
  }

  lemma DecodeLastChunk(rest: string)
    ensures DecodeChunked(LAST_CHUNK + rest) == Some(("", rest))
  {
    assert LAST_CHUNK + rest == Hex(0) + CRLF + (CRLF + rest);
    SizeLineReads(0, CRLF + rest);
    BlankLineFirst(rest);
  }

  lemma DecodeOneChunk(data: string, rest: string)
    requires data != ""
    ensures DecodeChunked(Chunk(data) + rest) ==
            if |data| >= ULONG_MAX then None else Prepend(data, DecodeChunked(rest))
  {
    var t := data + (CRLF + rest);
    assert Chunk(data) + rest == Hex(|data|) + CRLF + t;
    SizeLineReads(|data|, t);
    assert t[..|data|] == data && t[|data|..] == CRLF + rest;
    BlankLineFirst(rest);
  }

  /** Decoding undoes encoding and stops at the end of the terminator, whatever follows. */
  lemma {:induction false} DecodeUndoesEncode(pieces: seq<string>, rest: string)
    requires NonEmptyPieces(pieces)
    ensures DecodeChunked(Encode(pieces) + rest) ==
            if BelowLimit(pieces) then Some((Concat(pieces), rest)) else None
    decreases |pieces|
  {
    if pieces == [] {
      DecodeLastChunk(rest);
    } else {
      Associate(Chunk(pieces[0]), Encode(pieces[1..]), rest);
      DecodeUndoesEncode(pieces[1..], rest);
      DecodeOneChunk(pieces[0], Encode(pieces[1..]) + rest);
      assert forall i | 0 < i < |pieces| :: pieces[i] == pieces[1..][i - 1];
    }
  }

  /** A body cut anywhere before its end is never taken for a whole one. */
  lemma TruncationIsNoticed(pieces: seq<string>, k: nat)
    requires NonEmptyPieces(pieces) && BelowLimit(pieces) && k < |Encode(pieces)|
    ensures DecodeChunked(Encode(pieces)[..k]).None?
  {
    DecodeUndoesEncode(pieces, "");
    assert Encode(pieces) + "" == Encode(pieces);
    DecodeIsPrefixFree(Encode(pieces), k);
  }

  lemma OneOpWire(op: SinkOp)
    ensures OpsWire([op]) == OpWire(op)
  {
    assert OpsWire([op]) == OpWire(op) + OpsWire([]);
  }

  lemma WireOf(calls: seq<Call>, pieces: seq<string>, last: SinkOp)
    requires AllSucceed(calls) && last in {Done, Write("")} && NonEmptyPieces(pieces)
    requires Ops(calls) == Writes(pieces) + [last]
    ensures Sent(calls).1 == Success
    ensures Sent(calls).0 + (if last.Done? then "" else LAST_CHUNK) == Encode(pieces)
  {
    GroupingDoesNotMatter(calls, pieces, last);
    var wire := OpsWire(Writes(pieces));
    OpsWireConcat(Writes(pieces), [last]);
    OneOpWire(last);
    OpsWireOfWrites(pieces);
    assert wire + LAST_CHUNK + "" == wire + LAST_CHUNK && wire + "" == wire;
  }

  /** What a provider writes before it is done is what a reader delivers, and the reader stops there. */
  lemma ReaderGetsWhatWasWritten(calls: seq<Call>, pieces: seq<string>, rest: string)
    requires AllSucceed(calls) && NonEmptyPieces(pieces) && BelowLimit(pieces)
    requires Ops(calls) == Writes(pieces) + [Done]
    ensures Sent(calls).1 == Success
    ensures DecodeChunked(Sent(calls).0 + rest) == Some((Concat(pieces), rest))
  {
    WireOf(calls, pieces, Done);
    assert Sent(calls).0 == Encode(pieces);
    DecodeUndoesEncode(pieces, rest);
  }

  // ----- exactly when a body is complete

  /** The operations up to the call that ends the loop. */
  function Used(calls: seq<Call>): seq<SinkOp> {
    if calls == [] then []
    else if !calls[0].success || !Available(calls[0].ops) then calls[0].ops
    else calls[0].ops + Used(calls[1..])
  }

  lemma {:induction false} SentIsUsed(calls: seq<Call>)
    ensures Sent(calls).0 == OpsWire(Used(calls))
  {
    if calls != [] && calls[0].success && Available(calls[0].ops) {
      SentIsUsed(calls[1..]);
      OpsWireConcat(calls[0].ops, Used(calls[1..]));
    }
  }

  /** The operations before the first Done, or all of them. */
  function BeforeDone(ops: seq<SinkOp>): seq<SinkOp> {
    if ops == [] || ops[0].Done? then [] else [ops[0]] + BeforeDone(ops[1..])
  }

  /** The operations after the first Done. */
  function AfterDone(ops: seq<SinkOp>): seq<SinkOp> {
    if ops == [] then [] else if ops[0].Done? then ops[1..] else AfterDone(ops[1..])
  }

  function Payload(ops: seq<SinkOp>): string {
    if ops == [] then "" else (if ops[0].Write? then ops[0].data else "") + Payload(ops[1..])
  }

  predicate AllBelowLimit(ops: seq<SinkOp>) {
    forall i | 0 <= i < |ops| :: ops[i].Write? ==> |ops[i].data| < ULONG_MAX
  }

  /** A reader makes of any operations the writes before the first Done, or nothing if there is none. */
  function Understood(ops: seq<SinkOp>, rest: string): Option<(string, string)> {
    if Done in ops && AllBelowLimit(BeforeDone(ops))
    then Some((Payload(BeforeDone(ops)), OpsWire(AfterDone(ops)) + rest))
    else None
  }

  lemma UnderstoodWrite(data: string, ops: seq<SinkOp>, rest: string)
    ensures Understood([Write(data)] + ops, rest) ==
            if |data| >= ULONG_MAX then None else Prepend(data, Understood(ops, rest))
  {
    var all, before := [Write(data)] + ops, BeforeDone(ops);
    assert all[1..] == ops;
    assert BeforeDone(all) == [Write(data)] + before && ([Write(data)] + before)[1..] == before;
    assert AllBelowLimit(BeforeDone(all)) <==> |data| < ULONG_MAX && AllBelowLimit(before) by {
      assert forall i | 0 <= i < |before| :: before[i] == BeforeDone(all)[i + 1];
    }
  }

  lemma PrependNothing(r: Option<(string, string)>)
    ensures Prepend("", r) == r
  {
    if r.Some? {
      assert "" + r.value.0 == r.value.0;
    }
  }

  /** A write, empty or not, in front of anything. */
  lemma DecodeWrite(data: string, more: string)
    ensures DecodeChunked(OpWire(Write(data)) + more) ==
            if |data| >= ULONG_MAX then None else Prepend(data, DecodeChunked(more))
  {
    if data == "" {
      assert "" + more == more;
      PrependNothing(DecodeChunked(more));
    } else {
      DecodeOneChunk(data, more);
    }
  }

  lemma {:induction false} DecodeOps(ops: seq<SinkOp>, rest: string)
    requires Done in ops || rest == ""
    ensures DecodeChunked(OpsWire(ops) + rest) == Understood(ops, rest)
    decreases |ops|
  {
    if ops == [] {
      assert OpsWire(ops) + rest == "";
    } else if ops[0].Done? {
      Associate(LAST_CHUNK, OpsWire(ops[1..]), rest);
      DecodeLastChunk(OpsWire(ops[1..]) + rest);
    } else {
      var data, more := ops[0].data, ops[1..];
      assert ops == [Write(data)] + more;
      DecodeOps(more, rest);
      Associate(OpWire(ops[0]), OpsWire(more), rest);
      DecodeWrite(data, OpsWire(more) + rest);
      UnderstoodWrite(data, more, rest);
    }
  }

  /**
   Whatever a provider does, and however the loop ends: what it sent is a complete body if and only if the
   provider was done before the end, and then a reader delivers what was written before that.
   */
  lemma CompleteJustWhenDone(calls: seq<Call>)
    ensures DecodeChunked(Sent(calls).0) == Understood(Used(calls), "")
    ensures AllBelowLimit(BeforeDone(Used(calls))) ==> (DecodeChunked(Sent(calls).0).Some? <==> Done in Used(calls))
  {
    SentIsUsed(calls);
    DecodeOps(Used(calls), "");
    assert Sent(calls).0 + "" == Sent(calls).0;
  }

  /** Shutting down between calls ends the loop with success as well, and leaves the body open. */
  lemma ShutdownLeavesBodyOpen(calls: seq<Call>)
    requires AllSucceed(calls) && Done !in Ops(calls)
    ensures Sent(calls).1 == Success && DecodeChunked(Sent(calls).0).None?
  {
    SucceedsIfCallsDo(calls);
    UsedIsPart(calls);
    CompleteJustWhenDone(calls);
  }

  lemma {:induction false} SucceedsIfCallsDo(calls: seq<Call>)
    requires AllSucceed(calls)
    ensures Sent(calls).1 == Success
  {
    if calls != [] {
      SucceedsIfCallsDo(calls[1..]);
    }
  }

  lemma {:induction false} UsedIsPart(calls: seq<Call>)
    ensures Used(calls) <= Ops(calls)
  {
    if calls != [] {
      UsedIsPart(calls[1..]);
      assert calls[0].ops + Used(calls[1..]) <= calls[0].ops + Ops(calls[1..]);
    }
  }

  /** An empty write ends the writer's loop with success, but nothing ends the body on the wire. */
  lemma EmptyWriteLeavesBodyOpen(calls: seq<Call>, pieces: seq<string>)
    requires AllSucceed(calls)
    requires Ops(calls) == Writes(pieces) + [Write("")]
    ensures Sent(calls).1 == Success
    ensures DecodeChunked(Sent(calls).0).None?
  {
    assert forall op | op in Ops(calls) :: op.Write?;
    ShutdownLeavesBodyOpen(calls);
  }
}
