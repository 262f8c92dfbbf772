/**
 Chunked bodies over sockets, src/httplib.h: the writer that a content provider drives through its sink,
 over a socket that takes part of what it is given, and the reader on top of the buffered stream.
 */
module ChunkedTransfer {
  import opened Basics
  import opened HttpText
  import opened SocketStream
  import opened ChunkedText

  const RECV_BUFSIZ := 16384

  // ----- writing

  /** What has been handed to the peer. A reliable socket is always writable and never fails. */
  class OutSocket {
    var sent: string
    const reliable: bool

    constructor (reliable: bool)
      ensures sent == "" && this.reliable == reliable
    {
      sent := "";
      this.reliable := reliable;
    }

    method IsWritable() returns (ok: bool)
      ensures reliable ==> ok
    {
      if reliable {
        ok := true;
      } else {
        ok := *;
      }
    }

    /** send: any positive number of the bytes offered, or an error. */
    method Send(data: string) returns (n: int)
      requires data != ""
      modifies this
      ensures n != 0 && n <= |data|
      ensures sent == old(sent) + if n > 0 then data[..n] else ""
      ensures reliable ==> n > 0
    {
      var works := reliable;
      if !works {
        works := *;
      }
      if works {
        n :| 1 <= n <= |data|;
        sent := sent + data[..n];
      } else {
        n := -1;
      }
    }

    /** Lines 5549-5558. */
    method Write(data: string) returns (n: int)
      requires data != ""
      modifies this
      ensures n != 0 && n <= |data|
      ensures sent == old(sent) + if n > 0 then data[..n] else ""
      ensures reliable ==> n > 0
    {
      var writable := IsWritable();
      if !writable {
        return -1;
      }
      n := Send(data);
    }
  }

  /** Lines 4069-4077. */
  method WriteData(strm: OutSocket, d: string) returns (ok: bool)
    modifies strm
    ensures old(strm.sent) <= strm.sent <= old(strm.sent) + d
    ensures ok ==> strm.sent == old(strm.sent) + d
    ensures strm.reliable ==> ok
  {
    var offset := 0;
    while offset < |d|
      invariant 0 <= offset <= |d|
      invariant strm.sent == old(strm.sent) + d[..offset]
    {
      ghost var before := strm.sent;
      var length := strm.Write(d[offset..]);
      if length < 0 {
        return false;
      }
      assert d[..offset] + d[offset..][..length] == d[..offset + length];
      Associate(old(strm.sent), d[..offset], d[offset..][..length]);
      offset := offset + length;
    }
    return true;
  }

  /** The sink of one chunked body, and the loop that calls the provider. */
  class ChunkedWriter {
    const strm: OutSocket
    var offset: nat
    var dataAvailable: bool
    var ok: bool

    constructor (strm: OutSocket)
      ensures this.strm == strm && ok && dataAvailable && offset == 0
    {
      this.strm := strm;
      offset, dataAvailable, ok := 0, true, true;
    }

    /** Lines 4169-4194. */
    method SinkWrite(d: string) returns (r: bool)
      modifies this, strm
      ensures r == ok
      ensures old(strm.sent) <= strm.sent <= old(strm.sent) + OpWire(Write(d))
      ensures ok ==> old(ok) && strm.sent == old(strm.sent) + OpWire(Write(d))
      ensures ok ==> dataAvailable == (d != "") && offset == old(offset) + |d|
      ensures old(ok) && strm.reliable ==> ok
    {
      if ok {
        dataAvailable := |d| > 0;
        offset := offset + |d|;
        if d != "" {
          var size := FromIToHex(|d|);
          var chunk := size + CRLF + d + CRLF;
          var writable := strm.IsWritable();
          var written := false;
          if writable {
            written := WriteData(strm, chunk);
          }
          if !written {
            ok := false;
          }
        }
      }
      return ok;
    }

    /** Lines 4198-4240, with no trailer: the two parts are sent even if the first one fails. */
    method SinkDone()
      modifies this, strm
      ensures old(strm.sent) <= strm.sent
      ensures ok ==> old(ok) && strm.sent == old(strm.sent) + OpWire(Done)
      ensures ok ==> !dataAvailable && offset == old(offset)
      ensures old(ok) && strm.reliable ==> ok
    {
      if !ok {
        return;
      }
      dataAvailable := false;
      var marker := WriteData(strm, "0" + CRLF);
      if !marker {
        ok := false;
      }
      ghost var between := strm.sent;
      var blank := WriteData(strm, CRLF);
      if !blank {
        ok := false;
      }
      Associate(old(strm.sent), "0" + CRLF, CRLF);
    }

    /** One call of the provider. */
    method Provide(ops: seq<SinkOp>)
      modifies this, strm
      ensures old(strm.sent) <= strm.sent
      ensures ok ==> old(ok) && strm.sent == old(strm.sent) + OpsWire(ops)
      ensures ok ==> dataAvailable == if ops == [] then old(dataAvailable) else Available(ops)
      ensures old(ok) && strm.reliable ==> ok
    {
      if ops == [] {
        return;
      }
      match ops[0] {
        case Write(data) => var r := SinkWrite(data);
        case Done => SinkDone();
      }
      ghost var between := strm.sent;
      Provide(ops[1..]);
      Associate(old(strm.sent), OpWire(ops[0]), OpsWire(ops[1..]));
      assert |ops| > 1 ==> ops[1..][|ops| - 2] == ops[|ops| - 1];
    }

    /**
     Lines 4248-4262. The calls are those the provider makes if nothing stops it; the loop stops
     after the last of them because is_shutting_down has become true.
     */
    method WriteContent(calls: seq<Call>) returns (outcome: Outcome)
      requires ok && dataAvailable
      modifies this, strm
      ensures old(strm.sent) <= strm.sent
      ensures outcome == Success ==> strm.sent == old(strm.sent) + Sent(calls).0 && Sent(calls).1 == Success
      ensures strm.reliable ==> strm.sent == old(strm.sent) + Sent(calls).0 && Sent(calls).1 == outcome
    {
      var i := 0;
      ghost var wire := "";
      assert calls[0..] == calls && wire + Sent(calls).0 == Sent(calls).0;
      while dataAvailable && i < |calls|
        invariant i <= |calls|
        invariant ok && strm.sent == old(strm.sent) + wire
        invariant Sent(calls) == if dataAvailable then (wire + Sent(calls[i..]).0, Sent(calls[i..]).1) else (wire, Success)
        decreases |calls| - i
      {
        var writable := strm.IsWritable();
        if !writable {
          return WriteError;
        }
        assert calls[i..][1..] == calls[i + 1..];
        Provide(calls[i].ops);
        ghost var more := OpsWire(calls[i].ops);
        Associate(old(strm.sent), wire, more);
        Associate(wire, more, Sent(calls[i + 1..]).0);
        if !calls[i].success {
          return Canceled;
        } else if !ok {
          return WriteError;
        }
        wire := wire + more;
        i := i + 1;
      }
      return Success;
    }
  }

  // ----- reading

  /** The content receiver. A keen one never refuses. */
  class Receiver {
    var got: string
    const keen: bool

    constructor (keen: bool)
      ensures got == "" && this.keen == keen
    {
      got := "";
      this.keen := keen;
    }

    method Take(data: string) returns (ok: bool)
      modifies this
      ensures got == old(got) + data
      ensures keen ==> ok
    {
      got := got + data;
      if keen {
        ok := true;
      } else {
        ok := *;
      }
    }
  }

  /** Lines 3866-3886, without a progress callback. */
  method ReadContentWithLength(strm: SocketStream, len: nat, out: Receiver) returns (ok: bool)
    requires strm.Valid()
    modifies strm, strm.readBuff, strm.sock, out
    ensures strm.Valid()
    ensures old(out.got) <= out.got
    ensures out.got + strm.Ahead() == old(out.got) + old(strm.Ahead())
    ensures ok ==> |out.got| == |old(out.got)| + len
    ensures strm.sock.reliable && out.keen ==> (ok <==> |old(strm.Ahead())| >= len)
  {
    ghost var text, got := strm.Ahead(), out.got;
    var r := 0;
    while r < len
      invariant strm.Valid() && r <= len
      invariant got <= out.got && |out.got| == |got| + r
      invariant out.got + strm.Ahead() == got + text
      decreases len - r
    {
      ghost var before := out.got;
      var n, data := strm.Read(Min(len - r, RECV_BUFSIZ));
      Associate(before, data, strm.Ahead());
      if n <= 0 {
        return false;
      }
      var taken := out.Take(data);
      if !taken {
        return false;
      }
      r := r + n;
    }
    return true;
  }

  /** Lines 3948-3966. */
  method ReadTrailer(lines: LineReader) returns (ok: bool)
    requires lines.Valid()
    modifies lines, lines.fixedBuffer, lines.strm, lines.strm.readBuff, lines.strm.sock
    ensures lines.Valid()
    ensures ok ==> AfterTrailer(old(lines.strm.Ahead())) == Some(lines.strm.Ahead())
    ensures lines.strm.sock.reliable ==> (ok <==> AfterTrailer(old(lines.strm.Ahead())).Some?)
  {
    ghost var s := lines.strm.Ahead();
    var read := lines.Getline();
    if !read {
      return false;
    }
    BlankLine(s);
    while CString(lines.Text()) != CRLF
      invariant lines.Valid()
      invariant s != "" && lines.Text() == LineOf(s) && lines.strm.Ahead() == AfterLine(s)
      invariant CString(LineOf(s)) == CRLF <==> LineOf(s) == CRLF
      invariant AfterTrailer(s) == AfterTrailer(old(lines.strm.Ahead()))
      decreases |lines.strm.Ahead()|
    {
      if |lines.Text()| > HEADER_MAX_LENGTH {
        return false;
      }
      s := lines.strm.Ahead();
      read := lines.Getline();
      if !read {
        return false;
      }
      BlankLine(s);
    }
    return true;
  }

  /** Lines 3935-3943: the data of one chunk, the line that closes it, and the next size line. */
  method ReadChunk(lines: LineReader, size: nat, out: Receiver) returns (ok: bool)
    requires lines.Valid()
    modifies lines, lines.fixedBuffer, lines.strm, lines.strm.readBuff, lines.strm.sock, out
    ensures lines.Valid()
    ensures old(out.got) <= out.got
    ensures ok ==> OneChunk(old(lines.strm.Ahead()), size, lines.Text(), lines.strm.Ahead())
                   && out.got == old(out.got) + old(lines.strm.Ahead())[..size]
    ensures lines.strm.sock.reliable && out.keen ==>
              (ok <==> AfterChunk(old(lines.strm.Ahead()), size) !in {None, Some("")})
  {
    ghost var text, got := lines.strm.Ahead(), out.got;
    var read := ReadContentWithLength(lines.strm, size, out);
    ghost var after := lines.strm.Ahead();
    if !read {
      return false;
    }
    SplitAt(got, text, out.got, after, size);
    read := lines.Getline();
    if !read {
      return false;
    }
    BlankLine(after);
    if CString(lines.Text()) != CRLF {
      return false;
    }
    assert lines.strm.Ahead() == AfterLine(after);
    read := lines.Getline();
    return read;
  }

  /** The text `s` starts with a whole chunk; the line after it is `line`, and `rest` follows that. */
  ghost predicate OneChunk(s: string, size: nat, line: string, rest: string) {
    var next := AfterChunk(s, size);
    && next.Some? && next.value != ""
    && line == LineOf(next.value) && rest == AfterLine(next.value)
  }

  lemma SplitAt(a: string, text: string, b: string, rest: string, k: nat)
    requires a <= b && |b| == |a| + k && b + rest == a + text
    ensures k <= |text| && b == a + text[..k] && rest == text[k..]
  {
    assert b == (b + rest)[..|b|] && rest == (b + rest)[|b|..];
  }

  /** Lines 3924-3966: from the first size line on. */
  method ReadChunks(lines: LineReader, out: Receiver) returns (ok: bool, ghost data: string)
    requires lines.Valid() && lines.Text() != ""
    requires lines.Text() == LineOf(lines.Text() + lines.strm.Ahead())
    modifies lines, lines.fixedBuffer, lines.strm, lines.strm.readBuff, lines.strm.sock, out
    ensures lines.Valid() && old(out.got) <= out.got
    ensures ok ==> out.got == old(out.got) + data
    ensures ok ==> DecodeChunked(old(lines.Text() + lines.strm.Ahead())) == Some((data, lines.strm.Ahead()))
    ensures lines.strm.sock.reliable && out.keen ==>
              (ok <==> DecodeChunked(old(lines.Text() + lines.strm.Ahead())).Some?)
  {
    ghost var text, got := lines.Text() + lines.strm.Ahead(), out.got;
    ghost var cur := text;
    data := "";
    PrependNothing(DecodeChunked(text));
    while true
      invariant lines.Valid()
      invariant cur != "" && lines.Text() == LineOf(cur) && lines.strm.Ahead() == AfterLine(cur)
      invariant out.got == got + data && DecodeChunked(text) == Prepend(data, DecodeChunked(cur))
      decreases |cur|
    {
      var chunkLen := Strtoul(lines.Text());
      if chunkLen.None? || chunkLen.value == ULONG_MAX {
        return false, data;
      }
      if chunkLen.value == 0 {
        break;
      }
      ghost var rest := lines.strm.Ahead();
      var read := ReadChunk(lines, chunkLen.value, out);
      if !read {
        return false, data;
      }
      ghost var next := AfterChunk(rest, chunkLen.value).value;
      DecodeVia(cur, chunkLen.value, next);
      Associate(got, data, rest[..chunkLen.value]);
      PrependTwice(data, rest[..chunkLen.value], DecodeChunked(next));
      data, cur := data + rest[..chunkLen.value], next;
    }
    ok := ReadTrailer(lines);
    assert data + "" == data;
  }

  /** Lines 3914-3967. */
  method ReadContentChunked(strm: SocketStream, out: Receiver) returns (ok: bool)
    requires strm.Valid()
    modifies strm, strm.readBuff, strm.sock, out
    ensures strm.Valid()
    ensures old(out.got) <= out.got
    ensures ok ==> DecodeChunked(old(strm.Ahead())) == Some((out.got[|old(out.got)|..], strm.Ahead()))
    ensures strm.sock.reliable && out.keen ==> (ok <==> DecodeChunked(old(strm.Ahead())).Some?)
  {
    var lines := new LineReader(strm, 16);
    var read := lines.Getline();
    if !read {
      return false;
    }
    ghost var data;
    ok, data := ReadChunks(lines, out);
  }

  lemma PrependTwice(a: string, b: string, r: Option<(string, string)>)
    ensures Prepend(a, Prepend(b, r)) == Prepend(a + b, r)
  {
    if r.Some? {
      Associate(a, b, r.value.0);
    }
  }

  // ----- from end to end

  /**
   A body written by a provider through partial sends, and read back through short receives: if both sides
   report success the receiver has the provider's pieces and nothing else, and on sockets that work they do.
   */
  method Transfer(calls: seq<Call>, ghost pieces: seq<string>, more: string, works: bool)
    returns (outcome: Outcome, ok: bool, got: string)
    requires AllSucceed(calls) && NonEmptyPieces(pieces) && BelowLimit(pieces)
    requires Ops(calls) == Writes(pieces) + [Done]
    ensures outcome == Success && ok ==> got == Concat(pieces)
    ensures works ==> outcome == Success && ok
  {
    var sink := new OutSocket(works);
    var writer := new ChunkedWriter(sink);
    outcome := writer.WriteContent(calls);
    var sock := new Socket(sink.sent + more, works);
    var strm := new SocketStream(sock);
    var out := new Receiver(works);
    ok := ReadContentChunked(strm, out);
    got := out.got;
    ReaderGetsWhatWasWritten(calls, pieces, more);
    assert "" + Sent(calls).0 == Sent(calls).0;
    assert got[|""|..] == got;
  }
}
