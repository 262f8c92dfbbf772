/**
 The buffered reading side of src/httplib.h: a socket that hands out bytes in pieces of any size, the
 stream that buffers them, and the line reader on top. Whatever the pieces, no byte is lost, repeated
 or reordered.
 */
module SocketStream {
  import opened Basics
  import opened HttpText

  /** The first line of a text: up to and including the first line feed, or all of it. */
  function LineOf(s: string): (line: string)
    ensures line <= s
    ensures s != "" ==> line != ""
  {
    if s == "" then ""
    else if s[0] == '\n' then [s[0]]
    else [s[0]] + LineOf(s[1..])
  }

  function AfterLine(s: string): string {
    s[|LineOf(s)|..]
  }

  lemma {:induction false} LineOfWithBreak(a: string, b: string)
    requires Free(a, '\n')
    ensures LineOf(a + "\n" + b) == a + "\n"
  {
    if a == "" {
      assert a + "\n" + b == "\n" + b;
    } else {
      assert (a + "\n" + b)[1..] == a[1..] + "\n" + b;
      LineOfWithBreak(a[1..], b);
    }
  }

  lemma {:induction false} LineOfWithoutBreak(a: string)
    requires Free(a, '\n')
    ensures LineOf(a) == a
  {
    if a != "" {
      LineOfWithoutBreak(a[1..]);
    }
  }

  /** What the peer sends, in order. A reliable socket reports no error and no timeout before the end. */
  class Socket {
    var incoming: string
    const reliable: bool

    constructor (incoming: string, reliable: bool)
      ensures this.incoming == incoming && this.reliable == reliable
    {
      this.incoming := incoming;
      this.reliable := reliable;
    }

    /** recv: any number of the next bytes, zero only at the end, or an error. */
    method Recv(size: nat) returns (n: int, data: string)
      requires size > 0
      modifies this
      ensures n <= 0 ==> data == ""
      ensures n > 0 ==> n == |data| <= size
      ensures old(incoming) == data + incoming
      ensures n == 0 ==> incoming == ""
      ensures reliable ==> n >= 0
    {
      data := "";
      if incoming == "" {
        n := 0;
      } else if * {
        var k: nat :| 1 <= k <= size && k <= |incoming|;
        n, data, incoming := k, incoming[..k], incoming[k..];
      } else if reliable {
        n, data, incoming := 1, incoming[..1], incoming[1..];
      } else {
        n := -1;
      }
    }

    /** select on the socket, with a timeout. */
    method IsReadable() returns (ok: bool)
      ensures reliable ==> ok
    {
      if reliable {
        ok := true;
      } else {
        ok := *;
      }
    }
  }

  const READ_BUFF_SIZE := 4096

  class SocketStream {
    const sock: Socket
    const readBuff: array<char>
    var off: nat
    var contentSize: nat

    ghost predicate Valid()
      reads this
    {
      readBuff.Length == READ_BUFF_SIZE && off <= contentSize <= READ_BUFF_SIZE
    }

    /** The bytes no read has returned yet: those buffered, then those the socket still has. */
    ghost function Ahead(): string
      requires Valid()
      reads this, readBuff, sock
    {
      readBuff[off..contentSize] + sock.incoming
    }

    constructor (sock: Socket)
      ensures Valid() && this.sock == sock && Ahead() == sock.incoming && fresh(readBuff)
    {
      this.sock := sock;
      readBuff := new char[READ_BUFF_SIZE](_ => '\0');
      off, contentSize := 0, 0;
    }

    /** memcpy into the front of the buffer. */
    method Store(data: string)
      requires Valid() && |data| <= READ_BUFF_SIZE
      modifies readBuff
      ensures readBuff[..|data|] == data
    {
      var i := 0;
      while i < |data|
        invariant i <= |data|
        invariant readBuff[..i] == data[..i]
      {
        readBuff[i] := data[i];
        i := i + 1;
      }
    }

    /** Lines 5503-5547. */
    method Read(size: nat) returns (n: int, data: string)
      requires Valid() && size > 0
      modifies this, readBuff, sock
      ensures Valid()
      ensures n <= 0 ==> data == ""
      ensures n > 0 ==> n == |data| <= size
      ensures old(Ahead()) == data + Ahead()
      ensures n == 0 ==> Ahead() == ""
      ensures sock.reliable ==> n >= 0
    {
      if off < contentSize {
        var remaining := contentSize - off;
        var take := if size <= remaining then size else remaining;
        data := readBuff[off..off + take];
        off := off + take;
        return take, data;
      }
      var readable := sock.IsReadable();
      if !readable {
        return -1, "";
      }
      off, contentSize := 0, 0;
      if size < READ_BUFF_SIZE {
        n, data := Fill(size);
      } else {
        n, data := sock.Recv(size);
      }
    }

    /** Lines 5531-5543: receive as much as the buffer takes, and keep what the caller has no room for. */
    method Fill(size: nat) returns (n: int, data: string)
      requires Valid() && off == contentSize == 0 < size < READ_BUFF_SIZE
      modifies this, readBuff, sock
      ensures Valid()
      ensures n <= 0 ==> data == ""
      ensures n > 0 ==> n == |data| <= size
      ensures old(sock.incoming) == data + Ahead()
      ensures n == 0 ==> Ahead() == ""
      ensures sock.reliable ==> n >= 0
    {
      n, data := sock.Recv(READ_BUFF_SIZE);
      if n > size {
        Store(data);
        off, contentSize := size, n;
        assert readBuff[off..contentSize] == data[size..];
        n, data := size, data[..size];
      }
    }

    /** Any sequence of reads returns a prefix of what was ahead, and leaves the rest ahead. */
    method ReadMany(sizes: seq<nat>) returns (got: string)
      requires Valid() && forall i | 0 <= i < |sizes| :: sizes[i] > 0
      modifies this, readBuff, sock
      ensures Valid() && old(Ahead()) == got + Ahead()
    {
      got := "";
      ghost var start := Ahead();
      var i := 0;
      while i < |sizes|
        invariant i <= |sizes|
        invariant Valid() && start == got + Ahead()
      {
        ghost var before, so_far := Ahead(), got;
        var n, data := Read(sizes[i]);
        got := got + data;
        i := i + 1;
        Associate(so_far, data, Ahead());
      }
    }
  }

  /** A byte that moves from the stream to the line. */
  lemma OneByte(line: string, ahead: string, data: string, rest: string)
    requires |data| == 1 && ahead == data + rest
    ensures ahead != "" && data[0] == ahead[0] && rest == ahead[1..]
    ensures (line + [data[0]]) + rest == line + ahead
  {
    assert data == [data[0]];
    Associate(line, data, rest);
  }

  lemma EndOfStream(line: string, ahead: string)
    requires Free(line, '\n') && ahead == line + ""
    ensures line == ahead == LineOf(ahead)
  {
    LineOfWithoutBreak(line);
  }

  lemma EndOfLine(line: string, longer: string, rest: string)
    requires Free(line, '\n') && |longer| == |line| + 1 && line <= longer && longer[|line|] == '\n'
    ensures LineOf(longer + rest) == longer
  {
    LineOfWithBreak(line, rest);
    assert longer == line + "\n";
  }

  class LineReader {
    const strm: SocketStream
    const fixedBuffer: array<char>
    var usedSize: nat
    var growable: string

    ghost predicate Valid()
      reads this, fixedBuffer, strm
    {
      && strm.Valid()
      && fixedBuffer != strm.readBuff
      && fixedBuffer.Length >= 2
      && usedSize < fixedBuffer.Length
      && (usedSize > 0 ==> fixedBuffer[usedSize] == '\0')
      && (growable != "" ==> usedSize == fixedBuffer.Length - 1)
    }

    /** The line read last, wherever it sits: what ptr() and size() denote. */
    function Text(): string
      requires Valid()
      reads this, fixedBuffer, strm
    {
      if growable == "" then fixedBuffer[..usedSize] else growable
    }

    constructor (strm: SocketStream, size: nat)
      requires strm.Valid() && size >= 2
      ensures Valid() && this.strm == strm && fresh(fixedBuffer) && Text() == ""
    {
      this.strm := strm;
      fixedBuffer := new char[size](_ => '\0');
      usedSize, growable := 0, "";
    }

    /** Lines 2669-2680. */
    method Append(c: char)
      requires Valid()
      modifies this, fixedBuffer
      ensures Valid() && Text() == old(Text()) + [c]
    {
      if usedSize < fixedBuffer.Length - 1 {
        fixedBuffer[usedSize] := c;
        usedSize := usedSize + 1;
        fixedBuffer[usedSize] := '\0';
      } else {
        if growable == "" {
          assert fixedBuffer[usedSize] == '\0';
          growable := fixedBuffer[..usedSize];
        }
        growable := growable + [c];
      }
    }

    /** One byte from the stream, appended to the line. */
    method TakeByte() returns (n: int)
      requires Valid()
      modifies this, fixedBuffer, strm, strm.readBuff, strm.sock
      ensures Valid() && n <= 1
      ensures Text() + strm.Ahead() == old(Text()) + old(strm.Ahead())
      ensures n <= 0 ==> Text() == old(Text())
      ensures n > 0 ==> old(strm.Ahead()) != "" && Text() == old(Text()) + [old(strm.Ahead())[0]]
      ensures n > 0 ==> strm.Ahead() == old(strm.Ahead())[1..]
      ensures n == 0 ==> strm.Ahead() == ""
      ensures strm.sock.reliable ==> n >= 0
    {
      ghost var line, ahead := Text(), strm.Ahead();
      var data;
      n, data := strm.Read(1);
      ghost var rest := strm.Ahead();
      assert ahead == data + rest;
      if n > 0 {
        OneByte(line, ahead, data, rest);
        Append(data[0]);
        assert strm.Ahead() == rest;
      }
    }

    /** Lines 2643-2667: the next line of the stream, whether it fits the fixed buffer or not. */
    method Getline() returns (ok: bool)
      requires Valid()
      modifies this, fixedBuffer, strm, strm.readBuff, strm.sock
      ensures Valid()
      ensures Text() + strm.Ahead() == old(strm.Ahead())
      ensures ok ==> Text() == LineOf(old(strm.Ahead())) != ""
      ensures strm.sock.reliable ==> (ok <==> old(strm.Ahead()) != "")
    {
      usedSize, growable := 0, "";
      ghost var ahead := strm.Ahead();
      var i := 0;
      while true
        invariant Valid()
        invariant Text() + strm.Ahead() == ahead
        invariant Free(Text(), '\n')
        invariant i == |Text()|
        decreases |strm.Ahead()|
      {
        ghost var line := Text();
        var n := TakeByte();
        if n < 0 {
          return false;
        } else if n == 0 {
          EndOfStream(line, ahead);
          return i != 0;
        }
        if Text()[|Text()| - 1] == '\n' {
          EndOfLine(line, Text(), strm.Ahead());
          return true;
        }
        i := i + 1;
      }
    }
  }
}
