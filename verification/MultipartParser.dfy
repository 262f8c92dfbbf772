/**
 MultipartFormDataParser in its own form: an object that compacts its growing buffer in place and
 loops over its states. Each method is proved against the parser as a function of its view.
 */
module MultipartParser {
  import opened Basics
  import opened HttpText
  import opened MultipartForm

  class MultipartFormDataParser {
    const boundary: string
    const refuses: Option<nat>
    const dashBoundaryCrlf: string
    const crlfDashBoundary: string
    var state: nat
    var isValid: bool
    var file: FileInfo
    // The calls of the two callbacks; that with number `refuses` is answered with false.
    var events: seq<Event>
    var buf: array<char>
    var spos: nat
    var epos: nat

    ghost predicate Valid()
      reads this
    {
      && dashBoundaryCrlf == DASH + boundary + CRLF
      && crlfDashBoundary == CRLF + DASH + boundary
      && spos <= epos <= buf.Length
    }

    ghost function Pending(): string
      requires Valid()
      reads this, buf
    {
      buf[spos..epos]
    }

    ghost function View(): Parser
      requires Valid()
      reads this, buf
    {
      Parser(boundary, state, Pending(), file, isValid, events, refuses)
    }

    /** Lines 4424-4430. */
    constructor (boundary: string, refuses: Option<nat>)
      ensures Valid() && View() == Refusing(boundary, refuses)
      ensures fresh(buf)
    {
      this.boundary, this.refuses := boundary, refuses;
      dashBoundaryCrlf := DASH + boundary + CRLF;
      crlfDashBoundary := CRLF + DASH + boundary;
      state, isValid, file, events := 0, false, NO_INFO, [];
      buf := new char[0];
      spos, epos := 0, 0;
    }

    /** Lines 4598-4605. */
    method StartWith(at: nat, s: string) returns (ok: bool)
      requires Valid() && at <= epos
      ensures ok <==> s <= buf[at..epos]
    {
      if epos - at < |s| {
        return false;
      }
      var i := 0;
      while i < |s|
        invariant i <= |s|
        invariant s[..i] == buf[at..at + i]
      {
        if buf[at + i] != s[i] {
          assert buf[at..epos][i] != s[i];
          return false;
        }
        i := i + 1;
      }
      assert buf[at..at + i] == buf[at..epos][..i];
      return true;
    }

    method OccursHere(s: string, pos: nat) returns (here: bool)
      requires Valid() && spos <= pos < epos
      ensures here <==> OccursAt(Pending(), s, pos - spos)
    {
      here := StartWith(pos, s);
      assert buf[pos..epos] == Pending()[pos - spos..];
      OccursIsPrefix(Pending(), s, pos - spos);
    }

    /** Lines 4617-4638: skip to the next first character, compare there, or give up. */
    method BufFind(s: string) returns (r: nat)
      requires Valid() && s != ""
      ensures r == Find(Pending(), s)
    {
      ghost var p := Pending();
      var c := s[0];
      var off := spos;
      while off < epos
        invariant spos <= off <= epos
        invariant forall k | 0 <= k < off - spos :: !OccursAt(p, s, k)
      {
        var pos := off;
        while pos < epos && buf[pos] != c
          invariant off <= pos <= epos
          invariant forall k | 0 <= k < pos - spos :: !OccursAt(p, s, k)
        {
          assert p[pos - spos] == buf[pos];
          FirstCharacterMissing(p, s, pos - spos);
          pos := pos + 1;
        }
        if pos == epos || |s| > epos - pos {
          FindFails(p, s);
          return epos - spos;
        }
        var here := OccursHere(s, pos);
        if here {
          FindIsFirst(p, s, pos - spos);
          return pos - spos;
        }
        off := pos + 1;
      }
      FindFails(p, s);
      return epos - spos;
    }

    /** Lines 4641-4648: what is left moves to the front. */
    method MoveToFront()
      requires Valid()
      modifies this`spos, this`epos, buf
      ensures Valid() && spos == 0 && Pending() == old(Pending())
    {
      var remaining := epos - spos;
      ghost var left := Pending();
      if remaining > 0 && spos > 0 {
        var i := 0;
        while i < remaining
          invariant i <= remaining && spos + remaining == epos <= buf.Length && spos == old(spos)
          invariant forall k | 0 <= k < i :: buf[k] == left[k]
          invariant forall k | i <= k < remaining :: buf[spos + k] == left[k]
        {
          buf[i] := buf[spos + i];
          i := i + 1;
        }
      }
      spos, epos := 0, remaining;
      assert forall k | 0 <= k < remaining :: buf[k] == left[k];
    }

    /** Lines 4640-4656: move what is left to the front, make room, append. */
    method BufAppend(data: string)
      requires Valid()
      modifies this`spos, this`epos, this`buf, buf
      ensures Valid() && Pending() == old(Pending()) + data
      ensures buf == old(buf) || fresh(buf)
    {
      MoveToFront();
      ghost var left := Pending();
      if epos + |data| > buf.Length {
        Resize(epos + |data|);
      }
      assert Pending() == left;
      CopyIn(data);
    }

    /** Lines 4652-4655. */
    method CopyIn(data: string)
      requires Valid() && epos + |data| <= buf.Length
      modifies this`epos, buf
      ensures Valid() && Pending() == old(Pending()) + data
    {
      ghost var left := Pending();
      var i := 0;
      while i < |data|
        invariant i <= |data| && epos == old(epos)
        invariant buf[spos..epos] == left
        invariant buf[epos..epos + i] == data[..i]
      {
        buf[epos + i] := data[i];
        i := i + 1;
      }
      epos := epos + |data|;
      assert buf[spos..epos] == buf[spos..old(epos)] + buf[old(epos)..epos];
    }

    method Resize(size: nat)
      requires size > buf.Length
      modifies this`buf
      ensures fresh(buf) && buf.Length == size
      ensures forall k | 0 <= k < old(buf.Length) :: buf[k] == old(buf[k])
    {
      var bigger := new char[size](i => '\0');
      var k := 0;
      while k < buf.Length
        invariant k <= buf.Length && buf == old(buf)
        invariant forall j | 0 <= j < k :: bigger[j] == buf[j]
      {
        bigger[k] := buf[k];
        k := k + 1;
      }
      buf := bigger;
    }

    method BufErase(size: nat)
      requires Valid() && size <= epos - spos
      modifies this`spos
      ensures Valid() && Pending() == old(Pending())[size..]
    {
      spos := spos + size;
    }

    /** The first characters buffered. */
    method BufHead(n: nat) returns (s: string)
      requires Valid() && n <= epos - spos
      ensures s == Pending()[..n]
    {
      s := buf[spos..spos + n];
    }

    /** Lines 4460-4465. */
    method EmptyLine() returns (ok: bool)
      requires Valid() && epos - spos >= 2
      modifies this`spos, this`events, this`state, this`isValid
      ensures Valid() && ok == old(View()).Accepts()
      ensures var q := old(View()).Told(Header(old(file)));
              View() == if ok then q.(pending := q.pending[2..], state := 3) else q
    {
      ok := Hear(Header(file));
      if ok {
        BufErase(2);
        state := 3;
      }
    }

    /** A call of a callback. */
    method Hear(e: Event) returns (ok: bool)
      requires Valid()
      modifies this`events, this`isValid
      ensures Valid() && ok == old(View()).Accepts()
      ensures View() == old(View()).Told(e)
    {
      ok := refuses != Some(|events|);
      events := events + [e];
      isValid := ok && isValid;
    }

    /** Lines 4469-4520. */
    method HeaderLine(pos: nat) returns (ok: bool)
      requires Valid() && pos + 2 <= epos - spos
      modifies this`spos, this`file, this`isValid
      ensures Valid()
      ensures var p := old(View());
              match ApplyLine(p.file, p.pending[..pos])
              case None => !ok && View() == p.(valid := false)
              case Some(f) => ok && View() == p.(file := f, pending := p.pending[pos + 2..])
    {
      var header := BufHead(pos);
      var applied := ApplyLine(file, header);
      ok := applied.Some?;
      if ok {
        file := applied.value;
        BufErase(pos + 2);
      } else {
        isValid := false;
      }
    }

    /** Lines 4457-4521. */
    method HeaderSection() returns (ok: bool)
      requires Valid() && state == 2
      modifies this`spos, this`file, this`events, this`state, this`isValid
      ensures Valid() && (View(), ok) == HeaderLines(old(View()))
    {
      ghost var start := View();
      var pos := BufFind(CRLF);
      while pos < epos - spos
        invariant Valid() && state == 2
        invariant pos == Find(Pending(), CRLF)
        invariant HeaderLines(View()) == HeaderLines(start)
        decreases epos - spos
      {
        if pos == 0 {
          ok := EmptyLine();
          return;
        }
        ghost var before := View();
        ok := HeaderLine(pos);
        HeaderLinesStep(before, pos);
        if !ok {
          return false;
        }
        pos := BufFind(CRLF);
      }
      return true;
    }

    /** Lines 4442-4443. */
    method DropFront()
      requires Valid()
      modifies this`spos
      ensures Valid() && state == old(state)
      ensures var p := old(View());
              View() == p.(pending := p.pending[Find(p.pending, p.DashBoundaryCrlf())..])
    {
      var pos := BufFind(dashBoundaryCrlf);
      BufErase(pos);
    }

    /** Lines 4444-4447. */
    method TakeOpening() returns (done: bool, ok: bool)
      requires Valid() && state == 0
      modifies this`spos, this`state
      ensures Valid()
      ensures OpeningRest(old(View())) == if done then Return(View(), ok) else Again(View())
    {
      if |dashBoundaryCrlf| > epos - spos {
        return true, true;
      }
      var starts := StartWith(spos, dashBoundaryCrlf);
      if !starts {
        return true, false;
      }
      BufErase(|dashBoundaryCrlf|);
      state := 1;
      return false, true;
    }

    /** Lines 4442-4447. */
    method OpeningTurn() returns (done: bool, ok: bool)
      requires Valid() && spos < epos && state == 0
      modifies this`spos, this`state
      ensures Valid()
      ensures OpeningStep(old(View())) == if done then Return(View(), ok) else Again(View())
    {
      DropFront();
      done, ok := TakeOpening();
    }

    /** Lines 4455-4523. */
    method HeaderTurn() returns (done: bool, ok: bool)
      requires Valid() && spos < epos && state == 2
      modifies this`spos, this`file, this`events, this`state, this`isValid
      ensures Valid()
      ensures HeaderStep(old(View())) == if done then Return(View(), ok) else Again(View())
    {
      var pos := BufFind(CRLF);
      if pos > HEADER_MAX_LENGTH {
        return true, false;
      }
      ok := HeaderSection();
      done := !ok || state != 3;
    }

    /** Lines 4525-4547. */
    method BodyTurn() returns (done: bool, ok: bool)
      requires Valid() && spos < epos && state == 3
      modifies this`spos, this`events, this`state, this`isValid
      ensures Valid()
      ensures BodyStep(old(View())) == if done then Return(View(), ok) else Again(View())
    {
      if |crlfDashBoundary| > epos - spos {
        return true, true;
      }
      done, ok := ContentTurn();
    }

    /** Lines 4527-4546. */
    method ContentTurn() returns (done: bool, ok: bool)
      requires Valid() && |crlfDashBoundary| <= epos - spos && state == 3
      modifies this`spos, this`events, this`state, this`isValid
      ensures Valid()
      ensures BodyStep(old(View())) == if done then Return(View(), ok) else Again(View())
    {
      var pos := BufFind(crlfDashBoundary);
      if pos < epos - spos {
        ok := TakeContent(pos);
        return !ok, ok;
      }
      ok := HoldTurn();
      return true, ok;
    }

    /** Lines 4536-4545: the boundary is not in the buffer. */
    method HoldTurn() returns (ok: bool)
      requires Valid() && |crlfDashBoundary| <= epos - spos && Find(Pending(), crlfDashBoundary) == epos - spos
      modifies this`spos, this`events, this`isValid
      ensures Valid()
      ensures BodyStep(old(View())) == Return(View(), ok)
    {
      ok := true;
      if epos - spos > |crlfDashBoundary| {
        ok := HoldBack(epos - spos - |crlfDashBoundary|);
      }
    }

    /** Lines 4528-4534: the rest of the content, up to the boundary at `pos`. */
    method TakeContent(pos: nat) returns (ok: bool)
      requires Valid() && state == 3 && pos + |crlfDashBoundary| <= epos - spos
      modifies this`spos, this`events, this`state, this`isValid
      ensures Valid()
      ensures ContentEndsAt(old(View()), pos, pos + |crlfDashBoundary|) == if ok then Again(View()) else Return(View(), false)
    {
      var content := BufHead(pos);
      ok := Hear(Content(content));
      if ok {
        BufErase(pos + |crlfDashBoundary|);
        state := 4;
      }
    }

    /** Lines 4536-4544: all but a tail as long as the boundary. */
    method HoldBack(len: nat) returns (ok: bool)
      requires Valid() && len <= epos - spos
      modifies this`spos, this`events, this`isValid
      ensures Valid()
      ensures ContentHeldBack(old(View()), len) == Return(View(), ok)
    {
      var content := BufHead(len);
      ok := Hear(Content(content));
      if ok {
        BufErase(len);
      }
    }

    /** Lines 4549-4563. */
    method BoundaryTurn() returns (done: bool)
      requires Valid() && spos < epos && state > 3
      modifies this`spos, this`state, this`isValid
      ensures Valid()
      ensures BoundaryStep(old(View())) == if done then Return(View(), true) else Again(View())
    {
      if 2 > epos - spos {
        return true;
      }
      var crlf := StartWith(spos, CRLF);
      if crlf {
        BufErase(2);
        state := 1;
        return false;
      }
      var dash := StartWith(spos, DASH);
      if dash {
        BufErase(2);
        isValid := true;
        BufErase(epos - spos);
      }
      return true;
    }

    /** One turn of the loop in lines 4439-4566; `done` if it returned. */
    method Turn() returns (done: bool, ok: bool)
      requires Valid() && spos < epos
      modifies this`spos, this`file, this`events, this`state, this`isValid
      ensures Valid()
      ensures Step(old(View())) == if done then Return(View(), ok) else Again(View())
    {
      done, ok := false, true;
      match state
      case 0 => done, ok := OpeningTurn();
      case 1 =>
        file := NO_INFO;
        state := 2;
      case 2 => done, ok := HeaderTurn();
      case 3 => done, ok := BodyTurn();
      case _ => done := BoundaryTurn();
    }

    /** Lines 4434-4569: exactly one call of the parser as a function. */
    method Parse(data: string) returns (ok: bool)
      requires Valid()
      modifies this, buf
      ensures Valid() && (View(), ok) == Feed(old(View()), data)
      ensures buf == old(buf) || fresh(buf)
    {
      BufAppend(data);
      ghost var p := View();
      while spos < epos
        invariant Valid() && (buf == old(buf) || fresh(buf))
        invariant Loop(View()) == Loop(p)
        decreases epos - spos, if state == 1 then 1 else 0
      {
        var done;
        done, ok := Turn();
        if done {
          return;
        }
      }
      return true;
    }

    /** A whole body, segment by segment, as read_content hands it over. */
    method ParseAll(segments: seq<string>) returns (ok: bool)
      requires Valid()
      modifies this, buf
      ensures Valid() && (View(), ok) == FeedAll(old(View()), segments)
    {
      var i := 0;
      while i < |segments|
        invariant i <= |segments|
        invariant Valid() && (buf == old(buf) || fresh(buf))
        invariant FeedAll(View(), segments[i..]) == FeedAll(old(View()), segments)
      {
        assert segments[i..][1..] == segments[i + 1..];
        ok := Parse(segments[i]);
        if !ok {
          return;
        }
        i := i + 1;
      }
      return true;
    }
  }

  lemma FirstCharacterMissing(s: string, t: string, k: nat)
    requires t != "" && k < |s| && s[k] != t[0]
    ensures !OccursAt(s, t, k)
  {
    assert k + |t| <= |s| ==> s[k..k + |t|][0] == s[k];
  }

  lemma OccursIsPrefix(s: string, t: string, k: nat)
    requires k <= |s|
    ensures OccursAt(s, t, k) <==> t <= s[k..]
  {
    assert k + |t| <= |s| ==> s[k..][..|t|] == s[k..k + |t|];
  }
}
