/**
 The streaming parser undoes the serializer, however the body is cut into segments, as long as the
 first segment holds the whole opening boundary line. The proof follows the text that is still to
 come: at every return of `parse`, what is buffered and what was not fed yet are together exactly
 the unparsed rest of the serialized body.
 */
module MultipartRoundTrip {
  import opened Basics
  import opened HttpText
  import opened MultipartForm
  import opened MultipartHeaders

  // ----- what the promise is about

  /** Lines 4701-4711. */
  predicate BoundaryCharsValid(boundary: string) {
    forall i | 0 <= i < |boundary| ::
      var c := boundary[i];
      'a' <= c <= 'z' || 'A' <= c <= 'Z' || '0' <= c <= '9' || c == '-' || c == '_'
  }

  ghost predicate Never(s: string, t: string) {
    forall i | 0 <= i < |s| :: !OccursAt(s, t, i)
  }

  ghost predicate Sendable(item: Item, boundary: string) {
    match item
    case Item(name, content, filename, contentType) =>
      && PlainName(name) && PlainName(filename)
      && PlainType(contentType)
      && (forall line | line in ItemLines(item) :: |line| < HEADER_MAX_LENGTH)
      && Never(content, CRLF + DASH + boundary)
  }

  ghost predicate AllSendable(items: seq<Item>, boundary: string) {
    forall i | 0 <= i < |items| :: Sendable(items[i], boundary)
  }

  function Entries(items: seq<Item>): (es: seq<(FileInfo, string)>)
    ensures |es| == |items|
  {
    seq(|items|, i requires 0 <= i < |items| => (InfoOf(items[i]), items[i].content))
  }

  // ----- the serialized body, seen from inside

  function LinesText(lines: seq<string>): string {
    if lines == [] then "" else lines[0] + CRLF + LinesText(lines[1..])
  }

  /** What follows a boundary: the end, or one more entry up to and past the next boundary. */
  function Tail(items: seq<Item>, boundary: string): string
    decreases |items|, 0
  {
    if items == [] then DASH + CRLF
    else CRLF + EntryText(ItemLines(items[0]), items[0].content, items[1..], boundary)
  }

  function EntryText(lines: seq<string>, content: string, rest: seq<Item>, boundary: string): string
    decreases |rest|, 2
  {
    LinesText(lines) + (CRLF + BodyText(content, rest, boundary))
  }

  function BodyText(content: string, rest: seq<Item>, boundary: string): string
    decreases |rest|, 1
  {
    content + ((CRLF + DASH + boundary) + Tail(rest, boundary))
  }

  lemma ItemBeginLines(item: Item, boundary: string)
    ensures ItemBegin(item, boundary) == (DASH + boundary + CRLF) + (LinesText(ItemLines(item)) + CRLF)
  {
    var open, d, lines := DASH + boundary + CRLF, DispositionLine(item), ItemLines(item);
    var start := "Content-Disposition: form-data; name=\"" + item.name + "\"";
    var named := open + "Content-Disposition: form-data; name=\"" + item.name + "\"";
    assert named == open + start;
    var filed := if item.filename == "" then named else named + "; filename=\"" + item.filename + "\"";
    assert filed == open + d by {
      if item.filename == "" {
        assert d == start + "" == start;
      } else {
        assert d == start + ("; filename=\"" + item.filename + "\"");
        assert filed == named + ("; filename=\"" + item.filename + "\"");
        Associate(open, start, "; filename=\"" + item.filename + "\"");
      }
    }
    Associate(open, d, CRLF);
    if item.contentType == "" {
      assert lines == [d] && lines[1..] == [];
      assert LinesText(lines) == d + CRLF + "" == d + CRLF;
      Associate(open, d + CRLF, CRLF);
    } else {
      var t := "Content-Type: " + item.contentType;
      assert lines == [d, t] && lines[1..] == [t] && lines[1..][1..] == [];
      assert LinesText([t]) == t + CRLF + "" == t + CRLF;
      assert LinesText(lines) == (d + CRLF) + (t + CRLF);
      assert (filed + CRLF) + "Content-Type: " + item.contentType + CRLF == (filed + CRLF) + (t + CRLF);
      Associate(open, d + CRLF, t + CRLF);
      Associate(open, LinesText(lines), CRLF);
    }
  }

  /** A serialized body is an opening boundary and then a tail. */
  lemma {:induction false} SerializeIsTail(items: seq<Item>, boundary: string)
    ensures Serialize(items, boundary) == (DASH + boundary) + Tail(items, boundary)
    decreases |items|
  {
    if items == [] {
      assert Serialize(items, boundary) == Finish(boundary);
      Associate(DASH + boundary, DASH, CRLF);
    } else {
      SerializeIsTail(items[1..], boundary);
      ItemBeginLines(items[0], boundary);
      EntryAssembles(items[0], SerializeItems(items[1..], boundary), items[1..], boundary);
    }
  }

  lemma EntryAssembles(item: Item, more: string, rest: seq<Item>, boundary: string)
    requires more + Finish(boundary) == (DASH + boundary) + Tail(rest, boundary)
    ensures (DASH + boundary + CRLF) + (LinesText(ItemLines(item)) + CRLF) + (item.content + CRLF) + more + Finish(boundary)
         == (DASH + boundary) + (CRLF + EntryText(ItemLines(item), item.content, rest, boundary))
  {
    var open, lines, c := DASH + boundary + CRLF, LinesText(ItemLines(item)), item.content;
    var tail := Tail(rest, boundary);
    Associate(open + (lines + CRLF) + (c + CRLF), more, Finish(boundary));
    Associate(open + (lines + CRLF), c + CRLF, (DASH + boundary) + tail);
    Associate(c, CRLF, (DASH + boundary) + tail);
    Associate(CRLF, DASH + boundary, tail);
    assert CRLF + (DASH + boundary) == CRLF + DASH + boundary;
    var body := BodyText(c, rest, boundary);
    assert body == c + (CRLF + ((DASH + boundary) + tail));
    Associate(open, lines + CRLF, body);
    Associate(lines, CRLF, body);
    Associate(DASH + boundary, CRLF, lines + (CRLF + body));
  }

  // ----- where the parser stands in the body

  /** `done` entries are finished; `lines` are the header lines of `item` still to come; of its
      content `got` was reported and `left` is to come; `rest` follows. */
  datatype Phase =
    | Opening
    | InHeaders(done: seq<Item>, item: Item, lines: seq<string>, rest: seq<Item>)
    | InBody(done: seq<Item>, item: Item, got: string, left: string, rest: seq<Item>)
    | AtBoundary(done: seq<Item>, rest: seq<Item>)
    | Ended(epilogue: string)

  /** The unparsed rest of the body. */
  function Remaining(ph: Phase, items: seq<Item>, boundary: string): string {
    match ph
    case Opening => (DASH + boundary) + Tail(items, boundary)
    case InHeaders(_, item, lines, rest) => EntryText(lines, item.content, rest, boundary)
    case InBody(_, _, _, left, rest) => BodyText(left, rest, boundary)
    case AtBoundary(_, rest) => Tail(rest, boundary)
    case Ended(epilogue) => epilogue
  }

  ghost predicate StandsAt(p: Parser, items: seq<Item>, ph: Phase) {
    match ph
    case Opening => p.state == 0 && p.events == []
    case InHeaders(done, item, lines, rest) =>
      && items == done + [item] + rest
      && (forall line | line in lines :: line in ItemLines(item))
      && ((p.state == 1 && lines == ItemLines(item))
          || (p.state == 2 && ApplyLines(p.file, lines) == Some(InfoOf(item))))
      && Reported(p.events) == Entries(done)
    case InBody(done, item, got, left, rest) =>
      && p.state == 3
      && items == done + [item] + rest
      && got + left == item.content
      && Reported(p.events) == Entries(done) + [(InfoOf(item), got)]
    case AtBoundary(done, rest) =>
      && p.state == 4
      && items == done + rest
      && Reported(p.events) == Entries(done)
    case Ended(epilogue) =>
      && p.valid
      && Reported(p.events) == Entries(items)
      && ((p.state == 4 && epilogue in {"", "\n", "\r\n"}) || (p.state == 1 && epilogue == ""))
  }

  /** What is buffered and what was not fed yet make up the unparsed rest. */
  ghost predicate Sim(p: Parser, items: seq<Item>, ph: Phase, unread: string) {
    && p.refuses.None?
    && p.pending + unread == Remaining(ph, items, p.boundary)
    && StandsAt(p, items, ph)
  }

  // ----- searching in a buffer that holds only a prefix

  lemma CharAt(s: string, t: string, k: nat, i: nat)
    requires i < |t|
    ensures OccursAt(s, t, k) ==> s[k + i] == t[i]
  {
    if OccursAt(s, t, k) {
      assert s[k..k + |t|][i] == s[k + i];
    }
  }

  lemma OccursInPrefix(pending: string, unread: string, t: string, k: nat)
    ensures OccursAt(pending, t, k) <==> OccursAt(pending + unread, t, k) && k + |t| <= |pending|
  {
    if k + |t| <= |pending| {
      assert (pending + unread)[k..k + |t|] == pending[k..k + |t|];
    }
  }

  lemma FindInPrefix(pending: string, unread: string, t: string, i: nat)
    requires t != "" && OccursAt(pending + unread, t, i)
    requires forall k | 0 <= k < i :: !OccursAt(pending + unread, t, k)
    ensures Find(pending, t) == if i + |t| <= |pending| then i else |pending|
  {
    OccursInPrefix(pending, unread, t, i);
    OccursInPrefix(pending, unread, t, Find(pending, t));
  }

  /** A line without a carriage return ends at its own line break. */
  lemma LineEnds(line: string, more: string)
    requires Free(line, '\r')
    ensures OccursAt(line + CRLF + more, CRLF, |line|)
    ensures forall k | 0 <= k < |line| :: !OccursAt(line + CRLF + more, CRLF, k)
  {
    var s := line + CRLF + more;
    forall k | 0 <= k < |line|
      ensures !OccursAt(s, CRLF, k)
    {
      CharAt(s, CRLF, k, 0);
      assert s[k] == line[k];
    }
    assert s[|line|..|line| + 2] == CRLF;
  }

  /** The boundary cannot overlap itself, because its carriage return comes first and only there: the
      content ends at the first occurrence. */
  lemma ContentEnds(left: string, more: string, boundary: string)
    requires BoundaryCharsValid(boundary) && Never(left, CRLF + DASH + boundary)
    ensures var cdb := CRLF + DASH + boundary;
            && OccursAt(left + (cdb + more), cdb, |left|)
            && (forall k | 0 <= k < |left| :: !OccursAt(left + (cdb + more), cdb, k))
  {
    var cdb := CRLF + DASH + boundary;
    var s := left + (cdb + more);
    assert s[|left|..|left| + |cdb|] == cdb;
    forall k | 0 <= k < |left|
      ensures !OccursAt(s, cdb, k)
    {
      OccursInPrefix(left, cdb + more, cdb, k);
      assert !OccursAt(left, cdb, k);
      if k + |cdb| > |left| {
        var i := |left| - k;
        CharAt(s, cdb, k, i);
        assert s[k + i] == '\r';
        assert cdb[i] == if i == 1 then '\n' else if i < 4 then '-' else boundary[i - 4];
      }
    }
  }

  lemma NeverInRest(got: string, left: string, t: string)
    requires Never(got + left, t)
    ensures Never(left, t)
  {
    forall i | 0 <= i < |left|
      ensures !OccursAt(left, t, i)
    {
      assert i + |t| <= |left| ==> (got + left)[|got| + i..|got| + i + |t|] == left[i..i + |t|];
      assert !OccursAt(got + left, t, |got| + i);
    }
  }

  // ----- what the callbacks have been told

  lemma ReportedHeader(events: seq<Event>, f: FileInfo)
    ensures Reported(events + [Header(f)]) == Reported(events) + [(f, "")]
  {
    assert (events + [Header(f)])[..|events|] == events;
  }

  lemma ReportedContent(events: seq<Event>, before: seq<(FileInfo, string)>, f: FileInfo, c: string, d: string)
    requires Reported(events) == before + [(f, c)]
    ensures Reported(events + [Content(d)]) == before + [(f, c + d)]
  {
    assert (events + [Content(d)])[..|events|] == events;
    assert (before + [(f, c)])[..|before|] == before;
  }

  // ----- the states one by one

  /** The text of a complete body is never exhausted before its end. */
  lemma StillToCome(p: Parser, items: seq<Item>, ph: Phase, unread: string)
    requires Sim(p, items, ph, unread) && p.pending == "" && unread == "" && !ph.Opening?
    ensures ph.Ended?
  {
  }

  /** What is buffered, up to a position the buffer covers. */
  lemma Buffered(pending: string, unread: string, front: string, back: string)
    requires pending + unread == front + back && |front| <= |pending|
    ensures pending[..|front|] == front && pending[|front|..] + unread == back
  {
    assert pending[..|front|] == (pending + unread)[..|front|];
    assert pending[|front|..] + unread == (pending + unread)[|front|..];
  }

  /** The phase behind the opening line. */
  function FirstHeaders(items: seq<Item>): Phase
    requires items != []
  {
    InHeaders([], items[0], ItemLines(items[0]), items[1..])
  }

  lemma OpeningText(items: seq<Item>, boundary: string)
    requires items != []
    ensures Remaining(Opening, items, boundary) ==
            (DASH + boundary + CRLF) + Remaining(FirstHeaders(items), items, boundary)
  {
    Associate(DASH + boundary, CRLF, EntryText(ItemLines(items[0]), items[0].content, items[1..], boundary));
  }

  lemma FirstStands(p: Parser, items: seq<Item>)
    requires items != [] && p.state == 1 && p.events == []
    ensures StandsAt(p, items, FirstHeaders(items))
  {
    assert items == [] + [items[0]] + items[1..];
    assert Entries([]) == [];
  }

  lemma OpeningLineStep(p: Parser, items: seq<Item>, unread: string)
    requires Sim(p, items, Opening, unread) && items != []
    requires |p.pending| >= |p.DashBoundaryCrlf()|
    ensures Find(p.pending, p.DashBoundaryCrlf()) == 0 && p.DashBoundaryCrlf() <= p.pending
    ensures Sim(p.(pending := p.pending[|p.DashBoundaryCrlf()|..], state := 1), items, FirstHeaders(items), unread)
  {
    var dbc, rest := p.DashBoundaryCrlf(), Remaining(FirstHeaders(items), items, p.boundary);
    OpeningText(items, p.boundary);
    OpeningFound(p.pending, unread, dbc, rest);
    Buffered(p.pending, unread, dbc, rest);
    FirstStands(p.(pending := p.pending[|dbc|..], state := 1), items);
  }

  lemma OpeningFound(pending: string, unread: string, dbc: string, text: string)
    requires pending + unread == dbc + text && |pending| >= |dbc| > 0
    ensures Find(pending, dbc) == 0 && dbc <= pending
  {
    Buffered(pending, unread, dbc, text);
    assert pending[..|dbc|] == dbc;
  }

  lemma EmptyLine(p: Parser, items: seq<Item>, ph: Phase, unread: string)
    requires Sim(p, items, ph, unread) && ph.InHeaders? && p.state == 2 && ph.lines == []
    ensures Find(p.pending, CRLF) == if |p.pending| >= 2 then 0 else |p.pending|
    ensures |p.pending| < 2 ==> unread != ""
    ensures |p.pending| >= 2 ==>
              Sim(p.(events := p.events + [Header(p.file)], pending := p.pending[2..], state := 3), items,
                  InBody(ph.done, ph.item, "", ph.item.content, ph.rest), unread)
  {
    var body := BodyText(ph.item.content, ph.rest, p.boundary);
    assert p.pending + unread == "" + CRLF + body == CRLF + body;
    LineEnds("", body);
    FindInPrefix(p.pending, unread, CRLF, 0);
    if |p.pending| >= 2 {
      Buffered(p.pending, unread, CRLF, body);
      ReportedHeader(p.events, p.file);
    }
  }

  lemma OneLineStep(p: Parser, items: seq<Item>, ph: Phase, unread: string)
    requires Sim(p, items, ph, unread) && ph.InHeaders? && p.state == 2 && ph.lines != []
    requires AllSendable(items, p.boundary)
    ensures var n := |ph.lines[0]|;
            && 0 < n < HEADER_MAX_LENGTH
            && Find(p.pending, CRLF) == (if n + 2 <= |p.pending| then n else |p.pending|)
            && (n + 2 > |p.pending| ==> unread != "")
            && (n + 2 <= |p.pending| ==>
                  && ApplyLine(p.file, p.pending[..n]).Some?
                  && Sim(p.(file := ApplyLine(p.file, p.pending[..n]).value, pending := p.pending[n + 2..]),
                         items, ph.(lines := ph.lines[1..]), unread))
  {
    var line, more := ph.lines[0], EntryText(ph.lines[1..], ph.item.content, ph.rest, p.boundary);
    assert items[|ph.done|] == ph.item;
    LinesAreLines(ph.item);
    assert line in ph.lines;
    FirstLineText(ph.lines, ph.item.content, ph.rest, p.boundary);
    LineFound(p.pending, unread, line, more);
  }

  lemma FirstLineText(lines: seq<string>, content: string, rest: seq<Item>, boundary: string)
    requires lines != []
    ensures EntryText(lines, content, rest, boundary)
         == lines[0] + CRLF + EntryText(lines[1..], content, rest, boundary)
  {
    Associate(lines[0] + CRLF, LinesText(lines[1..]), CRLF + BodyText(content, rest, boundary));
  }

  /** A line is found where it ends, if the buffer reaches that far, and not before. */
  lemma LineFound(pending: string, unread: string, line: string, more: string)
    requires pending + unread == line + CRLF + more && Free(line, '\r')
    ensures var n := |line|;
            && Find(pending, CRLF) == (if n + 2 <= |pending| then n else |pending|)
            && (n + 2 > |pending| ==> unread != "")
            && (n + 2 <= |pending| ==> pending[..n] == line && pending[n + 2..] + unread == more)
  {
    LineEnds(line, more);
    FindInPrefix(pending, unread, CRLF, |line|);
    if |line| + 2 <= |pending| {
      Buffered(pending, unread, line + CRLF, more);
      assert pending[..|line|] == (line + CRLF)[..|line|] == line;
    }
  }

  /** Header lines: whole lines are applied one by one; an incomplete line waits for more text. */
  lemma {:induction false} HeaderLinesSim(p: Parser, items: seq<Item>, ph: Phase, unread: string) returns (after: Phase)
    requires Sim(p, items, ph, unread) && ph.InHeaders? && p.state == 2
    requires AllSendable(items, p.boundary)
    ensures Find(p.pending, CRLF) <= HEADER_MAX_LENGTH
    ensures HeaderLines(p).1
    ensures Sim(HeaderLines(p).0, items, after, unread)
    ensures if HeaderLines(p).0.state == 3 then after.InBody? else after.InHeaders? && unread != ""
    decreases |ph.lines|
  {
    if ph.lines == [] {
      after := NoLineLeft(p, items, ph, unread);
    } else {
      OneLineStep(p, items, ph, unread);
      var n := |ph.lines[0]|;
      if n + 2 > |p.pending| {
        HeaderLinesWait(p);
        after := ph;
      } else {
        HeaderLinesStep(p, n);
        var q := p.(file := ApplyLine(p.file, p.pending[..n]).value, pending := p.pending[n + 2..]);
        after := HeaderLinesSim(q, items, ph.(lines := ph.lines[1..]), unread);
      }
    }
  }

  /** The empty line ends the headers, once it is whole. */
  lemma NoLineLeft(p: Parser, items: seq<Item>, ph: Phase, unread: string) returns (after: Phase)
    requires Sim(p, items, ph, unread) && ph.InHeaders? && p.state == 2 && ph.lines == []
    ensures Find(p.pending, CRLF) <= HEADER_MAX_LENGTH
    ensures HeaderLines(p).1
    ensures Sim(HeaderLines(p).0, items, after, unread)
    ensures if HeaderLines(p).0.state == 3 then after.InBody? else after.InHeaders? && unread != ""
  {
    after := ph;
    EmptyLine(p, items, ph, unread);
    if |p.pending| >= 2 {
      HeaderLinesEnd(p);
      after := InBody(ph.done, ph.item, "", ph.item.content, ph.rest);
    } else {
      HeaderLinesWait(p);
    }
  }

  /** The boundary is found where the content ends, if the buffer reaches that far, and not before. */
  lemma BoundaryFound(p: Parser, items: seq<Item>, ph: Phase, unread: string)
    requires Sim(p, items, ph, unread) && ph.InBody?
    requires AllSendable(items, p.boundary) && BoundaryCharsValid(p.boundary)
    ensures var cdb := p.CrlfDashBoundary();
            && p.pending + unread == ph.left + (cdb + Tail(ph.rest, p.boundary))
            && Find(p.pending, cdb) == if |ph.left| + |cdb| <= |p.pending| then |ph.left| else |p.pending|
  {
    assert items[|ph.done|] == ph.item;
    NeverInRest(ph.got, ph.left, p.CrlfDashBoundary());
    ContentEnds(ph.left, Tail(ph.rest, p.boundary), p.boundary);
    FindInPrefix(p.pending, unread, p.CrlfDashBoundary(), |ph.left|);
  }

  /** The body ends: the rest of the content is reported, and the boundary is consumed. */
  lemma BodyEnds(p: Parser, items: seq<Item>, ph: Phase, unread: string)
    requires Sim(p, items, ph, unread) && ph.InBody?
    requires AllSendable(items, p.boundary) && BoundaryCharsValid(p.boundary)
    requires |ph.left| + |p.CrlfDashBoundary()| <= |p.pending|
    ensures var n := |ph.left|;
            Sim(p.(events := p.events + [Content(p.pending[..n])],
                   pending := p.pending[n + |p.CrlfDashBoundary()|..], state := 4),
                items, AtBoundary(ph.done + [ph.item], ph.rest), unread)
  {
    var cdb, tail := p.CrlfDashBoundary(), Tail(ph.rest, p.boundary);
    BoundaryFound(p, items, ph, unread);
    Associate(ph.left, cdb, tail);
    Buffered(p.pending, unread, ph.left + cdb, tail);
    Buffered(p.pending, unread, ph.left, cdb + tail);
    ReportedContent(p.events, Entries(ph.done), InfoOf(ph.item), ph.got, ph.left);
    assert Entries(ph.done + [ph.item]) == Entries(ph.done) + [(InfoOf(ph.item), ph.item.content)];
  }

  /** The body goes on: all but a tail as long as the boundary is reported, and none of it can belong
      to the boundary. */
  lemma BodyGoesOn(p: Parser, items: seq<Item>, ph: Phase, unread: string, len: nat)
    requires Sim(p, items, ph, unread) && ph.InBody?
    requires AllSendable(items, p.boundary) && BoundaryCharsValid(p.boundary)
    requires |p.pending| < |ph.left| + |p.CrlfDashBoundary()|
    requires |p.pending| == len + |p.CrlfDashBoundary()|
    ensures unread != "" && len < |ph.left|
    ensures Sim(p.(events := p.events + [Content(p.pending[..len])], pending := p.pending[len..]), items,
                ph.(got := ph.got + ph.left[..len], left := ph.left[len..]), unread)
  {
    var cdb, tail := p.CrlfDashBoundary(), Tail(ph.rest, p.boundary);
    BoundaryFound(p, items, ph, unread);
    Associate(ph.left[..len], ph.left[len..], cdb + tail);
    assert ph.left[..len] + ph.left[len..] == ph.left;
    Buffered(p.pending, unread, ph.left[..len], ph.left[len..] + (cdb + tail));
    ReportedContent(p.events, Entries(ph.done), InfoOf(ph.item), ph.got, ph.left[..len]);
    assert ph.got + ph.left[..len] + ph.left[len..] == ph.got + ph.left;
  }

  /** Behind a boundary: another entry, or the end. */
  lemma BoundarySim(p: Parser, items: seq<Item>, ph: Phase, unread: string)
    requires Sim(p, items, ph, unread) && ph.AtBoundary?
    ensures |p.pending| < 2 ==> unread != ""
    ensures |p.pending| >= 2 && ph.rest != [] ==>
              && CRLF <= p.pending
              && Sim(p.(pending := p.pending[2..], state := 1), items,
                     InHeaders(ph.done, ph.rest[0], ItemLines(ph.rest[0]), ph.rest[1..]), unread)
    ensures |p.pending| >= 2 && ph.rest == [] ==>
              && !(CRLF <= p.pending) && DASH <= p.pending
              && Sim(p.(pending := "", valid := true), items, Ended(unread), unread)
  {
    var s := p.pending + unread;
    if |p.pending| >= 2 {
      assert p.pending[..2] == s[..2];
      assert p.pending[2..] + unread == s[2..];
      if ph.rest == [] {
        assert s == "--\r\n";
        assert s[..2][0] == '-';
        assert unread == s[|p.pending|..];
        assert s[2..] == "\r\n" && s[3..] == "\n" && s[4..] == "";
        assert ph.done == items;
      } else {
        assert items == ph.done + [ph.rest[0]] + ph.rest[1..];
      }
    }
  }

  // ----- the loop

  /** The turn of the loop that is due, if there is anything to parse. */
  function LoopStep(p: Parser): Option<Turn> {
    if p.pending == "" then None else Some(Step(p))
  }

  /** The phase changes without the parser's loop going round again. */
  ghost predicate Returns(p: Parser, q: Parser, items: seq<Item>, after: Phase, unread: string) {
    match LoopStep(p)
    case Some(Return(r, ok)) =>
      && r == q && ok && Sim(q, items, after, unread)
      && !after.Opening? && (unread == "" ==> after.Ended?)
    case _ => false
  }

  /** The loop goes round again from `q`. */
  ghost predicate GoesRound(p: Parser, q: Parser, items: seq<Item>, after: Phase, unread: string) {
    match LoopStep(p)
    case Some(Again(r)) => r == q && Sim(q, items, after, unread) && !after.Opening?
    case _ => false
  }

  lemma HeadersTurn(p: Parser, items: seq<Item>, ph: Phase, unread: string) returns (q: Parser, after: Phase)
    requires Sim(p, items, ph, unread) && ph.InHeaders? && p.pending != ""
    requires AllSendable(items, p.boundary)
    ensures q.boundary == p.boundary
    ensures Returns(p, q, items, after, unread) || GoesRound(p, q, items, after, unread)
  {
    if p.state == 1 {
      assert items[|ph.done|] == ph.item;
      LinesApply(ph.item);
      q, after := p.(file := NO_INFO, state := 2), ph;
    } else {
      after := HeaderLinesSim(p, items, ph, unread);
      q := HeaderLines(p).0;
    }
  }

  lemma BodyStepFinds(p: Parser, n: nat)
    requires Find(p.pending, p.CrlfDashBoundary()) == n && n + |p.CrlfDashBoundary()| <= |p.pending| && p.Accepts()
    ensures BodyStep(p) == ContentEndsAt(p, n, n + |p.CrlfDashBoundary()|)
    ensures BodyStep(p) == Again(p.(events := p.events + [Content(p.pending[..n])],
                                    pending := p.pending[n + |p.CrlfDashBoundary()|..], state := 4))
  {
  }

  lemma BodyStepWaits(p: Parser)
    requires Find(p.pending, p.CrlfDashBoundary()) == |p.pending| && p.Accepts()
    ensures var cdb := p.CrlfDashBoundary();
            BodyStep(p) == Return(
              if |p.pending| <= |cdb| then p
              else p.(events := p.events + [Content(p.pending[..|p.pending| - |cdb|])],
                      pending := p.pending[|p.pending| - |cdb|..]), true)
  {
  }

  lemma BodyTurn(p: Parser, items: seq<Item>, ph: Phase, unread: string) returns (q: Parser, after: Phase)
    requires Sim(p, items, ph, unread) && ph.InBody? && p.pending != ""
    requires AllSendable(items, p.boundary) && BoundaryCharsValid(p.boundary)
    ensures q.boundary == p.boundary
    ensures Returns(p, q, items, after, unread) || GoesRound(p, q, items, after, unread)
  {
    if |ph.left| + |p.CrlfDashBoundary()| <= |p.pending| {
      q, after := BodyMovesOn(p, items, ph, unread);
    } else {
      q, after := BodyHolds(p, items, ph, unread);
    }
  }

  lemma BodyMovesOn(p: Parser, items: seq<Item>, ph: Phase, unread: string) returns (q: Parser, after: Phase)
    requires Sim(p, items, ph, unread) && ph.InBody? && p.pending != ""
    requires AllSendable(items, p.boundary) && BoundaryCharsValid(p.boundary)
    requires |ph.left| + |p.CrlfDashBoundary()| <= |p.pending|
    ensures q.boundary == p.boundary && GoesRound(p, q, items, after, unread)
  {
    BoundaryFound(p, items, ph, unread);
    BodyStepFinds(p, |ph.left|);
    BodyEnds(p, items, ph, unread);
    q, after := BodyStep(p).p, AtBoundary(ph.done + [ph.item], ph.rest);
  }

  lemma BodyHolds(p: Parser, items: seq<Item>, ph: Phase, unread: string) returns (q: Parser, after: Phase)
    requires Sim(p, items, ph, unread) && ph.InBody? && p.pending != ""
    requires AllSendable(items, p.boundary) && BoundaryCharsValid(p.boundary)
    requires |ph.left| + |p.CrlfDashBoundary()| > |p.pending|
    ensures q.boundary == p.boundary && Returns(p, q, items, after, unread)
  {
    var k := |p.CrlfDashBoundary()|;
    BoundaryFound(p, items, ph, unread);
    BodyStepWaits(p);
    q, after := BodyStep(p).p, ph;
    if k <= |p.pending| {
      var len := |p.pending| - k;
      BodyGoesOn(p, items, ph, unread, len);
      if len > 0 {
        after := ph.(got := ph.got + ph.left[..len], left := ph.left[len..]);
      }
    }
  }

  lemma BoundaryTurn(p: Parser, items: seq<Item>, ph: Phase, unread: string) returns (q: Parser, after: Phase)
    requires Sim(p, items, ph, unread) && ph.AtBoundary? && p.pending != ""
    ensures q.boundary == p.boundary
    ensures Returns(p, q, items, after, unread) || GoesRound(p, q, items, after, unread)
  {
    BoundarySim(p, items, ph, unread);
    q, after := p, ph;
    if |p.pending| >= 2 {
      if ph.rest == [] {
        q, after := p.(pending := "", valid := true), Ended(unread);
      } else {
        q := p.(pending := p.pending[2..], state := 1);
        after := InHeaders(ph.done, ph.rest[0], ItemLines(ph.rest[0]), ph.rest[1..]);
      }
    }
  }

  lemma EndTurn(p: Parser, items: seq<Item>, ph: Phase, unread: string) returns (q: Parser, after: Phase)
    requires Sim(p, items, ph, unread) && ph.Ended? && p.pending != ""
    ensures q.boundary == p.boundary
    ensures Returns(p, q, items, after, unread) || GoesRound(p, q, items, after, unread)
  {
    q, after := p, ph;
    if |p.pending| >= 2 {
      assert unread == "" && p.pending == CRLF;
      q, after := p.(pending := p.pending[2..], state := 1), Ended("");
    }
  }

  /** One call of `parse` follows the body, and leaves nothing buffered unparsed but what cannot be
      decided yet; with nothing left to feed, it has reached the end. */
  lemma {:induction false} LoopSim(p: Parser, items: seq<Item>, ph: Phase, unread: string) returns (after: Phase)
    requires Sim(p, items, ph, unread) && !ph.Opening?
    requires AllSendable(items, p.boundary) && BoundaryCharsValid(p.boundary)
    ensures Loop(p).1 && Loop(p).0.boundary == p.boundary
    ensures Sim(Loop(p).0, items, after, unread) && !after.Opening?
    ensures unread == "" ==> after.Ended?
    decreases |p.pending|, if p.state == 1 then 1 else 0
  {
    if p.pending == "" {
      after := ph;
      if unread == "" {
        StillToCome(p, items, ph, unread);
      }
    } else {
      var q;
      match ph {
        case InHeaders(_, _, _, _) => q, after := HeadersTurn(p, items, ph, unread);
        case InBody(_, _, _, _, _) => q, after := BodyTurn(p, items, ph, unread);
        case AtBoundary(_, _) => q, after := BoundaryTurn(p, items, ph, unread);
        case Ended(_) => q, after := EndTurn(p, items, ph, unread);
      }
      if !Returns(p, q, items, after, unread) {
        after := LoopSim(q, items, after, unread);
      }
    }
  }

  // ----- whole bodies

  function Flat(segments: seq<string>): string {
    if segments == [] then "" else segments[0] + Flat(segments[1..])
  }

  lemma {:induction false} FeedAllSim(p: Parser, items: seq<Item>, ph: Phase, segments: seq<string>)
    requires Sim(p, items, ph, Flat(segments)) && !ph.Opening?
    requires AllSendable(items, p.boundary) && BoundaryCharsValid(p.boundary)
    requires segments == [] ==> ph.Ended?
    ensures FeedAll(p, segments).1 && FeedAll(p, segments).0.valid
    ensures Reported(FeedAll(p, segments).0.events) == Entries(items)
    decreases |segments|
  {
    if segments != [] {
      var rest := Flat(segments[1..]);
      Associate(p.pending, segments[0], rest);
      var after := LoopSim(p.(pending := p.pending + segments[0]), items, ph, rest);
      FeedAllSim(Feed(p, segments[0]).0, items, after, segments[1..]);
    }
  }

  /** The first segment holds the whole opening boundary line. */
  predicate CoversOpening(segments: seq<string>, boundary: string) {
    segments != [] && |segments[0]| >= |DASH + boundary + CRLF|
  }

  /** Parsing undoes serializing, for every way to cut the body into segments, empty ones included, as
      long as the first covers the opening boundary line: the callbacks hear of exactly the entries
      that were sent, in order, with their whole content, and the body is found valid. */
  lemma ParseUndoesSerialize(items: seq<Item>, boundary: string, segments: seq<string>)
    requires items != [] && AllSendable(items, boundary) && BoundaryCharsValid(boundary)
    requires Flat(segments) == Serialize(items, boundary) && CoversOpening(segments, boundary)
    ensures var (p, ok) := FeedAll(Fresh(boundary), segments);
            ok && p.valid && Reported(p.events) == Entries(items)
  {
    var p := Fresh(boundary);
    var first, rest := segments[0], Flat(segments[1..]);
    SerializeIsTail(items, boundary);
    assert "" + first == first;
    var begun := p.(pending := p.pending + first);
    OpeningLineStep(begun, items, rest);
    assert begun.pending[0..] == begun.pending;
    var after := LoopSim(begun.(pending := begun.pending[|p.DashBoundaryCrlf()|..], state := 1), items,
                         FirstHeaders(items), rest);
    FeedAllSim(Feed(p, first).0, items, after, segments[1..]);
  }

  /** Any two such segmentations are indistinguishable to the receiver; one of them is a single call. */
  lemma SegmentationDoesNotMatter(items: seq<Item>, boundary: string, segments: seq<string>)
    requires items != [] && AllSendable(items, boundary) && BoundaryCharsValid(boundary)
    requires Flat(segments) == Serialize(items, boundary) && CoversOpening(segments, boundary)
    ensures var (p, ok) := FeedAll(Fresh(boundary), segments);
            var (q, ok1) := Feed(Fresh(boundary), Serialize(items, boundary));
            ok == ok1 && p.valid == q.valid && Reported(p.events) == Reported(q.events)
  {
    ParseUndoesSerialize(items, boundary, segments);
    var whole := Serialize(items, boundary);
    SerializeIsTail(items, boundary);
    assert [whole][1..] == [];
    assert Flat([whole]) == whole + "" == whole;
    assert FeedAll(Fresh(boundary), [whole]) == Feed(Fresh(boundary), whole);
    ParseUndoesSerialize(items, boundary, [whole]);
  }

  // ----- before the opening line is found

  lemma OpeningNotFound(boundary: string, data: string)
    requires forall k | 0 <= k < |data| :: !OccursAt(data, DASH + boundary + CRLF, k)
    ensures Feed(Fresh(boundary), data) == (Fresh(boundary), true)
  {
    var p := Fresh(boundary).(pending := "" + data);
    assert "" + data == data;
    if data != "" {
      FindFails(data, p.DashBoundaryCrlf());
      assert data[|data|..] == "";
    }
  }

  /** A first segment that ends inside the opening line is forgotten: the parser is as good as new, and
      goes on with a body whose beginning it never saw. */
  lemma ShortOpeningIsForgotten(boundary: string, segments: seq<string>)
    requires segments != [] && |segments[0]| < |DASH + boundary + CRLF|
    ensures FeedAll(Fresh(boundary), segments) == FeedAll(Fresh(boundary), segments[1..])
  {
    OpeningNotFound(boundary, segments[0]);
  }

  lemma {:induction false} NothingWithoutOpening(boundary: string, segments: seq<string>)
    requires Never(Flat(segments), DASH + boundary + CRLF)
    ensures FeedAll(Fresh(boundary), segments) == (Fresh(boundary), true)
    decreases |segments|
  {
    if segments != [] {
      var dbc, first, rest := DASH + boundary + CRLF, segments[0], Flat(segments[1..]);
      forall k | 0 <= k < |first|
        ensures !OccursAt(first, dbc, k)
      {
        OccursInPrefix(first, rest, dbc, k);
      }
      NeverInRest(first, rest, dbc);
      OpeningNotFound(boundary, first);
      NothingWithoutOpening(boundary, segments[1..]);
    }
  }
}
