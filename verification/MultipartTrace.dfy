/**
 What the streaming parser can report about any text whatever, and however the text is cut: every
 content it reports is a stretch of the text behind an empty line and in front of a boundary, and the
 stretches follow one another in the order of the entries.
 */
module MultipartTrace {
  import opened Basics
  import opened HttpText
  import opened MultipartForm
  import opened MultipartRoundTrip

  function OpeningLine(boundary: string): string {
    DASH + boundary + CRLF
  }

  function ClosingLine(boundary: string): string {
    CRLF + DASH + boundary
  }

  // ----- traces

  /** An entry in the text: its header section begins at `head`, its content at `from`, and the
      boundary that ends it at `to`. */
  datatype Span = Span(head: nat, from: nat, to: nat)

  /** Where the text goes on behind the boundary before entry `j`, or behind the opening line. */
  function Behind(boundary: string, spans: seq<Span>, j: nat): nat
    requires j <= |spans|
  {
    if j == 0 then |OpeningLine(boundary)| else spans[j - 1].to + |ClosingLine(boundary)|
  }

  /** A header section can begin behind the opening line, behind a boundary and a line break, or behind a
      line break some way after the end mark of a body. */
  predicate Starts(x: string, boundary: string, spans: seq<Span>, j: nat, head: nat)
    requires j <= |spans|
  {
    var e := Behind(boundary, spans, j);
    if j == 0 then head == e
    else (OccursAt(x, CRLF, e) && head == e + 2) || (OccursAt(x, DASH, e) && e + 4 <= head)
  }

  /** A content begins behind an empty line; one at once behind `head` leaves nothing described. */
  predicate Opened(x: string, boundary: string, spans: seq<Span>, j: nat, head: nat, from: nat, info: FileInfo)
    requires j <= |spans|
  {
    && Starts(x, boundary, spans, j, head)
    && ((from == head + 2 && OccursAt(x, CRLF, head) && info == NO_INFO)
        || (head + 4 <= from && OccursAt(x, CRLF, from - 4) && OccursAt(x, CRLF, from - 2)))
  }

  ghost predicate NoneBetween(x: string, t: string, from: nat, to: nat) {
    forall k | from <= k < to :: !OccursAt(x, t, k)
  }

  /** Entry `j` is what the text shows at its span, behind the spans before. */
  ghost predicate Shown(x: string, boundary: string, spans: seq<Span>, j: nat, e: (FileInfo, string))
    requires j < |spans|
  {
    match spans[j]
    case Span(head, from, to) =>
      && Opened(x, boundary, spans, j, head, from, e.0)
      && from <= to && OccursAt(x, ClosingLine(boundary), to)
      && NoneBetween(x, ClosingLine(boundary), from, to)
      && x[from..to] == e.1
  }

  ghost predicate Traced(x: string, boundary: string, es: seq<(FileInfo, string)>, spans: seq<Span>) {
    && |es| == |spans|
    && forall j {:trigger es[j]} | 0 <= j < |es| :: Shown(x, boundary, spans, j, es[j])
  }

  lemma TracedOneMore(x: string, boundary: string, es: seq<(FileInfo, string)>, spans: seq<Span>, span: Span)
    requires es != [] && Traced(x, boundary, es[..|es| - 1], spans)
    requires Shown(x, boundary, spans + [span], |spans|, es[|es| - 1])
    ensures Traced(x, boundary, es, spans + [span])
  {
    var more := spans + [span];
    forall j | 0 <= j < |es|
      ensures Shown(x, boundary, more, j, es[j])
    {
      if j < |spans| {
        assert es[..|es| - 1][j] == es[j] && Shown(x, boundary, spans, j, es[j]);
        assert more[j] == spans[j] && (j > 0 ==> more[j - 1] == spans[j - 1]);
      }
    }
  }

  // ----- where the parser stands

  /** `at` is the position of the first character that is still buffered; the header section being read
      began at `head`, the content at `from`. */
  datatype Place = Place(head: nat, from: nat, at: nat)

  /** The content being read: what was reported of it is what the text shows from `from` on, and a tail as
      long as a boundary is held back. */
  ghost predicate ReadsContent(boundary: string, es: seq<(FileInfo, string)>, buffered: nat, x: string, pl: Place,
                               spans: seq<Span>) {
    match pl
    case Place(head, from, at) =>
      && es != [] && Traced(x, boundary, es[..|es| - 1], spans)
      && Opened(x, boundary, spans, |spans|, head, from, es[|es| - 1].0)
      && from <= at <= |x| && x[from..at] == es[|es| - 1].1
      && (from < at ==> |ClosingLine(boundary)| <= buffered)
      && NoneBetween(x, ClosingLine(boundary), from, at)
  }

  ghost predicate ReadsHeaders(boundary: string, es: seq<(FileInfo, string)>, file: FileInfo, x: string, pl: Place,
                               spans: seq<Span>) {
    match pl
    case Place(head, _, at) =>
      && Traced(x, boundary, es, spans) && Starts(x, boundary, spans, |spans|, head)
      && (if at == head then file == NO_INFO else head + 2 <= at && OccursAt(x, CRLF, at - 2))
  }

  ghost predicate ReadsEnd(boundary: string, es: seq<(FileInfo, string)>, x: string, pl: Place, spans: seq<Span>) {
    match pl
    case Place(_, _, at) =>
      var e := Behind(boundary, spans, |spans|);
      && Traced(x, boundary, es, spans) && spans != []
      && (at == e || (OccursAt(x, DASH, e) && e + 2 <= at))
  }

  ghost predicate StandsIn(p: Parser, x: string, pl: Place, spans: seq<Span>) {
    var b, es := p.boundary, Reported(p.events);
    match p.state
    case 1 => Traced(x, b, es, spans) && Starts(x, b, spans, |spans|, pl.at)
    case 2 => ReadsHeaders(b, es, p.file, x, pl, spans)
    case 3 => ReadsContent(b, es, |p.pending|, x, pl, spans)
    case 4 => ReadsEnd(b, es, x, pl, spans)
    case _ => false
  }

  /** The buffer holds what the text shows from `at` on. */
  predicate Buffers(x: string, pending: string, pl: Place) {
    match pl
    case Place(_, _, at) => OccursAt(x, pending, at)
  }

  ghost predicate Tracks(p: Parser, x: string, pl: Place, spans: seq<Span>) {
    match pl
    case Place(_, _, _) =>
      && p.refuses.None? && Buffers(x, p.pending, pl) && (p.valid ==> spans != [])
      && StandsIn(p, x, pl, spans)
  }

  /** No boundary is left in the buffer of a parser that reads content. */
  ghost predicate Settled(p: Parser) {
    p.state == 3 ==> Never(p.pending, p.CrlfDashBoundary())
  }

  lemma OccursInside(x: string, s: string, at: nat, t: string, i: nat)
    requires OccursAt(x, s, at) && i + |t| <= |s|
    ensures OccursAt(s, t, i) <==> OccursAt(x, t, at + i)
  {
    var a, b := s[i..i + |t|], x[at + i..at + i + |t|];
    assert s == x[at..at + |s|];
    assert forall k | 0 <= k < |t| :: a[k] == s[i + k] == b[k];
    assert a == b;
  }

  lemma RestOccurs(x: string, s: string, at: nat, i: nat)
    requires OccursAt(x, s, at) && i <= |s|
    ensures OccursAt(x, s[i..], at + i) && x[at..at + i] == s[..i]
  {
    assert x[at..at + |s|][i..] == x[at + i..at + |s|];
    assert x[at..at + |s|][..i] == x[at..at + i];
  }

  lemma PrefixBuffers(x: string, s: string, pl: Place, n: nat)
    requires Buffers(x, s, pl) && n <= |s|
    ensures Buffers(x, s[..n], pl)
  {
    RestOccurs(x, s, pl.at, n);
  }

  lemma RestBuffers(x: string, s: string, at: nat, n: nat, next: Place)
    requires OccursAt(x, s, at) && n <= |s| && next.at == at + n
    ensures Buffers(x, s[n..], next)
  {
    RestOccurs(x, s, at, n);
  }

  lemma ContentStarts(boundary: string, es: seq<(FileInfo, string)>, file: FileInfo, buffered: nat, x: string,
                      pl: Place, spans: seq<Span>)
    requires ReadsHeaders(boundary, es, file, x, pl, spans) && OccursAt(x, CRLF, pl.at)
    ensures ReadsContent(boundary, es + [(file, "")], buffered, x, Place(pl.head, pl.at + 2, pl.at + 2), spans)
  {
    assert (es + [(file, "")])[..|es|] == es;
  }

  lemma HeaderReported(p: Parser, buffered: nat, x: string, pl: Place, next: Place, spans: seq<Span>)
    requires ReadsHeaders(p.boundary, Reported(p.events), p.file, x, pl, spans) && OccursAt(x, CRLF, pl.at)
    requires next == Place(pl.head, pl.at + 2, pl.at + 2)
    ensures ReadsContent(p.boundary, Reported(p.events + [Header(p.file)]), buffered, x, next, spans)
  {
    ReportedHeader(p.events, p.file);
    ContentStarts(p.boundary, Reported(p.events), p.file, buffered, x, pl, spans);
  }

  /** The empty line: the header is reported and the content begins. */
  lemma TrackEmptyLine(p: Parser, x: string, pl: Place, spans: seq<Span>)
    requires Tracks(p, x, pl, spans) && p.state == 2 && |p.pending| >= 2 && Find(p.pending, CRLF) == 0
    ensures Tracks(AfterHeader(p), x, Place(pl.head, pl.at + 2, pl.at + 2), spans)
  {
    var next := Place(pl.head, pl.at + 2, pl.at + 2);
    OccursInside(x, p.pending, pl.at, CRLF, 0);
    RestBuffers(x, p.pending, pl.at, 2, next);
    HeaderReported(p, |AfterHeader(p).pending|, x, pl, next, spans);
    TracksContent(AfterHeader(p), x, next, spans);
  }

  /** The parser behind the empty line. */
  function AfterHeader(p: Parser): Parser
    requires |p.pending| >= 2
  {
    p.(events := p.events + [Header(p.file)], pending := p.pending[2..], state := 3)
  }

  lemma TrackLine(p: Parser, x: string, pl: Place, spans: seq<Span>, n: nat, file: FileInfo)
    requires Tracks(p, x, pl, spans) && p.state == 2 && 0 < n && n + 2 <= |p.pending| && Find(p.pending, CRLF) == n
    ensures Tracks(AfterLineAt(p, n, file), x, pl.(at := pl.at + n + 2), spans)
  {
    var next := pl.(at := pl.at + n + 2);
    OccursInside(x, p.pending, pl.at, CRLF, n);
    RestBuffers(x, p.pending, pl.at, n + 2, next);
    LineRead(p.boundary, Reported(p.events), p.file, file, x, pl, next, spans);
    TracksHeaders(AfterLineAt(p, n, file), x, next, spans);
  }

  /** The parser behind a header line that ends at `n`. */
  function AfterLineAt(p: Parser, n: nat, file: FileInfo): Parser
    requires n + 2 <= |p.pending|
  {
    p.(file := file, pending := p.pending[n + 2..])
  }

  lemma LineRead(boundary: string, es: seq<(FileInfo, string)>, before: FileInfo, file: FileInfo, x: string, pl: Place,
                 next: Place, spans: seq<Span>)
    requires ReadsHeaders(boundary, es, before, x, pl, spans)
    requires next.head == pl.head && pl.at + 2 < next.at && OccursAt(x, CRLF, next.at - 2)
    ensures ReadsHeaders(boundary, es, file, x, next, spans)
  {
  }

  lemma TracksHeaders(q: Parser, x: string, pl: Place, spans: seq<Span>)
    requires q.refuses.None? && q.state == 2 && Buffers(x, q.pending, pl) && (q.valid ==> spans != [])
    requires ReadsHeaders(q.boundary, Reported(q.events), q.file, x, pl, spans)
    ensures Tracks(q, x, pl, spans)
  {
  }

  lemma {:induction false} TrackHeaderLines(p: Parser, x: string, pl: Place, spans: seq<Span>) returns (next: Place)
    requires Tracks(p, x, pl, spans) && p.state == 2
    ensures var (q, ok) := HeaderLines(p);
            ok ==> && Tracks(q, x, next, spans) && next.at + |q.pending| == pl.at + |p.pending|
                   && (q.state == 2 || q.state == 3)
    decreases |p.pending|
  {
    var n := Find(p.pending, CRLF);
    next := pl;
    if n == |p.pending| {
      HeaderLinesWait(p);
    } else if n == 0 {
      HeaderLinesEnd(p);
      TrackEmptyLine(p, x, pl, spans);
      next := Place(pl.head, pl.at + 2, pl.at + 2);
    } else {
      HeaderLinesStep(p, n);
      var file := ApplyLine(p.file, p.pending[..n]);
      if file.Some? {
        TrackLine(p, x, pl, spans, n, file.value);
        next := TrackHeaderLines(AfterLineAt(p, n, file.value), x, pl.(at := pl.at + n + 2), spans);
      }
    }
  }

  /** The last entry's content has become `content`. */
  predicate Grown(es: seq<(FileInfo, string)>, more: seq<(FileInfo, string)>, content: string) {
    && 0 < |es| == |more| && more[..|more| - 1] == es[..|es| - 1]
    && more[|more| - 1] == (es[|es| - 1].0, content)
  }

  /** What is reported next prolongs the content of the last entry, as the text does. */
  lemma ContentGrows(events: seq<Event>, x: string, from: nat, at: nat, data: string)
    requires var es := Reported(events); es != [] && from <= at <= |x| && x[from..at] == es[|es| - 1].1
    requires OccursAt(x, data, at)
    ensures Grown(Reported(events), Reported(events + [Content(data)]), x[from..at + |data|])
  {
    var es := Reported(events);
    var before := es[..|es| - 1];
    var (f, c) := es[|es| - 1];
    assert es == before + [(f, c)];
    ReportedContent(events, before, f, c, data);
    assert (before + [(f, c + data)])[..|before|] == before;
    assert x[from..at] + x[at..at + |data|] == x[from..at + |data|];
  }

  lemma ContentCloses(boundary: string, es: seq<(FileInfo, string)>, more: seq<(FileInfo, string)>, buffered: nat,
                      x: string, pl: Place, spans: seq<Span>, to: nat)
    requires ReadsContent(boundary, es, buffered, x, pl, spans) && pl.at <= to
    requires OccursAt(x, ClosingLine(boundary), to) && Grown(es, more, x[pl.from..to])
    requires NoneBetween(x, ClosingLine(boundary), pl.from, to)
    ensures Traced(x, boundary, more, spans + [Span(pl.head, pl.from, to)])
  {
    TracedOneMore(x, boundary, more, spans, Span(pl.head, pl.from, to));
  }

  /** The parser behind the boundary it found at `n`. */
  function AfterBoundary(p: Parser, n: nat): Parser
    requires n + |p.CrlfDashBoundary()| <= |p.pending|
  {
    p.(events := p.events + [Content(p.pending[..n])], pending := p.pending[n + |p.CrlfDashBoundary()|..], state := 4)
  }

  /** The boundary is found: the entry's content is complete. */
  lemma TrackBoundary(p: Parser, x: string, pl: Place, spans: seq<Span>, n: nat) returns (next: Place, more: seq<Span>)
    requires Tracks(p, x, pl, spans) && p.state == 3
    requires Find(p.pending, p.CrlfDashBoundary()) == n && n + |p.CrlfDashBoundary()| <= |p.pending|
    ensures Tracks(AfterBoundary(p, n), x, next, more)
    ensures next.at + |AfterBoundary(p, n).pending| == pl.at + |p.pending|
  {
    next, more := TextCloses(p, x, pl, spans, n);
    TracksEnd(AfterBoundary(p, n), x, next, more);
  }

  lemma TextCloses(p: Parser, x: string, pl: Place, spans: seq<Span>, n: nat) returns (next: Place, more: seq<Span>)
    requires Buffers(x, p.pending, pl) && ReadsContent(p.boundary, Reported(p.events), |p.pending|, x, pl, spans)
    requires Find(p.pending, p.CrlfDashBoundary()) == n && n + |p.CrlfDashBoundary()| <= |p.pending|
    ensures ReadsEnd(p.boundary, Reported(p.events + [Content(p.pending[..n])]), x, next, more)
    ensures Buffers(x, p.pending[n + |p.CrlfDashBoundary()|..], next)
    ensures next.at == pl.at + n + |p.CrlfDashBoundary()|
  {
    next := Place(pl.head, pl.from, pl.at + n + |p.CrlfDashBoundary()|);
    FoundInText(x, p.pending, pl, p.CrlfDashBoundary(), n, next);
    NoneAhead(x, p.pending, pl.at, p.CrlfDashBoundary(), pl.from, n);
    more := ReportedCloses(p, x, pl, spans, p.pending[..n], pl.at + n, next);
  }

  lemma TracksEnd(q: Parser, x: string, pl: Place, spans: seq<Span>)
    requires q.refuses.None? && q.state == 4 && Buffers(x, q.pending, pl)
    requires ReadsEnd(q.boundary, Reported(q.events), x, pl, spans)
    ensures Tracks(q, x, pl, spans)
  {
  }

  lemma TracksContent(q: Parser, x: string, pl: Place, spans: seq<Span>)
    requires q.refuses.None? && q.state == 3 && Buffers(x, q.pending, pl) && (q.valid ==> spans != [])
    requires ReadsContent(q.boundary, Reported(q.events), |q.pending|, x, pl, spans)
    ensures Tracks(q, x, pl, spans)
  {
  }

  lemma FoundInText(x: string, s: string, pl: Place, t: string, n: nat, next: Place)
    requires Buffers(x, s, pl) && OccursAt(s, t, n) && next.at == pl.at + n + |t|
    ensures Buffers(x, s[..n], pl) && OccursAt(x, t, pl.at + n) && Buffers(x, s[n + |t|..], next)
  {
    PrefixBuffers(x, s, pl, n);
    OccursInside(x, s, pl.at, t, n);
    RestBuffers(x, s, pl.at, n + |t|, next);
  }

  lemma ReportedCloses(p: Parser, x: string, pl: Place, spans: seq<Span>, data: string, to: nat, next: Place)
      returns (more: seq<Span>)
    requires ReadsContent(p.boundary, Reported(p.events), |p.pending|, x, pl, spans) && Buffers(x, data, pl)
    requires to == pl.at + |data| && next.at == to + |ClosingLine(p.boundary)|
    requires OccursAt(x, ClosingLine(p.boundary), to) && NoneBetween(x, ClosingLine(p.boundary), pl.from, to)
    ensures ReadsEnd(p.boundary, Reported(p.events + [Content(data)]), x, next, more)
  {
    more := spans + [Span(pl.head, pl.from, to)];
    ContentGrows(p.events, x, pl.from, pl.at, data);
    ContentCloses(p.boundary, Reported(p.events), Reported(p.events + [Content(data)]), |p.pending|, x, pl, spans, to);
  }

  /** Nothing before `n` in the buffer, nothing between `from` and the buffer. */
  lemma NoneAhead(x: string, s: string, at: nat, t: string, from: nat, n: nat)
    requires OccursAt(x, s, at) && from <= at && NoneBetween(x, t, from, at)
    requires forall k | 0 <= k < n :: !OccursAt(s, t, k)
    requires n == 0 || n - 1 + |t| <= |s|
    ensures NoneBetween(x, t, from, at + n)
  {
    forall k | from <= k < at + n
      ensures !OccursAt(x, t, k)
    {
      if at <= k {
        OccursInside(x, s, at, t, k - at);
      }
    }
  }

  lemma ContentGoesOn(boundary: string, es: seq<(FileInfo, string)>, more: seq<(FileInfo, string)>, buffered: nat,
                      x: string, pl: Place, spans: seq<Span>, to: nat, left: nat)
    requires ReadsContent(boundary, es, buffered, x, pl, spans) && pl.at <= to <= |x|
    requires Grown(es, more, x[pl.from..to]) && NoneBetween(x, ClosingLine(boundary), pl.from, to)
    requires |ClosingLine(boundary)| <= left
    ensures ReadsContent(boundary, more, left, x, pl.(at := to), spans)
  {
  }

  /** The buffer holds no boundary: all but a tail is reported. */
  lemma TrackHeldBack(p: Parser, x: string, pl: Place, spans: seq<Span>, len: nat)
    requires Tracks(p, x, pl, spans) && p.state == 3 && len > 0
    requires Find(p.pending, p.CrlfDashBoundary()) == |p.pending| == len + |p.CrlfDashBoundary()|
    ensures Tracks(p.(events := p.events + [Content(p.pending[..len])], pending := p.pending[len..]), x,
                   pl.(at := pl.at + len), spans)
  {
    NotYetInText(x, p.pending, pl.at, p.CrlfDashBoundary(), pl.from, len);
    ReportedGoesOn(p, x, pl, spans, p.pending[..len], pl.at + len, |p.pending[len..]|);
    TracksContent(p.(events := p.events + [Content(p.pending[..len])], pending := p.pending[len..]), x,
                  pl.(at := pl.at + len), spans);
  }

  lemma NotYetInText(x: string, s: string, at: nat, t: string, from: nat, len: nat)
    requires OccursAt(x, s, at) && t != "" && Find(s, t) == |s| == len + |t|
    requires from <= at && NoneBetween(x, t, from, at)
    ensures OccursAt(x, s[..len], at) && OccursAt(x, s[len..], at + len) && NoneBetween(x, t, from, at + len)
  {
    RestOccurs(x, s, at, len);
    NoneAhead(x, s, at, t, from, len);
  }

  lemma ReportedGoesOn(p: Parser, x: string, pl: Place, spans: seq<Span>, data: string, to: nat, left: nat)
    requires ReadsContent(p.boundary, Reported(p.events), |p.pending|, x, pl, spans) && OccursAt(x, data, pl.at)
    requires to == pl.at + |data| && NoneBetween(x, ClosingLine(p.boundary), pl.from, to)
    requires |ClosingLine(p.boundary)| <= left
    ensures ReadsContent(p.boundary, Reported(p.events + [Content(data)]), left, x, pl.(at := to), spans)
  {
    var es, more := Reported(p.events), Reported(p.events + [Content(data)]);
    ContentGrows(p.events, x, pl.from, pl.at, data);
    ContentGoesOn(p.boundary, es, more, |p.pending|, x, pl, spans, to, left);
  }

  lemma NoneInTail(s: string, t: string, len: nat)
    requires Never(s, t) && len <= |s|
    ensures Never(s[len..], t)
  {
    assert s[..len] + s[len..] == s;
    NeverInRest(s[..len], s[len..], t);
  }

  // ----- the loop

  /** `q` is a later stand of the parser, with the same text fed to it. */
  ghost predicate Follows(p: Parser, pl: Place, q: Parser, x: string, next: Place, more: seq<Span>) {
    match next
    case Place(_, _, at) =>
      Tracks(q, x, next, more) && q.boundary == p.boundary && at + |q.pending| == pl.at + |p.pending|
  }

  lemma TrackHeaders(p: Parser, x: string, pl: Place, spans: seq<Span>) returns (next: Place)
    requires Tracks(p, x, pl, spans) && p.state == 2 && p.pending != ""
    ensures var t := Step(p);
            t.Again? || t.ok ==> Follows(p, pl, t.p, x, next, spans) && (t.Return? ==> t.p.state == 2)
  {
    next := TrackHeaderLines(p, x, pl, spans);
  }

  lemma TrackContent(p: Parser, x: string, pl: Place, spans: seq<Span>) returns (next: Place, more: seq<Span>)
    requires Tracks(p, x, pl, spans) && p.state == 3 && p.pending != ""
    ensures Follows(p, pl, Step(p).p, x, next, more) && (Step(p).Return? ==> Settled(Step(p).p))
  {
    var n := Find(p.pending, p.CrlfDashBoundary());
    if n + |p.CrlfDashBoundary()| <= |p.pending| {
      next, more := TrackFound(p, x, pl, spans, n);
    } else {
      next := TrackWaiting(p, x, pl, spans);
      more := spans;
    }
  }

  lemma TrackFound(p: Parser, x: string, pl: Place, spans: seq<Span>, n: nat) returns (next: Place, more: seq<Span>)
    requires Tracks(p, x, pl, spans) && p.state == 3 && p.pending != ""
    requires Find(p.pending, p.CrlfDashBoundary()) == n && n + |p.CrlfDashBoundary()| <= |p.pending|
    ensures Step(p).Again? && Follows(p, pl, Step(p).p, x, next, more)
  {
    next, more := TrackBoundary(p, x, pl, spans, n);
    StepIsAfterBoundary(p, n);
  }

  lemma StepIsAfterBoundary(p: Parser, n: nat)
    requires p.state == 3 && p.pending != ""
    requires Find(p.pending, p.CrlfDashBoundary()) == n && n + |p.CrlfDashBoundary()| <= |p.pending| && p.Accepts()
    ensures Step(p) == Again(AfterBoundary(p, n))
  {
    BodyStepFinds(p, n);
  }

  lemma TrackWaiting(p: Parser, x: string, pl: Place, spans: seq<Span>) returns (next: Place)
    requires Tracks(p, x, pl, spans) && p.state == 3 && p.pending != ""
    requires Find(p.pending, p.CrlfDashBoundary()) == |p.pending|
    ensures Step(p).Return? && Follows(p, pl, Step(p).p, x, next, spans) && Settled(Step(p).p)
  {
    BodyStepWaits(p);
    next := pl;
    var len := |p.pending| - |p.CrlfDashBoundary()|;
    if len > 0 {
      TrackHeldBack(p, x, pl, spans, len);
      NoneInTail(p.pending, p.CrlfDashBoundary(), len);
      next := pl.(at := pl.at + len);
    }
  }

  lemma TrackEnd(p: Parser, x: string, pl: Place, spans: seq<Span>) returns (next: Place)
    requires Tracks(p, x, pl, spans) && p.state == 4 && p.pending != ""
    ensures Follows(p, pl, Step(p).p, x, next, spans) && (Step(p).Return? ==> Step(p).p.state == 4)
  {
    next := pl;
    if |p.pending| >= 2 {
      RestOccurs(x, p.pending, pl.at, 2);
      OccursInside(x, p.pending, pl.at, CRLF, 0);
      OccursInside(x, p.pending, pl.at, DASH, 0);
      if CRLF <= p.pending {
        next := pl.(at := pl.at + 2);
      } else if DASH <= p.pending {
        next := pl.(at := pl.at + |p.pending|);
      }
    }
  }

  lemma {:induction false} TrackLoop(p: Parser, x: string, pl: Place, spans: seq<Span>)
      returns (next: Place, more: seq<Span>)
    requires Tracks(p, x, pl, spans)
    ensures Loop(p).1 ==> Follows(p, pl, Loop(p).0, x, next, more) && Settled(Loop(p).0)
    decreases |p.pending|, if p.state == 1 then 1 else 0
  {
    next, more := pl, spans;
    if p.pending != "" {
      if p.state == 1 {
        next := pl.(head := pl.at);
      } else if p.state == 2 {
        next := TrackHeaders(p, x, pl, spans);
      } else if p.state == 3 {
        next, more := TrackContent(p, x, pl, spans);
      } else {
        next := TrackEnd(p, x, pl, spans);
      }
      if Step(p).Again? {
        next, more := TrackLoop(Step(p).p, x, next, more);
      }
    }
  }

  // ----- whole texts

  /** The whole text has been fed, and what it left is explained by it. */
  ghost predicate Explains(p: Parser, x: string, pl: Place, spans: seq<Span>) {
    match pl
    case Place(_, _, at) => Tracks(p, x, pl, spans) && Settled(p) && at + |p.pending| == |x|
  }

  lemma MoreBuffered(x: string, s: string, at: nat, data: string, rest: string)
    requires OccursAt(x, s, at) && x[at + |s|..] == data + rest
    ensures OccursAt(x, s + data, at) && x[at + |s + data|..] == rest
  {
    assert x[at..] == s + x[at + |s|..];
    Associate(s, data, rest);
    assert x[at..][..|s + data|] == s + data;
    assert x[at..][|s + data|..] == rest;
  }

  lemma {:induction false} TrackFeedAll(p: Parser, x: string, pl: Place, spans: seq<Span>, segments: seq<string>)
      returns (next: Place, more: seq<Span>)
    requires Tracks(p, x, pl, spans) && x[pl.at + |p.pending|..] == Flat(segments)
    requires segments == [] ==> Settled(p)
    ensures FeedAll(p, segments).1 ==>
              Explains(FeedAll(p, segments).0, x, next, more) && FeedAll(p, segments).0.boundary == p.boundary
    decreases |segments|
  {
    next, more := pl, spans;
    if segments != [] {
      MoreBuffered(x, p.pending, pl.at, segments[0], Flat(segments[1..]));
      next, more := TrackLoop(p.(pending := p.pending + segments[0]), x, pl, spans);
      if Feed(p, segments[0]).1 {
        next, more := TrackFeedAll(Feed(p, segments[0]).0, x, next, more, segments[1..]);
      }
    }
  }

  /** Behind the opening line found at `n`. */
  function AfterOpening(boundary: string, data: string, n: nat): Parser
    requires n + |OpeningLine(boundary)| <= |data|
  {
    Fresh(boundary).(pending := data[n..][|OpeningLine(boundary)|..], state := 1)
  }

  lemma OpeningStepFinds(p: Parser, n: nat)
    requires Find(p.pending, p.DashBoundaryCrlf()) == n < |p.pending|
    ensures OpeningStep(p) == Again(p.(pending := p.pending[n..][|p.DashBoundaryCrlf()|..], state := 1))
  {
    assert p.DashBoundaryCrlf() <= p.pending[n..];
  }

  lemma OpeningIsFound(boundary: string, data: string, n: nat)
    requires Find(data, OpeningLine(boundary)) == n < |data|
    ensures Feed(Fresh(boundary), data) == Loop(AfterOpening(boundary, data, n))
  {
    assert "" + data == data;
    LoopOverOpening(Fresh(boundary).(pending := data), n);
  }

  lemma LoopOverOpening(p: Parser, n: nat)
    requires p.state == 0 && Find(p.pending, p.DashBoundaryCrlf()) == n < |p.pending|
    ensures Loop(p) == Loop(p.(pending := p.pending[n..][|p.DashBoundaryCrlf()|..], state := 1))
  {
    OpeningStepFinds(p, n);
  }

  lemma OpeningInText(x: string, t: string, data: string, rest: string, n: nat)
    requires OccursAt(data, t, n) && x == (data + rest)[n..]
    ensures OccursAt(x, t, 0) && Buffers(x, data[n..][|t|..], Place(0, 0, |t|))
    ensures x[|data| - n..] == rest
  {
    assert x == data[n..] + rest;
    assert x[..|t|] == data[n..n + |t|];
    assert x[|t|..|data| - n] == data[n..][|t|..];
  }

  lemma TracksOpening(boundary: string, data: string, rest: string, n: nat)
    requires Find(data, OpeningLine(boundary)) == n < |data|
    ensures Tracks(AfterOpening(boundary, data, n), (data + rest)[n..], Place(0, 0, |OpeningLine(boundary)|), [])
  {
    OpeningInText((data + rest)[n..], OpeningLine(boundary), data, rest, n);
  }

  /**
   Whatever the text and however it is cut: if no call of `parse` fails and the body is found valid, an
   opening line occurs in the text, and the entries reported are those the text behind it shows.
   */
  lemma {:induction false} ReportedIsThere(boundary: string, segments: seq<string>)
      returns (k: nat, pl: Place, spans: seq<Span>)
    ensures var (p, ok) := FeedAll(Fresh(boundary), segments);
            ok && p.valid ==>
              && OccursAt(Flat(segments), OpeningLine(boundary), k)
              && p.boundary == boundary && Explains(p, Flat(segments)[k..], pl, spans)
    decreases |segments|
  {
    k, pl, spans := 0, Place(0, 0, 0), [];
    if segments != [] {
      var first, rest := segments[0], Flat(segments[1..]);
      var n := Find(first, OpeningLine(boundary));
      if n == |first| {
        OpeningNotFound(boundary, first);
        k, pl, spans := ReportedIsThere(boundary, segments[1..]);
        if k <= |rest| {
          OpeningLater(first, rest, OpeningLine(boundary), k);
        }
        k := |first| + k;
      } else {
        k := n;
        pl, spans := ReportedBehind(boundary, segments, n);
      }
    }
  }

  lemma ReportedBehind(boundary: string, segments: seq<string>, n: nat) returns (pl: Place, spans: seq<Span>)
    requires segments != [] && Find(segments[0], OpeningLine(boundary)) == n < |segments[0]|
    ensures OccursAt(Flat(segments), OpeningLine(boundary), n)
    ensures var (p, ok) := FeedAll(Fresh(boundary), segments);
            ok ==> p.boundary == boundary && Explains(p, Flat(segments)[n..], pl, spans)
  {
    var data, rest := segments[0], Flat(segments[1..]);
    var x, p := (data + rest)[n..], AfterOpening(boundary, data, n);
    OpeningIsFound(boundary, data, n);
    OpeningInText(x, OpeningLine(boundary), data, rest, n);
    TracksOpening(boundary, data, rest, n);
    pl, spans := TrackLoop(p, x, Place(0, 0, |OpeningLine(boundary)|), []);
    if Loop(p).1 {
      pl, spans := TrackFeedAll(Loop(p).0, x, pl, spans, segments[1..]);
    }
    OccursInPrefix(data, rest, OpeningLine(boundary), n);
  }

  lemma OpeningLater(front: string, x: string, t: string, k: nat)
    requires k <= |x|
    ensures (front + x)[|front| + k..] == x[k..]
    ensures OccursAt(x, t, k) ==> OccursAt(front + x, t, |front| + k)
  {
    if k + |t| <= |x| {
      assert (front + x)[|front| + k..|front| + k + |t|] == x[k..k + |t|];
    }
  }
}
