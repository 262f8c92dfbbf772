/**
 The round trip of a form holds exactly if the first segment with anything in it holds the whole opening
 line, whatever the contents are: a boundary that a content or a content type shows by chance can mislead
 the parser, but never so that it reports all that was sent.
 */
module MultipartExact {
  import opened Basics
  import opened HttpText
  import opened MultipartForm
  import opened MultipartHeaders
  import opened MultipartRoundTrip
  import opened MultipartTrace

  // ----- a body as lines and contents

  /** What matters here of an item: its header lines and its content. */
  datatype Part = Part(lines: seq<string>, content: string)

  /** A content, and what follows the boundary behind it. */
  function ContentText(content: string, tail: string, boundary: string): string {
    content + (ClosingLine(boundary) + tail)
  }

  function PartText(lines: seq<string>, content: string, tail: string, boundary: string): string {
    LinesText(lines) + (CRLF + ContentText(content, tail, boundary))
  }

  /** What follows a boundary. */
  function PartsTail(parts: seq<Part>, boundary: string): string {
    if parts == [] then DASH + CRLF
    else CRLF + PartText(parts[0].lines, parts[0].content, PartsTail(parts[1..], boundary), boundary)
  }

  function PartsText(parts: seq<Part>, boundary: string): string {
    (DASH + boundary) + PartsTail(parts, boundary)
  }

  /** Header lines hold no carriage return and do not begin with a dash. */
  predicate PlainLine(line: string) {
    (line != "" ==> line[0] != '-') && Free(line, '\r')
  }

  /** One or two header lines, the first of which ends with a quote; no boundary in the content. */
  ghost predicate PartOk(part: Part, boundary: string) {
    match part
    case Part(lines, content) =>
      && 1 <= |lines| <= 2 && lines[0] != "" && lines[0][|lines[0]| - 1] == '"'
      && (forall i | 0 <= i < |lines| :: PlainLine(lines[i]))
      && Never(content, ClosingLine(boundary))
  }

  ghost predicate AllOk(parts: seq<Part>, boundary: string) {
    BoundaryCharsValid(boundary) && forall i | 0 <= i < |parts| :: PartOk(parts[i], boundary)
  }

  // ----- where boundaries occur in a body, counted from its end

  /** `t` occurs `d` characters before the end of `s`. */
  predicate OccursFromEnd(s: string, t: string, d: nat) {
    d <= |s| && OccursAt(s, t, |s| - d)
  }

  lemma InBack(a: string, b: string, t: string, d: nat)
    requires d <= |b|
    ensures OccursFromEnd(a + b, t, d) <==> OccursFromEnd(b, t, d)
  {
    OpeningLater(a, b, t, |b| - d);
    if |t| <= d {
      var k := |b| - d;
      assert (a + b)[|a| + k..|a| + k + |t|] == b[k..k + |t|];
    }
  }

  /** How much follows the boundary before part `i`. */
  function TailLength(parts: seq<Part>, boundary: string, i: nat): nat
    requires i <= |parts|
  {
    |PartsTail(parts[i..], boundary)|
  }

  /** How long the content of part `i` and all that follows is. */
  function ContentLength(parts: seq<Part>, boundary: string, i: nat): nat
    requires i < |parts|
  {
    |parts[i].content| + |ClosingLine(boundary)| + TailLength(parts, boundary, i + 1)
  }

  lemma Lengths(parts: seq<Part>, boundary: string, i: nat)
    requires i <= |parts|
    ensures i == |parts| ==> TailLength(parts, boundary, i) == 4
    ensures i < |parts| ==>
              TailLength(parts, boundary, i) == |LinesText(parts[i].lines)| + 4 + ContentLength(parts, boundary, i)
  {
    TailUnfolds(parts, boundary, i);
    assert |CRLF| == |DASH| == 2;
  }

  /** Later parts are nearer the end. */
  lemma {:induction false} Descends(parts: seq<Part>, boundary: string, i: nat, j: nat)
    requires i <= j < |parts|
    ensures TailLength(parts, boundary, i + 1) >= TailLength(parts, boundary, j + 1)
    ensures i == j || TailLength(parts, boundary, i + 1) > ContentLength(parts, boundary, j)
    decreases j - i
  {
    if i < j {
      Descends(parts, boundary, i + 1, j);
      Lengths(parts, boundary, i + 1);
    }
  }

  /** In a content and what follows it: where it ends, or later. */
  lemma PlacesInContent(content: string, tail: string, boundary: string, d: nat)
    requires BoundaryCharsValid(boundary) && Never(content, ClosingLine(boundary))
    requires OccursFromEnd(ContentText(content, tail, boundary), ClosingLine(boundary), d)
    ensures d == |ClosingLine(boundary)| + |tail| || OccursFromEnd(tail, ClosingLine(boundary), d)
  {
    var cdb, s := ClosingLine(boundary), ContentText(content, tail, boundary);
    var k := |s| - d;
    ContentEnds(content, tail, boundary);
    assert k >= |content|;
    assert forall i | 0 < i < |cdb| :: s[|content| + i] == cdb[i] != '\r' by {
      Associate(content, cdb, tail);
      assert cdb[0..2] == CRLF && cdb[2] == cdb[3] == '-' && cdb[4..] == boundary;
    }
    CharAt(s, cdb, k, 0);
    assert k == |content| || k - |content| >= |cdb|;
    if k >= |content| + |cdb| {
      Associate(content, cdb, tail);
      InBack(content + cdb, tail, cdb, d);
    }
  }

  /** In a part: at the empty line, where the content ends, or later. */
  lemma {:induction false} PlacesInPart(lines: seq<string>, content: string, tail: string, boundary: string, d: nat)
    requires BoundaryCharsValid(boundary) && Never(content, ClosingLine(boundary))
    requires forall i | 0 <= i < |lines| :: PlainLine(lines[i])
    requires OccursFromEnd(PartText(lines, content, tail, boundary), ClosingLine(boundary), d)
    ensures d == 2 + |content| + |ClosingLine(boundary)| + |tail|
            || d == |ClosingLine(boundary)| + |tail|
            || OccursFromEnd(tail, ClosingLine(boundary), d)
    decreases |lines|
  {
    var cdb := ClosingLine(boundary);
    if lines == [] {
      var text := ContentText(content, tail, boundary);
      assert PartText(lines, content, tail, boundary) == CRLF + text;
      if d != |CRLF + text| {
        BehindFirst(CRLF, text, cdb, d);
        PlacesInContent(content, tail, boundary, d);
      }
    } else {
      var line, more := lines[0], PartText(lines[1..], content, tail, boundary);
      Associate(line + CRLF, LinesText(lines[1..]), CRLF + ContentText(content, tail, boundary));
      assert PartText(lines, content, tail, boundary) == line + CRLF + more;
      NotAtLineEnd(lines[1..], content, tail, boundary);
      BehindLine(line, more, boundary, d);
      PlacesInPart(lines[1..], content, tail, boundary, d);
    }
  }

  /** A text that begins with the only carriage return of `a`. */
  lemma BehindFirst(a: string, b: string, t: string, d: nat)
    requires OccursFromEnd(a + b, t, d) && t != "" && d != |a + b|
    requires a != "" && Free(a[1..], t[0])
    ensures OccursFromEnd(b, t, d)
  {
    var k := |a + b| - d;
    assert forall i | 0 < i < |a| :: (a + b)[i] == a[1..][i - 1];
    CharAt(a + b, t, k, 0);
    InBack(a, b, t, d);
  }

  lemma NotAtLineEnd(lines: seq<string>, content: string, tail: string, boundary: string)
    requires forall i | 0 <= i < |lines| :: PlainLine(lines[i])
    ensures var s := PartText(lines, content, tail, boundary); s != "" && s[0] != '-'
  {
    if lines != [] {
      Associate(lines[0] + CRLF, LinesText(lines[1..]), CRLF + ContentText(content, tail, boundary));
      assert PartText(lines, content, tail, boundary)[0] == if lines[0] == "" then '\r' else lines[0][0];
    }
  }

  /** Behind a plain line and in front of a text that does not begin with a dash. */
  lemma BehindLine(line: string, more: string, boundary: string, d: nat)
    requires PlainLine(line) && more != "" && more[0] != '-'
    requires OccursFromEnd(line + CRLF + more, ClosingLine(boundary), d)
    ensures OccursFromEnd(more, ClosingLine(boundary), d)
  {
    var s := line + CRLF + more;
    NoneBeforeRest(s, line, more, ClosingLine(boundary), |s| - d);
    InBack(line + CRLF, more, ClosingLine(boundary), d);
  }

  lemma NoneBeforeRest(s: string, line: string, more: string, t: string, k: nat)
    requires PlainLine(line) && more != "" && more[0] != '-' && s == line + CRLF + more
    requires |t| > 2 && t[0] == '\r' && t[2] == '-' && OccursAt(s, t, k)
    ensures k >= |line| + 2
  {
    assert forall i | 0 <= i < |line| :: s[i] == line[i];
    assert s[|line| + 1] == '\n' && s[|line| + 2] == more[0];
    CharAt(s, t, k, 0);
    CharAt(s, t, k, 2);
  }

  /** `d` characters before the end of the body, the content of part `i` ends. */
  predicate EndsContent(parts: seq<Part>, boundary: string, i: nat, d: nat) {
    i < |parts| && d == |ClosingLine(boundary)| + TailLength(parts, boundary, i + 1)
  }

  /** `d` characters before the end of the body is the empty line of part `i`. */
  predicate BeginsContent(parts: seq<Part>, boundary: string, i: nat, d: nat) {
    i < |parts| && d == 2 + ContentLength(parts, boundary, i)
  }

  lemma {:induction false} PlacesInTail(parts: seq<Part>, boundary: string, j: nat, d: nat) returns (i: nat)
    requires AllOk(parts, boundary) && j <= |parts|
    requires OccursFromEnd(PartsTail(parts[j..], boundary), ClosingLine(boundary), d)
    ensures EndsContent(parts, boundary, i, d) || BeginsContent(parts, boundary, i, d)
    decreases |parts| - j
  {
    i := j;
    TailUnfolds(parts, boundary, j);
    if j < |parts| {
      var tail := PartsTail(parts[j + 1..], boundary);
      PlacesInFirst(parts[j], tail, boundary, d);
      if OccursFromEnd(tail, ClosingLine(boundary), d) {
        i := PlacesInTail(parts, boundary, j + 1, d);
      }
    } else {
      NotInShort(DASH + CRLF, ClosingLine(boundary), d);
    }
  }

  lemma TailUnfolds(parts: seq<Part>, boundary: string, j: nat)
    requires j <= |parts|
    ensures PartsTail(parts[j..], boundary) ==
            if j == |parts| then DASH + CRLF
            else CRLF + PartText(parts[j].lines, parts[j].content, PartsTail(parts[j + 1..], boundary), boundary)
  {
    if j < |parts| {
      assert parts[j..][0] == parts[j] && parts[j..][1..] == parts[j + 1..];
    }
  }

  lemma PlacesInFirst(part: Part, tail: string, boundary: string, d: nat)
    requires BoundaryCharsValid(boundary) && PartOk(part, boundary)
    requires OccursFromEnd(CRLF + PartText(part.lines, part.content, tail, boundary), ClosingLine(boundary), d)
    ensures d == 2 + |part.content| + |ClosingLine(boundary)| + |tail|
            || d == |ClosingLine(boundary)| + |tail|
            || OccursFromEnd(tail, ClosingLine(boundary), d)
  {
    NotAtLineEnd(part.lines, part.content, tail, boundary);
    assert "" + CRLF == CRLF;
    BehindLine("", PartText(part.lines, part.content, tail, boundary), boundary, d);
    PlacesInPart(part.lines, part.content, tail, boundary, d);
  }

  lemma NotInShort(s: string, t: string, d: nat)
    requires s != "" && |s| <= |t| && s[0] != t[0]
    ensures !OccursFromEnd(s, t, d)
  {
    if d == |s| {
      CharAt(s, t, 0, 0);
    }
  }

  /** What is left of a text from `o` on. */
  function From(s: string, o: nat): Option<string> {
    if o <= |s| then Some(s[o..]) else None
  }

  /** `x` is what is left of the body from `o` on. */
  ghost predicate IsRest(parts: seq<Part>, boundary: string, o: nat, x: string) {
    match From(PartsText(parts, boundary), o)
    case None => false
    case Some(rest) => AllOk(parts, boundary) && x == rest
  }

  lemma PlaceIn(parts: seq<Part>, boundary: string, o: nat, x: string, q: nat) returns (i: nat)
    requires IsRest(parts, boundary, o, x) && OccursAt(x, ClosingLine(boundary), q)
    ensures EndsContent(parts, boundary, i, |x| - q) || BeginsContent(parts, boundary, i, |x| - q)
  {
    InWhole(PartsText(parts, boundary), o, x, ClosingLine(boundary), q);
    i := PlacesInWhole(parts, boundary, |x| - q);
  }

  lemma PlacesInWhole(parts: seq<Part>, boundary: string, d: nat) returns (i: nat)
    requires AllOk(parts, boundary) && OccursFromEnd(PartsText(parts, boundary), ClosingLine(boundary), d)
    ensures EndsContent(parts, boundary, i, d) || BeginsContent(parts, boundary, i, d)
  {
    var open := DASH + boundary;
    assert parts[0..] == parts;
    assert Free(open, '\r') && ClosingLine(boundary)[0] == '\r';
    NotInFront(open, PartsTail(parts, boundary), ClosingLine(boundary), d);
    i := PlacesInTail(parts, boundary, 0, d);
  }

  lemma InWhole(s: string, o: nat, x: string, t: string, q: nat)
    requires o <= |s| && x == s[o..] && OccursAt(x, t, q)
    ensures OccursFromEnd(s, t, |x| - q)
  {
    assert s[..o] + x == s;
    InBack(s[..o], x, t, |x| - q);
  }

  lemma NotInFront(a: string, b: string, t: string, d: nat)
    requires t != "" && Free(a, t[0]) && OccursFromEnd(a + b, t, d)
    ensures OccursFromEnd(b, t, d)
  {
    CharAt(a + b, t, |a + b| - d, 0);
    assert d <= |b|;
    InBack(a, b, t, d);
  }

  // ----- how far from the end the contents begin, if all are as sent

  /** The contents the first spans show are those of the first parts. */
  ghost predicate ShowsContents(parts: seq<Part>, boundary: string, x: string, es: seq<(FileInfo, string)>,
                                spans: seq<Span>) {
    match |spans|
    case 0 => false
    case n =>
      && n <= |parts| && Traced(x, boundary, es, spans)
      && forall j | 0 <= j < n :: es[j].1 == parts[j].content
  }

  /** A boundary with content `j + 1` and more behind it is no later than the end of content `j`. */
  lemma NearEnough(parts: seq<Part>, boundary: string, i: nat, j: nat, d: nat)
    requires EndsContent(parts, boundary, i, d) || BeginsContent(parts, boundary, i, d)
    requires j + 1 < |parts| && d >= |ClosingLine(boundary)| + 4 + ContentLength(parts, boundary, j + 1)
    ensures d + |parts[j].content| >= ContentLength(parts, boundary, j)
  {
    if i <= j {
      Descends(parts, boundary, i, j);
    } else {
      Descends(parts, boundary, j + 1, i);
    }
  }

  lemma InTime(parts: seq<Part>, boundary: string, o: nat, x: string, q: nat, j: nat)
    requires IsRest(parts, boundary, o, x) && OccursAt(x, ClosingLine(boundary), q) && j + 1 < |parts|
    requires |x| - q >= |ClosingLine(boundary)| + 4 + ContentLength(parts, boundary, j + 1)
    ensures |x| - q + |parts[j].content| >= ContentLength(parts, boundary, j)
  {
    var i := PlaceIn(parts, boundary, o, x, q);
    NearEnough(parts, boundary, i, j, |x| - q);
  }

  lemma SpanEnds(x: string, boundary: string, es: seq<(FileInfo, string)>, spans: seq<Span>, j: nat)
    requires Traced(x, boundary, es, spans) && j < |spans|
    ensures OccursAt(x, ClosingLine(boundary), spans[j].to) && spans[j].from + |es[j].1| == spans[j].to
    ensures j > 0 ==> spans[j].from >= spans[j - 1].to + |ClosingLine(boundary)| + 4
    ensures j == 0 ==> Opened(x, boundary, spans, 0, spans[0].head, spans[0].from, es[0].0)
  {
    assert Shown(x, boundary, spans, j, es[j]);
  }

  /** From the begin of content `j`, as the text shows it, there is room for what was sent from there on. */
  predicate Reaches(parts: seq<Part>, boundary: string, x: string, spans: seq<Span>, j: nat)
    requires j < |spans| <= |parts|
  {
    match spans[j]
    case Span(_, from, _) => |x| - from >= ContentLength(parts, boundary, j)
  }

  lemma SpanReaches(parts: seq<Part>, boundary: string, o: nat, x: string, es: seq<(FileInfo, string)>,
                    spans: seq<Span>, j: nat)
    requires IsRest(parts, boundary, o, x) && ShowsContents(parts, boundary, x, es, spans) && j + 1 < |spans|
    requires Reaches(parts, boundary, x, spans, j + 1)
    ensures Reaches(parts, boundary, x, spans, j)
  {
    SpanEnds(x, boundary, es, spans, j);
    SpanEnds(x, boundary, es, spans, j + 1);
    InTime(parts, boundary, o, x, spans[j].to, j);
  }

  /** The last span leaves room for what was sent behind its part. */
  ghost predicate LastInTime(parts: seq<Part>, boundary: string, x: string, spans: seq<Span>) {
    match |spans|
    case 0 => false
    case n =>
      n <= |parts| && |x| - spans[n - 1].to >= |ClosingLine(boundary)| + TailLength(parts, boundary, n)
  }

  lemma LastReaches(parts: seq<Part>, boundary: string, x: string, es: seq<(FileInfo, string)>, spans: seq<Span>)
    requires ShowsContents(parts, boundary, x, es, spans) && LastInTime(parts, boundary, x, spans)
    ensures Reaches(parts, boundary, x, spans, |spans| - 1)
  {
    SpanEnds(x, boundary, es, spans, |spans| - 1);
  }

  lemma {:induction false} ReachesDown(parts: seq<Part>, boundary: string, x: string, spans: seq<Span>, j: nat)
    requires j < |spans| <= |parts| && Reaches(parts, boundary, x, spans, |spans| - 1)
    requires forall k: nat | k + 1 < |spans| ::
               Reaches(parts, boundary, x, spans, k + 1) ==> Reaches(parts, boundary, x, spans, k)
    ensures Reaches(parts, boundary, x, spans, j)
    decreases |spans| - j
  {
    if j + 1 < |spans| {
      ReachesDown(parts, boundary, x, spans, j + 1);
    }
  }

  lemma FirstReaches(parts: seq<Part>, boundary: string, o: nat, x: string, es: seq<(FileInfo, string)>,
                     spans: seq<Span>)
    requires IsRest(parts, boundary, o, x) && ShowsContents(parts, boundary, x, es, spans)
    requires LastInTime(parts, boundary, x, spans)
    ensures Reaches(parts, boundary, x, spans, 0)
  {
    forall k: nat | k + 1 < |spans| && Reaches(parts, boundary, x, spans, k + 1)
      ensures Reaches(parts, boundary, x, spans, k)
    {
      SpanReaches(parts, boundary, o, x, es, spans, k);
    }
    LastReaches(parts, boundary, x, es, spans);
    ReachesDown(parts, boundary, x, spans, 0);
  }

  // ----- the end of the body

  /** The empty line before the last content, and all that follows. */
  function LastPart(content: string, boundary: string): string {
    CRLF + (content + (ClosingLine(boundary) + (DASH + CRLF)))
  }

  lemma {:induction false} TailEndsWithLastPart(parts: seq<Part>, boundary: string) returns (front: string)
    requires parts != []
    ensures PartsTail(parts, boundary) == front + LastPart(parts[|parts| - 1].content, boundary)
    decreases |parts|
  {
    var begin, content, rest := CRLF + LinesText(parts[0].lines), parts[0].content, parts[1..];
    FirstTail(parts, boundary);
    if rest == [] {
      front := begin;
      assert PartsTail(rest, boundary) == DASH + CRLF;
    } else {
      var more := TailEndsWithLastPart(rest, boundary);
      front := FrontGrows(begin, content, more, LastPart(rest[|rest| - 1].content, boundary), boundary);
    }
  }

  lemma FirstTail(parts: seq<Part>, boundary: string)
    requires parts != []
    ensures PartsTail(parts, boundary) ==
            (CRLF + LinesText(parts[0].lines))
            + (CRLF + ContentText(parts[0].content, PartsTail(parts[1..], boundary), boundary))
  {
    Associate(CRLF, LinesText(parts[0].lines),
              CRLF + ContentText(parts[0].content, PartsTail(parts[1..], boundary), boundary));
  }

  lemma FrontGrows(begin: string, content: string, more: string, last: string, boundary: string) returns (front: string)
    ensures begin + (CRLF + ContentText(content, more + last, boundary)) == front + last
  {
    var cdb := ClosingLine(boundary);
    Associate(cdb, more, last);
    Associate(content, cdb + more, last);
    Associate(CRLF, content + (cdb + more), last);
    Associate(begin, CRLF + (content + (cdb + more)), last);
    front := begin + (CRLF + (content + (cdb + more)));
  }

  /** The text ends with `end`, if it is that long. */
  predicate EndsWith(x: string, end: string) {
    |x| >= |end| ==> x[|x| - |end|..] == end
  }

  /** A rest that is long enough ends with the last part. */
  lemma RestEndsWithLastPart(parts: seq<Part>, boundary: string, o: nat, x: string)
    requires IsRest(parts, boundary, o, x) && parts != []
    ensures EndsWith(x, LastPart(parts[|parts| - 1].content, boundary))
    ensures EndsWith(x, ClosingLine(boundary) + (DASH + CRLF))
  {
    var content, end := parts[|parts| - 1].content, ClosingLine(boundary) + (DASH + CRLF);
    var front := TailEndsWithLastPart(parts, boundary);
    var begin := (DASH + boundary) + front;
    Associate(DASH + boundary, front, LastPart(content, boundary));
    SuffixEndsWith(begin, LastPart(content, boundary), PartsText(parts, boundary), o, x);
    Associate(CRLF, content, end);
    Associate(begin, CRLF + content, end);
    SuffixEndsWith(begin + (CRLF + content), end, PartsText(parts, boundary), o, x);
  }

  lemma SuffixEndsWith(a: string, b: string, s: string, o: nat, x: string)
    requires s == a + b && o <= |s| && x == s[o..]
    ensures EndsWith(x, b)
  {
    if |x| >= |b| {
      assert s[o..][|x| - |b|..] == s[|s| - |b|..] == b;
    }
  }

  /** Behind the last boundary no further entry can begin. */
  lemma NothingBehindTheEnd(x: string, boundary: string, spans: seq<Span>, head: nat, from: nat, info: FileInfo)
    requires spans != [] && Behind(boundary, spans, |spans|) + 4 == |x| && x[|x| - 4..] == DASH + CRLF
    ensures !Opened(x, boundary, spans, |spans|, head, from, info)
  {
    assert x[|x| - 4] == x[|x| - 4..][0] == '-';
    CharAt(x, CRLF, |x| - 4, 0);
  }

  /** A boundary at the empty line before a last content of three characters or fewer. */
  lemma ShortContent(content: string, boundary: string)
    requires BoundaryCharsValid(boundary) && |content| <= 3
    requires OccursAt(LastPart(content, boundary), ClosingLine(boundary), 0)
    ensures var last, e := LastPart(content, boundary), |boundary| + 4;
            && |last| == 10 + |boundary| + |content|
            && (|content| == |boundary| + 2 || |content| == |boundary| + 3)
            && (|content| == |boundary| + 3 ==> last[e + 1] == '\r')
            && (|content| == |boundary| + 2 ==> last[e] == '\r' && forall k | e + 2 <= k < |last| - 2 :: last[k] != '\r')
  {
    var last, cdb, n := LastPart(content, boundary), ClosingLine(boundary), |boundary|;
    assert last[2 + |content|] == '\r';
    assert |cdb| == n + 4 && forall k | 0 < k < |cdb| :: cdb[k] != '\r';
    if |content| < n + 2 {
      CharAt(last, cdb, 0, 2 + |content|);
    }
    var end := cdb + (DASH + CRLF);
    assert last == CRLF + content + end by {
      Associate(CRLF, content, end);
    }
    assert forall k | 0 < k < |end| - 2 :: end[k] != '\r';
    assert forall k | 0 <= k < |end| :: last[2 + |content| + k] == end[k];
  }

  lemma NothingInShortContent(x: string, boundary: string, spans: seq<Span>, head: nat, from: nat, info: FileInfo,
                              content: string)
    requires BoundaryCharsValid(boundary) && spans != [] && |content| <= 3
    requires var last := LastPart(content, boundary);
             && |x| >= |last| && x[|x| - |last|..] == last
             && OccursAt(last, ClosingLine(boundary), 0)
             && Behind(boundary, spans, |spans|) == |x| - |last| + |ClosingLine(boundary)|
    ensures !Opened(x, boundary, spans, |spans|, head, from, info)
  {
    var last, e := LastPart(content, boundary), Behind(boundary, spans, |spans|);
    var w := |x| - |last|;
    ShortContent(content, boundary);
    assert forall k | 0 <= k < |last| :: x[w + k] == x[w..][k] == last[k];
    CharAt(x, CRLF, e, 0);
    CharAt(x, CRLF, e, 1);
    CharAt(x, DASH, e, 0);
    CharAt(x, DASH, e, 1);
    CharAt(x, CRLF, head, 0);
    if from >= 4 {
      CharAt(x, CRLF, from - 4, 0);
    }
  }

  // ----- a rest never shows all that was sent

  lemma PlaceEarly(parts: seq<Part>, boundary: string, i: nat, j: nat, d: nat)
    requires EndsContent(parts, boundary, i, d) || BeginsContent(parts, boundary, i, d)
    requires i <= j < |parts|
    ensures d >= |ClosingLine(boundary)| + TailLength(parts, boundary, j + 1)
  {
    Descends(parts, boundary, i, j);
  }

  /** A content that was still being read at the end of the body began behind the last boundary. */
  lemma OpenIsShort(p: Parser, x: string, pl: Place, spans: seq<Span>)
    requires Explains(p, x, pl, spans) && p.state == 3 && |x| >= |ClosingLine(p.boundary)| + 4
    requires EndsWith(x, ClosingLine(p.boundary) + (DASH + CRLF))
    ensures pl.at - pl.from <= 3
  {
    var cdb := ClosingLine(p.boundary);
    var e := |x| - |cdb| - 4;
    assert x[e..e + |cdb|] == x[e..][..|cdb|] == cdb && p.CrlfDashBoundary() == cdb;
    assert OccursAt(x, cdb, e);
    if pl.at <= e {
      OccursInside(x, p.pending, pl.at, cdb, e - pl.at);
    }
    assert e < pl.from;
  }

  /** The contents are those of the parts. */
  predicate AllContents(es: seq<(FileInfo, string)>, parts: seq<Part>) {
    |es| == |parts| && forall j | 0 <= j < |es| :: es[j].1 == parts[j].content
  }

  /** With all contents reported and the last one still being read, the boundary of the last but one came
      in time. */
  lemma ClosedInTime(parts: seq<Part>, o: nat, p: Parser, x: string, pl: Place, spans: seq<Span>, q: nat)
    requires IsRest(parts, p.boundary, o, x) && Explains(p, x, pl, spans)
    requires p.state == 3 && AllContents(Reported(p.events), parts) && 0 < |spans| == |parts| - 1
    requires q == spans[|spans| - 1].to && OccursAt(x, ClosingLine(p.boundary), q)
    ensures |x| - q >= |ClosingLine(p.boundary)| + TailLength(parts, p.boundary, |parts| - 1)
  {
    var i := PlaceIn(parts, p.boundary, o, x, q);
    if i < |parts| - 1 {
      PlaceEarly(parts, p.boundary, i, |parts| - 2, |x| - q);
    } else {
      var info := ReadsLastContent(parts, p, x, pl, spans);
      RestEndsWithLastPart(parts, p.boundary, o, x);
      NotTheLastPlace(parts[i].content, p, x, pl, spans, info);
      Lengths(parts, p.boundary, |parts|);
    }
  }

  lemma ReadsLastContent(parts: seq<Part>, p: Parser, x: string, pl: Place, spans: seq<Span>) returns (info: FileInfo)
    requires Explains(p, x, pl, spans) && p.state == 3 && AllContents(Reported(p.events), parts)
    ensures parts != [] && pl.at - pl.from == |parts[|parts| - 1].content|
    ensures Opened(x, p.boundary, spans, |spans|, pl.head, pl.from, info)
  {
    info := Reported(p.events)[|parts| - 1].0;
  }

  lemma NotTheLastPlace(content: string, p: Parser, x: string, pl: Place, spans: seq<Span>, info: FileInfo)
    requires BoundaryCharsValid(p.boundary) && Explains(p, x, pl, spans) && p.state == 3 && spans != []
    requires pl.at - pl.from == |content| && Opened(x, p.boundary, spans, |spans|, pl.head, pl.from, info)
    requires OccursAt(x, ClosingLine(p.boundary), spans[|spans| - 1].to)
    requires EndsWith(x, LastPart(content, p.boundary)) && EndsWith(x, ClosingLine(p.boundary) + (DASH + CRLF))
    ensures var d := |x| - spans[|spans| - 1].to;
            d != |ClosingLine(p.boundary)| + 4 && d != |LastPart(content, p.boundary)|
  {
    var d := |x| - spans[|spans| - 1].to;
    if d == |ClosingLine(p.boundary)| + 4 || d == |LastPart(content, p.boundary)| {
      OpenIsShort(p, x, pl, spans);
      NoOpenContent(content, p.boundary, x, spans, pl, info);
    }
  }

  lemma NoOpenContent(content: string, boundary: string, x: string, spans: seq<Span>, pl: Place, info: FileInfo)
    requires BoundaryCharsValid(boundary) && |content| <= 3 && spans != []
    requires var d, last := |x| - spans[|spans| - 1].to, LastPart(content, boundary);
             && (d == |ClosingLine(boundary)| + 4 || d == |last|) && d <= |x| && EndsWith(x, last)
    requires EndsWith(x, ClosingLine(boundary) + (DASH + CRLF))
    requires OccursAt(x, ClosingLine(boundary), spans[|spans| - 1].to)
    ensures !Opened(x, boundary, spans, |spans|, pl.head, pl.from, info)
  {
    var d, last := |x| - spans[|spans| - 1].to, LastPart(content, boundary);
    if d == |last| {
      assert x[..|x| - d] + last == x;
      OpeningLater(x[..|x| - d], last, ClosingLine(boundary), 0);
      assert last[..|ClosingLine(boundary)|] == x[|x| - d..|x| - d + |ClosingLine(boundary)|];
      NothingInShortContent(x, boundary, spans, pl.head, pl.from, info, content);
    } else {
      assert x[|x| - 4..] == x[|x| - d..][|ClosingLine(boundary)|..];
      NothingBehindTheEnd(x, boundary, spans, pl.head, pl.from, info);
    }
  }

  lemma ClosedSomewhere(parts: seq<Part>, boundary: string, o: nat, x: string, q: nat)
    requires IsRest(parts, boundary, o, x) && OccursAt(x, ClosingLine(boundary), q)
    ensures |x| - q >= |ClosingLine(boundary)| + TailLength(parts, boundary, |parts|)
  {
    var i := PlaceIn(parts, boundary, o, x, q);
    PlaceEarly(parts, boundary, i, |parts| - 1, |x| - q);
  }

  /** All reported entries have their spans, but a last one that is still being read. */
  lemma ReportedShown(parts: seq<Part>, p: Parser, x: string, pl: Place, spans: seq<Span>)
      returns (es: seq<(FileInfo, string)>)
    requires parts != [] && Explains(p, x, pl, spans) && p.valid && AllContents(Reported(p.events), parts)
    ensures ShowsContents(parts, p.boundary, x, es, spans) && es[0].0 == Reported(p.events)[0].0
    ensures |spans| == if p.state == 3 then |parts| - 1 else |parts|
    ensures OccursAt(x, ClosingLine(p.boundary), spans[|spans| - 1].to)
  {
    es := Reported(p.events);
    if p.state == 3 {
      es := es[..|parts| - 1];
    }
    SpanEnds(x, p.boundary, es, spans, |spans| - 1);
  }

  /** With all contents reported, the first one begins where the first one sent does, or before. */
  lemma AllReportedReach(parts: seq<Part>, o: nat, p: Parser, x: string, pl: Place, spans: seq<Span>)
    requires IsRest(parts, p.boundary, o, x) && Explains(p, x, pl, spans)
    requires parts != [] && p.valid && AllContents(Reported(p.events), parts)
    ensures 0 < |spans| <= |parts| && Reaches(parts, p.boundary, x, spans, 0)
    ensures Opened(x, p.boundary, spans, 0, spans[0].head, spans[0].from, Reported(p.events)[0].0)
  {
    var es := ReportedShown(parts, p, x, pl, spans);
    var q := spans[|spans| - 1].to;
    if p.state == 3 {
      ClosedInTime(parts, o, p, x, pl, spans, q);
    } else {
      ClosedSomewhere(parts, p.boundary, o, x, q);
    }
    FirstReaches(parts, p.boundary, o, x, es, spans);
    SpanEnds(x, p.boundary, es, spans, 0);
  }

  /** Among the header lines an opening line can only be the end of the second one. */
  lemma OpeningInLines(part: Part, boundary: string, more: string, o: nat)
    requires BoundaryCharsValid(boundary) && PartOk(part, boundary) && 0 < o <= |LinesText(part.lines)|
    requires OccursAt(OpeningLine(boundary) + (LinesText(part.lines) + more), OpeningLine(boundary), o)
    ensures |part.lines| == 2 && o == |LinesText(part.lines)|
  {
    var dbc, text, n := OpeningLine(boundary), LinesText(part.lines), |boundary|;
    var s := dbc + (text + more);
    CharAt(s, dbc, o, n + 2);
    CharAt(s, dbc, o, n + 1);
    assert dbc[n + 3] == '\n' && dbc[n + 2] == '\r' && dbc[n + 1] != '"';
    assert o >= 2 && s[o + n + 2] == text[o - 2];
    assert o >= 3 ==> s[o + n + 1] == text[o - 3];
    LineBreaks(part, boundary, o - 2);
  }

  /** The carriage returns among a part's header lines. */
  lemma LineBreaks(part: Part, boundary: string, k: nat)
    requires PartOk(part, boundary) && k < |LinesText(part.lines)| && LinesText(part.lines)[k] == '\r'
    ensures k == |part.lines[0]| || (|part.lines| == 2 && k + 2 == |LinesText(part.lines)|)
    ensures k == |part.lines[0]| ==> k > 0 && LinesText(part.lines)[k - 1] == '"'
  {
    var lines, d := part.lines, part.lines[0];
    assert LinesText(lines) == d + CRLF + LinesText(lines[1..]);
    if |lines| == 2 {
      var t := lines[1];
      assert lines[1..] == [t] && [t][1..] == [];
      assert LinesText([t]) == t + CRLF + "" == t + CRLF;
      assert LinesText(lines) == d + CRLF + (t + CRLF);
    } else {
      assert lines[1..] == [];
    }
  }

  lemma FirstPartText(parts: seq<Part>, boundary: string) returns (more: string)
    requires parts != []
    ensures PartsText(parts, boundary) == OpeningLine(boundary) + (LinesText(parts[0].lines) + more)
    ensures |more| == 2 + ContentLength(parts, boundary, 0)
  {
    more := CRLF + ContentText(parts[0].content, PartsTail(parts[1..], boundary), boundary);
    Associate(DASH + boundary, CRLF, LinesText(parts[0].lines) + more);
  }

  /** The only later opening line behind which all contents could still come ends the first part's second
      header line, and then the empty line follows at once. */
  lemma OpeningInRest(parts: seq<Part>, boundary: string, o: nat, x: string)
    requires IsRest(parts, boundary, o, x) && parts != [] && 0 < o && OccursAt(x, OpeningLine(boundary), 0)
    requires |x| >= |OpeningLine(boundary)| + 2 + ContentLength(parts, boundary, 0)
    ensures |parts[0].lines| == 2 && |x| == |OpeningLine(boundary)| + 2 + ContentLength(parts, boundary, 0)
  {
    var more := FirstPartText(parts, boundary);
    OpeningFrom(PartsText(parts, boundary), o, x, OpeningLine(boundary));
    OpeningInLines(parts[0], boundary, more, o);
  }

  lemma OpeningFrom(s: string, o: nat, x: string, t: string)
    requires From(s, o) == Some(x) && OccursAt(x, t, 0)
    ensures OccursAt(s, t, o)
  {
    assert s[..o] + x == s;
    OpeningLater(s[..o], x, t, 0);
  }

  /** From any later opening line on, if all contents are reported, the first entry has no description
      although its part has two header lines. */
  lemma LaterOpeningMisleads(parts: seq<Part>, o: nat, p: Parser, x: string, pl: Place, spans: seq<Span>)
    requires IsRest(parts, p.boundary, o, x) && Explains(p, x, pl, spans) && p.valid
    requires parts != [] && 0 < o && OccursAt(x, OpeningLine(p.boundary), 0)
    requires AllContents(Reported(p.events), parts)
    ensures |parts[0].lines| == 2 && Reported(p.events)[0].0 == NO_INFO
  {
    AllReportedReach(parts, o, p, x, pl, spans);
    OpeningInRest(parts, p.boundary, o, x);
  }

  // ----- serialized items

  function PartsOf(items: seq<Item>): (parts: seq<Part>)
    ensures |parts| == |items|
    ensures forall i | 0 <= i < |items| :: parts[i] == Part(ItemLines(items[i]), items[i].content)
  {
    seq(|items|, i requires 0 <= i < |items| => Part(ItemLines(items[i]), items[i].content))
  }

  lemma {:induction false} TailOfParts(items: seq<Item>, boundary: string)
    ensures Tail(items, boundary) == PartsTail(PartsOf(items), boundary)
    decreases |items|
  {
    if items != [] {
      var lines, content, rest := ItemLines(items[0]), items[0].content, items[1..];
      TailOfParts(rest, boundary);
      assert PartsOf(items)[1..] == PartsOf(rest) && PartsOf(items)[0] == Part(lines, content);
      assert BodyText(content, rest, boundary) == ContentText(content, Tail(rest, boundary), boundary);
      assert Tail(items, boundary) == CRLF + EntryText(lines, content, rest, boundary);
    }
  }

  lemma TextOfParts(items: seq<Item>, boundary: string)
    ensures Serialize(items, boundary) == PartsText(PartsOf(items), boundary)
  {
    SerializeIsTail(items, boundary);
    TailOfParts(items, boundary);
  }

  lemma SendableIsOk(item: Item, boundary: string)
    requires Sendable(item, boundary)
    ensures PartOk(Part(ItemLines(item), item.content), boundary)
  {
    var lines := ItemLines(item);
    LinesAreLines(item);
    assert lines[0][|lines[0]| - 1] == '"';
    forall i | 0 <= i < |lines|
      ensures PlainLine(lines[i])
    {
      assert lines[i] in lines;
      assert lines[i][0] == 'C';
    }
  }

  lemma SendableAreOk(items: seq<Item>, boundary: string)
    requires AllSendable(items, boundary) && BoundaryCharsValid(boundary)
    ensures AllOk(PartsOf(items), boundary)
  {
    forall i | 0 <= i < |items|
      ensures PartOk(PartsOf(items)[i], boundary)
    {
      SendableIsOk(items[i], boundary);
    }
  }

  /** Without its first characters a body never makes the receiver hear of all that was sent. */
  lemma RestMisleads(items: seq<Item>, boundary: string, segments: seq<string>, o: nat)
    requires items != [] && AllSendable(items, boundary) && BoundaryCharsValid(boundary)
    requires 0 < o && From(Serialize(items, boundary), o) == Some(Flat(segments))
    ensures var (p, ok) := FeedAll(Fresh(boundary), segments);
            !(ok && p.valid && Reported(p.events) == Entries(items))
  {
    var (p, ok) := FeedAll(Fresh(boundary), segments);
    if ok && p.valid {
      SendableAreOk(items, boundary);
      TextOfParts(items, boundary);
      PartsMislead(PartsOf(items), boundary, segments, o);
      NotDescribed(items, Reported(p.events));
    }
  }

  /** If all contents are those of the parts, the first entry is not the one sent. */
  predicate Misled(parts: seq<Part>, es: seq<(FileInfo, string)>) {
    match |parts|
    case 0 => true
    case _ => AllContents(es, parts) ==> |parts[0].lines| == 2 && es[0].0 == NO_INFO
  }

  /** Two header lines describe something. */
  lemma NotDescribed(items: seq<Item>, es: seq<(FileInfo, string)>)
    requires items != [] && Misled(PartsOf(items), es)
    ensures es != Entries(items)
  {
    assert AllContents(Entries(items), PartsOf(items));
    assert Entries(items)[0].0 == InfoOf(items[0]) && PartsOf(items)[0].lines == ItemLines(items[0]);
  }

  lemma PartsMislead(parts: seq<Part>, boundary: string, segments: seq<string>, o: nat)
    requires parts != [] && AllOk(parts, boundary)
    requires 0 < o && From(PartsText(parts, boundary), o) == Some(Flat(segments))
    requires FeedAll(Fresh(boundary), segments).1 && FeedAll(Fresh(boundary), segments).0.valid
    ensures Misled(parts, Reported(FeedAll(Fresh(boundary), segments).0.events))
  {
    var p := FeedAll(Fresh(boundary), segments).0;
    var k, pl, spans := ReportedIsThere(boundary, segments);
    RestOfRest(parts, boundary, o, Flat(segments), k);
    if AllContents(Reported(p.events), parts) {
      LaterOpening(parts, o + k, p, Flat(segments), k, pl, spans);
    }
  }

  lemma FromFrom(s: string, o: nat, x: string, k: nat)
    requires From(s, o) == Some(x) && k <= |x|
    ensures From(s, o + k) == Some(x[k..])
  {
    assert s[o..][k..] == s[o + k..];
  }

  lemma RestOfRest(parts: seq<Part>, boundary: string, o: nat, x: string, k: nat)
    requires AllOk(parts, boundary) && From(PartsText(parts, boundary), o) == Some(x) && k <= |x|
    ensures IsRest(parts, boundary, o + k, x[k..])
  {
    FromFrom(PartsText(parts, boundary), o, x, k);
  }

  lemma LaterOpening(parts: seq<Part>, o: nat, p: Parser, x: string, k: nat, pl: Place, spans: seq<Span>)
    requires OccursAt(x, OpeningLine(p.boundary), k) && Explains(p, x[k..], pl, spans) && p.valid
    requires IsRest(parts, p.boundary, o, x[k..])
    requires parts != [] && 0 < o && AllContents(Reported(p.events), parts)
    ensures |parts[0].lines| == 2 && Reported(p.events)[0].0 == NO_INFO
  {
    OccursInside(x, x[k..], k, OpeningLine(p.boundary), 0);
    LaterOpeningMisleads(parts, o, p, x[k..], pl, spans);
  }

  // ----- exactly when all arrives

  /** The first segment with anything in it holds the whole opening line. */
  predicate OpeningComesWhole(segments: seq<string>, boundary: string) {
    segments != []
    && (if segments[0] == "" then OpeningComesWhole(segments[1..], boundary) else CoversOpening(segments, boundary))
  }

  /**
   For every form that can be sent and every way to cut it: the receiver finds the body valid and hears of
   exactly what was sent if and only if the first segment with anything in it holds the whole opening line.
   */
  lemma {:induction false} RoundTripJustWhenOpeningComesWhole(items: seq<Item>, boundary: string, segments: seq<string>)
    requires items != [] && AllSendable(items, boundary) && BoundaryCharsValid(boundary)
    requires Flat(segments) == Serialize(items, boundary)
    ensures var (p, ok) := FeedAll(Fresh(boundary), segments);
            (ok && p.valid && Reported(p.events) == Entries(items)) <==> OpeningComesWhole(segments, boundary)
    decreases |segments|
  {
    TextOfParts(items, boundary);
    if segments[0] == "" {
      ShortOpeningIsForgotten(boundary, segments);
      RoundTripJustWhenOpeningComesWhole(items, boundary, segments[1..]);
    } else if CoversOpening(segments, boundary) {
      ParseUndoesSerialize(items, boundary, segments);
    } else {
      ShortOpeningIsForgotten(boundary, segments);
      assert From(Serialize(items, boundary), |segments[0]|) == Some(Flat(segments[1..]));
      RestMisleads(items, boundary, segments[1..], |segments[0]|);
    }
  }
}
