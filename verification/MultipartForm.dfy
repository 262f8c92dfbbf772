/**
 multipart/form-data in src/httplib.h: the serializer, and the parser as a function of its state and
 the text it has buffered.
 */
module MultipartForm {
  import opened Basics
  import opened HttpText
  import QueryText

  const DASH: string := "--"
  const HEADER_MAX_LENGTH := 8192

  // ----- searching

  predicate OccursAt(s: string, t: string, i: nat) {
    i + |t| <= |s| && s[i..i + |t|] == t
  }

  /** The first occurrence of `t`, or the length of `s`. */
  function Find(s: string, t: string): (r: nat)
    requires t != ""
    ensures r <= |s|
    ensures r < |s| ==> OccursAt(s, t, r)
    ensures forall i | 0 <= i < r :: !OccursAt(s, t, i)
  {
    if |t| > |s| then |s|
    else if t <= s then 0
    else
      OccursLater(s, t);
      1 + Find(s[1..], t)
  }

  /** An occurrence beyond the first position is one in the rest. */
  lemma OccursLater(s: string, t: string)
    requires s != ""
    ensures forall i | 1 <= i <= |s| :: OccursAt(s, t, i) <==> OccursAt(s[1..], t, i - 1)
  {
    forall i | 1 <= i <= |s|
      ensures OccursAt(s, t, i) <==> OccursAt(s[1..], t, i - 1)
    {
      if i + |t| <= |s| {
        assert s[1..][i - 1..i - 1 + |t|] == s[i..i + |t|];
      }
    }
  }

  lemma FindIsFirst(s: string, t: string, i: nat)
    requires t != "" && OccursAt(s, t, i)
    requires forall k | 0 <= k < i :: !OccursAt(s, t, k)
    ensures Find(s, t) == i
  {
  }

  lemma FindFails(s: string, t: string)
    requires t != "" && forall k | 0 <= k < |s| :: !OccursAt(s, t, k)
    ensures Find(s, t) == |s|
  {
  }

  // ----- the serializer

  datatype Item = Item(name: string, content: string, filename: string, contentType: string)

  function DispositionLine(item: Item): string {
    "Content-Disposition: form-data; name=\"" + item.name + "\""
    + if item.filename == "" then "" else "; filename=\"" + item.filename + "\""
  }

  function ItemLines(item: Item): seq<string> {
    [DispositionLine(item)]
    + if item.contentType == "" then [] else ["Content-Type: " + item.contentType]
  }

  /** Lines 4713-4729. */
  function ItemBegin(item: Item, boundary: string): string {
    var body := "--" + boundary + "\r\n";
    var body := body + "Content-Disposition: form-data; name=\"" + item.name + "\"";
    var body := if item.filename == "" then body else body + "; filename=\"" + item.filename + "\"";
    var body := body + "\r\n";
    var body := if item.contentType == "" then body else body + "Content-Type: " + item.contentType + "\r\n";
    body + "\r\n"
  }

  function Finish(boundary: string): string {
    "--" + boundary + "--\r\n"
  }

  function SerializeItems(items: seq<Item>, boundary: string): string {
    if items == [] then ""
    else ItemBegin(items[0], boundary) + (items[0].content + "\r\n") + SerializeItems(items[1..], boundary)
  }

  function Serialize(items: seq<Item>, boundary: string): string {
    SerializeItems(items, boundary) + Finish(boundary)
  }

  /** Lines 4743-4756. */
  method SerializeFormData(items: seq<Item>, boundary: string, finish: bool) returns (body: string)
    ensures finish ==> body == Serialize(items, boundary)
    ensures !finish ==> body + Finish(boundary) == Serialize(items, boundary)
  {
    body := "";
    var i := 0;
    while i < |items|
      invariant i <= |items|
      invariant body + SerializeItems(items[i..], boundary) == SerializeItems(items, boundary)
    {
      assert items[i..][1..] == items[i + 1..];
      ghost var before, rest := body, SerializeItems(items[i + 1..], boundary);
      var begin, content := ItemBegin(items[i], boundary), items[i].content + "\r\n";
      Associate(before, begin, content);
      Associate(before, begin + content, rest);
      body := body + begin;
      body := body + content;
      i := i + 1;
    }
    assert body == SerializeItems(items, boundary);
    if finish {
      body := body + Finish(boundary);
    }
  }

  // ----- header lines

  datatype FileInfo = FileInfo(name: string, filename: string, contentType: string)

  const NO_INFO := FileInfo("", "", "")

  function Lower(c: char): char {
    if 'A' <= c <= 'Z' then (c as int + 32) as char else c
  }

  /** Lines 4578-4585: `t` is a prefix of `s` up to case. */
  predicate StartsWithIgnoringCase(s: string, t: string) {
    |t| <= |s| && forall i | 0 <= i < |t| :: Lower(s[i]) == Lower(t[i])
  }

  /** Lines 3791-3825, as far as the result goes: there is a name, a colon, and a value. */
  predicate IsHeader(line: string) {
    var t := TrimRight(line);
    var p := IndexOf(t, ':');
    p < |t| && TrimLeft(t[p + 1..]) != "" && p > 0
  }

  const CONTENT_TYPE: string := "Content-Type:"
  const CONTENT_DISPOSITION: string := "Content-Disposition:"
  const FORM_DATA: string := "form-data;"

  /** What an expression "^head\s*form\s*(.*)$" that ignores case captures. */
  function Captured(line: string, head: string, form: string): Option<string> {
    if !StartsWithIgnoringCase(line, head) then None
    else
      var s := SkipSpace(line[|head|..]);
      if !StartsWithIgnoringCase(s, form) then None
      else
        var r := SkipSpace(s[|form|..]);
        if Free(r, '\n') && Free(r, '\r') then Some(r) else None
  }

  /** What the expression of lines 4483-4485 captures. */
  function DispositionRest(line: string): Option<string> {
    Captured(line, CONTENT_DISPOSITION, FORM_DATA)
  }

  /** Lines 4347-4369: the name-value pairs in the order they are emplaced. */
  function DispositionPairs(kvs: seq<string>): seq<(string, string)> {
    if kvs == [] then []
    else
      var (key, val) := QueryText.KeyValue(kvs[0]);
      (if key == "" then [] else [(TrimQuotes(key), TrimQuotes(val))]) + DispositionPairs(kvs[1..])
  }

  function DispositionParams(s: string): seq<(string, string)> {
    DispositionPairs(QueryText.Distinct(Split(s, ';'), {}))
  }

  function Lookup(params: seq<(string, string)>, key: string): Option<string> {
    if params == [] then None
    else if params[0].0 == key then Some(params[0].1)
    else Lookup(params[1..], key)
  }

  /** Lines 4503-4516: an extended file name overrides, if it is in UTF-8. */
  function ExtendedFilename(file: FileInfo, value: Option<string>): Option<FileInfo> {
    match value
    case None => Some(file)
    case Some(v) =>
      if StartsWithIgnoringCase(v, "UTF-8''") && |v| > 7 && Free(v[7..], '\n') && Free(v[7..], '\r')
      then Some(file.(filename := QueryText.Decode(v[7..], false)))
      else None
  }

  /** Lines 4489-4516. */
  function ApplyParams(file: FileInfo, params: seq<(string, string)>): Option<FileInfo> {
    match Lookup(params, "name")
    case None => None
    case Some(name) =>
      var named := file.(name := name);
      var f := match Lookup(params, "filename")
               case None => named
               case Some(filename) => named.(filename := filename);
      ExtendedFilename(f, Lookup(params, "filename*"))
  }

  /** Lines 4469-4518: what one header line does to the entry's description; None rejects the body. */
  function ApplyLine(file: FileInfo, line: string): Option<FileInfo> {
    if !IsHeader(line) then None
    else if StartsWithIgnoringCase(line, CONTENT_TYPE) then
      Some(file.(contentType := Trim(line[|CONTENT_TYPE|..])))
    else
      match DispositionRest(line)
      case None => Some(file)
      case Some(rest) => ApplyParams(file, DispositionParams(rest))
  }

  // ----- the parser

  /** A call of the header callback, or of the content callback. */
  datatype Event = Header(file: FileInfo) | Content(data: string)

  /** `refuses` is the number of the call that a callback answers with false, if there is one. */
  datatype Parser = Parser(
    boundary: string,
    state: nat,
    pending: string,
    file: FileInfo,
    valid: bool,
    events: seq<Event>,
    refuses: Option<nat>)
  {
    /** The callback accepts what it is told next. */
    predicate Accepts() {
      refuses != Some(|events|)
    }

    /** After a call of a callback; a refusal leaves the body invalid. */
    function Told(e: Event): Parser {
      this.(events := events + [e], valid := valid && Accepts())
    }

    function DashBoundaryCrlf(): string {
      DASH + boundary + CRLF
    }

    function CrlfDashBoundary(): string {
      CRLF + DASH + boundary
    }
  }

  /** A new parser whose callbacks refuse one call or none. */
  function Refusing(boundary: string, refuses: Option<nat>): Parser {
    Parser(boundary, 0, "", NO_INFO, false, [], refuses)
  }

  /** A new parser whose callbacks accept everything. */
  function Fresh(boundary: string): Parser {
    Refusing(boundary, None)
  }

  /** Lines 4457-4521: header lines, as long as whole lines are buffered. */
  function HeaderLines(p: Parser): (r: (Parser, bool))
    ensures r.0.boundary == p.boundary
    ensures |r.0.pending| <= |p.pending|
    ensures r.0.state == 3 && p.state != 3 ==> |r.0.pending| < |p.pending|
    decreases |p.pending|
  {
    var pos := Find(p.pending, CRLF);
    if pos >= |p.pending| then (p, true)
    else if pos == 0 then
      if p.Accepts() then (p.Told(Header(p.file)).(pending := p.pending[2..], state := 3), true)
      else (p.Told(Header(p.file)), false)
    else
      match ApplyLine(p.file, p.pending[..pos])
      case None => (p.(valid := false), false)
      case Some(file) => HeaderLines(p.(file := file, pending := p.pending[pos + 2..]))
  }

  lemma HeaderLinesWait(p: Parser)
    requires Find(p.pending, CRLF) == |p.pending|
    ensures HeaderLines(p) == (p, true)
  {
  }

  lemma HeaderLinesEnd(p: Parser)
    requires Find(p.pending, CRLF) == 0 && |p.pending| >= 2 && p.Accepts()
    ensures HeaderLines(p) == (p.(events := p.events + [Header(p.file)], pending := p.pending[2..], state := 3), true)
  {
  }

  /** One header line of the section. */
  lemma HeaderLinesStep(p: Parser, pos: nat)
    requires pos == Find(p.pending, CRLF) && 0 < pos && pos + 2 <= |p.pending|
    ensures HeaderLines(p) ==
            match ApplyLine(p.file, p.pending[..pos])
            case None => (p.(valid := false), false)
            case Some(f) => HeaderLines(p.(file := f, pending := p.pending[pos + 2..]))
  {
  }

  /** One turn of the loop over the states: `parse` returns, or goes on. */
  datatype Turn = Return(p: Parser, ok: bool) | Again(p: Parser)

  /** Lines 4441-4447: everything in front of the opening line is dropped, found or not. */
  function OpeningStep(p: Parser): Turn {
    OpeningRest(p.(pending := p.pending[Find(p.pending, p.DashBoundaryCrlf())..]))
  }

  function OpeningRest(q: Parser): Turn {
    var dbc := q.DashBoundaryCrlf();
    if |dbc| > |q.pending| then Return(q, true)
    else if !(dbc <= q.pending) then Return(q, false)
    else Again(q.(pending := q.pending[|dbc|..], state := 1))
  }

  /** Lines 4454-4524. */
  function HeaderStep(p: Parser): Turn {
    if Find(p.pending, CRLF) > HEADER_MAX_LENGTH then Return(p, false)
    else
      var (q, ok) := HeaderLines(p);
      if !ok || q.state != 3 then Return(q, ok) else Again(q)
  }

  /** Lines 4528-4534: the content ends, and with its boundary it is dropped from the buffer. */
  function ContentEndsAt(p: Parser, pos: nat, end: nat): Turn
    requires pos <= end <= |p.pending|
  {
    var q := p.Told(Content(p.pending[..pos]));
    if p.Accepts() then Again(q.(pending := p.pending[end..], state := 4)) else Return(q, false)
  }

  /** Lines 4536-4544. */
  function ContentHeldBack(p: Parser, len: nat): Turn
    requires len <= |p.pending|
  {
    var q := p.Told(Content(p.pending[..len]));
    if p.Accepts() then Return(q.(pending := p.pending[len..]), true) else Return(q, false)
  }

  /** Lines 4525-4547: a tail as long as the boundary is held back until more text decides. */
  function BodyStep(p: Parser): Turn {
    var cdb := p.CrlfDashBoundary();
    if |cdb| > |p.pending| then Return(p, true)
    else
      var pos := Find(p.pending, cdb);
      if pos < |p.pending| then ContentEndsAt(p, pos, pos + |cdb|)
      else if |p.pending| > |cdb| then ContentHeldBack(p, |p.pending| - |cdb|)
      else Return(p, true)
  }

  /** Lines 4548-4564: another entry, or the end with whatever follows it dropped. */
  function BoundaryStep(p: Parser): Turn {
    if |p.pending| < 2 then Return(p, true)
    else if CRLF <= p.pending then Again(p.(pending := p.pending[2..], state := 1))
    else if DASH <= p.pending then Return(p.(pending := "", valid := true), true)
    else Return(p, true)
  }

  function Step(p: Parser): (t: Turn)
    requires p.pending != ""
    ensures t.Again? ==>
              |t.p.pending| < |p.pending| || (|t.p.pending| == |p.pending| && p.state == 1 && t.p.state != 1)
  {
    if p.state == 0 then OpeningStep(p)
    else if p.state == 1 then Again(p.(file := NO_INFO, state := 2))
    else if p.state == 2 then HeaderStep(p)
    else if p.state == 3 then BodyStep(p)
    else BoundaryStep(p)
  }

  /** Lines 4439-4566. */
  function Loop(p: Parser): (Parser, bool)
    decreases |p.pending|, if p.state == 1 then 1 else 0
  {
    if p.pending == "" then (p, true)
    else
      match Step(p)
      case Return(q, ok) => (q, ok)
      case Again(q) => Loop(q)
  }

  /** One call of `parse`. */
  function Feed(p: Parser, data: string): (Parser, bool) {
    Loop(p.(pending := p.pending + data))
  }

  /** A whole body, segment by segment, until `parse` fails. */
  function FeedAll(p: Parser, segments: seq<string>): (Parser, bool)
    decreases |segments|
  {
    if segments == [] then (p, true)
    else
      var (q, ok) := Feed(p, segments[0]);
      if ok then FeedAll(q, segments[1..]) else (q, false)
  }

  /** The entries the callbacks have been told about: each header, with all content that followed it. */
  function Reported(events: seq<Event>): seq<(FileInfo, string)> {
    if events == [] then []
    else
      var before := Reported(events[..|events| - 1]);
      match events[|events| - 1]
      case Header(f) => before + [(f, "")]
      case Content(d) =>
        if before == [] then []
        else
          var (f, c) := before[|before| - 1];
          before[..|before| - 1] + [(f, c + d)]
  }
}
