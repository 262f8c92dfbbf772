/**
 What the streaming parser makes of a body whose opening boundary line does not come in one segment.
 Until it has found that line it drops whatever it was fed, so the part is lost, and so is every further
 part whose own boundary line is cut.
 */
module MultipartLoss {
  import opened Basics
  import opened HttpText
  import opened MultipartForm
  import opened MultipartRoundTrip
  import opened MultipartTrace

  function PartText(item: Item, boundary: string): string {
    ItemBegin(item, boundary) + (item.content + CRLF)
  }

  lemma SerializeParts(items: seq<Item>, boundary: string)
    requires items != []
    ensures Serialize(items, boundary) == PartText(items[0], boundary) + Serialize(items[1..], boundary)
    ensures |OpeningLine(boundary)| <= |PartText(items[0], boundary)|
    ensures OpeningLine(boundary) <= Serialize(items, boundary)
  {
    Associate(PartText(items[0], boundary), SerializeItems(items[1..], boundary), Finish(boundary));
    ItemBeginLines(items[0], boundary);
  }

  /** The opening line occurs in the body only where a part begins. */
  ghost predicate OpensOnlyAtParts(items: seq<Item>, boundary: string)
    decreases |items|
  {
    if items == [] then Never(Serialize(items, boundary), OpeningLine(boundary))
    else
      && (forall k | 0 < k < |PartText(items[0], boundary)| ::
            !OccursAt(Serialize(items, boundary), OpeningLine(boundary), k))
      && OpensOnlyAtParts(items[1..], boundary)
  }

  /**
   How many parts are lost: those whose opening line is not inside one segment, up to the first that is.
   The next part begins `skip` characters into the segments.
   */
  function Lost(items: seq<Item>, boundary: string, segments: seq<string>, skip: nat): (n: nat)
    ensures n <= |items|
    decreases |segments|
  {
    if items == [] || segments == [] then |items|
    else
      var first := |segments[0]|;
      if first <= skip then Lost(items, boundary, segments[1..], skip - first)
      else if skip + |OpeningLine(boundary)| <= first then 0
      else 1 + Lost(items[1..], boundary, segments[1..], NextSkip(items[0], boundary, first, skip))
  }

  function NextSkip(item: Item, boundary: string, first: nat, skip: nat): nat
    requires skip < first < skip + |OpeningLine(boundary)|
  {
    ItemBeginLines(item, boundary);
    skip + |PartText(item, boundary)| - first
  }

  /** Nothing in front of the next part looks like an opening line. */
  ghost predicate Quiet(front: string, items: seq<Item>, boundary: string) {
    forall k | 0 <= k < |front| :: !OccursAt(front + Serialize(items, boundary), OpeningLine(boundary), k)
  }

  function RestBehind(front: string, text: string): Option<string> {
    if front <= text then Some(text[|front|..]) else None
  }

  /** The segments hold `front`, in which nothing looks like an opening line, and then the items. */
  ghost predicate Comes(segments: seq<string>, front: string, items: seq<Item>, boundary: string) {
    match RestBehind(front, Flat(segments))
    case None => false
    case Some(rest) => rest == Serialize(items, boundary) && Quiet(front, items, boundary)
  }

  lemma ComesIs(segments: seq<string>, front: string, items: seq<Item>, boundary: string)
    ensures Comes(segments, front, items, boundary)
       <==> Flat(segments) == front + Serialize(items, boundary) && Quiet(front, items, boundary)
  {
    assert (front + Serialize(items, boundary))[|front|..] == Serialize(items, boundary);
    assert front <= Flat(segments) ==> Flat(segments) == front + Flat(segments)[|front|..];
  }

  lemma OccursInSuffix(a: string, b: string, t: string, k: nat)
    ensures OccursAt(b, t, k) <==> OccursAt(a + b, t, |a| + k)
  {
    if k + |t| <= |b| {
      assert (a + b)[|a| + k..|a| + k + |t|] == b[k..k + |t|];
    }
  }

  /** What is dropped in front of an opening line makes no difference. */
  lemma FrontIsDropped(boundary: string, front: string, more: string)
    requires Find(front + more, OpeningLine(boundary)) == |front| && OccursAt(more, OpeningLine(boundary), 0)
    ensures Feed(Fresh(boundary), front + more) == Feed(Fresh(boundary), more)
  {
    var p, dbc := Fresh(boundary), OpeningLine(boundary);
    assert "" + (front + more) == front + more && "" + more == more;
    assert (front + more)[|front|..] == more;
    assert Find(more, dbc) == 0 && more[0..] == more;
    assert OpeningStep(p.(pending := front + more)) == OpeningStep(p.(pending := more));
  }

  lemma SegmentIsDropped(boundary: string, segments: seq<string>)
    requires segments != [] && Never(segments[0], OpeningLine(boundary))
    ensures FeedAll(Fresh(boundary), segments) == FeedAll(Fresh(boundary), segments[1..])
  {
    OpeningNotFound(boundary, segments[0]);
  }

  /** The next part's opening line comes whole in the first segment. */
  lemma FoundWhole(items: seq<Item>, boundary: string, segments: seq<string>, front: string)
    requires items != [] && AllSendable(items, boundary) && BoundaryCharsValid(boundary)
    requires segments != [] && Flat(segments) == front + Serialize(items, boundary)
    requires Quiet(front, items, boundary) && |front| + |OpeningLine(boundary)| <= |segments[0]|
    ensures var (p, ok) := FeedAll(Fresh(boundary), segments);
            ok && p.valid && Reported(p.events) == Entries(items)
  {
    var first, rest := segments[0], Flat(segments[1..]);
    var more := first[|front|..];
    SerializeParts(items, boundary);
    Buffered(first, rest, front, Serialize(items, boundary));
    assert first == front + more;
    FoundAt(items, boundary, front, more, rest);
    FrontIsDropped(boundary, front, more);
    var cut := [more] + segments[1..];
    assert cut[0] == more && cut[1..] == segments[1..];
    ParseUndoesSerialize(items, boundary, cut);
  }

  lemma FoundAt(items: seq<Item>, boundary: string, front: string, more: string, rest: string)
    requires items != [] && Quiet(front, items, boundary)
    requires more + rest == Serialize(items, boundary) && |OpeningLine(boundary)| <= |more|
    ensures Find(front + more, OpeningLine(boundary)) == |front| && OccursAt(more, OpeningLine(boundary), 0)
  {
    var dbc := OpeningLine(boundary);
    SerializeParts(items, boundary);
    Associate(front, more, rest);
    assert OccursAt(more + rest, dbc, 0);
    OccursInSuffix(front, more + rest, dbc, 0);
    FindInPrefix(front + more, rest, dbc, |front|);
    OccursInPrefix(more, rest, dbc, 0);
  }

  /** A segment that ends before the opening line does holds no opening line. */
  lemma TooShort(items: seq<Item>, boundary: string, segments: seq<string>, front: string)
    requires segments != [] && Flat(segments) == front + Serialize(items, boundary)
    requires Quiet(front, items, boundary) && |segments[0]| < |front| + |OpeningLine(boundary)|
    ensures Never(segments[0], OpeningLine(boundary))
  {
    var first, rest := segments[0], Flat(segments[1..]);
    forall k | 0 <= k < |first|
      ensures !OccursAt(first, OpeningLine(boundary), k)
    {
      OccursInPrefix(first, rest, OpeningLine(boundary), k);
    }
  }

  lemma FirstIsDropped(items: seq<Item>, boundary: string, segments: seq<string>, front: string)
    requires segments != [] && Comes(segments, front, items, boundary)
    requires |segments[0]| < |front| + |OpeningLine(boundary)|
    ensures FeedAll(Fresh(boundary), segments) == FeedAll(Fresh(boundary), segments[1..])
  {
    ComesIs(segments, front, items, boundary);
    TooShort(items, boundary, segments, front);
    SegmentIsDropped(boundary, segments);
  }

  /** The first segment ends in front of the part. */
  lemma ShorterFront(items: seq<Item>, boundary: string, segments: seq<string>, front: string) returns (left: string)
    requires segments != [] && Comes(segments, front, items, boundary) && |segments[0]| <= |front|
    ensures Comes(segments[1..], left, items, boundary) && |left| == |front| - |segments[0]|
  {
    ComesIs(segments, front, items, boundary);
    var first, rest := segments[0], Flat(segments[1..]);
    left := front[|first|..];
    assert rest == (first + rest)[|first|..] == left + Serialize(items, boundary);
    forall k | 0 <= k < |left|
      ensures !OccursAt(left + Serialize(items, boundary), OpeningLine(boundary), k)
    {
      OccursInSuffix(first, rest, OpeningLine(boundary), k);
      assert !OccursAt(front + Serialize(items, boundary), OpeningLine(boundary), |first| + k);
    }
    ComesIs(segments[1..], left, items, boundary);
  }

  lemma CutInside(first: string, rest: string, front: string, part: string, next: string, t: string)
      returns (left: string)
    requires first + rest == front + (part + next) && |front| < |first| <= |front| + |part|
    requires forall k | 0 < k < |part| :: !OccursAt(part + next, t, k)
    ensures rest == left + next && |left| == |front| + |part| - |first|
    ensures forall k | 0 <= k < |left| :: !OccursAt(left + next, t, k)
  {
    var c := |first| - |front|;
    left := part[c..];
    assert rest == (first + rest)[|first|..];
    assert (front + (part + next))[|first|..] == (part + next)[c..] == left + next;
    QuietBehindCut(part, next, c, t);
  }

  /** The first segment ends inside the part's opening line: what is left of the part is in front of the next. */
  lemma CutOpening(items: seq<Item>, boundary: string, segments: seq<string>, front: string) returns (left: string)
    requires items != [] && segments != [] && Comes(segments, front, items, boundary)
    requires OpensOnlyAtParts(items, boundary)
    requires |front| < |segments[0]| < |front| + |OpeningLine(boundary)|
    ensures Comes(segments[1..], left, items[1..], boundary)
    ensures |left| == NextSkip(items[0], boundary, |segments[0]|, |front|)
  {
    ComesIs(segments, front, items, boundary);
    SerializeParts(items, boundary);
    left := CutInside(segments[0], Flat(segments[1..]), front, PartText(items[0], boundary),
                      Serialize(items[1..], boundary), OpeningLine(boundary));
    ComesIs(segments[1..], left, items[1..], boundary);
  }

  lemma QuietBehindCut(part: string, next: string, c: nat, t: string)
    requires 0 < c <= |part| && forall k | 0 < k < |part| :: !OccursAt(part + next, t, k)
    ensures forall k | 0 <= k < |part[c..]| :: !OccursAt(part[c..] + next, t, k)
  {
    assert part[..c] + part[c..] == part;
    Associate(part[..c], part[c..], next);
    forall k | 0 <= k < |part[c..]|
      ensures !OccursAt(part[c..] + next, t, k)
    {
      OccursInSuffix(part[..c], part[c..] + next, t, k);
      assert !OccursAt(part + next, t, c + k);
    }
  }

  lemma NoPartsLeft(boundary: string, front: string)
    requires Quiet(front, [], boundary) && Never(Serialize([], boundary), OpeningLine(boundary))
    ensures Never(front + Serialize([], boundary), OpeningLine(boundary))
  {
    var end := Serialize([], boundary);
    forall k | |front| <= k < |front + end|
      ensures !OccursAt(front + end, OpeningLine(boundary), k)
    {
      OccursInSuffix(front, end, OpeningLine(boundary), k - |front|);
      assert !OccursAt(end, OpeningLine(boundary), k - |front|);
    }
  }

  /** The receiver hears of the parts from the first whose opening line comes whole, or of nothing at all. */
  ghost predicate Arrived(r: (Parser, bool), items: seq<Item>, lost: nat)
    requires lost <= |items|
  {
    match r
    case (p, ok) => ok && (p.valid <==> lost < |items|) && Reported(p.events) == Entries(items[lost..])
  }

  lemma ArrivedLater(items: seq<Item>, boundary: string, segments: seq<string>, skip: nat, next: nat)
    requires items != [] && segments != []
    requires skip < |segments[0]| < skip + |OpeningLine(boundary)|
    requires next == NextSkip(items[0], boundary, |segments[0]|, skip)
    requires FeedAll(Fresh(boundary), segments) == FeedAll(Fresh(boundary), segments[1..])
    requires Arrived(FeedAll(Fresh(boundary), segments[1..]), items[1..], Lost(items[1..], boundary, segments[1..], next))
    ensures Arrived(FeedAll(Fresh(boundary), segments), items, Lost(items, boundary, segments, skip))
  {
    var lost := Lost(items[1..], boundary, segments[1..], next);
    assert items[1..][lost..] == items[1 + lost..];
  }

  lemma ArrivedAhead(items: seq<Item>, boundary: string, segments: seq<string>, skip: nat, next: nat)
    requires items != [] && segments != [] && |segments[0]| <= skip && next == skip - |segments[0]|
    requires FeedAll(Fresh(boundary), segments) == FeedAll(Fresh(boundary), segments[1..])
    requires Arrived(FeedAll(Fresh(boundary), segments[1..]), items, Lost(items, boundary, segments[1..], next))
    ensures Arrived(FeedAll(Fresh(boundary), segments), items, Lost(items, boundary, segments, skip))
  {
  }

  lemma NothingArrives(boundary: string, segments: seq<string>, front: string)
    requires Comes(segments, front, [], boundary) && OpensOnlyAtParts([], boundary)
    ensures Arrived(FeedAll(Fresh(boundary), segments), [], 0)
  {
    ComesIs(segments, front, [], boundary);
    NoPartsLeft(boundary, front);
    NothingWithoutOpening(boundary, segments);
  }

  lemma AllArrives(items: seq<Item>, boundary: string, segments: seq<string>, front: string)
    requires items != [] && AllSendable(items, boundary) && BoundaryCharsValid(boundary)
    requires segments != [] && Comes(segments, front, items, boundary)
    requires |front| + |OpeningLine(boundary)| <= |segments[0]|
    ensures Arrived(FeedAll(Fresh(boundary), segments), items, Lost(items, boundary, segments, |front|))
  {
    ComesIs(segments, front, items, boundary);
    FoundWhole(items, boundary, segments, front);
    assert items[0..] == items;
  }

  lemma {:induction false} WhatComesArrives(items: seq<Item>, boundary: string, segments: seq<string>, front: string)
    requires AllSendable(items, boundary) && BoundaryCharsValid(boundary) && OpensOnlyAtParts(items, boundary)
    requires Comes(segments, front, items, boundary)
    ensures Arrived(FeedAll(Fresh(boundary), segments), items, Lost(items, boundary, segments, |front|))
    decreases |segments|
  {
    if items == [] {
      NothingArrives(boundary, segments, front);
    } else if segments == [] {
      SomethingComes(items, boundary, front);
    } else if |front| + |OpeningLine(boundary)| <= |segments[0]| {
      AllArrives(items, boundary, segments, front);
    } else {
      FirstIsDropped(items, boundary, segments, front);
      if |segments[0]| <= |front| {
        var left := ShorterFront(items, boundary, segments, front);
        WhatComesArrives(items, boundary, segments[1..], left);
        ArrivedAhead(items, boundary, segments, |front|, |left|);
      } else {
        var left := CutOpening(items, boundary, segments, front);
        WhatComesArrives(items[1..], boundary, segments[1..], left);
        ArrivedLater(items, boundary, segments, |front|, |left|);
      }
    }
  }

  lemma SomethingComes(items: seq<Item>, boundary: string, front: string)
    requires items != []
    ensures !Comes([], front, items, boundary)
  {
    ComesIs([], front, items, boundary);
    SerializeParts(items, boundary);
  }

  /** What a receiver hears of a body, whose opening line shows only where parts begin, behind a text `front` in
      which nothing looks like one. */
  lemma WhatArrives(items: seq<Item>, boundary: string, segments: seq<string>, front: string)
    requires AllSendable(items, boundary) && BoundaryCharsValid(boundary) && OpensOnlyAtParts(items, boundary)
    requires Flat(segments) == front + Serialize(items, boundary) && Quiet(front, items, boundary)
    ensures Arrived(FeedAll(Fresh(boundary), segments), items, Lost(items, boundary, segments, |front|))
  {
    ComesIs(segments, front, items, boundary);
    WhatComesArrives(items, boundary, segments, front);
  }
}
