/**
 A callback that refuses ends the parse of a form there: up to that call the parser does what it would have
 done anyway, and the body is never found valid.
 */
module MultipartRefusal {
  import opened Basics
  import opened HttpText
  import opened MultipartForm

  /** How the outcome of a parser whose callbacks refuse call `k` relates to that of one whose callbacks
      accept everything. */
  predicate IsCut(r: (Parser, bool), cut: (Parser, bool), k: nat) {
    match r
    case (p, ok) =>
      if |p.events| <= k then cut == (p.(refuses := Some(k)), ok)
      else !cut.1 && !cut.0.valid && cut.0.events == p.events[..k + 1]
  }

  /** What was heard stays heard. */
  predicate Hears(p: Parser, q: Parser) {
    p.events <= q.events && q.refuses == p.refuses
  }

  lemma {:induction false} HeaderLinesCut(p: Parser, k: nat)
    requires p.refuses.None? && |p.events| <= k
    ensures Hears(p, HeaderLines(p).0)
    ensures IsCut(HeaderLines(p), HeaderLines(p.(refuses := Some(k))), k)
    decreases |p.pending|
  {
    var q, pos := p.(refuses := Some(k)), Find(p.pending, CRLF);
    if pos == |p.pending| {
      HeaderLinesWait(p);
      HeaderLinesWait(q);
    } else if pos == 0 {
      EmptyLineCut(p, k);
    } else {
      HeaderLinesStep(p, pos);
      HeaderLinesStep(q, pos);
      var applied := ApplyLine(p.file, p.pending[..pos]);
      if applied.Some? {
        HeaderLinesCut(p.(file := applied.value, pending := p.pending[pos + 2..]), k);
      }
    }
  }

  lemma EmptyLineCut(p: Parser, k: nat)
    requires p.refuses.None? && |p.events| <= k && |p.pending| >= 2 && Find(p.pending, CRLF) == 0
    ensures Hears(p, HeaderLines(p).0)
    ensures IsCut(HeaderLines(p), HeaderLines(p.(refuses := Some(k))), k)
  {
  }

  predicate TurnIsCut(t: Turn, cut: Turn, k: nat) {
    match t
    case Return(p, ok) => cut.Return? && IsCut((p, ok), (cut.p, cut.ok), k)
    case Again(p) =>
      if |p.events| <= k then cut == Again(p.(refuses := Some(k)))
      else cut.Return? && IsCut((p, true), (cut.p, cut.ok), k)
  }

  lemma HeaderStepCut(p: Parser, k: nat)
    requires p.refuses.None? && |p.events| <= k && p.state == 2
    ensures Hears(p, HeaderStep(p).p) && TurnIsCut(HeaderStep(p), HeaderStep(p.(refuses := Some(k))), k)
  {
    HeaderLinesCut(p, k);
  }

  lemma BodyStepCut(p: Parser, k: nat)
    requires p.refuses.None? && |p.events| <= k
    ensures Hears(p, BodyStep(p).p) && TurnIsCut(BodyStep(p), BodyStep(p.(refuses := Some(k))), k)
  {
    var q := p.(refuses := Some(k));
    assert q.CrlfDashBoundary() == p.CrlfDashBoundary();
  }

  lemma OtherStepCut(p: Parser, k: nat)
    requires p.refuses.None? && |p.events| <= k && p.pending != "" && p.state != 2 && p.state != 3
    ensures Hears(p, Step(p).p) && TurnIsCut(Step(p), Step(p.(refuses := Some(k))), k)
  {
    var q := p.(refuses := Some(k));
    assert q.DashBoundaryCrlf() == p.DashBoundaryCrlf();
  }

  lemma StepCut(p: Parser, k: nat)
    requires p.refuses.None? && |p.events| <= k && p.pending != ""
    ensures Hears(p, Step(p).p) && TurnIsCut(Step(p), Step(p.(refuses := Some(k))), k)
  {
    if p.state == 2 {
      HeaderStepCut(p, k);
    } else if p.state == 3 {
      BodyStepCut(p, k);
    } else {
      OtherStepCut(p, k);
    }
  }

  lemma {:induction false} LoopHears(p: Parser)
    requires p.refuses.None?
    ensures Hears(p, Loop(p).0)
    decreases |p.pending|, if p.state == 1 then 1 else 0
  {
    if p.pending != "" {
      StepCut(p, |p.events|);
      if Step(p).Again? {
        LoopHears(Step(p).p);
      }
    }
  }

  lemma {:induction false} LoopCut(p: Parser, k: nat)
    requires p.refuses.None? && |p.events| <= k
    ensures IsCut(Loop(p), Loop(p.(refuses := Some(k))), k)
    decreases |p.pending|, if p.state == 1 then 1 else 0
  {
    if p.pending != "" {
      StepCut(p, k);
      if Step(p).Again? {
        LoopHears(Step(p).p);
        if |Step(p).p.events| <= k {
          LoopCut(Step(p).p, k);
        }
      }
    }
  }

  lemma {:induction false} FeedAllHears(p: Parser, segments: seq<string>)
    requires p.refuses.None?
    ensures Hears(p, FeedAll(p, segments).0)
    decreases |segments|
  {
    if segments != [] {
      LoopHears(p.(pending := p.pending + segments[0]));
      if Feed(p, segments[0]).1 {
        FeedAllHears(Feed(p, segments[0]).0, segments[1..]);
      }
    }
  }

  lemma {:induction false} FeedAllCut(p: Parser, segments: seq<string>, k: nat)
    requires p.refuses.None? && |p.events| <= k
    ensures IsCut(FeedAll(p, segments), FeedAll(p.(refuses := Some(k)), segments), k)
    decreases |segments|
  {
    if segments != [] {
      var q := Feed(p, segments[0]).0;
      LoopHears(p.(pending := p.pending + segments[0]));
      LoopCut(p.(pending := p.pending + segments[0]), k);
      if Feed(p, segments[0]).1 {
        FeedAllHears(q, segments[1..]);
        if |q.events| <= k {
          FeedAllCut(q, segments[1..], k);
        }
      }
    }
  }

  /**
   For any text and any segmentation: if the callbacks refuse their call number `k`, and the parse would have come
   to it, then it fails, the body is not found valid, and the callbacks have heard exactly what they would have
   heard up to that call. If it would not have come to it, nothing changes.
   */
  lemma RefusalEndsTheParse(boundary: string, segments: seq<string>, k: nat)
    ensures var (p, ok) := FeedAll(Fresh(boundary), segments);
            var (q, cutOk) := FeedAll(Refusing(boundary, Some(k)), segments);
            if |p.events| > k then !cutOk && !q.valid && q.events == p.events[..k + 1]
            else cutOk == ok && q == p.(refuses := Some(k))
  {
    FeedAllCut(Fresh(boundary), segments, k);
  }
}
