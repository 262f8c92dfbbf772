/** The check of byte ranges in src/httplib.h (section 14.2 of RFC 9110). A missing position is -1. */
module Ranges {
  import opened Basics

  type Range = (int, int)

  const RANGE_MAX_COUNT := 1024

  /** The values of the type ssize_t; a range header never yields one below -1. */
  predicate IsPosition(p: int) {
    -1 <= p < 0x8000_0000_0000_0000
  }

  /** The range as its two positions in a content of length `len`. */
  function Normal(r: Range, len: nat): Range {
    var (first, last) := if r == (-1, -1) then (0, len) else r;
    if first == -1 then (len - last, len - 1)
    else (first, if last == -1 then len - 1 else last)
  }

  function NormalAll(rs: seq<Range>, len: nat): (ns: seq<Range>)
    ensures |ns| == |rs|
    ensures forall i | 0 <= i < |rs| :: ns[i] == Normal(rs[i], len)
  {
    seq(|rs|, i requires 0 <= i < |rs| => Normal(rs[i], len))
  }

  // ----- what is asked of the positions

  predicate Inside(r: Range, len: nat) {
    0 <= r.0 <= r.1 < len
  }

  ghost predicate Ascending(rs: seq<Range>) {
    forall i, j | 0 <= i < j < |rs| :: rs[i].0 < rs[j].0
  }

  /** Range `i` begins before the end of an earlier one. */
  ghost predicate OverlapsEarlier(rs: seq<Range>, i: nat)
    requires i < |rs|
  {
    exists j | 0 <= j < i :: rs[i].0 <= rs[j].1
  }

  ghost function Overlaps(rs: seq<Range>): nat {
    if rs == [] then 0
    else Overlaps(rs[..|rs| - 1]) + if OverlapsEarlier(rs, |rs| - 1) then 1 else 0
  }

  ghost predicate Acceptable(rs: seq<Range>, len: nat) {
    AllInside(rs, len) && Ascending(rs) && Overlaps(rs) <= 2
  }

  function MaxLast(rs: seq<Range>): int {
    if rs == [] then -1
    else var before := MaxLast(rs[..|rs| - 1]);
      if before < rs[|rs| - 1].1 then rs[|rs| - 1].1 else before
  }

  lemma {:induction false} MaxLastIs(rs: seq<Range>)
    ensures forall i | 0 <= i < |rs| :: rs[i].1 <= MaxLast(rs)
    ensures rs != [] && MaxLast(rs) != -1 ==> exists i | 0 <= i < |rs| :: rs[i].1 == MaxLast(rs)
  {
    if rs != [] {
      var before := rs[..|rs| - 1];
      MaxLastIs(before);
      assert forall i | 0 <= i < |before| :: before[i] == rs[i];
      if MaxLast(rs) == rs[|rs| - 1].1 {
        assert rs[|rs| - 1].1 == MaxLast(rs);
      } else if MaxLast(before) != -1 {
        var i :| 0 <= i < |before| && before[i].1 == MaxLast(before);
        assert rs[i].1 == MaxLast(rs);
      }
    }
  }

  /** A range that begins at a position overlaps an earlier one just when it begins within their reach. */
  lemma ReachIsOverlap(rs: seq<Range>, r: Range)
    requires r.0 >= 0
    ensures OverlapsEarlier(rs + [r], |rs|) <==> r.0 <= MaxLast(rs)
  {
    MaxLastIs(rs);
    assert (rs + [r])[..|rs|] == rs;
    assert forall i | 0 <= i < |rs| :: (rs + [r])[i] == rs[i];
  }

  ghost predicate AllInside(rs: seq<Range>, len: nat) {
    forall i | 0 <= i < |rs| :: Inside(rs[i], len)
  }

  lemma AllInsideStep(rs: seq<Range>, r: Range, len: nat)
    ensures AllInside(rs + [r], len) <==> AllInside(rs, len) && Inside(r, len)
  {
    if AllInside(rs + [r], len) {
      assert Inside((rs + [r])[|rs|], len);
      assert forall i | 0 <= i < |rs| :: (rs + [r])[i] == rs[i];
    }
  }

  lemma AscendingStep(rs: seq<Range>, r: Range)
    requires Ascending(rs)
    ensures Ascending(rs + [r]) <==> (rs != [] ==> rs[|rs| - 1].0 < r.0)
  {
    if Ascending(rs + [r]) && rs != [] {
      assert (rs + [r])[|rs| - 1].0 < (rs + [r])[|rs|].0;
    }
  }

  /** One more range. */
  lemma AcceptableStep(rs: seq<Range>, r: Range, len: nat)
    requires Acceptable(rs, len)
    ensures Acceptable(rs + [r], len) <==>
              && Inside(r, len)
              && (rs != [] ==> rs[|rs| - 1].0 < r.0)
              && Overlaps(rs) + (if r.0 <= MaxLast(rs) then 1 else 0) <= 2
    ensures MaxLast(rs + [r]) == if MaxLast(rs) < r.1 then r.1 else MaxLast(rs)
    ensures Inside(r, len) ==> Overlaps(rs + [r]) == Overlaps(rs) + if r.0 <= MaxLast(rs) then 1 else 0
  {
    AllInsideStep(rs, r, len);
    AscendingStep(rs, r);
    assert (rs + [r])[..|rs + [r]| - 1] == rs;
    if r.0 >= 0 {
      ReachIsOverlap(rs, r);
    }
  }

  lemma {:induction false} OverlapsGrows(rs: seq<Range>, k: nat)
    requires k <= |rs|
    ensures Overlaps(rs[..k]) <= Overlaps(rs)
  {
    if k == |rs| {
      assert rs[..k] == rs;
    } else {
      OverlapsGrows(rs[..|rs| - 1], k);
      assert rs[..|rs| - 1][..k] == rs[..k];
    }
  }

  /** Once refused, whatever follows is refused with it. */
  lemma PrefixDecides(rs: seq<Range>, k: nat, len: nat)
    requires k <= |rs| && Acceptable(rs, len)
    ensures Acceptable(rs[..k], len)
  {
    OverlapsGrows(rs, k);
    assert forall i | 0 <= i < k :: Inside(rs[i], len);
  }

  /** The check applies to a request with ranges and a successful response. */
  predicate Applies(rs: seq<Range>, status: int) {
    rs != [] && 200 <= status < 300
  }

  /** The `k`-th range was the first to be refused, and the ones after it are as they were. */
  ghost predicate StoppedAt(now: seq<Range>, was: seq<Range>, len: nat, k: nat) {
    && 0 < k <= |was|
    && now == NormalAll(was, len)[..k] + was[k..]
    && !Acceptable(NormalAll(was, len)[..k], len) && Acceptable(NormalAll(was, len)[..k - 1], len)
  }

  /** Lines 4758-4811. The ranges are replaced by their positions one by one, up to the first refused one. */
  method RangeError(ranges: array<Range>, status: int, contentLength: nat, bodySize: nat) returns (error: bool)
    requires forall i | 0 <= i < ranges.Length :: IsPosition(ranges[i].0) && IsPosition(ranges[i].1)
    requires IsPosition(contentLength) && IsPosition(bodySize)
    modifies ranges
    ensures var len := if contentLength != 0 then contentLength else bodySize;
            if !Applies(old(ranges[..]), status) then !error && ranges[..] == old(ranges[..])
            else if ranges.Length > RANGE_MAX_COUNT then error && ranges[..] == old(ranges[..])
            else Checked(error, ranges[..], old(ranges[..]), len)
  {
    if ranges.Length == 0 || !(200 <= status < 300) {
      return false;
    }
    var len := if contentLength != 0 then contentLength else bodySize;
    if ranges.Length > RANGE_MAX_COUNT {
      return true;
    }
    error := CheckAll(ranges, len);
  }

  /** The outcome of the loop: no error exactly if all ranges are acceptable, and then they are replaced. */
  ghost predicate Checked(error: bool, now: seq<Range>, was: seq<Range>, len: nat) {
    && (error <==> !Acceptable(NormalAll(was, len), len))
    && (if error then exists k :: StoppedAt(now, was, len, k) else now == NormalAll(was, len))
  }

  /** The loop, lines 4774-4807. */
  method CheckAll(ranges: array<Range>, len: nat) returns (error: bool)
    modifies ranges
    ensures Checked(error, ranges[..], old(ranges[..]), len)
  {
    ghost var was, positions := ranges[..], NormalAll(ranges[..], len);
    var prevFirst, prevLast, overlaps := -1, -1, 0;
    var i := 0;
    while i < ranges.Length
      invariant i <= ranges.Length
      invariant forall k | 0 <= k < i :: ranges[k] == positions[k]
      invariant forall k | i <= k < ranges.Length :: ranges[k] == was[k]
      invariant Acceptable(positions[..i], len)
      invariant prevFirst == if i == 0 then -1 else positions[i - 1].0
      invariant prevLast == MaxLast(positions[..i]) && overlaps == Overlaps(positions[..i])
    {
      var refused;
      refused, prevFirst, prevLast, overlaps := CheckNext(ranges, i, len, prevFirst, prevLast, overlaps, positions);
      if refused {
        NotAcceptable(positions, i + 1, len);
        assert ranges[..] == positions[..i + 1] + was[i + 1..];
        assert StoppedAt(ranges[..], was, len, i + 1);
        return true;
      }
      i := i + 1;
    }
    assert positions[..i] == positions;
    assert ranges[..] == positions;
    return false;
  }

  lemma NotAcceptable(rs: seq<Range>, k: nat, len: nat)
    requires k <= |rs| && !Acceptable(rs[..k], len)
    ensures !Acceptable(rs, len)
  {
    if Acceptable(rs, len) {
      PrefixDecides(rs, k, len);
    }
  }

  /** The loop's body, lines 4774-4806. */
  method CheckNext(ranges: array<Range>, i: nat, len: nat, prevFirst: int, prevLast: int, overlaps: nat,
                   ghost positions: seq<Range>)
    returns (refused: bool, nextFirst: int, nextLast: int, nextOverlaps: nat)
    requires i < ranges.Length == |positions| && positions[i] == Normal(ranges[i], len)
    requires Acceptable(positions[..i], len)
    requires prevFirst == if i == 0 then -1 else positions[i - 1].0
    requires prevLast == MaxLast(positions[..i]) && overlaps == Overlaps(positions[..i])
    modifies ranges
    ensures forall k | 0 <= k < ranges.Length && k != i :: ranges[k] == old(ranges[k])
    ensures ranges[i] == positions[i]
    ensures refused <==> !Acceptable(positions[..i + 1], len)
    ensures !refused ==> nextFirst == positions[i].0
    ensures !refused ==> nextLast == MaxLast(positions[..i + 1]) && nextOverlaps == Overlaps(positions[..i + 1])
  {
    nextFirst, nextLast, nextOverlaps := prevFirst, prevLast, overlaps;
    assert positions[..i] + [positions[i]] == positions[..i + 1];
    AcceptableStep(positions[..i], positions[i], len);
    var (first, last) := ranges[i];
    if first == -1 && last == -1 {
      first, last := 0, len;
    }
    if first == -1 {
      first, last := len - last, len - 1;
    }
    if last == -1 {
      last := len - 1;
    }
    ranges[i] := (first, last);
    if !(0 <= first <= last <= len - 1) {
      refused := true;
      return;
    }
    if first <= prevFirst {
      refused := true;
      return;
    }
    if first <= prevLast {
      nextOverlaps := overlaps + 1;
      if nextOverlaps > 2 {
        refused := true;
        return;
      }
    }
    refused := false;
    nextFirst := if prevFirst < first then first else prevFirst;
    nextLast := if prevLast < last then last else prevLast;
  }

  // ----- what acceptance means

  /** Lines 4813-4821: the offset and the length of a range, under the assertions made there. */
  function OffsetAndLength(r: Range, len: nat): (int, int)
    requires r.0 != -1 && r.1 != -1 && 0 <= r.0 < len && r.0 <= r.1 && r.1 < len
  {
    (r.0, r.1 - r.0 + 1)
  }

  ghost function TotalLength(rs: seq<Range>, len: nat): int
    requires AllInside(rs, len)
  {
    if rs == [] then 0
    else
      assert Inside(rs[|rs| - 1], len);
      TotalLength(rs[..|rs| - 1], len) + OffsetAndLength(rs[|rs| - 1], len).1
  }

  /** An ascending list of ranges starts no earlier than it is long. */
  lemma {:induction false} FirstIsFar(rs: seq<Range>, len: nat, i: nat)
    requires Acceptable(rs, len) && i < |rs|
    ensures rs[i].0 >= i
  {
    if i > 0 {
      FirstIsFar(rs, len, i - 1);
    }
  }

  /** How much of a total the ranges seen so far can make up: each overlap adds less than the content. */
  function Bound(reach: int, overlaps: nat, len: nat): int {
    reach + 1 + (if overlaps == 0 then 0 else if overlaps == 1 then len - 1 else 2 * len - 3)
  }

  lemma OneMore(reach: int, overlaps: nat, r: Range, len: nat)
    requires Inside(r, len) && -1 <= reach < len && overlaps <= 2
    requires r.0 <= reach ==> r.0 > overlaps && overlaps < 2
    ensures var overlaps' := if r.0 <= reach then overlaps + 1 else overlaps;
            Bound(reach, overlaps, len) + r.1 - r.0 + 1
              <= Bound(if reach < r.1 then r.1 else reach, overlaps', len)
  {
  }

  ghost predicate Bounded(rs: seq<Range>, len: nat)
    requires Acceptable(rs, len)
  {
    && TotalLength(rs, len) <= Bound(MaxLast(rs), Overlaps(rs), len)
    && -1 <= MaxLast(rs) < len
    && (if rs == [] then Overlaps(rs) == 0 else Overlaps(rs) < |rs|)
  }

  lemma TotalStep(before: seq<Range>, r: Range, len: nat)
    requires Acceptable(before, len) && Bounded(before, len) && Acceptable(before + [r], len)
    ensures Bounded(before + [r], len)
  {
    var rs := before + [r];
    AcceptableStep(before, r, len);
    FirstIsFar(rs, len, |before|);
    assert rs[..|rs| - 1] == before && rs[|rs| - 1] == r;
    assert TotalLength(rs, len) == TotalLength(before, len) + r.1 - r.0 + 1;
    OneMore(MaxLast(before), Overlaps(before), r, len);
  }

  lemma {:induction false} TotalIsBounded(rs: seq<Range>, len: nat)
    requires Acceptable(rs, len)
    ensures Bounded(rs, len)
  {
    if rs != [] {
      PrefixDecides(rs, |rs| - 1, len);
      TotalIsBounded(rs[..|rs| - 1], len);
      assert rs[..|rs| - 1] + [rs[|rs| - 1]] == rs;
      TotalStep(rs[..|rs| - 1], rs[|rs| - 1], len);
    }
  }

  /**
   Accepted ranges lie inside the content, and together they are shorter than three times the content;
   a content of one byte is asked for once.
   */
  lemma AcceptedIsBounded(rs: seq<Range>, len: nat)
    requires Acceptable(rs, len) && rs != []
    ensures forall i | 0 <= i < |rs| ::
              var (offset, length) := OffsetAndLength(rs[i], len);
              0 <= offset && 0 < length && offset + length <= len
    ensures TotalLength(rs, len) <= if len == 1 then 1 else 3 * len - 3
  {
    assert Inside(rs[0], len);
    TotalIsBounded(rs, len);
    FirstIsFar(rs, len, |rs| - 1);
  }

  /** The bound is reached: three ranges to the end, each starting one later. */
  lemma BoundIsReached(len: nat)
    requires len >= 3
    ensures var rs := [(0, len - 1), (1, len - 1), (2, len - 1)];
            Acceptable(rs, len) && TotalLength(rs, len) == 3 * len - 3
  {
    var a: Range, b: Range, c: Range := (0, len - 1), (1, len - 1), (2, len - 1);
    var none: seq<Range> := [];
    assert [a, b, c][..2] == [a, b] && [a, b][..1] == [a] && [a][..0] == none;
    assert Overlaps([a]) == 0;
    assert Overlaps([a, b]) <= Overlaps([a]) + 1 && Overlaps([a, b, c]) <= Overlaps([a, b]) + 1;
    assert TotalLength([a], len) == TotalLength(none, len) + len;
    assert TotalLength([a, b], len) == TotalLength([a], len) + len - 1;
    assert TotalLength([a, b, c], len) == TotalLength([a, b], len) + len - 2;
  }

  // ----- against the standard

  /** What section 14.1.2 of RFC 9110 selects: positions past the end mean the end. */
  function Selected(r: Range, len: nat): Option<Range>
    requires IsPosition(r.0) && IsPosition(r.1) && r != (-1, -1)
  {
    var (first, last) := r;
    if first == -1 then if last == 0 || len == 0 then None else Some((if last < len then len - last else 0, len - 1))
    else if first >= len || (last != -1 && last < first) then None
    else Some((first, if last == -1 || last >= len then len - 1 else last))
  }

  /**
   A single range is accepted exactly if the standard selects something for it and it names nothing past
   the end; then the positions are those the standard selects.
   */
  lemma OneRange(r: Range, len: nat)
    requires IsPosition(r.0) && IsPosition(r.1) && r != (-1, -1)
    ensures Acceptable([Normal(r, len)], len) <==>
              Selected(r, len).Some? && (r.1 != -1 ==> if r.0 == -1 then r.1 <= len else r.1 < len)
    ensures Acceptable([Normal(r, len)], len) ==> Selected(r, len) == Some(Normal(r, len))
  {
    AloneIsInside(Normal(r, len), len);
  }

  lemma AloneIsInside(n: Range, len: nat)
    ensures Acceptable([n], len) <==> Inside(n, len)
  {
    var none: seq<Range> := [];
    assert Overlaps(none) == 0 && MaxLast(none) == -1;
    assert none + [n] == [n];
    AcceptableStep(none, n, len);
  }

  /** A range with both positions missing is never accepted. */
  lemma EmptyRangeIsRefused(rs: seq<Range>, len: nat, i: nat)
    requires i < |rs| && rs[i] == (-1, -1)
    ensures !Acceptable(NormalAll(rs, len), len)
  {
    assert !Inside(NormalAll(rs, len)[i], len);
  }
}
