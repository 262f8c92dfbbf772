/**
 Text helpers of src/httplib.h: trimming, splitting at a delimiter, and stripping quotes.
 Strings stand for byte strings: every `char` below 256 is one byte.
 */
module HttpText {
  import opened Basics

  const CRLF: string := "\r\n"

  predicate IsBlank(c: char) {
    c == ' ' || c == '\t'
  }

  predicate IsSpace(c: char) {
    c in {' ', '\t', '\n', '\r', '\U{000b}', '\U{000c}'}
  }

  function SkipSpace(s: string): string {
    if s != "" && IsSpace(s[0]) then SkipSpace(s[1..]) else s
  }

  function TrimLeft(s: string): (r: string)
    ensures r != "" ==> !IsBlank(r[0])
  {
    if s != "" && IsBlank(s[0]) then TrimLeft(s[1..]) else s
  }

  function TrimRight(s: string): (r: string)
    ensures r <= s
    ensures r != "" ==> !IsBlank(r[|r| - 1])
  {
    if s != "" && IsBlank(s[|s| - 1]) then TrimRight(s[..|s| - 1]) else s
  }

  function Trim(s: string): string {
    TrimRight(TrimLeft(s))
  }

  function TrimQuotes(s: string): string {
    if |s| >= 2 && s[0] == '"' && s[|s| - 1] == '"' then s[1..|s| - 1] else s
  }

  /** No blank at either end. */
  predicate NoOuterBlanks(s: string) {
    s != "" ==> !IsBlank(s[0]) && !IsBlank(s[|s| - 1])
  }

  predicate Free(s: string, c: char) {
    forall i | 0 <= i < |s| :: s[i] != c
  }

  function IndexOf(s: string, c: char): (i: nat)
    ensures i <= |s|
    ensures i < |s| ==> s[i] == c
    ensures forall j | 0 <= j < i :: s[j] != c
  {
    if s == "" || s[0] == c then 0 else 1 + IndexOf(s[1..], c)
  }

  lemma IndexIs(s: string, c: char, i: nat)
    requires i < |s| && s[i] == c && forall j | 0 <= j < i :: s[j] != c
    ensures IndexOf(s, c) == i
  {
  }

  lemma FreeConcat(a: string, b: string, c: char)
    requires Free(a, c) && Free(b, c)
    ensures Free(a + b, c)
  {
  }

  /** One blank in front changes nothing. */
  lemma TrimBlankInFront(s: string)
    requires s != "" && NoOuterBlanks(s)
    ensures TrimLeft(" " + s) == s && Trim(" " + s) == s
  {
    assert (" " + s)[1..] == s;
  }

  /** The stretches between delimiters, as they stand. */
  function Pieces(s: string, d: char): seq<string>
    decreases |s|
  {
    var i := IndexOf(s, d);
    if i == |s| then [s] else [s[..i]] + Pieces(s[i + 1..], d)
  }

  /** A stretch as one part, or no part if only blanks are in it. */
  function Part(s: string): seq<string> {
    if Trim(s) == "" then [] else [Trim(s)]
  }

  /** Trimmed, without the empty ones. */
  function Kept(pieces: seq<string>): seq<string> {
    if pieces == [] then []
    else Part(pieces[0]) + Kept(pieces[1..])
  }

  function Split(s: string, d: char): seq<string> {
    Kept(Pieces(s, d))
  }

  // ----- the loops

  /** The first loop, lines 2569-2571. */
  method TrimStart(s: string, left: nat, right: nat) returns (l: nat)
    requires left <= right <= |s|
    requires right < |s| ==> !IsBlank(s[right])
    ensures left <= l <= right && s[l..right] == TrimLeft(s[left..right])
  {
    l := left;
    while l < |s| && IsBlank(s[l])
      invariant left <= l <= right
      invariant TrimLeft(s[l..right]) == TrimLeft(s[left..right])
    {
      assert s[l..right][1..] == s[l + 1..right];
      l := l + 1;
    }
  }

  /** The second loop, lines 2572-2574, which may run past `l` when nothing is left. */
  method TrimEnd(s: string, left: nat, l: nat, right: nat) returns (r: nat)
    requires left <= l <= right <= |s|
    requires left > 0 ==> !IsBlank(s[left - 1])
    ensures left <= r <= right
    ensures if l < r then s[l..r] == TrimRight(s[l..right]) else TrimRight(s[l..right]) == ""
  {
    r := right;
    while r > 0 && IsBlank(s[r - 1])
      invariant left <= r <= right
      invariant l <= r ==> TrimRight(s[l..r]) == TrimRight(s[l..right])
      invariant l >= r ==> TrimRight(s[l..right]) == ""
    {
      if l < r {
        assert s[l..r][..r - l - 1] == s[l..r - 1];
      }
      r := r - 1;
    }
  }

  /** Lines 2567-2576: the bounds left after trimming s[left..right], for a stretch that ends at the
      end of the text or in front of a character that is no blank, and likewise begins. */
  method TrimBounds(s: string, left: nat, right: nat) returns (l: nat, r: nat)
    requires left <= right <= |s|
    requires right < |s| ==> !IsBlank(s[right])
    requires left > 0 ==> !IsBlank(s[left - 1])
    ensures if l < r then left <= l < r <= right && s[l..r] == Trim(s[left..right]) else Trim(s[left..right]) == ""
  {
    l := TrimStart(s, left, right);
    r := TrimEnd(s, left, l, right);
  }

  method TrimmedPart(s: string, beg: nat, i: nat) returns (part: seq<string>)
    requires beg <= i <= |s|
    requires i < |s| ==> !IsBlank(s[i])
    requires beg > 0 ==> !IsBlank(s[beg - 1])
    ensures part == Part(s[beg..i])
  {
    var l, r := TrimBounds(s, beg, i);
    part := if l < r then [s[l..r]] else [];
  }

  ghost predicate NoneIn(s: string, beg: nat, end: nat, d: char)
    requires end <= |s|
  {
    forall j | beg <= j < end :: s[j] != d
  }

  /** The part that ends at the delimiter in position `i`. */
  method NextPart(s: string, beg: nat, i: nat, d: char, ghost parts: seq<string>) returns (part: seq<string>)
    requires beg <= i < |s| && s[i] == d && !IsBlank(d) && (beg > 0 ==> s[beg - 1] == d)
    requires NoneIn(s, beg, i, d)
    ensures parts + Split(s[beg..], d) == (parts + part) + Split(s[i + 1..], d)
  {
    part := TrimmedPart(s, beg, i);
    SplitAt(s, beg, i, d);
    Associate(parts, part, Split(s[i + 1..], d));
  }

  method LastPart(s: string, beg: nat, d: char) returns (part: seq<string>)
    requires beg <= |s| && (beg > 0 ==> !IsBlank(s[beg - 1]))
    requires NoneIn(s, beg, |s|, d)
    ensures part == Split(s[beg..], d)
  {
    part := TrimmedPart(s, beg, |s|);
    assert s[beg..|s|] == s[beg..];
    LastPiece(s[beg..], d);
  }

  lemma NothingSplitYet(s: string, d: char)
    ensures [] + Split(s[0..], d) == Split(s, d)
  {
    assert s[0..] == s;
  }

  lemma SplitNothing(d: char)
    ensures Split("", d) == []
  {
    LastPiece("", d);
  }

  /** Lines 2595-2615 without a bound on the number of parts. */
  method SplitText(s: string, d: char) returns (parts: seq<string>)
    requires !IsBlank(d)
    ensures parts == Split(s, d)
  {
    ghost var all := Split(s, d);
    parts := [];
    var i, beg := 0, 0;
    NothingSplitYet(s, d);
    while i < |s|
      invariant beg <= i <= |s|
      invariant beg > 0 ==> s[beg - 1] == d
      invariant NoneIn(s, beg, i, d)
      invariant parts + Split(s[beg..], d) == all
    {
      if s[i] == d {
        var part := NextPart(s, beg, i, d, parts);
        parts, beg := parts + part, i + 1;
      }
      i := i + 1;
    }
    if i > 0 {
      var part := LastPart(s, beg, d);
      parts := parts + part;
    } else {
      SplitNothing(d);
      assert s == "";
    }
  }

  lemma SplitAt(s: string, beg: nat, i: nat, d: char)
    requires beg <= i < |s| && s[i] == d && forall j | beg <= j < i :: s[j] != d
    ensures Split(s[beg..], d) == Part(s[beg..i]) + Split(s[i + 1..], d)
  {
    FirstPiece(s[beg..], d, i - beg);
    assert s[beg..][..i - beg] == s[beg..i] && s[beg..][i - beg + 1..] == s[i + 1..];
  }

  lemma KeptCons(p: string, rest: seq<string>)
    ensures Kept([p] + rest) == Part(p) + Kept(rest)
  {
    assert ([p] + rest)[1..] == rest;
  }

  lemma FirstPiece(s: string, d: char, i: nat)
    requires i < |s| && s[i] == d && forall j | 0 <= j < i :: s[j] != d
    ensures Split(s, d) == Part(s[..i]) + Split(s[i + 1..], d)
  {
    assert IndexOf(s, d) == i;
    KeptCons(s[..i], Pieces(s[i + 1..], d));
  }

  lemma LastPiece(s: string, d: char)
    requires Free(s, d)
    ensures Split(s, d) == Part(s)
  {
    KeptCons(s, []);
    assert [s] + [] == [s];
  }

  // ----- texts made to be split

  function Join(pieces: seq<string>, d: char): string {
    if pieces == [] then ""
    else if |pieces| == 1 then pieces[0]
    else pieces[0] + [d] + Join(pieces[1..], d)
  }

  lemma TrimIsIdentity(s: string)
    requires NoOuterBlanks(s)
    ensures Trim(s) == s
  {
  }

  /** Splitting undoes joining for pieces that neither contain the delimiter nor need trimming. */
  lemma {:induction false} SplitJoin(pieces: seq<string>, d: char)
    requires forall p | p in pieces :: p != "" && Free(p, d) && NoOuterBlanks(p)
    ensures Split(Join(pieces, d), d) == pieces
  {
    if pieces == [] {
      LastPiece("", d);
    } else {
      var p := pieces[0];
      assert p in pieces;
      TrimIsIdentity(p);
      if |pieces| == 1 {
        LastPiece(p, d);
      } else {
        var s := Join(pieces, d);
        assert s[..|p|] == p && s[|p| + 1..] == Join(pieces[1..], d);
        FirstPiece(s, d, |p|);
        SplitJoin(pieces[1..], d);
      }
    }
  }
}
