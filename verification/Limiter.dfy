/**
 The rate limiter of src/alarmer.cpp: per message id it remembers when an alarm was last let through,
 and suppresses an alarm that comes before its own level's window has passed.
 */
module Limiter {
  import opened Basics

  datatype Level = Fatal | Error | Warn | Notice | Info | Debug

  /** A 64-bit key that does not depend on the level. */
  type MsgId = i: int | 0 <= i < 0x1_0000_0000_0000_0000

  datatype Message = Message(id: MsgId, level: Level, text: string)

  /** A message together with what the clock showed, in seconds, when it was checked. */
  datatype Reading = Reading(msg: Message, now: int)

  type Times = map<MsgId, int>

  function Window(level: Level): nat {
    match level
    case Fatal => 3
    case Error => 5
    case Warn => 10
    case Notice => 15
    case Info => 60
    case Debug => 120
  }

  predicate Passes(last: Times, r: Reading) {
    r.msg.id !in last || r.now - last[r.msg.id] >= Window(r.msg.level)
  }

  function Note(last: Times, r: Reading): Times {
    if Passes(last, r) then last[r.msg.id := r.now] else last
  }

  function NoteAll(last: Times, rs: seq<Reading>): Times
    decreases |rs|
  {
    if rs == [] then last else NoteAll(Note(last, rs[0]), rs[1..])
  }

  /** The readings the limiter lets through, starting from `last`. */
  function Admitted(last: Times, rs: seq<Reading>): seq<Reading>
    decreases |rs|
  {
    if rs == [] then []
    else (if Passes(last, rs[0]) then [rs[0]] else []) + Admitted(Note(last, rs[0]), rs[1..])
  }

  function Suppressed(last: Times, rs: seq<Reading>): seq<Reading>
    decreases |rs|
  {
    if rs == [] then []
    else (if Passes(last, rs[0]) then [] else [rs[0]]) + Suppressed(Note(last, rs[0]), rs[1..])
  }

  /** `m_table` and `m_limiter` of Alarmer, and its `check`. */
  class RateLimiter {
    var table: map<Level, int>
    var limiter: Times

    ghost predicate Valid()
      reads this
    {
      forall l: Level :: l in table && table[l] == Window(l)
    }

    constructor ()
      ensures Valid() && limiter == map[]
    {
      table := map[Fatal := 3, Error := 5, Warn := 10, Notice := 15, Info := 60, Debug := 120];
      limiter := map[];
      new;
      forall l: Level
        ensures l in table && table[l] == Window(l)
      {
        match l
        case Fatal => case Error => case Warn => case Notice => case Info => case Debug =>
      }
    }

    method Check(msg: Message, now: int) returns (ok: bool)
      requires Valid()
      modifies this`limiter
      ensures Valid()
      ensures ok == Passes(old(limiter), Reading(msg, now))
      ensures limiter == Note(old(limiter), Reading(msg, now))
    {
      var id := msg.id;
      if id !in limiter {
        limiter := limiter[id := now];
        return true;
      }
      var diff := now - limiter[id];
      if diff < table[msg.level] {
        return false;
      }
      limiter := limiter[id := now];
      return true;
    }
  }

  // ----- one id at a time

  function OnlyId(rs: seq<Reading>, id: MsgId): seq<Reading> {
    if rs == [] then []
    else (if rs[0].msg.id == id then [rs[0]] else []) + OnlyId(rs[1..], id)
  }

  ghost predicate AgreeOn(a: Times, b: Times, id: MsgId) {
    (id in a <==> id in b) && (id in a ==> a[id] == b[id])
  }

  lemma OnlyIdCons(r: Reading, rs: seq<Reading>, id: MsgId)
    ensures OnlyId([r] + rs, id) == (if r.msg.id == id then [r] else []) + OnlyId(rs, id)
  {
    assert ([r] + rs)[1..] == rs;
  }

  lemma AdmittedCons(last: Times, r: Reading, rs: seq<Reading>)
    ensures Admitted(last, [r] + rs) == (if Passes(last, r) then [r] else []) + Admitted(Note(last, r), rs)
  {
    assert ([r] + rs)[1..] == rs;
  }

  /** What is let through for one id depends on nothing but the readings with that id and the time
      remembered for it: other ids neither delay nor release it. */
  lemma {:induction false} IdsAreIndependent(a: Times, b: Times, rs: seq<Reading>, id: MsgId)
    requires AgreeOn(a, b, id)
    ensures OnlyId(Admitted(a, rs), id) == Admitted(b, OnlyId(rs, id))
    decreases |rs|
  {
    if rs != [] {
      var r := rs[0];
      assert Passes(a, r) ==> Admitted(a, rs) == [r] + Admitted(Note(a, r), rs[1..]);
      if r.msg.id == id {
        IdsAreIndependent(Note(a, r), Note(b, r), rs[1..], id);
        AdmittedCons(b, r, OnlyId(rs[1..], id));
      } else {
        IdsAreIndependent(Note(a, r), b, rs[1..], id);
      }
      var rest := Admitted(Note(a, r), rs[1..]);
      if Passes(a, r) {
        OnlyIdCons(r, rest, id);
      } else {
        assert Admitted(a, rs) == [] + rest == rest;
      }
      assert [] + OnlyId(rs[1..], id) == OnlyId(rs[1..], id);
    }
  }

  // ----- spacing, for any clock

  /** Every reading but the first comes at least its own level's window after the one before it. */
  ghost predicate Spaced(rs: seq<Reading>) {
    forall i | 0 < i < |rs| :: rs[i].now - rs[i - 1].now >= Window(rs[i].msg.level)
  }

  /** The first reading, if any, comes at least its window after the remembered time. */
  ghost predicate SpacedAfter(last: Times, rs: seq<Reading>) {
    && Spaced(rs)
    && (rs != [] ==> Passes(last, rs[0]))
  }

  ghost predicate AllId(rs: seq<Reading>, id: MsgId) {
    forall r | r in rs :: r.msg.id == id
  }

  lemma {:induction false} OnlyIdIsAllId(rs: seq<Reading>, id: MsgId)
    ensures AllId(OnlyId(rs, id), id)
  {
    if rs != [] {
      OnlyIdIsAllId(rs[1..], id);
    }
  }

  lemma {:induction false} AdmittedOfOneId(last: Times, rs: seq<Reading>, id: MsgId)
    requires AllId(rs, id)
    ensures SpacedAfter(last, Admitted(last, rs)) && AllId(Admitted(last, rs), id)
    decreases |rs|
  {
    if rs != [] {
      AdmittedOfOneId(Note(last, rs[0]), rs[1..], id);
      var rest := Admitted(Note(last, rs[0]), rs[1..]);
      if Passes(last, rs[0]) {
        assert rest != [] ==> rest[0] in rest;
      }
    }
  }

  /** Whatever the clock does, even if it runs backwards: successive readings let through for one id
      increase by at least the later message's window. */
  lemma AdmittedAreSpaced(rs: seq<Reading>, id: MsgId)
    ensures Spaced(OnlyId(Admitted(map[], rs), id))
  {
    IdsAreIndependent(map[], map[], rs, id);
    OnlyIdIsAllId(rs, id);
    AdmittedOfOneId(map[], OnlyId(rs, id), id);
  }

  function Within(rs: seq<Reading>, from: int, length: nat): seq<Reading> {
    if rs == [] then []
    else (if from <= rs[0].now <= from + length then [rs[0]] else []) + Within(rs[1..], from, length)
  }

  lemma {:induction false} SpacedGrows(rs: seq<Reading>, k: nat)
    requires Spaced(rs) && 0 < k < |rs|
    ensures rs[k].now >= rs[0].now + 3
  {
    if k > 1 {
      SpacedGrows(rs, k - 1);
    }
  }

  lemma {:induction false} WithinIsPart(rs: seq<Reading>, from: int, length: nat, r: Reading)
    requires r in Within(rs, from, length)
    ensures r in rs && from <= r.now <= from + length
  {
    if r != rs[0] || !(from <= rs[0].now <= from + length) {
      WithinIsPart(rs[1..], from, length, r);
    }
  }

  lemma {:induction false} WithinIsShort(rs: seq<Reading>, from: int, length: nat)
    requires Spaced(rs)
    ensures var w := Within(rs, from, length);
            w == [] || 3 * (|w| - 1) <= from + length - w[0].now
  {
    if rs != [] {
      WithinIsShort(rs[1..], from, length);
      var rest := Within(rs[1..], from, length);
      if rest != [] {
        WithinIsPart(rs[1..], from, length, rest[0]);
        var k :| 0 <= k < |rs[1..]| && rs[1..][k] == rest[0];
        SpacedGrows(rs, k + 1);
      }
    }
  }

  /** At most one alarm of an id per three seconds, plus one, whatever the levels and the clock: that
      many admitted readings lie in any interval of `length` seconds. */
  lemma AtMostOnePerWindow(rs: seq<Reading>, id: MsgId, from: int, length: nat)
    ensures |Within(OnlyId(Admitted(map[], rs), id), from, length)| <= length / 3 + 1
  {
    var admitted := OnlyId(Admitted(map[], rs), id);
    AdmittedAreSpaced(rs, id);
    WithinIsShort(admitted, from, length);
    var w := Within(admitted, from, length);
    if w != [] {
      WithinIsPart(admitted, from, length, w[0]);
    }
  }

  // ----- optimality

  ghost predicate NonDecreasing(rs: seq<Reading>) {
    forall i, j | 0 <= i < j < |rs| :: rs[i].now <= rs[j].now
  }

  ghost predicate IsSubsequence(sub: seq<Reading>, rs: seq<Reading>) {
    sub == []
    || (rs != [] && ((sub[0] == rs[0] && IsSubsequence(sub[1..], rs[1..])) || IsSubsequence(sub, rs[1..])))
  }

  /**
   A trap: the third reading is far enough from the second one but not from the first. Letting the first one
   through early then costs the third.
   */
  ghost predicate Trap(rs: seq<Reading>, i: nat, j: nat, k: nat) {
    && i < j < k < |rs|
    && rs[j].now + Window(rs[k].msg.level) <= rs[k].now
    && rs[i].now + Window(rs[k].msg.level) > rs[k].now
  }

  ghost predicate TrapFree(rs: seq<Reading>) {
    forall i: nat, j: nat, k: nat :: !Trap(rs, i, j, k)
  }

  /** Positions that are picked from a list of `n` readings. */
  ghost predicate Increasing(js: seq<nat>, n: nat) {
    && (forall k | 0 <= k < |js| :: js[k] < n)
    && (forall h, k | 0 <= h < k < |js| :: js[h] < js[k])
  }

  ghost predicate Apart(rs: seq<Reading>, js: seq<nat>)
    requires Increasing(js, |rs|)
  {
    forall k | 0 < k < |js| :: rs[js[k - 1]].now + Window(rs[js[k]].msg.level) <= rs[js[k]].now
  }

  /** Positions in a list that has one more reading in front. */
  function Shifted(js: seq<nat>): (r: seq<nat>)
    ensures |r| == |js| && forall k | 0 <= k < |js| :: r[k] == js[k] + 1
  {
    seq(|js|, k requires 0 <= k < |js| => js[k] + 1)
  }

  ghost predicate ArePositions(js: seq<nat>, sub: seq<Reading>, rs: seq<Reading>) {
    |js| == |sub| && Increasing(js, |rs|) && forall k | 0 <= k < |js| :: rs[js[k]] == sub[k]
  }

  lemma ShiftedPositions(js: seq<nat>, sub: seq<Reading>, rs: seq<Reading>)
    requires rs != [] && ArePositions(js, sub, rs[1..])
    ensures ArePositions(Shifted(js), sub, rs)
    ensures ArePositions([0] + Shifted(js), [rs[0]] + sub, rs)
  {
    assert forall k | 0 <= k < |js| :: rs[js[k] + 1] == rs[1..][js[k]];
  }

  /** The positions of a subsequence. */
  lemma {:induction false} PositionsOf(sub: seq<Reading>, rs: seq<Reading>) returns (js: seq<nat>)
    requires IsSubsequence(sub, rs)
    ensures ArePositions(js, sub, rs)
    decreases |rs|
  {
    js := [];
    if sub != [] {
      if sub[0] == rs[0] && IsSubsequence(sub[1..], rs[1..]) {
        js := PositionsOf(sub[1..], rs[1..]);
        ShiftedPositions(js, sub[1..], rs);
        assert sub == [rs[0]] + sub[1..];
        js := [0] + Shifted(js);
      } else {
        js := PositionsOf(sub, rs[1..]);
        ShiftedPositions(js, sub, rs);
        js := Shifted(js);
      }
    }
  }

  /**
   Without traps, letting through as early as possible keeps up: with the last pick of the limiter at position
   `i`, and the last pick of another choice no earlier, at `js[0]`, the limiter gets as many more from `p` on.
   */
  lemma {:induction false} GreedyKeepsUp(rs: seq<Reading>, id: MsgId, i: nat, p: nat, js: seq<nat>)
    requires AllId(rs, id) && TrapFree(rs) && i < p <= |rs|
    requires js != [] && Increasing(js, |rs|) && Apart(rs, js) && i <= js[0]
    requires |js| > 1 ==> js[1] >= p
    ensures |js| - 1 <= |Admitted(map[id := rs[i].now], rs[p..])|
    decreases |rs| - p
  {
    var last := map[id := rs[i].now];
    if |js| > 1 {
      var r := rs[p];
      assert r in rs && rs[p..][0] == r && rs[p..][1..] == rs[p + 1..];
      if Passes(last, r) {
        assert Note(last, r) == map[id := r.now];
        GreedyKeepsUp(rs, id, p, p + 1, js[1..]);
      } else {
        assert !Trap(rs, i, js[0], p);
        assert Note(last, r) == last;
        GreedyKeepsUp(rs, id, i, p + 1, js);
      }
    }
  }

  /** For readings of one id without traps, what is let through is a longest spaced choice. */
  lemma OneIdIsOptimal(rs: seq<Reading>, id: MsgId, sub: seq<Reading>)
    requires AllId(rs, id) && TrapFree(rs) && IsSubsequence(sub, rs) && Spaced(sub)
    ensures |sub| <= |Admitted(map[], rs)|
  {
    if sub != [] {
      var js := PositionsOf(sub, rs);
      forall k | 0 < k < |js|
        ensures rs[js[k - 1]].now + Window(rs[js[k]].msg.level) <= rs[js[k]].now
      {
        assert rs[js[k - 1]] == sub[k - 1] && rs[js[k]] == sub[k];
      }
      assert rs[0] in rs && Note(map[], rs[0]) == map[id := rs[0].now];
      GreedyKeepsUp(rs, id, 0, 1, js);
    }
  }

  lemma {:induction false} AdmittedIsSubsequence(last: Times, rs: seq<Reading>)
    ensures IsSubsequence(Admitted(last, rs), rs)
    decreases |rs|
  {
    if rs != [] {
      AdmittedIsSubsequence(Note(last, rs[0]), rs[1..]);
      assert [] + Admitted(Note(last, rs[0]), rs[1..]) == Admitted(Note(last, rs[0]), rs[1..]);
      assert Passes(last, rs[0]) ==> Admitted(last, rs)[1..] == Admitted(Note(last, rs[0]), rs[1..]);
    }
  }

  lemma {:induction false} OnlyIdIsSubsequence(rs: seq<Reading>, id: MsgId)
    ensures IsSubsequence(OnlyId(rs, id), rs)
  {
    if rs != [] {
      OnlyIdIsSubsequence(rs[1..], id);
      if rs[0].msg.id == id {
        assert OnlyId(rs, id)[1..] == OnlyId(rs[1..], id);
      } else {
        assert OnlyId(rs, id) == [] + OnlyId(rs[1..], id) == OnlyId(rs[1..], id);
      }
    }
  }

  /** Fewer readings have no more traps. */
  lemma SubsequenceIsTrapFree(sub: seq<Reading>, rs: seq<Reading>)
    requires IsSubsequence(sub, rs) && TrapFree(rs)
    ensures TrapFree(sub)
  {
    var js := PositionsOf(sub, rs);
    forall i: nat, j: nat, k: nat
      ensures !Trap(sub, i, j, k)
    {
      if i < j < k < |sub| {
        assert sub[i] == rs[js[i]] && sub[j] == rs[js[j]] && sub[k] == rs[js[k]];
        assert !Trap(rs, js[i], js[j], js[k]);
      }
    }
  }

  /** For any readings without traps, and any mix of ids and levels: what the limiter lets through for an
      id is a longest properly spaced subsequence of the alarms with that id. */
  lemma TrapFreeIsOptimal(rs: seq<Reading>, id: MsgId, sub: seq<Reading>)
    requires TrapFree(rs)
    requires IsSubsequence(sub, OnlyId(rs, id)) && Spaced(sub)
    ensures IsSubsequence(OnlyId(Admitted(map[], rs), id), OnlyId(rs, id))
    ensures Spaced(OnlyId(Admitted(map[], rs), id))
    ensures |sub| <= |OnlyId(Admitted(map[], rs), id)|
  {
    IdsAreIndependent(map[], map[], rs, id);
    OnlyIdIsAllId(rs, id);
    AdmittedIsSubsequence(map[], OnlyId(rs, id));
    AdmittedAreSpaced(rs, id);
    OnlyIdIsSubsequence(rs, id);
    SubsequenceIsTrapFree(OnlyId(rs, id), rs);
    OneIdIsOptimal(OnlyId(rs, id), id, sub);
  }

  /** A clock that does not run backwards sets no traps. */
  lemma LimiterIsOptimal(rs: seq<Reading>, id: MsgId, sub: seq<Reading>)
    requires NonDecreasing(rs)
    requires IsSubsequence(sub, OnlyId(rs, id)) && Spaced(sub)
    ensures IsSubsequence(OnlyId(Admitted(map[], rs), id), OnlyId(rs, id))
    ensures Spaced(OnlyId(Admitted(map[], rs), id))
    ensures |sub| <= |OnlyId(Admitted(map[], rs), id)|
  {
    TrapFreeIsOptimal(rs, id, sub);
  }

  // ----- exactly when the limiter is optimal

  /** No spaced choice of alarms with one id is longer than what the limiter lets through. */
  ghost predicate Optimal(rs: seq<Reading>) {
    forall id, sub | IsSubsequence(sub, OnlyId(rs, id)) && Spaced(sub) :: |sub| <= |OnlyId(Admitted(map[], rs), id)|
  }

  /** The same times and levels with other ids. */
  function WithIds(rs: seq<Reading>, ids: seq<MsgId>): (r: seq<Reading>)
    requires |ids| == |rs|
    ensures |r| == |rs|
    ensures forall i | 0 <= i < |rs| :: r[i] == rs[i].(msg := rs[i].msg.(id := ids[i]))
  {
    seq(|rs|, i requires 0 <= i < |rs| => rs[i].(msg := rs[i].msg.(id := ids[i])))
  }

  lemma {:induction false} OnlyIdConcat(a: seq<Reading>, b: seq<Reading>, id: MsgId)
    ensures OnlyId(a + b, id) == OnlyId(a, id) + OnlyId(b, id)
  {
    if a == [] {
      assert a + b == b;
    } else {
      assert (a + b)[1..] == a[1..] + b;
      OnlyIdConcat(a[1..], b, id);
      Associate(if a[0].msg.id == id then [a[0]] else [], OnlyId(a[1..], id), OnlyId(b, id));
    }
  }

  lemma {:induction false} NoneOfId(rs: seq<Reading>, id: MsgId)
    requires forall r | r in rs :: r.msg.id != id
    ensures OnlyId(rs, id) == []
  {
    if rs != [] {
      assert rs[0] in rs;
      NoneOfId(rs[1..], id);
    }
  }

  /** The first reading with an id, and those after it. */
  lemma FirstOfId(rs: seq<Reading>, id: MsgId, from: nat, i: nat)
    requires from <= i < |rs| && rs[i].msg.id == id
    requires forall k | from <= k < i :: rs[k].msg.id != id
    ensures OnlyId(rs[from..], id) == [rs[i]] + OnlyId(rs[i + 1..], id)
  {
    assert rs[from..] == rs[from..i] + rs[i..];
    OnlyIdConcat(rs[from..i], rs[i..], id);
    NoneOfId(rs[from..i], id);
    assert rs[i..][1..] == rs[i + 1..];
  }

  lemma ThreeOfId(rs: seq<Reading>, id: MsgId, i: nat, j: nat, k: nat)
    requires i < j < k < |rs|
    requires forall h | 0 <= h < |rs| :: rs[h].msg.id == id <==> h in {i, j, k}
    ensures OnlyId(rs, id) == [rs[i]] + ([rs[j]] + ([rs[k]] + []))
  {
    FirstOfId(rs, id, 0, i);
    assert rs[0..] == rs;
    FirstOfId(rs, id, i + 1, j);
    FirstOfId(rs, id, j + 1, k);
    NoneOfId(rs[k + 1..], id);
  }

  /** Of a trap's three readings the limiter lets one through, where the other two keep their distance. */
  lemma TrapIsNotOptimal(a: Reading, b: Reading, c: Reading, id: MsgId)
    requires a.msg.id == id && b.msg.id == id && c.msg.id == id
    requires b.now + Window(c.msg.level) <= c.now < a.now + Window(c.msg.level)
    ensures Admitted(map[], [a] + ([b] + ([c] + []))) == [a]
    ensures IsSubsequence([b, c], [a] + ([b] + ([c] + []))) && Spaced([b, c])
  {
    var last := map[id := a.now];
    AdmittedCons(map[], a, [b] + ([c] + []));
    assert Note(map[], a) == last;
    AdmittedCons(last, b, [c] + []);
    AdmittedCons(last, c, []);
    var rs := [a] + ([b] + ([c] + []));
    assert rs[1..] == [b, c] && rs == [a, b, c];
    SubsequenceOfItself([b, c]);
  }

  /** A trap is sprung when its readings have one id and the others have another. */
  lemma TrapCanBeSprung(rs: seq<Reading>, i: nat, j: nat, k: nat)
    requires Trap(rs, i, j, k)
    ensures exists ids: seq<MsgId> :: |ids| == |rs| && !Optimal(WithIds(rs, ids))
  {
    var ids: seq<MsgId> := seq(|rs|, h requires 0 <= h < |rs| => if h in {i, j, k} then 0 else 1);
    var with := WithIds(rs, ids);
    ThreeOfId(with, 0, i, j, k);
    TrapIsNotOptimal(with[i], with[j], with[k], 0);
    IdsAreIndependent(map[], map[], with, 0);
    assert |OnlyId(Admitted(map[], with), 0)| == 1 && |[with[j], with[k]]| == 2;
  }

  /**
   The exact condition: for given times and levels, the limiter is optimal however ids are assigned if and
   only if there is no trap.
   */
  lemma OptimalJustWhenTrapFree(rs: seq<Reading>)
    ensures (forall ids: seq<MsgId> | |ids| == |rs| :: Optimal(WithIds(rs, ids))) <==> TrapFree(rs)
  {
    if TrapFree(rs) {
      forall ids: seq<MsgId> | |ids| == |rs|
        ensures Optimal(WithIds(rs, ids))
      {
        AlwaysOptimal(rs, ids);
      }
    } else {
      var i: nat, j: nat, k: nat :| Trap(rs, i, j, k);
      TrapCanBeSprung(rs, i, j, k);
    }
  }

  lemma AlwaysOptimal(rs: seq<Reading>, ids: seq<MsgId>)
    requires TrapFree(rs) && |ids| == |rs|
    ensures Optimal(WithIds(rs, ids))
  {
    var with := WithIds(rs, ids);
    forall i: nat, j: nat, k: nat
      ensures !Trap(with, i, j, k)
    {
      assert !Trap(rs, i, j, k);
    }
    forall id, sub | IsSubsequence(sub, OnlyId(with, id)) && Spaced(sub)
      ensures |sub| <= |OnlyId(Admitted(map[], with), id)|
    {
      TrapFreeIsOptimal(with, id, sub);
    }
  }

  /** How far off it can be: with a clock that jumps back, the limiter lets one alarm through where
      three would have kept their distance. */
  lemma BackwardClockIsNotOptimal(m: Message)
    requires m.level == Fatal
    ensures var rs := [Reading(m, 10), Reading(m, 0), Reading(m, 3), Reading(m, 6)];
            && IsSubsequence(rs[1..], OnlyId(rs, m.id)) && Spaced(rs[1..])
            && |OnlyId(Admitted(map[], rs), m.id)| == 1
  {
    var a, b, c, d := Reading(m, 10), Reading(m, 0), Reading(m, 3), Reading(m, 6);
    var rs := [a, b, c, d];
    assert rs[1..] == [b, c, d] && rs[1..][1..] == [c, d] && rs[1..][1..][1..] == [d];
    IdsAreIndependent(map[], map[], rs, m.id);
    assert OnlyId([d], m.id) == [d];
    assert OnlyId([c, d], m.id) == [c, d];
    assert OnlyId([b, c, d], m.id) == [b, c, d];
    assert OnlyId(rs, m.id) == rs;
    var last := map[m.id := 10];
    assert [c] + [d] == [c, d] && [b] + [c, d] == [b, c, d] && [a] + [b, c, d] == rs;
    AdmittedCons(last, d, []);
    AdmittedCons(last, c, [d]);
    AdmittedCons(last, b, [c, d]);
    AdmittedCons(map[], a, [b, c, d]);
    assert Note(map[], a) == last;
    SubsequenceOfItself(rs[1..]);
  }

  lemma {:induction false} SubsequenceOfItself(rs: seq<Reading>)
    ensures IsSubsequence(rs, rs)
  {
    if rs != [] {
      SubsequenceOfItself(rs[1..]);
    }
  }
}
