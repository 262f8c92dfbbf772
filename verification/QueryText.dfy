/**
 Query strings of src/httplib.h: percent encoding, its decoder, and the printer and parser of
 parameter lists.
 */
module QueryText {
  import opened Basics
  import opened HttpText

  ghost predicate IsByteString(s: string) {
    forall i | 0 <= i < |s| :: s[i] as int < 256
  }

  predicate Unreserved(c: char) {
    || 'a' <= c <= 'z' || 'A' <= c <= 'Z' || '0' <= c <= '9'
    || c in {'-', '_', '.', '!', '~', '*', '\'', '(', ')'}
  }

  const HEX: string := "0123456789ABCDEF"

  function EncodeByte(c: char): string {
    if Unreserved(c) then [c] else ['%', HEX[c as int / 16 % 16], HEX[c as int % 16]]
  }

  function Encode(s: string): string {
    if s == "" then "" else EncodeByte(s[0]) + Encode(s[1..])
  }

  /** Lines 2459-2478. */
  method EncodeQueryParam(value: string) returns (escaped: string)
    ensures escaped == Encode(value)
  {
    escaped := "";
    var i := 0;
    while i < |value|
      invariant i <= |value|
      invariant escaped + Encode(value[i..]) == Encode(value)
    {
      var c := value[i];
      assert value[i..][1..] == value[i + 1..];
      Associate(escaped, EncodeByte(c), Encode(value[i + 1..]));
      if Unreserved(c) {
        escaped := escaped + [c];
      } else {
        var hex := [HEX[c as int / 16 % 16], HEX[c as int % 16]];
        Associate(escaped, ['%'], hex);
        assert EncodeByte(c) == ['%'] + hex;
        escaped := escaped + ['%'] + hex;
      }
      i := i + 1;
    }
  }

  function HexDigit(c: char): Option<nat> {
    if '0' <= c <= '9' then Some(c as int - '0' as int)
    else if 'A' <= c <= 'F' then Some(c as int - 'A' as int + 10)
    else if 'a' <= c <= 'f' then Some(c as int - 'a' as int + 10)
    else None
  }

  /** The value of exactly `count` hexadecimal digits at the start of `s`, on top of `acc`. */
  function FromHex(s: string, count: nat, acc: nat): Option<nat> {
    if count == 0 then Some(acc)
    else if s == "" || HexDigit(s[0]).None? then None
    else FromHex(s[1..], count - 1, acc * 16 + HexDigit(s[0]).value)
  }

  lemma {:induction false} FromHexBound(s: string, count: nat, acc: nat, bound: nat)
    requires acc < bound && FromHex(s, count, acc).Some?
    ensures count <= |s|
    ensures count == 2 ==> FromHex(s, count, acc).value < bound * 256
    decreases count
  {
    if count > 0 {
      FromHexBound(s[1..], count - 1, acc * 16 + HexDigit(s[0]).value, bound * 16);
      if count == 2 {
        assert FromHex(s[1..], 1, acc * 16 + HexDigit(s[0]).value).value
            == (acc * 16 + HexDigit(s[0]).value) * 16 + HexDigit(s[1]).value;
      }
    }
  }

  function Byte(v: nat): char {
    (v % 256) as char
  }

  /** Lines 2341-2371, for the values four hexadecimal digits can have. */
  function Utf8(code: nat): string {
    if code < 0x80 then [Byte(code)]
    else if code < 0x800 then [Byte(0xC0 + code / 64 % 32), Byte(0x80 + code % 64)]
    else if 0xD800 <= code < 0xE000 then ""
    else [Byte(0xE0 + code / 4096 % 16), Byte(0x80 + code / 64 % 64), Byte(0x80 + code % 64)]
  }

  /** What one position of the text decodes to, and how many characters it takes. */
  function DecodeOne(s: string, plus: bool): (r: (string, nat))
    requires s != ""
    ensures 1 <= r.1 <= |s|
  {
    if s[0] == '%' && |s| > 1 then
      if s[1] == 'u' then
        match FromHex(s[2..], 4, 0)
        case Some(v) => FromHexBound(s[2..], 4, 0, 1); (Utf8(v), 6)
        case None => ([s[0]], 1)
      else
        match FromHex(s[1..], 2, 0)
        case Some(v) => FromHexBound(s[1..], 2, 0, 1); ([Byte(v)], 3)
        case None => ([s[0]], 1)
    else if plus && s[0] == '+' then (" ", 1)
    else ([s[0]], 1)
  }

  function Decode(s: string, plus: bool): string
    decreases |s|
  {
    if s == "" then ""
    else
      var (text, used) := DecodeOne(s, plus);
      text + Decode(s[used..], plus)
  }

  /** Lines 2517-2543 for the position `i`: the text appended, and how far the position moves. */
  method DecodePosition(s: string, i: nat, convertPlusToSpace: bool) returns (text: string, used: nat)
    requires i < |s|
    ensures (text, used) == DecodeOne(s[i..], convertPlusToSpace)
  {
    text, used := [s[i]], 1;
    if s[i] == '%' && i + 1 < |s| {
      assert s[i..][2..] == s[i..][1..][1..];
      if s[i + 1] == 'u' {
        var hex := FromHex(s[i..][2..], 4, 0);
        if hex.Some? {
          text, used := Utf8(hex.value), 6;
        }
      } else {
        var hex := FromHex(s[i..][1..], 2, 0);
        if hex.Some? {
          text, used := [Byte(hex.value)], 3;
        }
      }
    } else if convertPlusToSpace && s[i] == '+' {
      text := " ";
    }
  }

  /** Lines 2512-2547. */
  method DecodeUrl(s: string, convertPlusToSpace: bool) returns (result: string)
    ensures result == Decode(s, convertPlusToSpace)
  {
    result := "";
    var i := 0;
    assert s[0..] == s;
    while i < |s|
      invariant i <= |s|
      invariant result + Decode(s[i..], convertPlusToSpace) == Decode(s, convertPlusToSpace)
    {
      var text, used := DecodePosition(s, i, convertPlusToSpace);
      DecodeStep(s, i, convertPlusToSpace);
      Associate(result, text, Decode(s[i + used..], convertPlusToSpace));
      result := result + text;
      i := i + used;
    }
  }

  lemma DecodeStep(s: string, i: nat, plus: bool)
    requires i < |s|
    ensures var (text, used) := DecodeOne(s[i..], plus);
            i + used <= |s| && Decode(s[i..], plus) == text + Decode(s[i + used..], plus)
  {
    var (text, used) := DecodeOne(s[i..], plus);
    assert s[i..][used..] == s[i + used..];
  }

  // ----- decoding undoes encoding

  lemma HexRoundTrip(c: char)
    requires c as int < 256
    ensures HexDigit(HEX[c as int / 16 % 16]) == Some(c as int / 16)
    ensures HexDigit(HEX[c as int % 16]) == Some(c as int % 16)
  {
    HexOf(c as int / 16);
    HexOf(c as int % 16);
  }

  lemma HexOf(v: nat)
    requires v < 16
    ensures HexDigit(HEX[v]) == Some(v)
  {
    assert v < 10 ==> HEX[v] as int == '0' as int + v;
    assert v >= 10 ==> HEX[v] as int == 'A' as int + v - 10;
  }

  lemma DecodeEncodedByte(c: char, rest: string, plus: bool)
    requires c as int < 256
    ensures DecodeOne(EncodeByte(c) + rest, plus) == ([c], |EncodeByte(c)|)
  {
    var s := EncodeByte(c) + rest;
    if !Unreserved(c) {
      HexRoundTrip(c);
      var t := s[1..];
      assert t[0] == HEX[c as int / 16 % 16] && t[1..][0] == HEX[c as int % 16];
      assert HexDigit('u').None?;
      var h := c as int / 16;
      assert FromHex(t, 2, 0) == FromHex(t[1..], 1, h);
      assert FromHex(t[1..], 1, h) == Some(h * 16 + c as int % 16);
      assert (c as int) as char == c;
    }
  }

  lemma DecodeFirst(first: string, rest: string, text: string, plus: bool)
    requires first != "" && DecodeOne(first + rest, plus) == (text, |first|)
    ensures Decode(first + rest, plus) == text + Decode(rest, plus)
  {
    assert (first + rest)[|first|..] == rest;
  }

  /** Percent decoding undoes percent encoding for every byte string, in both modes. */
  lemma {:induction false} DecodeEncode(v: string, plus: bool)
    requires IsByteString(v)
    ensures Decode(Encode(v), plus) == v
  {
    if v != "" {
      DecodeEncodedByte(v[0], Encode(v[1..]), plus);
      DecodeEncode(v[1..], plus);
      DecodeFirst(EncodeByte(v[0]), Encode(v[1..]), [v[0]], plus);
      assert [v[0]] + v[1..] == v;
    }
  }

  /** A text without '%' and '+' decodes to itself. */
  lemma {:induction false} DecodePlain(s: string, plus: bool)
    requires Free(s, '%') && Free(s, '+')
    ensures Decode(s, plus) == s
  {
    if s != "" {
      DecodePlain(s[1..], plus);
    }
  }

  lemma {:induction false} EncodedIsFree(v: string, c: char)
    requires !Unreserved(c) && c != '%'
    ensures Free(Encode(v), c)
  {
    if v != "" {
      EncodedIsFree(v[1..], c);
      HexIsPlain(v[0] as int / 16 % 16);
      HexIsPlain(v[0] as int % 16);
      assert Free(EncodeByte(v[0]), c);
    }
  }

  /** Encoded text holds nothing a query string gives a meaning to, and no blanks. */
  lemma EncodedIsPlain(v: string)
    ensures Free(Encode(v), '&') && Free(Encode(v), '=') && Free(Encode(v), ' ') && Free(Encode(v), '\t')
    ensures v == "" <==> Encode(v) == ""
  {
    EncodedIsFree(v, '&');
    EncodedIsFree(v, '=');
    EncodedIsFree(v, ' ');
    EncodedIsFree(v, '\t');
  }

  lemma HexIsPlain(i: nat)
    requires i < 16
    ensures Unreserved(HEX[i])
  {
  }

  // ----- parameter lists

  /** A parameter as emplaced: name and value. */
  datatype Param = Param(key: string, value: string)

  function PrintParam(p: Param): string {
    p.key + "=" + Encode(p.value)
  }

  function PrintAll(ps: seq<Param>): seq<string> {
    if ps == [] then [] else [PrintParam(ps[0])] + PrintAll(ps[1..])
  }

  function QueryString(ps: seq<Param>): string {
    Join(PrintAll(ps), '&')
  }

  /** What is still to be printed from parameter `i` on. */
  function RestOfQuery(ps: seq<Param>, i: nat): string
    requires i <= |ps|
  {
    if i == |ps| then "" else (if i == 0 then "" else "&") + QueryString(ps[i..])
  }

  lemma NextParam(ps: seq<Param>, i: nat)
    requires i < |ps|
    ensures RestOfQuery(ps, i) == (if i == 0 then "" else "&") + (PrintParam(ps[i]) + RestOfQuery(ps, i + 1))
  {
    assert ps[i..][0] == ps[i] && ps[i..][1..] == ps[i + 1..];
    var first := PrintParam(ps[i]);
    if i + 1 == |ps| {
      assert PrintAll(ps[i + 1..]) == [] && PrintAll(ps[i..]) == [first];
      assert first + "" == first;
    } else {
      Associate(first, "&", QueryString(ps[i + 1..]));
    }
  }

  /** Lines 4301-4311, over the multimap's entries in iteration order. */
  method ParamsToQueryStr(ps: seq<Param>) returns (query: string)
    ensures query == QueryString(ps)
  {
    query := "";
    var i := 0;
    assert ps[0..] == ps && "" + ("" + QueryString(ps)) == QueryString(ps);
    while i < |ps|
      invariant i <= |ps|
      invariant query + RestOfQuery(ps, i) == QueryString(ps)
    {
      ghost var before, rest := query, RestOfQuery(ps, i + 1);
      ghost var amp := if i == 0 then "" else "&";
      NextParam(ps, i);
      Associate(before, amp, PrintParam(ps[i]) + rest);
      Associate(before + amp, PrintParam(ps[i]), rest);
      if i != 0 {
        query := query + "&";
      }
      assert query == before + amp;
      query := query + ps[i].key;
      query := query + "=";
      var escaped := EncodeQueryParam(ps[i].value);
      Associate(before + amp, ps[i].key, "=");
      Associate(before + amp, ps[i].key + "=", escaped);
      query := query + escaped;
      i := i + 1;
    }
  }

  /** The name is the first part, the value the last of the others. */
  function KeyValue(kv: string): (string, string) {
    var parts := Split(kv, '=');
    (if parts == [] then "" else parts[0], if |parts| < 2 then "" else parts[|parts| - 1])
  }

  /** The texts that did not occur before. */
  function Distinct(texts: seq<string>, cache: set<string>): seq<string> {
    if texts == [] then []
    else if texts[0] in cache then Distinct(texts[1..], cache)
    else [texts[0]] + Distinct(texts[1..], cache + {texts[0]})
  }

  function ParamsOf(kvs: seq<string>): seq<Param> {
    if kvs == [] then []
    else
      var (key, val) := KeyValue(kvs[0]);
      (if key == "" then [] else [Param(Decode(key, true), Decode(val, true))]) + ParamsOf(kvs[1..])
  }

  /** The parameters in the order they are emplaced. */
  function ParsedQuery(s: string): seq<Param> {
    ParamsOf(Distinct(Split(s, '&'), {}))
  }

  /** Lines 4322-4328. */
  method ParseKeyValue(kv: string) returns (key: string, val: string)
    ensures (key, val) == KeyValue(kv)
  {
    key, val := "", "";
    var parts := SplitText(kv, '=');
    PartsAreNonEmpty(Pieces(kv, '='));
    var i := 0;
    while i < |parts|
      invariant i <= |parts|
      invariant key == if i == 0 then "" else parts[0]
      invariant val == if i < 2 then "" else parts[i - 1]
    {
      if key == "" {
        key := parts[i];
      } else {
        val := parts[i];
      }
      i := i + 1;
    }
  }

  lemma {:induction false} PartsAreNonEmpty(pieces: seq<string>)
    ensures forall i | 0 <= i < |Kept(pieces)| :: Kept(pieces)[i] != ""
  {
    if pieces != [] {
      PartsAreNonEmpty(pieces[1..]);
    }
  }

  /** Lines 4313-4334. */
  method ParseQueryText(s: string) returns (params: seq<Param>)
    ensures params == ParsedQuery(s)
  {
    params := [];
    var cache: set<string> := {};
    var parts := SplitText(s, '&');
    var i := 0;
    while i < |parts|
      invariant i <= |parts|
      invariant params + ParamsOf(Distinct(parts[i..], cache)) == ParsedQuery(s)
    {
      var kv := parts[i];
      var rest := parts[i..];
      assert rest[1..] == parts[i + 1..];
      if kv !in cache {
        var key, val := ParseKeyValue(kv);
        var found := if key == "" then [] else [Param(Decode(key, true), Decode(val, true))];
        DistinctStep(kv, rest[1..], cache);
        Associate(params, found, ParamsOf(Distinct(rest[1..], cache + {kv})));
        cache := cache + {kv};
        params := params + found;
      }
      i := i + 1;
    }
    assert parts[i..] == [];
  }

  lemma DistinctStep(kv: string, rest: seq<string>, cache: set<string>)
    requires kv !in cache
    ensures ParamsOf(Distinct([kv] + rest, cache)) ==
            (var (key, val) := KeyValue(kv);
             if key == "" then [] else [Param(Decode(key, true), Decode(val, true))])
            + ParamsOf(Distinct(rest, cache + {kv}))
  {
    assert ([kv] + rest)[1..] == rest;
    assert ([kv] + Distinct(rest, cache + {kv}))[1..] == Distinct(rest, cache + {kv});
  }

  // ----- parsing undoes printing

  /** Keys are printed as they are, so they must not hold what the parser gives a meaning to. */
  ghost predicate Printable(p: Param) {
    && p.key != "" && Free(p.key, '&') && Free(p.key, '=') && Free(p.key, '%') && Free(p.key, '+')
    && NoOuterBlanks(p.key)
    && IsByteString(p.value)
  }

  lemma PrintedShape(p: Param)
    requires Printable(p)
    ensures PrintParam(p) != "" && Free(PrintParam(p), '&') && NoOuterBlanks(PrintParam(p))
  {
    EncodedIsPlain(p.value);
    var e := Encode(p.value);
    FreeConcat(p.key, "=", '&');
    FreeConcat(p.key + "=", e, '&');
    assert PrintParam(p)[0] == p.key[0];
    assert PrintParam(p)[|PrintParam(p)| - 1] == if e == "" then '=' else e[|e| - 1];
  }

  lemma PrintedWithoutValue(key: string)
    requires key != "" && Free(key, '=') && NoOuterBlanks(key)
    ensures KeyValue(key + "=" + "") == (key, "")
  {
    var kv := key + "=" + "";
    FirstPiece(kv, '=', |key|);
    assert kv[..|key|] == key && kv[|key| + 1..] == "";
    LastPiece("", '=');
    TrimIsIdentity(key);
  }

  lemma PrintedWithValue(key: string, e: string)
    requires key != "" && Free(key, '=') && NoOuterBlanks(key)
    requires e != "" && Free(e, '=') && NoOuterBlanks(e)
    ensures KeyValue(key + "=" + e) == (key, e)
  {
    SplitJoin([key, e], '=');
    assert [key, e][1..] == [e];
    assert Join([key, e], '=') == key + "=" + e;
  }

  lemma PrintedParam(p: Param)
    requires Printable(p)
    ensures PrintParam(p) != "" && Free(PrintParam(p), '&') && NoOuterBlanks(PrintParam(p))
    ensures KeyValue(PrintParam(p)) == (p.key, Encode(p.value))
  {
    PrintedShape(p);
    EncodedIsPlain(p.value);
    if p.value == "" {
      PrintedWithoutValue(p.key);
    } else {
      PrintedWithValue(p.key, Encode(p.value));
    }
  }

  function Dedup(ps: seq<Param>, seen: set<Param>): seq<Param> {
    if ps == [] then []
    else if ps[0] in seen then Dedup(ps[1..], seen)
    else [ps[0]] + Dedup(ps[1..], seen + {ps[0]})
  }

  /** Different parameters print differently. */
  lemma PrintIsInjective(p: Param, q: Param)
    requires Printable(p) && Printable(q) && PrintParam(p) == PrintParam(q)
    ensures p == q
  {
    PrintedParam(p);
    PrintedParam(q);
    DecodeEncode(p.value, true);
    DecodeEncode(q.value, true);
  }

  ghost predicate AllPrintable(ps: seq<Param>) {
    forall i | 0 <= i < |ps| :: Printable(ps[i])
  }

  lemma {:induction false} ParsePrinted(ps: seq<Param>, seen: set<Param>, cache: set<string>)
    requires AllPrintable(ps)
    requires forall p | Printable(p) :: p in seen <==> PrintParam(p) in cache
    ensures ParamsOf(Distinct(PrintAll(ps), cache)) == Dedup(ps, seen)
    decreases |ps|
  {
    if ps != [] {
      var p, rest := ps[0], ps[1..];
      var kv := PrintParam(p);
      assert PrintAll(ps) == [kv] + PrintAll(rest);
      assert PrintAll(ps)[1..] == PrintAll(rest);
      assert Printable(p) && AllPrintable(rest);
      if p in seen {
        ParsePrinted(rest, seen, cache);
      } else {
        PrintedParam(p);
        DecodePlain(p.key, true);
        DecodeEncode(p.value, true);
        DistinctStep(kv, PrintAll(rest), cache);
        forall q | Printable(q)
          ensures q in seen + {p} <==> PrintParam(q) in cache + {kv}
        {
          if PrintParam(q) == kv {
            PrintIsInjective(p, q);
          }
        }
        ParsePrinted(rest, seen + {p}, cache + {kv});
      }
    }
  }

  lemma {:induction false} PrintedParts(ps: seq<Param>)
    requires AllPrintable(ps)
    ensures forall kv | kv in PrintAll(ps) :: kv != "" && Free(kv, '&') && NoOuterBlanks(kv)
  {
    if ps != [] {
      PrintedParam(ps[0]);
      PrintedParts(ps[1..]);
    }
  }

  /** Parsing a printed parameter list gives back its parameters, each distinct pair once, in order. */
  lemma ParseQueryOfPrint(ps: seq<Param>)
    requires AllPrintable(ps)
    ensures ParsedQuery(QueryString(ps)) == Dedup(ps, {})
  {
    PrintedParts(ps);
    SplitJoin(PrintAll(ps), '&');
    ParsePrinted(ps, {}, {});
  }

  ghost predicate NoRepeats(ps: seq<Param>) {
    forall i, j | 0 <= i < j < |ps| :: ps[i] != ps[j]
  }

  lemma {:induction false} DedupKeepsAll(ps: seq<Param>, seen: set<Param>)
    ensures |Dedup(ps, seen)| <= |ps|
    ensures Dedup(ps, seen) == ps <==> NoRepeats(ps) && forall p | p in ps :: p !in seen
    decreases |ps|
  {
    if ps != [] {
      var p, rest := ps[0], ps[1..];
      assert ps == [p] + rest;
      if p in seen {
        DedupKeepsAll(rest, seen);
        assert p in ps;
      } else {
        DedupKeepsAll(rest, seen + {p});
        assert Dedup(ps, seen) == ps <==> Dedup(rest, seen + {p}) == rest;
        assert NoRepeats(ps) <==> NoRepeats(rest) && p !in rest;
      }
    }
  }

  /** The round trip is exact just when no pair is repeated. */
  lemma QueryRoundTrip(ps: seq<Param>)
    requires AllPrintable(ps)
    ensures ParsedQuery(QueryString(ps)) == ps <==> NoRepeats(ps)
  {
    ParseQueryOfPrint(ps);
    DedupKeepsAll(ps, {});
  }
}
