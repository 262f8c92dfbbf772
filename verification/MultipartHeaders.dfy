/** The header lines the serializer writes for an entry are read back as that entry's description. */
module MultipartHeaders {
  import opened Basics
  import opened HttpText
  import QueryText
  import opened MultipartForm

  /** What a name or file name must be free of to survive the quoting, which escapes nothing. */
  predicate PlainName(s: string) {
    Free(s, '"') && Free(s, ';') && Free(s, '=') && Free(s, '\r') && Free(s, '\n')
  }

  predicate PlainType(s: string) {
    Free(s, '\r') && Free(s, '\n') && NoOuterBlanks(s)
  }

  function InfoOf(item: Item): FileInfo {
    FileInfo(item.name, item.filename, item.contentType)
  }

  function ApplyLines(file: FileInfo, lines: seq<string>): Option<FileInfo>
    decreases |lines|
  {
    if lines == [] then Some(file)
    else
      match ApplyLine(file, lines[0])
      case None => None
      case Some(f) => ApplyLines(f, lines[1..])
  }

  function Quoted(s: string): string {
    "\"" + s + "\""
  }

  lemma QuotedIsUnquoted(s: string)
    ensures TrimQuotes(Quoted(s)) == s
    ensures NoOuterBlanks(Quoted(s)) && Quoted(s) != ""
    ensures forall c | c != '"' && Free(s, c) :: Free(Quoted(s), c)
  {
    var q := Quoted(s);
    assert q[0] == '"' && q[|q| - 1] == '"' && q[1..|q| - 1] == s;
    forall c | c != '"' && Free(s, c)
      ensures Free(q, c)
    {
      forall i | 0 <= i < |q|
        ensures q[i] != c
      {
        if 0 < i < |q| - 1 {
          assert q[i] == s[i - 1];
        }
      }
    }
  }

  function PairText(key: string, s: string): string {
    key + "=" + Quoted(s)
  }

  predicate PlainKey(key: string) {
    && key != "" && NoOuterBlanks(key) && TrimQuotes(key) == key
    && Free(key, ';') && Free(key, '=') && Free(key, '\r') && Free(key, '\n')
  }

  /** One name-value pair of the disposition, alone. */
  lemma OnePair(key: string, s: string)
    requires PlainKey(key) && PlainName(s)
    ensures QueryText.KeyValue(PairText(key, s)) == (key, Quoted(s))
    ensures PairText(key, s) != "" && NoOuterBlanks(PairText(key, s)) && PairText(key, s)[0] == key[0]
    ensures Free(PairText(key, s), ';') && Free(PairText(key, s), '\r') && Free(PairText(key, s), '\n')
  {
    QuotedIsUnquoted(s);
    var parts := [key, Quoted(s)];
    assert parts[1..] == [Quoted(s)];
    assert Join(parts, '=') == PairText(key, s);
    SplitJoin(parts, '=');
    PairIsFree(key, s, ';');
    PairIsFree(key, s, '\r');
    PairIsFree(key, s, '\n');
  }

  lemma PairIsFree(key: string, s: string, c: char)
    requires Free(key, c) && Free(s, c) && c != '"' && c != '='
    ensures Free(PairText(key, s), c)
  {
    QuotedIsUnquoted(s);
    assert Free(Quoted(s), c);
  }

  lemma OnePairParsed(key: string, s: string)
    requires PlainKey(key) && PlainName(s)
    ensures DispositionParams(PairText(key, s)) == [(key, s)]
  {
    var a := PairText(key, s);
    OnePair(key, s);
    TrimIsIdentity(a);
    LastPiece(a, ';');
    assert [a][1..] == [];
    assert QueryText.Distinct([a], {}) == [a];
    PairHead(key, s, []);
    assert [a] + [] == [a];
  }

  lemma PairHead(key: string, s: string, rest: seq<string>)
    requires PlainKey(key) && PlainName(s)
    ensures DispositionPairs([PairText(key, s)] + rest) == [(key, s)] + DispositionPairs(rest)
  {
    OnePair(key, s);
    QuotedIsUnquoted(s);
    assert ([PairText(key, s)] + rest)[1..] == rest;
  }

  lemma TwoPairsParsed(k1: string, s1: string, k2: string, s2: string)
    requires PlainKey(k1) && PlainName(s1) && PlainKey(k2) && PlainName(s2) && k1[0] != k2[0]
    ensures DispositionParams(PairText(k1, s1) + "; " + PairText(k2, s2)) == [(k1, s1), (k2, s2)]
  {
    var a, b := PairText(k1, s1), PairText(k2, s2);
    OnePair(k1, s1);
    OnePair(k2, s2);
    TwoParts(a, b);
    DistinctParts(a, b);
    PairsOfTwo(k1, s1, k2, s2);
  }

  lemma TwoParts(a: string, b: string)
    requires a != "" && NoOuterBlanks(a) && Free(a, ';')
    requires b != "" && NoOuterBlanks(b) && Free(b, ';')
    ensures Split(a + "; " + b, ';') == [a, b]
  {
    var text, c := a + "; " + b, " " + b;
    assert Split(text, ';') == Part(a) + Split(c, ';') by {
      assert text[..|a|] == a && text[|a|] == ';';
      assert text[|a| + 1..] == c;
      FirstPiece(text, ';', |a|);
    }
    assert Split(c, ';') == [b] by {
      FreeConcat(" ", b, ';');
      LastPiece(c, ';');
      TrimBlankInFront(b);
    }
    TrimIsIdentity(a);
  }

  lemma DistinctParts(a: string, b: string)
    requires a != b
    ensures QueryText.Distinct([a, b], {}) == [a, b]
  {
    assert [a, b][1..] == [b] && [b][1..] == [];
    assert QueryText.Distinct([b], {a}) == [b] + QueryText.Distinct([], {a} + {b});
    assert {} + {a} == {a};
  }

  lemma PairsOfTwo(k1: string, s1: string, k2: string, s2: string)
    requires PlainKey(k1) && PlainName(s1) && PlainKey(k2) && PlainName(s2)
    ensures DispositionPairs([PairText(k1, s1), PairText(k2, s2)]) == [(k1, s1), (k2, s2)]
  {
    var a, b := PairText(k1, s1), PairText(k2, s2);
    PairHead(k2, s2, []);
    assert [b] + [] == [b] && [a] + [b] == [a, b];
    PairHead(k1, s1, [b]);
  }

  const NAME: string := "name"
  const FILENAME: string := "filename"

  lemma KeysArePlain()
    ensures PlainKey(NAME) && PlainKey(FILENAME) && NAME[0] == 'n' && FILENAME[0] == 'f'
  {
  }

  /** What stands behind "form-data; " in the disposition line. */
  function PairsText(item: Item): string {
    if item.filename == "" then PairText(NAME, item.name)
    else PairText(NAME, item.name) + "; " + PairText(FILENAME, item.filename)
  }

  lemma PairsAreParsed(item: Item)
    requires PlainName(item.name) && PlainName(item.filename)
    ensures DispositionParams(PairsText(item))
         == if item.filename == "" then [(NAME, item.name)] else [(NAME, item.name), (FILENAME, item.filename)]
  {
    KeysArePlain();
    if item.filename == "" {
      OnePairParsed(NAME, item.name);
    } else {
      TwoPairsParsed(NAME, item.name, FILENAME, item.filename);
    }
  }

  lemma PairsAreOneLine(item: Item)
    requires PlainName(item.name) && PlainName(item.filename)
    ensures Free(PairsText(item), '\r') && Free(PairsText(item), '\n')
    ensures PairsText(item) != "" && PairsText(item)[0] == 'n' && PairsText(item)[|PairsText(item)| - 1] == '"'
  {
    KeysArePlain();
    OnePair(NAME, item.name);
    OnePair(FILENAME, item.filename);
    var a, b := PairText(NAME, item.name), PairText(FILENAME, item.filename);
    FreeConcat(a, "; ", '\r');
    FreeConcat(a + "; ", b, '\r');
    FreeConcat(a, "; ", '\n');
    FreeConcat(a + "; ", b, '\n');
  }

  /** The capture of a line that has single blanks where the expression allows any white space. */
  lemma CapturedRest(head: string, form: string, r: string)
    requires form != "" && !IsSpace(form[0]) && r != "" && !IsSpace(r[0])
    requires Free(r, '\n') && Free(r, '\r')
    ensures Captured(head + (" " + (form + (" " + r))), head, form) == Some(r)
  {
    var s := form + (" " + r);
    var line := head + (" " + s);
    assert line[|head|..] == " " + s && (" " + s)[1..] == s;
    assert SkipSpace(" " + s) == s;
    assert s[|form|..] == " " + r && (" " + r)[1..] == r;
    assert SkipSpace(" " + r) == r;
  }

  /** The fixed part of a disposition line, cut as the expression reads it. */
  lemma DispositionStart(rest: string)
    ensures "Content-Disposition: form-data; " + rest == CONTENT_DISPOSITION + (" " + (FORM_DATA + (" " + rest)))
  {
    assert "Content-Disposition: form-data; " == CONTENT_DISPOSITION + (" " + (FORM_DATA + " "));
    Associate(FORM_DATA, " ", rest);
    Associate(" ", FORM_DATA + " ", rest);
    Associate(CONTENT_DISPOSITION, " " + (FORM_DATA + " "), rest);
  }

  lemma NamePair(name: string)
    ensures "Content-Disposition: form-data; name=\"" + name + "\"" == "Content-Disposition: form-data; " + PairText(NAME, name)
  {
    var start := "Content-Disposition: form-data; ";
    assert "Content-Disposition: form-data; name=\"" == start + (NAME + "=\"");
    Associate(start, NAME + "=\"", name);
    Associate(start, NAME + "=\"" + name, "\"");
    PairTextIs(NAME, name);
  }

  lemma PairTextIs(key: string, value: string)
    ensures PairText(key, value) == key + "=\"" + value + "\""
  {
    assert PairText(key, value) == key + ("=" + ("\"" + value + "\""));
  }

  lemma DispositionIs(item: Item)
    ensures DispositionLine(item) == CONTENT_DISPOSITION + (" " + (FORM_DATA + (" " + PairsText(item))))
  {
    var named := "Content-Disposition: form-data; " + PairText(NAME, item.name);
    NamePair(item.name);
    if item.filename == "" {
      assert DispositionLine(item) == named + "" == named;
    } else {
      var filed := "; filename=\"" + item.filename + "\"";
      assert "; filename=\"" == "; " + (FILENAME + "=\"");
      Associate("; ", FILENAME + "=\"", item.filename);
      Associate("; ", FILENAME + "=\"" + item.filename, "\"");
      PairTextIs(FILENAME, item.filename);
      assert filed == "; " + PairText(FILENAME, item.filename);
      Associate("Content-Disposition: form-data; ", PairText(NAME, item.name), filed);
      Associate(PairText(NAME, item.name), "; ", PairText(FILENAME, item.filename));
    }
    DispositionStart(PairsText(item));
  }

  lemma NamedLineIsHeader(head: string, value: string)
    requires head != "" && head[|head| - 1] == ':' && Free(head[..|head| - 1], ':') && |head| > 1
    requires value != "" && NoOuterBlanks(value)
    ensures IsHeader(head + (" " + value))
  {
    var line := head + (" " + value);
    var p := |head| - 1;
    assert line[|line| - 1] == value[|value| - 1];
    assert TrimRight(line) == line;
    assert forall j | 0 <= j < p :: line[j] == head[..p][j];
    IndexIs(line, ':', p);
    assert line[p + 1..] == " " + value;
    TrimBlankInFront(value);
  }

  lemma HeadsAreNames()
    ensures Free(CONTENT_DISPOSITION[..|CONTENT_DISPOSITION| - 1], ':')
    ensures Free(CONTENT_TYPE[..|CONTENT_TYPE| - 1], ':')
    ensures forall s: string :: !StartsWithIgnoringCase(CONTENT_DISPOSITION + s, CONTENT_TYPE)
  {
    assert CONTENT_DISPOSITION[..19] == "Content-Disposition" && CONTENT_TYPE[..12] == "Content-Type";
    forall s: string
      ensures !StartsWithIgnoringCase(CONTENT_DISPOSITION + s, CONTENT_TYPE)
    {
      assert (CONTENT_DISPOSITION + s)[8] == 'D' && CONTENT_TYPE[8] == 'T';
    }
  }

  /** A printed disposition line is a header line, and not one of a content type. */
  lemma DispositionIsHeader(item: Item)
    requires PlainName(item.name) && PlainName(item.filename)
    ensures IsHeader(DispositionLine(item)) && !StartsWithIgnoringCase(DispositionLine(item), CONTENT_TYPE)
  {
    var value := FORM_DATA + (" " + PairsText(item));
    DispositionIs(item);
    HeadsAreNames();
    PairsAreOneLine(item);
    assert value[0] == FORM_DATA[0] && value[|value| - 1] == PairsText(item)[|PairsText(item)| - 1];
    NamedLineIsHeader(CONTENT_DISPOSITION, value);
  }

  lemma DispositionRestIs(item: Item)
    requires PlainName(item.name) && PlainName(item.filename)
    ensures DispositionRest(DispositionLine(item)) == Some(PairsText(item))
  {
    DispositionIs(item);
    PairsAreOneLine(item);
    CapturedRest(CONTENT_DISPOSITION, FORM_DATA, PairsText(item));
  }

  lemma DispositionApplies(item: Item, file: FileInfo)
    requires PlainName(item.name) && PlainName(item.filename) && file.filename == ""
    ensures ApplyLine(file, DispositionLine(item)) == Some(file.(name := item.name, filename := item.filename))
  {
    DispositionIsHeader(item);
    DispositionRestIs(item);
    PairsAreParsed(item);
    ParamsApply(item, file);
  }

  lemma ParamsApply(item: Item, file: FileInfo)
    requires file.filename == ""
    ensures ApplyParams(file, if item.filename == "" then [(NAME, item.name)]
                              else [(NAME, item.name), (FILENAME, item.filename)])
         == Some(file.(name := item.name, filename := item.filename))
  {
    var a, b: (string, string) := (NAME, item.name), (FILENAME, item.filename);
    var one: seq<(string, string)>, two: seq<(string, string)> := [b], [a, b];
    assert one[1..] == [] && two[1..] == one && [a][1..] == [];
    assert NAME == "name" && FILENAME == "filename" && |"filename*"| == 9 && |NAME| == 4 && |FILENAME| == 8;
    assert Lookup([], "filename") == None && Lookup([], "filename*") == None;
    assert Lookup([a], "name") == Some(item.name) && Lookup([a], "filename") == None && Lookup([a], "filename*") == None;
    assert Lookup(one, "filename") == Some(item.filename) && Lookup(one, "filename*") == None;
    assert Lookup(two, "name") == Some(item.name);
    assert Lookup(two, "filename") == Some(item.filename) && Lookup(two, "filename*") == None;
  }

  lemma ContentTypeApplies(t: string, file: FileInfo)
    requires t != "" && PlainType(t)
    ensures ApplyLine(file, CONTENT_TYPE + (" " + t)) == Some(file.(contentType := t))
  {
    var line := CONTENT_TYPE + (" " + t);
    HeadsAreNames();
    NamedLineIsHeader(CONTENT_TYPE, t);
    assert line[|CONTENT_TYPE|..] == " " + t;
    TrimBlankInFront(t);
  }

  /** Reading an entry's header lines gives back its name, file name and type. */
  lemma LinesApply(item: Item)
    requires PlainName(item.name) && PlainName(item.filename) && PlainType(item.contentType)
    ensures ApplyLines(NO_INFO, ItemLines(item)) == Some(InfoOf(item))
  {
    var d := DispositionLine(item);
    var named := FileInfo(item.name, item.filename, "");
    DispositionApplies(item, NO_INFO);
    if item.contentType == "" {
      OneLine(NO_INFO, d, named);
      assert ItemLines(item) == [d];
    } else {
      TypeLineApplies(item.contentType, named);
      TwoLines(NO_INFO, d, "Content-Type: " + item.contentType, named, InfoOf(item));
    }
  }

  lemma TypeLineApplies(t: string, file: FileInfo)
    requires t != "" && PlainType(t)
    ensures ApplyLine(file, "Content-Type: " + t) == Some(file.(contentType := t))
  {
    assert "Content-Type: " == CONTENT_TYPE + " ";
    Associate(CONTENT_TYPE, " ", t);
    ContentTypeApplies(t, file);
  }

  lemma TwoLines(file: FileInfo, a: string, b: string, between: FileInfo, result: FileInfo)
    requires ApplyLine(file, a) == Some(between) && ApplyLine(between, b) == Some(result)
    ensures ApplyLines(file, [a] + [b]) == Some(result)
  {
    OneLine(between, b, result);
    assert ([a] + [b])[1..] == [b];
  }

  lemma OneLine(file: FileInfo, line: string, result: FileInfo)
    requires ApplyLine(file, line) == Some(result)
    ensures ApplyLines(file, [line]) == Some(result)
  {
    assert [line][1..] == [];
  }

  /** No header line the serializer writes is empty or holds a line break. */
  lemma LinesAreLines(item: Item)
    requires PlainName(item.name) && PlainName(item.filename) && PlainType(item.contentType)
    ensures forall line | line in ItemLines(item) :: line != "" && Free(line, '\r') && Free(line, '\n')
  {
    DispositionIs(item);
    PairsAreOneLine(item);
    LineIsFree(item, '\r');
    LineIsFree(item, '\n');
  }

  lemma LineIsFree(item: Item, c: char)
    requires c == '\r' || c == '\n'
    requires Free(PairsText(item), c) && Free(item.contentType, c)
    ensures Free(CONTENT_DISPOSITION + (" " + (FORM_DATA + (" " + PairsText(item)))), c)
    ensures Free("Content-Type: " + item.contentType, c)
  {
    FreeConcat(" ", PairsText(item), c);
    FreeConcat(FORM_DATA, " " + PairsText(item), c);
    FreeConcat(" ", FORM_DATA + (" " + PairsText(item)), c);
    FreeConcat(CONTENT_DISPOSITION, " " + (FORM_DATA + (" " + PairsText(item))), c);
    FreeConcat("Content-Type: ", item.contentType, c);
  }
}
