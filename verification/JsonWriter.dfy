/** The two JSON writers: the event exporter and the snapshot generator. Each text they
    produce is shown to be a grammar text, so that the parser reads it back. */
module JsonWriter {
  import opened Events
  import opened JsonGrammar
  import opened JsonParser
  import opened Strings

  // ------------------------------------------------------------ json_escape

  function HexDigit(n: nat): char
    requires n < 16
  {
    "0123456789abcdef"[n]
  }

  /** How json_escape writes one character. */
  function PieceFor(c: char): Piece {
    if c == '"' || c == '\\' then Escaped(c)
    else if c == '\U{0008}' then Escaped('b')
    else if c == '\U{000C}' then Escaped('f')
    else if c == '\n' then Escaped('n')
    else if c == '\r' then Escaped('r')
    else if c == '\t' then Escaped('t')
    else if c < ' ' then Unicode(['0', '0', HexDigit(c as int / 16), HexDigit(c as int % 16)])
    else Raw(c)
  }

  function Pieces(s: string): seq<Piece> {
    if s == "" then [] else [PieceFor(s[0])] + Pieces(s[1..])
  }

  /** Control bytes without a short escape. */
  predicate Lossy(c: char) {
    c < ' ' && c != '\U{0008}' && c != '\U{000C}' && c != '\n' && c != '\r' && c != '\t'
  }

  /** What is left of a string after writing and parsing. */
  function ReadBack(s: string): string {
    seq(|s|, i requires 0 <= i < |s| => if Lossy(s[i]) then '?' else s[i])
  }

  predicate Clean(s: string) { forall i :: 0 <= i < |s| ==> !Lossy(s[i]) }

  lemma ReadBackIffClean(s: string)
    ensures ReadBack(s) == s <==> Clean(s)
  {
    if ReadBack(s) == s {
      forall i | 0 <= i < |s| ensures !Lossy(s[i]) {
        assert ReadBack(s)[i] == s[i];
      }
    }
  }

  lemma PieceReadBack(c: char)
    ensures WfPiece(PieceFor(c)) && PieceChar(PieceFor(c)) == if Lossy(c) then '?' else c
  {
  }

  lemma {:induction false} PiecesReadBack(s: string)
    ensures WfBody(Pieces(s)) && BodyChars(Pieces(s)) == ReadBack(s)
  {
    hide PieceFor, WfPiece, PieceChar;
    if s != "" {
      PieceReadBack(s[0]);
      PiecesReadBack(s[1..]);
      assert Pieces(s)[1..] == Pieces(s[1..]);
      assert ReadBack(s) == [ReadBack(s)[0]] + ReadBack(s[1..]);
    }
  }

  lemma {:induction false} BodyTextAppend(a: seq<Piece>, p: Piece)
    ensures BodyText(a + [p]) == BodyText(a) + PieceText(p)
  {
    hide PieceText;
    if a == [] {
      assert [p][1..] == [];
    } else {
      BodyTextAppend(a[1..], p);
      assert (a + [p])[1..] == a[1..] + [p];
    }
  }

  lemma {:induction false} PiecesAppend(s: string, c: char)
    ensures Pieces(s + [c]) == Pieces(s) + [PieceFor(c)]
  {
    if s == "" {
      assert [c][1..] == "";
    } else {
      PiecesAppend(s[1..], c);
      assert (s + [c])[1..] == s[1..] + [c];
    }
  }

  method JsonEscape(s: string) returns (out: string)
    ensures out == BodyText(Pieces(s))
  {
    out := "";
    for i := 0 to |s|
      invariant out == BodyText(Pieces(s[..i]))
    {
      assert s[..i + 1] == s[..i] + [s[i]];
      PiecesAppend(s[..i], s[i]);
      BodyTextAppend(Pieces(s[..i]), PieceFor(s[i]));
      match s[i]
      case '"' => out := out + "\\\"";
      case '\\' => out := out + "\\\\";
      case '\U{0008}' => out := out + "\\b";
      case '\U{000C}' => out := out + "\\f";
      case '\n' => out := out + "\\n";
      case '\r' => out := out + "\\r";
      case '\t' => out := out + "\\t";
      case c =>
        if c < ' ' {
          out := out + ("\\u" + ['0', '0', HexDigit(c as int / 16), HexDigit(c as int % 16)]);
        } else {
          out := out + [c];
        }
    }
    assert s[..|s|] == s;
  }

  // ------------------------------------------------------------ indented objects and arrays

  /** One `"name": value` line. */
  datatype Field = Field(key: seq<Piece>, v: Cst)

  function FieldLine(indent: string, f: Field): string {
    indent + (Quoted(f.key) + (": " + Text(f.v)))
  }

  function FieldLines(indent: string, fs: seq<Field>): seq<string> {
    if fs == [] then [] else [FieldLine(indent, fs[0])] + FieldLines(indent, fs[1..])
  }

  function ItemLines(indent: string, vs: seq<Cst>): seq<string> {
    if vs == [] then [] else [indent + Text(vs[0])] + ItemLines(indent, vs[1..])
  }

  /** An object with one field a line; `hollow` is what stands between the braces of an empty one. */
  function JObject(hollow: string, indent: string, close: string, fs: seq<Field>): Cst {
    if fs == [] then EmptyObject(hollow) else ObjectLit(MembsOf("\n" + indent, "\n" + close, fs))
  }

  function MembsOf(pre: string, post: string, fs: seq<Field>): Membs
    requires fs != []
  {
    var m := Memb(pre, fs[0].key, "", " ", fs[0].v, if |fs| == 1 then post else "");
    if |fs| == 1 then LastMemb(m) else MoreMembs(m, MembsOf(pre, post, fs[1..]))
  }

  function JArray(hollow: string, indent: string, close: string, vs: seq<Cst>): Cst {
    if vs == [] then EmptyArray(hollow) else ArrayLit(ElemsOf("\n" + indent, "\n" + close, vs))
  }

  function ElemsOf(pre: string, post: string, vs: seq<Cst>): Elems
    requires vs != []
  {
    if |vs| == 1 then LastElem(pre, vs[0], post) else MoreElems(pre, vs[0], "", ElemsOf(pre, post, vs[1..]))
  }

  lemma MembLine(indent: string, f: Field, post: string)
    ensures MembText(Memb("\n" + indent, f.key, "", " ", f.v, post)) == "\n" + FieldLine(indent, f)
  {
    hide Text, Quoted;
    var q, t := Quoted(f.key), Text(f.v);
    assert "" + (":" + (" " + t)) == ": " + t;
    assert ("\n" + indent) + (q + (": " + t)) == "\n" + (indent + (q + (": " + t)));
  }

  lemma {:induction false} MembsOfText(indent: string, close: string, fs: seq<Field>)
    requires fs != []
    ensures MembsText(MembsOf("\n" + indent, "\n" + close, fs))
         == "\n" + (JoinWith(",\n", FieldLines(indent, fs)) + ("\n" + (close + "}")))
  {
    hide MembText, FieldLine;
    var line, ms := FieldLine(indent, fs[0]), MembsOf("\n" + indent, "\n" + close, fs);
    MembLine(indent, fs[0], ms.m.post);
    if |fs| == 1 {
    } else {
      MembsOfText(indent, close, fs[1..]);
      assert FieldLines(indent, fs)[1..] == FieldLines(indent, fs[1..]);
    }
  }

  lemma {:induction false} ElemsOfText(indent: string, close: string, vs: seq<Cst>)
    requires vs != []
    ensures ElemsText(ElemsOf("\n" + indent, "\n" + close, vs))
         == "\n" + (JoinWith(",\n", ItemLines(indent, vs)) + ("\n" + (close + "]")))
  {
    hide Text;
    var line, es := indent + Text(vs[0]), ElemsOf("\n" + indent, "\n" + close, vs);
    if |vs| == 1 {
    } else {
      ElemsOfText(indent, close, vs[1..]);
      assert ItemLines(indent, vs)[1..] == ItemLines(indent, vs[1..]);
    }
  }

  predicate WfFields(fs: seq<Field>, stod: string -> bool) {
    forall i :: 0 <= i < |fs| ==> WfBody(fs[i].key) && Wf(fs[i].v, stod)
  }

  /** Later fields win, as in the parser. */
  function FieldsMeaning(fs: seq<Field>): map<string, Json> {
    if fs == [] then map[] else map[BodyChars(fs[0].key) := Meaning(fs[0].v)] + FieldsMeaning(fs[1..])
  }

  function ItemsMeaning(vs: seq<Cst>): seq<Json> {
    if vs == [] then [] else [Meaning(vs[0])] + ItemsMeaning(vs[1..])
  }

  lemma {:induction false} MembsOfWf(pre: string, post: string, fs: seq<Field>, stod: string -> bool)
    requires fs != [] && Blank(pre) && Blank(post) && WfFields(fs, stod)
    ensures WfMembs(MembsOf(pre, post, fs), stod)
    ensures MembsMeaning(MembsOf(pre, post, fs)) == FieldsMeaning(fs)
  {
    hide Wf, Meaning;
    if |fs| > 1 {
      MembsOfWf(pre, post, fs[1..], stod);
    } else {
      assert fs[1..] == [];
    }
  }

  lemma {:induction false} ElemsOfWf(pre: string, post: string, vs: seq<Cst>, stod: string -> bool)
    requires vs != [] && Blank(pre) && Blank(post) && forall i :: 0 <= i < |vs| ==> Wf(vs[i], stod)
    ensures WfElems(ElemsOf(pre, post, vs), stod)
    ensures ElemsMeaning(ElemsOf(pre, post, vs)) == ItemsMeaning(vs)
  {
    hide Wf, Meaning;
    if |vs| > 1 {
      ElemsOfWf(pre, post, vs[1..], stod);
    } else {
      assert vs[1..] == [];
    }
  }

  lemma JObjectReads(hollow: string, indent: string, close: string, fs: seq<Field>, stod: string -> bool)
    requires Blank(hollow) && Blank(indent) && Blank(close) && WfFields(fs, stod)
    ensures Wf(JObject(hollow, indent, close, fs), stod)
    ensures Meaning(JObject(hollow, indent, close, fs)) == Object(FieldsMeaning(fs))
  {
    if fs != [] {
      MembsOfWf("\n" + indent, "\n" + close, fs, stod);
    }
  }

  lemma JArrayReads(hollow: string, indent: string, close: string, vs: seq<Cst>, stod: string -> bool)
    requires Blank(hollow) && Blank(indent) && Blank(close) && forall i :: 0 <= i < |vs| ==> Wf(vs[i], stod)
    ensures Wf(JArray(hollow, indent, close, vs), stod)
    ensures Meaning(JArray(hollow, indent, close, vs)) == Array(ItemsMeaning(vs))
  {
    if vs != [] {
      ElemsOfWf("\n" + indent, "\n" + close, vs, stod);
    }
  }

  function StrLit(s: string): Cst { StringLit(Pieces(s)) }

  lemma StrLitReads(s: string, stod: string -> bool)
    ensures Wf(StrLit(s), stod) && Meaning(StrLit(s)) == Str(ReadBack(s))
  {
    PiecesReadBack(s);
  }

  lemma DecimalShape(n: int)
    ensures NumberShape(Decimal(n))
  {
    hide Digits, ValueOf;
    var m := if n < 0 then -n else n;
    DigitsRead(m);
    var d := Digits(m);
    assert forall i :: 0 <= i < |d| ==> IsNumberChar(d[i]);
  }

  // ------------------------------------------------------------ text written without escaping

  function Verbatim(s: string): seq<Piece> {
    if s == "" then [] else [Raw(s[0])] + Verbatim(s[1..])
  }

  predicate Quotable(s: string) { forall i :: 0 <= i < |s| ==> s[i] != '"' && s[i] != '\\' }

  lemma {:induction false} VerbatimReads(s: string)
    requires Quotable(s)
    ensures WfBody(Verbatim(s)) && BodyText(Verbatim(s)) == s && BodyChars(Verbatim(s)) == s
  {
    if s != "" {
      VerbatimReads(s[1..]);
      assert Verbatim(s)[1..] == Verbatim(s[1..]) && s == [s[0]] + s[1..];
    }
  }

  lemma {:induction false} VerbatimText(s: string)
    ensures BodyText(Verbatim(s)) == s
  {
    if s != "" {
      VerbatimText(s[1..]);
      assert Verbatim(s)[1..] == Verbatim(s[1..]) && s == [s[0]] + s[1..];
    }
  }

  /** One cell of an object: a number, an escaped string, or a string put in as it is. */
  datatype Cell = Quantity(lexeme: string) | Label(s: string) | Plainly(s: string)

  predicate WfCell(c: Cell, stod: string -> bool) {
    match c
    case Quantity(x) => NumberShape(x) && stod(x)
    case Label(_) => true
    case Plainly(s) => Quotable(s)
  }

  function CellCst(c: Cell): Cst {
    match c
    case Quantity(x) => NumberLit(x)
    case Label(s) => StrLit(s)
    case Plainly(s) => StringLit(Verbatim(s))
  }

  function CellJson(c: Cell): Json {
    match c
    case Quantity(x) => Number(x)
    case Label(s) => Str(ReadBack(s))
    case Plainly(s) => Str(s)
  }

  lemma CellReads(c: Cell, stod: string -> bool)
    requires WfCell(c, stod)
    ensures Wf(CellCst(c), stod) && Meaning(CellCst(c)) == CellJson(c)
  {
    match c
    case Quantity(_) =>
    case Label(s) => PiecesReadBack(s);
    case Plainly(s) => VerbatimReads(s);
  }

  type Row = seq<(string, Cell)>

  predicate WfRow(r: Row, stod: string -> bool) {
    forall i :: 0 <= i < |r| ==> Quotable(r[i].0) && WfCell(r[i].1, stod)
  }

  function RowFields(r: Row): seq<Field> {
    if r == [] then [] else [Field(Verbatim(r[0].0), CellCst(r[0].1))] + RowFields(r[1..])
  }

  /** The members of an object in writing order; a repeated name keeps its last value. */
  function RowJson(r: Row): map<string, Json> {
    if r == [] then map[] else map[r[0].0 := CellJson(r[0].1)] + RowJson(r[1..])
  }

  lemma {:induction false} RowReads(r: Row, stod: string -> bool)
    requires WfRow(r, stod)
    ensures WfFields(RowFields(r), stod) && FieldsMeaning(RowFields(r)) == RowJson(r)
  {
    hide Wf, Meaning, CellCst, CellJson;
    if r != [] {
      CellReads(r[0].1, stod);
      VerbatimReads(r[0].0);
      RowReads(r[1..], stod);
      assert RowFields(r)[1..] == RowFields(r[1..]);
    }
  }

  // ------------------------------------------------------------ writing the lines of a row

  lemma {:induction false} FieldLinesAppend(indent: string, fs: seq<Field>, f: Field)
    ensures FieldLines(indent, fs + [f]) == FieldLines(indent, fs) + [FieldLine(indent, f)]
  {
    hide FieldLine;
    if fs == [] {
      assert [f][1..] == [];
    } else {
      FieldLinesAppend(indent, fs[1..], f);
      assert (fs + [f])[1..] == fs[1..] + [f];
    }
  }

  lemma {:induction false} RowFieldsAppend(r: Row, name: string, c: Cell)
    ensures RowFields(r + [(name, c)]) == RowFields(r) + [Field(Verbatim(name), CellCst(c))]
  {
    hide Verbatim, CellCst;
    var x := [(name, c)];
    if r == [] {
      assert x[1..] == [];
    } else {
      RowFieldsAppend(r[1..], name, c);
      assert (r + x)[1..] == r[1..] + x;
    }
  }

  /** The items written so far by a loop with a `first` flag. */
  ghost function Listed(lines: seq<string>): string { if lines == [] then "" else JoinWith(",\n", lines) }

  lemma ListedStep(lines: seq<string>, line: string)
    ensures Listed(lines + [line]) == Listed(lines) + (if lines == [] then "" else ",\n") + line
  {
    JoinAppend(",\n", lines, line);
  }

  lemma FieldCount(indent: string, fs: seq<Field>)
    ensures |FieldLines(indent, fs)| == |fs|
  {
  }

  lemma RowFieldCount(r: Row)
    ensures |RowFields(r)| == |r|
  {
  }

  lemma NothingListed(indent: string)
    ensures Listed(FieldLines(indent, RowFields([]))) == ""
  {
  }

  /** One `"name": value` line. */
  method WriteCell(indent: string, name: string, c: Cell) returns (line: string)
    ensures line == FieldLine(indent, Field(Verbatim(name), CellCst(c)))
  {
    var text;
    match c {
      case Quantity(x) => text := x;
      case Label(s) =>
        var body := JsonEscape(s);
        text := "\"" + (body + "\"");
      case Plainly(s) =>
        VerbatimText(s);
        text := "\"" + (s + "\"");
    }
    VerbatimText(name);
    line := indent + (("\"" + (name + "\"")) + (": " + text));
  }

  lemma LinesStep(indent: string, r: Row, i: nat)
    requires i < |r|
    ensures Listed(FieldLines(indent, RowFields(r[..i + 1])))
         == Listed(FieldLines(indent, RowFields(r[..i]))) + (if i == 0 then "" else ",\n")
            + FieldLine(indent, Field(Verbatim(r[i].0), CellCst(r[i].1)))
  {
    hide FieldLine, FieldLines, Listed, RowFields, CellCst, Verbatim;
    var f := Field(Verbatim(r[i].0), CellCst(r[i].1));
    assert r[..i + 1] == r[..i] + [(r[i].0, r[i].1)];
    RowFieldsAppend(r[..i], r[i].0, r[i].1);
    RowFieldCount(r[..i]);
    FieldLinesAppend(indent, RowFields(r[..i]), f);
    FieldCount(indent, RowFields(r[..i]));
    ListedStep(FieldLines(indent, RowFields(r[..i])), FieldLine(indent, f));
  }

  /** The lines of a row, separated by commas, as a loop with a `first` flag writes them. */
  method WriteLines(indent: string, r: Row) returns (out: string)
    ensures out == Listed(FieldLines(indent, RowFields(r)))
  {
    hide FieldLine, FieldLines, Listed, RowFields, CellCst, Verbatim;
    out := "";
    var first := true;
    NothingListed(indent);
    assert r[..0] == [];
    for i := 0 to |r|
      invariant first == (i == 0)
      invariant out == Listed(FieldLines(indent, RowFields(r[..i])))
    {
      LinesStep(indent, r, i);
      var line := WriteCell(indent, r[i].0, r[i].1);
      out := out + (if first then "" else ",\n") + line;
      first := false;
    }
    assert r[..|r|] == r;
  }
}
