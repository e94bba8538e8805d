/** The language the parser accepts, as concrete syntax trees that keep every blank and
    every escape, and the proof that the parser accepts exactly that language. It is larger
    than RFC 8259: any character may follow a backslash, any four a `\u`, and control bytes
    may stand unescaped in a string. */
module JsonGrammar {
  import opened JsonParser

  /** One item of a string literal as it is written. */
  datatype Piece = Raw(c: char) | Escaped(c: char) | Unicode(hex: string)

  datatype Cst =
    | NullLit
    | BoolLit(b: bool)
    | NumberLit(lexeme: string)
    | StringLit(body: seq<Piece>)
    | EmptyArray(blank: string)
    | ArrayLit(elems: Elems)
    | EmptyObject(blank: string)
    | ObjectLit(members: Membs)

  datatype Elems =
    | LastElem(pre: string, v: Cst, post: string)
    | MoreElems(pre: string, v: Cst, post: string, rest: Elems)

  datatype Memb = Memb(pre: string, key: seq<Piece>, mid: string, gap: string, v: Cst, post: string)

  datatype Membs = LastMemb(m: Memb) | MoreMembs(m: Memb, rest: Membs)

  predicate Blank(s: string) { forall i :: 0 <= i < |s| ==> IsWs(s[i]) }

  predicate WfPiece(p: Piece) {
    match p
    case Raw(c) => c != '"' && c != '\\'
    case Escaped(c) => c != 'u'
    case Unicode(hex) => |hex| == 4
  }

  predicate WfBody(ps: seq<Piece>) { forall i :: 0 <= i < |ps| ==> WfPiece(ps[i]) }

  predicate NumberShape(x: string) {
    x != "" && StartsNumber(x[0]) && forall i :: 0 <= i < |x| ==> IsNumberChar(x[i])
  }

  predicate Wf(c: Cst, stod: string -> bool) {
    match c
    case NullLit => true
    case BoolLit(_) => true
    case NumberLit(x) => NumberShape(x) && stod(x)
    case StringLit(ps) => WfBody(ps)
    case EmptyArray(w) => Blank(w)
    case ArrayLit(es) => WfElems(es, stod)
    case EmptyObject(w) => Blank(w)
    case ObjectLit(ms) => WfMembs(ms, stod)
  }

  predicate WfElems(es: Elems, stod: string -> bool) {
    Blank(es.pre) && Wf(es.v, stod) && Blank(es.post) && (es.MoreElems? ==> WfElems(es.rest, stod))
  }

  predicate WfMemb(m: Memb, stod: string -> bool) {
    Blank(m.pre) && WfBody(m.key) && Blank(m.mid) && Blank(m.gap) && Wf(m.v, stod) && Blank(m.post)
  }

  predicate WfMembs(ms: Membs, stod: string -> bool) {
    WfMemb(ms.m, stod) && (ms.MoreMembs? ==> WfMembs(ms.rest, stod))
  }

  function PieceText(p: Piece): string {
    match p
    case Raw(c) => [c]
    case Escaped(c) => ['\\', c]
    case Unicode(hex) => "\\u" + hex
  }

  /** Every `\u` escape is read as a question mark. */
  function PieceChar(p: Piece): char {
    match p
    case Raw(c) => c
    case Escaped(c) => Unescape(c)
    case Unicode(_) => '?'
  }

  function BodyText(ps: seq<Piece>): string {
    if ps == [] then "" else PieceText(ps[0]) + BodyText(ps[1..])
  }

  function BodyChars(ps: seq<Piece>): string {
    if ps == [] then "" else [PieceChar(ps[0])] + BodyChars(ps[1..])
  }

  function Quoted(ps: seq<Piece>): string { "\"" + (BodyText(ps) + "\"") }

  function Text(c: Cst): string {
    match c
    case NullLit => "null"
    case BoolLit(b) => if b then "true" else "false"
    case NumberLit(x) => x
    case StringLit(ps) => Quoted(ps)
    case EmptyArray(w) => "[" + (w + "]")
    case ArrayLit(es) => "[" + ElemsText(es)
    case EmptyObject(w) => "{" + (w + "}")
    case ObjectLit(ms) => "{" + MembsText(ms)
  }

  function ElemsText(es: Elems): string {
    es.pre + (Text(es.v) + (es.post + (if es.LastElem? then "]" else "," + ElemsText(es.rest))))
  }

  function MembText(m: Memb): string {
    m.pre + (Quoted(m.key) + (m.mid + (":" + (m.gap + Text(m.v)))))
  }

  function MembsText(ms: Membs): string {
    MembText(ms.m) + (ms.m.post + (if ms.LastMemb? then "}" else "," + MembsText(ms.rest)))
  }

  /** The tree a text stands for. */
  function Meaning(c: Cst): Json {
    match c
    case NullLit => Null
    case BoolLit(b) => Bool(b)
    case NumberLit(x) => Number(x)
    case StringLit(ps) => Str(BodyChars(ps))
    case EmptyArray(_) => Array([])
    case ArrayLit(es) => Array(ElemsMeaning(es))
    case EmptyObject(_) => Object(map[])
    case ObjectLit(ms) => Object(MembsMeaning(ms))
  }

  function ElemsMeaning(es: Elems): seq<Json> {
    [Meaning(es.v)] + (if es.LastElem? then [] else ElemsMeaning(es.rest))
  }

  function MembMeaning(m: Memb): (string, Json) { (BodyChars(m.key), Meaning(m.v)) }

  function MembsMeaning(ms: Membs): map<string, Json> {
    var kv := MembMeaning(ms.m);
    map[kv.0 := kv.1] + (if ms.LastMemb? then map[] else MembsMeaning(ms.rest))
  }

  /** A numeral must not run on into further number characters. */
  predicate Closed(s: Source, c: Cst, q: nat) {
    c.NumberLit? ==> q >= |s.text| || !IsNumberChar(s.text[q])
  }

  // ------------------------------------------------------------ positions in the text

  lemma AtSplit(s: Source, p: nat, x: string, y: string)
    ensures s.At(p, x + y) <==> s.At(p, x) && s.At(p + |x|, y)
  {
    if p + |x| + |y| <= |s.text| {
      assert s.text[p..p + |x| + |y|] == s.text[p..p + |x|] + s.text[p + |x|..p + |x| + |y|];
      if s.At(p, x + y) {
        assert x == (x + y)[..|x|] == s.text[p..p + |x|];
        assert y == (x + y)[|x|..] == s.text[p + |x|..p + |x| + |y|];
      }
    }
  }

  lemma AtChar(s: Source, p: nat, c: char)
    ensures s.At(p, [c]) <==> p < |s.text| && s.text[p] == c
  {
  }

  // ------------------------------------------------------------ blanks and numerals

  lemma {:induction false} SkipsBlank(s: Source, p: nat, w: string)
    requires Blank(w) && s.At(p, w)
    ensures s.SkipWs(p) == s.SkipWs(p + |w|)
    decreases |w|
  {
    if w != "" {
      assert s.text[p] == w[0];
      assert s.text[p + 1..p + |w|] == w[1..];
      SkipsBlank(s, p + 1, w[1..]);
    }
  }

  /** Blanks before a text that starts with something else. */
  lemma SkipsTo(s: Source, p: nat, w: string)
    requires Blank(w) && s.At(p, w)
    requires p + |w| < |s.text| ==> !IsWs(s.text[p + |w|])
    ensures s.SkipWs(p) == p + |w|
  {
    SkipsBlank(s, p, w);
  }

  lemma {:induction false} SkippedIsBlank(s: Source, p: nat)
    requires p <= |s.text|
    ensures Blank(s.text[p..s.SkipWs(p)])
    ensures s.At(p, s.text[p..s.SkipWs(p)])
    ensures s.SkipWs(p) < |s.text| ==> !IsWs(s.text[s.SkipWs(p)])
    decreases |s.text| - p
  {
    if p < |s.text| && IsWs(s.text[p]) {
      SkippedIsBlank(s, p + 1);
      assert s.text[p..s.SkipWs(p)] == [s.text[p]] + s.text[p + 1..s.SkipWs(p)];
    }
  }

  lemma {:induction false} NumberEndIs(s: Source, p: nat, q: nat)
    requires p <= q <= |s.text|
    requires forall i :: p <= i < q ==> IsNumberChar(s.text[i])
    requires q < |s.text| ==> !IsNumberChar(s.text[q])
    ensures s.NumberEnd(p) == q
    decreases q - p
  {
    if p < q {
      NumberEndIs(s, p + 1, q);
    }
  }

  lemma {:induction false} NumberEndScans(s: Source, p: nat)
    requires p <= |s.text|
    ensures forall i :: p <= i < s.NumberEnd(p) ==> IsNumberChar(s.text[i])
    ensures s.NumberEnd(p) < |s.text| ==> !IsNumberChar(s.text[s.NumberEnd(p)])
    decreases |s.text| - p
  {
    if p < |s.text| && IsNumberChar(s.text[p]) {
      NumberEndScans(s, p + 1);
    }
  }

  // ------------------------------------------------------------ strings

  lemma PieceComplete(s: Source, p: nat, first: Piece)
    requires WfPiece(first) && s.At(p, PieceText(first)) && p + |PieceText(first)| < |s.text|
    ensures s.Chars(p) == Prepend([PieceChar(first)], s.Chars(p + |PieceText(first)|))
  {
    var x := PieceText(first);
    assert s.text[p..p + |x|] == x;
    assert s.text[p] == x[0];
    if |x| > 1 { assert s.text[p + 1] == x[1]; }
  }

  lemma {:induction false} CharsComplete(s: Source, p: nat, ps: seq<Piece>)
    requires WfBody(ps) && s.At(p, BodyText(ps) + "\"")
    ensures s.Chars(p) == Ok(BodyChars(ps), p + |BodyText(ps)| + 1)
    decreases |ps|
  {
    hide PieceText, PieceChar, WfPiece;
    if ps == [] {
      assert s.At(p, "\"");
      AtChar(s, p, '"');
    } else {
      hide Source.At, Source.Chars;
      var x, rest := PieceText(ps[0]), BodyText(ps[1..]) + "\"";
      assert BodyText(ps) + "\"" == x + rest;
      AtSplit(s, p, x, rest);
      CharsComplete(s, p + |x|, ps[1..]);
      AtInside(s, p + |x|, rest);
      PieceComplete(s, p, ps[0]);
    }
  }

  lemma AtInside(s: Source, p: nat, x: string)
    requires s.At(p, x) && x != ""
    ensures p < |s.text|
  {
  }

  lemma {:induction false} CharsSound(s: Source, p: nat) returns (ps: seq<Piece>)
    requires p <= |s.text| && s.Chars(p).Ok?
    ensures WfBody(ps) && s.At(p, BodyText(ps) + "\"")
    ensures s.Chars(p) == Ok(BodyChars(ps), p + |BodyText(ps)| + 1)
    decreases |s.text| - p
  {
    hide Source.At;
    if s.text[p] == '"' {
      ps := [];
      assert BodyText(ps) + "\"" == "\"";
      AtChar(s, p, '"');
    } else {
      var first := PieceSound(s, p);
      var rest := CharsSound(s, p + |PieceText(first)|);
      ps := [first] + rest;
      assert ps[1..] == rest;
      BodyTextCons(first, rest);
      AtSplit(s, p, PieceText(first), BodyText(rest) + "\"");
      assert BodyText(ps) + "\"" == PieceText(first) + (BodyText(rest) + "\"");
    }
  }

  lemma BodyTextCons(first: Piece, rest: seq<Piece>)
    ensures BodyText([first] + rest) == PieceText(first) + BodyText(rest)
    ensures BodyChars([first] + rest) == [PieceChar(first)] + BodyChars(rest)
  {
    assert ([first] + rest)[1..] == rest;
  }

  /** One turn of the loop of parse_string that does not end it. */
  lemma PieceSound(s: Source, p: nat) returns (first: Piece)
    requires p < |s.text| && s.Chars(p).Ok? && s.text[p] != '"'
    ensures WfPiece(first) && s.At(p, PieceText(first))
    ensures s.Chars(p) == Prepend([PieceChar(first)], s.Chars(p + |PieceText(first)|))
    ensures s.Chars(p + |PieceText(first)|).Ok?
  {
    if s.text[p] != '\\' {
      first := Raw(s.text[p]);
    } else if s.text[p + 1] != 'u' {
      first := Escaped(s.text[p + 1]);
    } else {
      first := Unicode(s.text[p + 2..p + 6]);
      assert s.text[p..p + 6] == ['\\', 'u'] + s.text[p + 2..p + 6];
    }
  }

  lemma StringComplete(s: Source, p: nat, ps: seq<Piece>)
    requires WfBody(ps) && s.At(p, Quoted(ps))
    ensures s.String(p) == Ok(BodyChars(ps), p + |Quoted(ps)|)
    ensures s.SkipWs(p) == p
  {
    AtSplit(s, p, "\"", BodyText(ps) + "\"");
    AtChar(s, p, '"');
    CharsComplete(s, p + 1, ps);
  }

  lemma StringSound(s: Source, p: nat) returns (ps: seq<Piece>)
    requires p <= |s.text| && s.String(p).Ok?
    ensures WfBody(ps) && s.At(p, Quoted(ps))
    ensures s.String(p) == Ok(BodyChars(ps), p + |Quoted(ps)|)
  {
    ps := CharsSound(s, p + 1);
    AtSplit(s, p, "\"", BodyText(ps) + "\"");
  }

  // ------------------------------------------------------------ every grammar text parses

  /** First characters decide the branch of parse_value. */
  lemma FirstChar(c: Cst, stod: string -> bool)
    requires Wf(c, stod)
    ensures Text(c) != "" && !IsWs(Text(c)[0])
    ensures c.NullLit? ==> Text(c)[0] == 'n'
    ensures c.BoolLit? ==> Text(c)[0] == (if c.b then 't' else 'f')
    ensures c.NumberLit? ==> StartsNumber(Text(c)[0])
    ensures c.StringLit? ==> Text(c)[0] == '"'
    ensures c.EmptyArray? || c.ArrayLit? ==> Text(c)[0] == '['
    ensures c.EmptyObject? || c.ObjectLit? ==> Text(c)[0] == '{'
  {
  }

  lemma AtFirst(s: Source, p: nat, x: string)
    requires s.At(p, x) && x != ""
    ensures p < |s.text| && s.text[p] == x[0]
  {
    assert s.text[p] == s.text[p..p + |x|][0];
  }

  lemma LiteralComplete(s: Source, p: nat, c: Cst)
    requires (c.NullLit? || c.BoolLit?) && s.At(p, Text(c))
    ensures s.Literal(p) == Ok(Meaning(c), p + |Text(c)|)
  {
    AtFirst(s, p, Text(c));
    if s.At(p, "true") {
      AtFirst(s, p, "true");
    }
  }

  lemma NumeralComplete(s: Source, p: nat, x: string)
    requires NumberShape(x) && s.stod(x) && s.At(p, x) && Closed(s, NumberLit(x), p + |x|)
    ensures s.text[p] == x[0] && s.Numeral(p) == Ok(Number(x), p + |x|)
  {
    assert forall i :: p <= i < p + |x| ==> s.text[i] == x[i - p] by {
      assert s.text[p..p + |x|] == x;
    }
    NumberEndIs(s, p, p + |x|);
  }

  lemma ArrComplete(s: Source, p: nat, c: Cst)
    requires c.EmptyArray? && Blank(c.blank) && s.At(p, Text(c))
    ensures s.Arr(p) == Ok(Meaning(c), p + |Text(c)|)
  {
    hide Source.Elements, Source.At;
    AtSplit(s, p, "[", c.blank + "]");
    ClosesAt(s, p + 1, c.blank, ']');
  }

  lemma ObjComplete(s: Source, p: nat, c: Cst)
    requires c.EmptyObject? && Blank(c.blank) && s.At(p, Text(c))
    ensures s.Obj(p) == Ok(Meaning(c), p + |Text(c)|)
  {
    hide Source.Members, Source.At;
    AtSplit(s, p, "{", c.blank + "}");
    ClosesAt(s, p + 1, c.blank, '}');
  }

  lemma {:induction false} ValueComplete(s: Source, p: nat, w: string, c: Cst)
    requires Blank(w) && Wf(c, s.stod) && s.At(p, w + Text(c))
    requires Closed(s, c, p + |w| + |Text(c)|)
    ensures s.Value(p) == Ok(Meaning(c), p + |w| + |Text(c)|)
    decreases c, 0
  {
    hide Source.At, Source.Arr, Source.Obj, Source.Members, Source.Elements, Source.String, Source.Literal, Source.Numeral;
    AtSplit(s, p, w, Text(c));
    FirstChar(c, s.stod);
    var q := p + |w|;
    AtFirst(s, q, Text(c));
    SkipsTo(s, p, w);
    match c {
      case NullLit => LiteralComplete(s, q, c);
      case BoolLit(_) => LiteralComplete(s, q, c);
      case NumberLit(x) => NumeralComplete(s, q, x);
      case StringLit(ps) => StringComplete(s, q, ps);
      case EmptyArray(_) => ArrComplete(s, q, c);
      case EmptyObject(_) => ObjComplete(s, q, c);
      case ArrayLit(es) =>
        AtSplit(s, q, "[", ElemsText(es));
        ElemsComplete(s, q + 1, es);
        ArrOf(s, q, es);
      case ObjectLit(ms) =>
        AtSplit(s, q, "{", MembsText(ms));
        MembsComplete(s, q + 1, ms);
        ObjOf(s, q);
    }
  }

  /** Behind the bracket of a non-empty array the elements are read. */
  lemma ArrOf(s: Source, q: nat, es: Elems)
    requires q < |s.text| && WfElems(es, s.stod) && s.At(q + 1, ElemsText(es)) && s.Elements(q + 1).Ok?
    ensures s.Arr(q) == Ok(Array(s.Elements(q + 1).value), s.Elements(q + 1).pos)
  {
    hide Source.At, Source.Elements, Source.SkipWs, Text, ElemsText, Wf;
    ElemsStart(s, q + 1, es, s.stod);
  }

  /** Behind the brace of a non-empty object the members are read. */
  lemma ObjOf(s: Source, q: nat)
    requires q < |s.text| && s.Members(q + 1).Ok?
    requires s.SkipWs(q + 1) < |s.text| && s.text[s.SkipWs(q + 1)] == '"'
    ensures s.Obj(q) == Ok(Object(s.Members(q + 1).value), s.Members(q + 1).pos)
  {
    hide Source.Members, Source.SkipWs;
    MembersSkip(s, q + 1);
  }

  lemma ClosesAt(s: Source, p: nat, b: string, c: char)
    requires Blank(b) && !IsWs(c) && s.At(p, b + [c])
    ensures s.SkipWs(p) == p + |b| < |s.text| && s.text[p + |b|] == c
  {
    AtSplit(s, p, b, [c]);
    AtChar(s, p + |b|, c);
    SkipsTo(s, p, b);
  }

  /** A separator right after a value, or after blanks, ends a numeral. */
  lemma EndsNumeral(s: Source, q: nat, post: string, tail: string)
    requires Blank(post) && tail != "" && !IsNumberChar(tail[0]) && s.At(q, post + tail)
    ensures q < |s.text| && !IsNumberChar(s.text[q])
  {
    AtFirst(s, q, post + tail);
  }

  function ElemsTail(es: Elems): string { if es.LastElem? then "]" else "," + ElemsText(es.rest) }

  /** What stands after a value: blanks, then the separator `tail` begins with. */
  lemma TailAt(s: Source, q: nat, post: string, tail: string)
    requires Blank(post) && tail != "" && !IsNumberChar(tail[0]) && !IsWs(tail[0]) && s.At(q, post + tail)
    ensures q < |s.text| && !IsNumberChar(s.text[q])
    ensures s.SkipWs(q) == q + |post| < |s.text| && s.text[q + |post|] == tail[0]
    ensures s.At(q + |post|, tail)
    ensures s.At(q + |post| + 1, tail[1..])
  {
    EndsNumeral(s, q, post, tail);
    AtSplit(s, q, post, tail);
    AtFirst(s, q + |post|, tail);
    SkipsTo(s, q, post);
    assert tail == [tail[0]] + tail[1..];
    AtSplit(s, q + |post|, [tail[0]], tail[1..]);
  }

  /** A list of elements is its first value and what follows it. */
  lemma ElemsAt(s: Source, p: nat, es: Elems)
    ensures var head, tail := es.pre + Text(es.v), es.post + ElemsTail(es);
            && |ElemsText(es)| == |head| + |tail|
            && (s.At(p, ElemsText(es)) <==> s.At(p, head) && s.At(p + |head|, tail))
  {
    hide Source.At, Text;
    var head, tail := es.pre + Text(es.v), es.post + ElemsTail(es);
    Regroup(es.pre, Text(es.v), tail);
    AtSplit(s, p, head, tail);
  }

  lemma Regroup(a: string, b: string, c: string)
    ensures a + (b + c) == (a + b) + c
  {
  }

  /** The loop of parse_array, one pass. */
  lemma ElementsPass(s: Source, p: nat)
    requires p <= |s.text|
    ensures s.Elements(p).Ok? ==> s.Value(p).Ok?
    ensures s.Value(p).Ok? ==>
              var q := s.Value(p).pos;
              var c := s.SkipWs(q);
              && (s.Elements(p).Ok? ==> c < |s.text| && (s.text[c] == ',' || s.text[c] == ']'))
              && (c < |s.text| && s.text[c] == ',' ==> s.Elements(p) == Prepend([s.Value(p).value], s.Elements(c + 1)))
              && (c < |s.text| && s.text[c] == ']' ==> s.Elements(p) == Ok([s.Value(p).value], c + 1))
  {
    hide Source.Value, Source.SkipWs;
  }

  /** The loop of parse_object, one pass. */
  lemma MembersPass(s: Source, p: nat)
    requires p <= |s.text|
    ensures s.Members(p).Ok? ==> s.Member(p).Ok?
    ensures s.Member(p).Ok? ==>
              var (q, kv) := (s.Member(p).pos, s.Member(p).value);
              var c := s.SkipWs(q);
              && (s.Members(p).Ok? ==> c < |s.text| && (s.text[c] == ',' || s.text[c] == '}'))
              && (c < |s.text| && s.text[c] == ',' ==> s.Members(p) == PrependFields(map[kv.0 := kv.1], s.Members(c + 1)))
              && (c < |s.text| && s.text[c] == '}' ==> s.Members(p) == Ok(map[kv.0 := kv.1], c + 1))
  {
    hide Source.Member, Source.SkipWs;
  }

  lemma {:induction false} ElemsComplete(s: Source, p: nat, es: Elems)
    requires WfElems(es, s.stod) && s.At(p, ElemsText(es))
    ensures s.Elements(p) == Ok(ElemsMeaning(es), p + |ElemsText(es)|)
    decreases es, 1
  {
    hide Source.At, Source.Value, Source.SkipWs, Source.Elements, Text, ElemsMeaning, Meaning, Wf;
    var head, tail := es.pre + Text(es.v), ElemsTail(es);
    ElemsAt(s, p, es);
    TailAt(s, p + |head|, es.post, tail);
    ValueComplete(s, p, es.pre, es.v);
    ElementsPass(s, p);
    ElemsMeaningCons(es);
    if es.MoreElems? {
      assert tail[1..] == ElemsText(es.rest);
      ElemsComplete(s, p + |head| + |es.post| + 1, es.rest);
    }
  }

  /** The first element does not look like the end of the array. */
  lemma ElemsStart(s: Source, p: nat, es: Elems, stod: string -> bool)
    requires WfElems(es, stod) && s.At(p, ElemsText(es))
    ensures s.SkipWs(p) < |s.text| && s.text[s.SkipWs(p)] != ']'
    ensures s.Elements(p) == s.Elements(s.SkipWs(p))
  {
    hide Source.At, Source.Value, Source.SkipWs, Text, ElemsText;
    ElemsAt(s, p, es);
    ValueStart(s, p, es.pre, es.v, stod);
  }

  lemma ElemsMeaningCons(es: Elems)
    ensures es.LastElem? ==> ElemsMeaning(es) == [Meaning(es.v)]
    ensures es.MoreElems? ==> ElemsMeaning(es) == [Meaning(es.v)] + ElemsMeaning(es.rest)
  {
  }

  lemma MembsMeaningCons(ms: Membs)
    ensures var kv := MembMeaning(ms.m);
            && (ms.LastMemb? ==> MembsMeaning(ms) == map[kv.0 := kv.1])
            && (ms.MoreMembs? ==> MembsMeaning(ms) == map[kv.0 := kv.1] + MembsMeaning(ms.rest))
  {
    var kv := MembMeaning(ms.m);
    assert map[kv.0 := kv.1] + map[] == map[kv.0 := kv.1];
  }

  lemma ValueStart(s: Source, p: nat, w: string, c: Cst, stod: string -> bool)
    requires Blank(w) && Wf(c, stod) && s.At(p, w + Text(c))
    ensures s.SkipWs(p) == p + |w| < |s.text| && s.text[p + |w|] == Text(c)[0]
    ensures s.SkipWs(s.SkipWs(p)) == s.SkipWs(p)
    ensures Text(c)[0] != ']' && Text(c)[0] != '}'
    ensures s.Value(p) == s.Value(s.SkipWs(p))
  {
    AtSplit(s, p, w, Text(c));
    FirstChar(c, stod);
    AtFirst(s, p + |w|, Text(c));
    SkipsTo(s, p, w);
  }

  lemma {:induction false} MembComplete(s: Source, p: nat, m: Memb)
    requires WfMemb(m, s.stod) && s.At(p, MembText(m)) && Closed(s, m.v, p + |MembText(m)|)
    ensures s.SkipWs(p) < |s.text| && s.text[s.SkipWs(p)] == '"'
    ensures s.Member(p) == s.Member(s.SkipWs(p)) == Ok(MembMeaning(m), p + |MembText(m)|)
    decreases m, 1
  {
    hide Source.At, Source.Value, Source.String, Text;
    var k := p + |m.pre|;
    var afterKey := m.mid + (":" + (m.gap + Text(m.v)));
    AtSplit(s, p, m.pre, Quoted(m.key) + afterKey);
    AtSplit(s, k, Quoted(m.key), afterKey);
    AtFirst(s, k, Quoted(m.key));
    SkipsTo(s, p, m.pre);
    StringComplete(s, k, m.key);
    var q := k + |Quoted(m.key)|;
    AtSplit(s, q, m.mid, ":" + (m.gap + Text(m.v)));
    var c := q + |m.mid|;
    AtSplit(s, c, ":", m.gap + Text(m.v));
    AtChar(s, c, ':');
    SkipsTo(s, q, m.mid);
    ValueComplete(s, c + 1, m.gap, m.v);
  }

  function MembsTail(ms: Membs): string { if ms.LastMemb? then "}" else "," + MembsText(ms.rest) }

  lemma {:induction false} MembsComplete(s: Source, p: nat, ms: Membs)
    requires WfMembs(ms, s.stod) && s.At(p, MembsText(ms))
    ensures s.SkipWs(p) < |s.text| && s.text[s.SkipWs(p)] == '"'
    ensures s.Members(p) == Ok(MembsMeaning(ms), p + |MembsText(ms)|)
    decreases ms, 2
  {
    hide Source.At, Source.Member, Source.Members, Source.SkipWs, MembText, MembMeaning, MembsMeaning, Text, Meaning, Wf, WfBody;
    var head, tail := MembText(ms.m), MembsTail(ms);
    AtSplit(s, p, head, ms.m.post + tail);
    TailAt(s, p + |head|, ms.m.post, tail);
    MembComplete(s, p, ms.m);
    MembersPass(s, p);
    MembsMeaningCons(ms);
    if ms.MoreMembs? {
      assert tail[1..] == MembsText(ms.rest);
      MembsComplete(s, p + |head| + |ms.m.post| + 1, ms.rest);
    }
  }

  // ------------------------------------------------------------ numerals that stod refuses

  /** Any lexeme at all, so that `Wf(c, Any)` asks nothing of the numerals but their shape. */
  predicate Any(x: string) { true }

  /** std::stod takes every numeral of the writing, those of overwritten members included. */
  predicate NumsTaken(c: Cst, stod: string -> bool) {
    match c
    case NumberLit(x) => stod(x)
    case ArrayLit(es) => ElemsTaken(es, stod)
    case ObjectLit(ms) => MembsTaken(ms, stod)
    case _ => true
  }

  predicate ElemsTaken(es: Elems, stod: string -> bool) {
    NumsTaken(es.v, stod) && (es.MoreElems? ==> ElemsTaken(es.rest, stod))
  }

  predicate MembsTaken(ms: Membs, stod: string -> bool) {
    NumsTaken(ms.m.v, stod) && (ms.MoreMembs? ==> MembsTaken(ms.rest, stod))
  }

  lemma {:induction false} WfIsTaken(c: Cst, stod: string -> bool)
    ensures Wf(c, stod) <==> Wf(c, Any) && NumsTaken(c, stod)
    decreases c
  {
    match c
    case ArrayLit(es) => WfElemsTaken(es, stod);
    case ObjectLit(ms) => WfMembsTaken(ms, stod);
    case _ =>
  }

  lemma {:induction false} WfElemsTaken(es: Elems, stod: string -> bool)
    ensures WfElems(es, stod) <==> WfElems(es, Any) && ElemsTaken(es, stod)
    decreases es
  {
    WfIsTaken(es.v, stod);
    if es.MoreElems? { WfElemsTaken(es.rest, stod); }
  }

  lemma {:induction false} WfMembsTaken(ms: Membs, stod: string -> bool)
    ensures WfMembs(ms, stod) <==> WfMembs(ms, Any) && MembsTaken(ms, stod)
    decreases ms
  {
    WfIsTaken(ms.m.v, stod);
    if ms.MoreMembs? { WfMembsTaken(ms.rest, stod); }
  }

  lemma NumeralFails(s: Source, p: nat, x: string)
    requires NumberShape(x) && !s.stod(x) && s.At(p, x) && Closed(s, NumberLit(x), p + |x|)
    ensures s.text[p] == x[0] && s.Numeral(p).Fail?
  {
    assert forall i :: p <= i < p + |x| ==> s.text[i] == x[i - p] by {
      assert s.text[p..p + |x|] == x;
    }
    NumberEndIs(s, p, p + |x|);
  }

  /** A writing with such a numeral is refused. */
  lemma {:induction false} ValueFails(s: Source, p: nat, w: string, c: Cst)
    requires Blank(w) && Wf(c, Any) && !NumsTaken(c, s.stod) && s.At(p, w + Text(c))
    requires Closed(s, c, p + |w| + |Text(c)|)
    ensures s.Value(p).Fail?
    decreases c, 0
  {
    hide Source.At, Source.Members, Source.Elements, Source.String, Source.Literal, Source.Numeral, Meaning;
    AtSplit(s, p, w, Text(c));
    FirstChar(c, Any);
    var q := p + |w|;
    AtFirst(s, q, Text(c));
    SkipsTo(s, p, w);
    match c {
      case NumberLit(x) => NumeralFails(s, q, x);
      case ArrayLit(es) =>
        AtSplit(s, q, "[", ElemsText(es));
        ElemsStart(s, q + 1, es, Any);
        ElemsFail(s, q + 1, es);
      case ObjectLit(ms) =>
        AtSplit(s, q, "{", MembsText(ms));
        MembersSkip(s, q + 1);
        MembsFail(s, q + 1, ms);
    }
  }

  lemma {:induction false} ElemsFail(s: Source, p: nat, es: Elems)
    requires WfElems(es, Any) && !ElemsTaken(es, s.stod) && s.At(p, ElemsText(es))
    ensures s.Elements(p).Fail?
    decreases es, 1
  {
    hide Source.At, Source.Value, Source.SkipWs, Source.Elements, Text, Meaning, Wf, NumsTaken;
    var head, tail := es.pre + Text(es.v), ElemsTail(es);
    ElemsAt(s, p, es);
    TailAt(s, p + |head|, es.post, tail);
    ElementsPass(s, p);
    if NumsTaken(es.v, s.stod) {
      WfIsTaken(es.v, s.stod);
      ValueComplete(s, p, es.pre, es.v);
      assert tail[1..] == ElemsText(es.rest);
      ElemsFail(s, p + |head| + |es.post| + 1, es.rest);
    } else {
      ValueFails(s, p, es.pre, es.v);
    }
  }

  /** Key and colon of a member are read, and its value is what is left. */
  lemma MembStart(s: Source, p: nat, m: Memb)
    requires WfMemb(m, Any) && s.At(p, MembText(m))
    ensures s.SkipWs(p) < |s.text| && s.text[s.SkipWs(p)] == '"'
    ensures var c := p + |MembText(m)| - |m.gap + Text(m.v)|;
            0 <= c <= |s.text| && s.At(c, m.gap + Text(m.v)) && (s.Value(c).Fail? ==> s.Member(p).Fail?)
  {
    hide Source.At, Source.Value, Source.String, Text;
    var k := p + |m.pre|;
    var afterKey := m.mid + (":" + (m.gap + Text(m.v)));
    AtSplit(s, p, m.pre, Quoted(m.key) + afterKey);
    AtSplit(s, k, Quoted(m.key), afterKey);
    AtFirst(s, k, Quoted(m.key));
    SkipsTo(s, p, m.pre);
    StringComplete(s, k, m.key);
    var q := k + |Quoted(m.key)|;
    AtSplit(s, q, m.mid, ":" + (m.gap + Text(m.v)));
    var c := q + |m.mid|;
    AtSplit(s, c, ":", m.gap + Text(m.v));
    AtChar(s, c, ':');
    SkipsTo(s, q, m.mid);
  }

  lemma {:induction false} MembFails(s: Source, p: nat, m: Memb)
    requires WfMemb(m, Any) && !NumsTaken(m.v, s.stod) && s.At(p, MembText(m)) && Closed(s, m.v, p + |MembText(m)|)
    ensures s.Member(p).Fail?
    decreases m, 1
  {
    hide Source.At, Source.Member, Source.Value, Text, NumsTaken, MembText;
    MembStart(s, p, m);
    ValueFails(s, p + |MembText(m)| - |m.gap + Text(m.v)|, m.gap, m.v);
  }

  lemma {:induction false} MembsFail(s: Source, p: nat, ms: Membs)
    requires WfMembs(ms, Any) && !MembsTaken(ms, s.stod) && s.At(p, MembsText(ms))
    ensures s.SkipWs(p) < |s.text| && s.text[s.SkipWs(p)] == '"'
    ensures s.Members(p).Fail?
    decreases ms, 2
  {
    hide Source.At, Source.Member, Source.Members, Source.SkipWs, MembText, MembMeaning, Text, Meaning, Wf, WfBody, NumsTaken;
    var head, tail := MembText(ms.m), MembsTail(ms);
    AtSplit(s, p, head, ms.m.post + tail);
    TailAt(s, p + |head|, ms.m.post, tail);
    MembStart(s, p, ms.m);
    MembersPass(s, p);
    if NumsTaken(ms.m.v, s.stod) {
      WfIsTaken(ms.m.v, s.stod);
      MembComplete(s, p, ms.m);
      assert tail[1..] == MembsText(ms.rest);
      MembsFail(s, p + |head| + |ms.m.post| + 1, ms.rest);
    } else {
      MembFails(s, p, ms.m);
    }
  }

  // ------------------------------------------------------------ every parsed text is in the grammar

  lemma SkipTwice(s: Source, p: nat)
    requires p <= |s.text|
    ensures s.SkipWs(s.SkipWs(p)) == s.SkipWs(p)
  {
    SkippedIsBlank(s, p);
  }

  lemma LiteralSound(s: Source, p: nat) returns (c: Cst)
    requires p < |s.text| && s.Literal(p).Ok?
    ensures Wf(c, s.stod) && !c.NumberLit? && s.At(p, Text(c))
    ensures s.Literal(p) == Ok(Meaning(c), p + |Text(c)|)
  {
    c := if s.text[p] == 'n' then NullLit else BoolLit(s.At(p, "true"));
  }

  lemma NumeralSound(s: Source, p: nat) returns (c: Cst)
    requires p < |s.text| && StartsNumber(s.text[p]) && s.Numeral(p).Ok?
    ensures Wf(c, s.stod) && s.At(p, Text(c)) && Closed(s, c, p + |Text(c)|)
    ensures s.Numeral(p) == Ok(Meaning(c), p + |Text(c)|)
  {
    NumberEndScans(s, p);
    c := NumberLit(s.text[p..s.NumberEnd(p)]);
  }

  lemma ArrEmptySound(s: Source, p: nat) returns (c: Cst)
    requires p < |s.text| && s.text[p] == '['
    requires s.SkipWs(p + 1) < |s.text| && s.text[s.SkipWs(p + 1)] == ']'
    ensures Wf(c, s.stod) && !c.NumberLit? && s.At(p, Text(c))
    ensures s.Arr(p) == Ok(Meaning(c), p + |Text(c)|)
  {
    hide Source.Elements, Source.At, Source.SkipWs;
    SkippedIsBlank(s, p + 1);
    var q := s.SkipWs(p + 1);
    var b := s.text[p + 1..q];
    c := EmptyArray(b);
    AtChar(s, p, '[');
    AtChar(s, q, ']');
    AtSplit(s, p, "[", b + "]");
    AtSplit(s, p + 1, b, "]");
  }

  lemma ObjEmptySound(s: Source, p: nat) returns (c: Cst)
    requires p < |s.text| && s.text[p] == '{'
    requires s.SkipWs(p + 1) < |s.text| && s.text[s.SkipWs(p + 1)] == '}'
    ensures Wf(c, s.stod) && !c.NumberLit? && s.At(p, Text(c))
    ensures s.Obj(p) == Ok(Meaning(c), p + |Text(c)|)
  {
    hide Source.Members, Source.At, Source.SkipWs;
    SkippedIsBlank(s, p + 1);
    var q := s.SkipWs(p + 1);
    var b := s.text[p + 1..q];
    c := EmptyObject(b);
    AtChar(s, p, '{');
    AtChar(s, q, '}');
    AtSplit(s, p, "{", b + "}");
    AtSplit(s, p + 1, b, "}");
  }

  lemma {:induction false} ArrSound(s: Source, p: nat) returns (c: Cst)
    requires p < |s.text| && s.text[p] == '[' && s.Arr(p).Ok?
    ensures Wf(c, s.stod) && !c.NumberLit? && s.At(p, Text(c)) && s.Arr(p) == Ok(Meaning(c), p + |Text(c)|)
    decreases |s.text| - p, 0
  {
    hide Source.At, Source.Elements, Source.SkipWs, WfElems;
    if s.SkipWs(p + 1) < |s.text| && s.text[s.SkipWs(p + 1)] == ']' {
      c := ArrEmptySound(s, p);
    } else {
      ElementsSkip(s, p + 1);
      var es := ElemsSound(s, p + 1);
      c := ArrayLit(es);
      AtSplit(s, p, "[", ElemsText(es));
      AtChar(s, p, '[');
    }
  }

  lemma {:induction false} ObjSound(s: Source, p: nat) returns (c: Cst)
    requires p < |s.text| && s.text[p] == '{' && s.Obj(p).Ok?
    ensures Wf(c, s.stod) && !c.NumberLit? && s.At(p, Text(c)) && s.Obj(p) == Ok(Meaning(c), p + |Text(c)|)
    decreases |s.text| - p, 0
  {
    hide Source.At, Source.Members, Source.SkipWs, WfMembs;
    if s.SkipWs(p + 1) < |s.text| && s.text[s.SkipWs(p + 1)] == '}' {
      c := ObjEmptySound(s, p);
    } else {
      MembersSkip(s, p + 1);
      var ms := MembsSound(s, p + 1);
      c := ObjectLit(ms);
      AtSplit(s, p, "{", MembsText(ms));
      AtChar(s, p, '{');
    }
  }

  lemma {:induction false} ValueSound(s: Source, p: nat) returns (w: string, c: Cst)
    requires p <= |s.text| && s.Value(p).Ok?
    ensures Blank(w) && Wf(c, s.stod) && s.At(p, w + Text(c))
    ensures Closed(s, c, p + |w| + |Text(c)|)
    ensures s.Value(p) == Ok(Meaning(c), p + |w| + |Text(c)|)
    decreases |s.text| - p, 1
  {
    hide Source.At, Source.Arr, Source.Obj, Source.String, Source.Literal, Source.Numeral, WfElems, WfMembs;
    var q := s.SkipWs(p);
    SkippedIsBlank(s, p);
    w := s.text[p..q];
    if s.text[q] == '[' {
      c := ArrSound(s, q);
    } else if s.text[q] == '{' {
      c := ObjSound(s, q);
    } else if s.text[q] == '"' {
      var ps := StringSound(s, q);
      c := StringLit(ps);
    } else if StartsNumber(s.text[q]) {
      c := NumeralSound(s, q);
    } else {
      c := LiteralSound(s, q);
    }
    AtSplit(s, p, w, Text(c));
  }

  lemma ValueSkip(s: Source, p: nat)
    requires p <= |s.text|
    ensures s.Value(s.SkipWs(p)) == s.Value(p)
  {
    hide Source.Obj, Source.Arr, Source.String, Source.Literal, Source.Numeral;
    SkipTwice(s, p);
  }

  lemma ElementsSkip(s: Source, p: nat)
    requires p <= |s.text|
    ensures s.Elements(s.SkipWs(p)) == s.Elements(p)
  {
    hide Source.Value, Source.SkipWs;
    ValueSkip(s, p);
  }

  lemma MembersSkip(s: Source, p: nat)
    requires p <= |s.text|
    ensures s.Members(s.SkipWs(p)) == s.Members(p)
  {
    hide Source.Value, Source.SkipWs, Source.String;
    SkipTwice(s, p);
  }

  /** Blanks then one separator, seen from the end of a value. */
  lemma TailSound(s: Source, q: nat, c: char, rest: string)
    requires q <= |s.text| && s.SkipWs(q) < |s.text| && s.text[s.SkipWs(q)] == c && s.At(s.SkipWs(q) + 1, rest)
    ensures Blank(s.text[q..s.SkipWs(q)]) && s.At(q, s.text[q..s.SkipWs(q)] + ([c] + rest))
  {
    SkippedIsBlank(s, q);
    AtSplit(s, s.SkipWs(q), [c], rest);
    AtSplit(s, q, s.text[q..s.SkipWs(q)], [c] + rest);
  }

  lemma {:induction false} ElemsSound(s: Source, p: nat) returns (es: Elems)
    requires p <= |s.text| && s.Elements(p).Ok?
    ensures WfElems(es, s.stod) && s.At(p, ElemsText(es))
    ensures s.Elements(p) == Ok(ElemsMeaning(es), p + |ElemsText(es)|)
    decreases |s.text| - p, 2
  {
    hide Source.At, Source.Value, Source.Elements, Source.SkipWs, Text, Meaning, ElemsMeaning, Wf;
    ElementsPass(s, p);
    var w, v := ValueSound(s, p);
    var q := s.Value(p).pos;
    var post := s.text[q..s.SkipWs(q)];
    var after: string;
    if s.text[s.SkipWs(q)] == ',' {
      var rest := ElemsSound(s, s.SkipWs(q) + 1);
      es := MoreElems(w, v, post, rest);
      after := ElemsText(rest);
      TailSound(s, q, ',', after);
    } else {
      es := LastElem(w, v, post);
      after := "";
      TailSound(s, q, ']', after);
      assert [']'] + "" == "]";
    }
    ElemsMeaningCons(es);
    ElemsAt(s, p, es);
  }

  lemma {:induction false} MembSound(s: Source, p: nat, post: string) returns (m: Memb)
    requires p <= |s.text| && s.Member(p).Ok? && Blank(post)
    ensures WfMemb(m, s.stod) && m.post == post && s.At(p, MembText(m)) && Closed(s, m.v, p + |MembText(m)|)
    ensures s.Member(p) == Ok(MembMeaning(m), p + |MembText(m)|)
    decreases |s.text| - p, 2
  {
    hide Source.At, Source.Value, Source.String, Source.SkipWs, Text, Meaning, Wf, BodyText, BodyChars;
    var k := s.SkipWs(p);
    SkippedIsBlank(s, p);
    var key := StringSound(s, k);
    var q := s.String(k).pos;
    var c := s.SkipWs(q);
    SkippedIsBlank(s, q);
    var gap, v := ValueSound(s, c + 1);
    var pre, mid := s.text[p..k], s.text[q..c];
    m := Memb(pre, key, mid, gap, v, post);
    AtChar(s, c, ':');
    AtSplit(s, c, ":", gap + Text(v));
    AtSplit(s, q, mid, ":" + (gap + Text(v)));
    AtSplit(s, k, Quoted(key), mid + (":" + (gap + Text(v))));
    AtSplit(s, p, pre, Quoted(key) + (mid + (":" + (gap + Text(v)))));
  }

  lemma {:induction false} MembsSound(s: Source, p: nat) returns (ms: Membs)
    requires p <= |s.text| && s.Members(p).Ok?
    ensures WfMembs(ms, s.stod) && s.At(p, MembsText(ms))
    ensures s.Members(p) == Ok(MembsMeaning(ms), p + |MembsText(ms)|)
    decreases |s.text| - p, 3
  {
    hide Source.At, Source.Member, Source.Members, Source.SkipWs, MembText, MembMeaning, MembsMeaning, WfMemb;
    MembersPass(s, p);
    var q := s.Member(p).pos;
    SkippedIsBlank(s, q);
    var m := MembSound(s, p, s.text[q..s.SkipWs(q)]);
    if s.text[s.SkipWs(q)] == ',' {
      var rest := MembsSound(s, s.SkipWs(q) + 1);
      ms := MoreMembs(m, rest);
      TailSound(s, q, ',', MembsText(rest));
    } else {
      ms := LastMemb(m);
      TailSound(s, q, '}', "");
      assert ['}'] + "" == "}";
    }
    MembsMeaningCons(ms);
    AtSplit(s, p, MembText(m), m.post + MembsTail(ms));
  }

  // ------------------------------------------------------------ main results

  /** `v` is written at `p`, after blanks, and ends at `q`. */
  ghost predicate Written(s: Source, p: nat, v: Json, q: nat) {
    exists w: string, c: Cst ::
      Blank(w) && Wf(c, s.stod) && s.At(p, w + Text(c)) && Closed(s, c, q) && v == Meaning(c) && q == p + |w| + |Text(c)|
  }

  /** On any text, parse succeeds with `v` and stops at `q` exactly when the text begins
      with a writing of `v` that ends at `q`. */
  lemma ParsesExactlyTheGrammar(s: Source, v: Json, q: nat)
    ensures s.Parse() == Ok(v, q) <==> Written(s, 0, v, q)
  {
    hide Source.Value, Source.SkipWs, Source.At, Text, Wf, Meaning;
    SkipTwice(s, 0);
    ValueSkip(s, 0);
    if s.Parse() == Ok(v, q) {
      var w, c := ValueSound(s, 0);
    }
    if Written(s, 0, v, q) {
      var w: string, c: Cst :| Blank(w) && Wf(c, s.stod) && s.At(0, w + Text(c)) && Closed(s, c, q)
                               && v == Meaning(c) && q == 0 + |w| + |Text(c)|;
      ValueComplete(s, 0, w, c);
    }
  }

  /** Each writing of a tree, with any blanks and escapes, parses to the tree and the parser
      stops exactly at its end, whatever follows. */
  lemma PrintThenParse(c: Cst, w: string, tail: string, stod: string -> bool)
    requires Blank(w) && Wf(c, stod)
    requires c.NumberLit? ==> tail == "" || !IsNumberChar(tail[0])
    ensures Source(w + Text(c) + tail, stod).Parse() == Ok(Meaning(c), |w| + |Text(c)|)
  {
    var s := Source(w + Text(c) + tail, stod);
    assert s.At(0, w + Text(c));
    ValueComplete(s, 0, w, c);
    ValueSkip(s, 0);
  }

  /** A text of the right shape parses exactly when std::stod takes each of its numerals. */
  lemma NumeralsDecide(c: Cst, w: string, tail: string, stod: string -> bool)
    requires Blank(w) && Wf(c, Any)
    requires c.NumberLit? ==> tail == "" || !IsNumberChar(tail[0])
    ensures var r := Source(w + Text(c) + tail, stod).Parse();
            if NumsTaken(c, stod) then r == Ok(Meaning(c), |w| + |Text(c)|) else r.Fail?
  {
    hide Wf, NumsTaken, Text, Source.Value, Source.SkipWs;
    if NumsTaken(c, stod) {
      WfIsTaken(c, stod);
      PrintThenParse(c, w, tail, stod);
    } else {
      var s := Source(w + Text(c) + tail, stod);
      assert s.At(0, w + Text(c));
      ValueFails(s, 0, w, c);
      ValueSkip(s, 0);
    }
  }
}
