/** Which trees have a text at all, which have a text of RFC 8259, and how the RFC's texts
    (sections 2 to 7) sit inside the larger language the parser takes. */
module JsonPrinter {
  import opened JsonGrammar
  import opened JsonParser
  import opened JsonWriter
  import opened Strings

  // ------------------------------------------------------------ every tree has a writing

  /** Each number of the tree is a numeral std::stod takes. */
  predicate Numerals(v: Json, stod: string -> bool) {
    match v
    case Number(x) => NumberShape(x) && stod(x)
    case Array(vs) => forall i :: 0 <= i < |vs| ==> Numerals(vs[i], stod)
    case Object(m) => forall k :: k in m ==> Numerals(m[k], stod)
    case _ => true
  }

  /** A control byte without a short escape is written as it is; the RFC has only `\u` for it. */
  function PlainPiece(c: char): Piece { if Lossy(c) then Raw(c) else PieceFor(c) }

  function PlainPieces(s: string): seq<Piece> { if s == "" then [] else [PlainPiece(s[0])] + PlainPieces(s[1..]) }

  /** A tree with an item or a member a line, the members in the order of std::map. */
  ghost function Writing(v: Json): Cst {
    match v
    case Null => NullLit
    case Bool(b) => BoolLit(b)
    case Number(x) => NumberLit(x)
    case Str(s) => StringLit(PlainPieces(s))
    case Array(vs) => JArray("", "", "", seq(|vs|, i requires 0 <= i < |vs| => Writing(vs[i])))
    case Object(m) =>
      var ks := Ordered(m.Keys);
      OrderedIsPermutation(m.Keys);
      JObject("", "", "", seq(|ks|, i requires 0 <= i < |ks| => Field(PlainPieces(ks[i]), Writing(m[ks[i]]))))
  }

  lemma PlainPieceReads(c: char)
    ensures WfPiece(PlainPiece(c)) && PieceChar(PlainPiece(c)) == c && (!Lossy(c) ==> RfcPiece(PlainPiece(c)))
  {
  }

  lemma {:induction false} PlainReads(s: string)
    ensures WfBody(PlainPieces(s)) && BodyChars(PlainPieces(s)) == s
    ensures Clean(s) ==> RfcBody(PlainPieces(s))
  {
    hide PlainPiece, WfPiece, RfcPiece, PieceChar;
    if s != "" {
      PlainPieceReads(s[0]);
      PlainReads(s[1..]);
      assert PlainPieces(s)[1..] == PlainPieces(s[1..]);
      assert s == [s[0]] + s[1..];
    }
  }

  lemma {:induction false} ItemsAre(cs: seq<Cst>, vs: seq<Json>)
    requires |cs| == |vs| && forall i :: 0 <= i < |vs| ==> Meaning(cs[i]) == vs[i]
    ensures ItemsMeaning(cs) == vs
  {
    hide Meaning;
    if vs != [] {
      ItemsAre(cs[1..], vs[1..]);
      assert vs == [vs[0]] + vs[1..];
    }
  }

  lemma {:induction false} FieldsAre(fs: seq<Field>, ks: seq<string>, m: map<string, Json>)
    requires |fs| == |ks|
    requires forall i :: 0 <= i < |ks| ==> ks[i] in m && BodyChars(fs[i].key) == ks[i] && Meaning(fs[i].v) == m[ks[i]]
    ensures FieldsMeaning(fs) == map k | k in ks :: m[k]
  {
    hide Meaning, BodyChars;
    if ks != [] {
      FieldsAre(fs[1..], ks[1..], m);
      assert ks == [ks[0]] + ks[1..];
    }
  }

  lemma {:induction false} WritingReads(v: Json, stod: string -> bool)
    requires Numerals(v, stod)
    ensures Wf(Writing(v), stod) && Meaning(Writing(v)) == v
  {
    hide Wf, Meaning, JArray, JObject;
    match v
    case Array(vs) =>
      var cs := seq(|vs|, i requires 0 <= i < |vs| => Writing(vs[i]));
      forall i | 0 <= i < |vs| ensures Wf(cs[i], stod) && Meaning(cs[i]) == vs[i] {
        WritingReads(vs[i], stod);
      }
      ItemsAre(cs, vs);
      JArrayReads("", "", "", cs, stod);
    case Object(m) => ObjectWritingReads(m, stod);
    case _ => LeafWritingReads(v, stod);
  }

  lemma LeafWritingReads(v: Json, stod: string -> bool)
    requires Numerals(v, stod) && !v.Array? && !v.Object?
    ensures Wf(Writing(v), stod) && Meaning(Writing(v)) == v
  {
    if v.Str? { PlainReads(v.s); }
  }

  lemma {:induction false} ObjectWritingReads(m: map<string, Json>, stod: string -> bool)
    requires Numerals(Object(m), stod)
    ensures Wf(Writing(Object(m)), stod) && Meaning(Writing(Object(m))) == Object(m)
    decreases Object(m), 0
  {
    hide Wf, Meaning, JObject, BodyChars;
    var ks := Ordered(m.Keys);
    OrderedIsPermutation(m.Keys);
    var fs := seq(|ks|, i requires 0 <= i < |ks| => Field(PlainPieces(ks[i]), Writing(m[ks[i]])));
    forall i | 0 <= i < |ks|
      ensures WfBody(fs[i].key) && BodyChars(fs[i].key) == ks[i] && Wf(fs[i].v, stod) && Meaning(fs[i].v) == m[ks[i]]
    {
      PlainReads(ks[i]);
      WritingReads(m[ks[i]], stod);
    }
    FieldsAre(fs, ks, m);
    assert m == map k | k in ks :: m[k];
    JObjectReads("", "", "", fs, stod);
  }

  lemma {:induction false} MeaningNumerals(c: Cst, stod: string -> bool)
    requires Wf(c, stod)
    ensures Numerals(Meaning(c), stod)
    decreases c
  {
    match c
    case ArrayLit(es) => ElemsNumerals(es, stod);
    case ObjectLit(ms) => MembsNumerals(ms, stod);
    case _ =>
  }

  lemma {:induction false} ElemsNumerals(es: Elems, stod: string -> bool)
    requires WfElems(es, stod)
    ensures Numerals(Array(ElemsMeaning(es)), stod)
    decreases es
  {
    MeaningNumerals(es.v, stod);
    if es.MoreElems? { ElemsNumerals(es.rest, stod); }
  }

  lemma {:induction false} MembsNumerals(ms: Membs, stod: string -> bool)
    requires WfMembs(ms, stod)
    ensures Numerals(Object(MembsMeaning(ms)), stod)
    decreases ms
  {
    MeaningNumerals(ms.m.v, stod);
    if ms.MoreMembs? { MembsNumerals(ms.rest, stod); }
  }

  /** A tree has a text exactly when std::stod takes its numerals. */
  lemma WritableIffNumerals(v: Json, stod: string -> bool)
    ensures Numerals(v, stod) <==> exists c :: Wf(c, stod) && Meaning(c) == v
  {
    hide Wf, Meaning, Numerals, Writing;
    if Numerals(v, stod) {
      WritingReads(v, stod);
    }
    if c :| Wf(c, stod) && Meaning(c) == v {
      MeaningNumerals(c, stod);
    }
  }

  /** Every such tree is read back from its text, which ends where the parser stops, after any
      blanks and whatever follows. */
  lemma EveryTreeReadsBack(v: Json, w: string, tail: string, stod: string -> bool)
    requires Numerals(v, stod) && Blank(w)
    requires v.Number? ==> tail == "" || !IsNumberChar(tail[0])
    ensures Source(w + Text(Writing(v)) + tail, stod).Parse() == Ok(v, |w| + |Text(Writing(v))|)
  {
    hide Text, Source.Parse, Wf;
    WritingReads(v, stod);
    PrintThenParse(Writing(v), w, tail, stod);
  }

  // ------------------------------------------------------------ RFC 8259

  /** Section 7: a character as it is, a two-character escape, or `\u` and four hex digits. */
  predicate RfcPiece(p: Piece) {
    match p
    case Raw(c) => c >= ' ' && c != '"' && c != '\\'
    case Escaped(c) => c in "\"\\/bfnrt"
    case Unicode(hex) => |hex| == 4 && forall i :: 0 <= i < 4 ==> IsHex(hex[i])
  }

  predicate IsHex(c: char) { IsDigit(c) || 'a' <= c <= 'f' || 'A' <= c <= 'F' }

  predicate RfcBody(ps: seq<Piece>) { forall i :: 0 <= i < |ps| ==> RfcPiece(ps[i]) }

  /** Section 6: sign, integer part without leading zeros, fraction, exponent. */
  datatype Numeral = Numeral(minus: bool, whole: string, frac: Option<string>, exp: Option<(char, string, string)>) {
    predicate Valid() {
      && whole != "" && AllDigits(whole) && (whole[0] == '0' ==> |whole| == 1)
      && (frac.Some? ==> frac.value != "" && AllDigits(frac.value))
      && (exp.Some? ==>
            && (exp.value.0 == 'e' || exp.value.0 == 'E')
            && (exp.value.1 == "" || exp.value.1 == "+" || exp.value.1 == "-")
            && exp.value.2 != "" && AllDigits(exp.value.2))
    }

    function Text(): string {
      (if minus then "-" else "") + whole + (if frac.Some? then "." + frac.value else "")
      + (if exp.Some? then [exp.value.0] + exp.value.1 + exp.value.2 else "")
    }
  }

  ghost predicate RfcNumber(x: string) { exists n: Numeral :: n.Valid() && x == n.Text() }

  /** A value of RFC 8259. A blank is the RFC's white space. */
  ghost predicate Rfc(c: Cst) {
    match c
    case NullLit => true
    case BoolLit(_) => true
    case NumberLit(x) => RfcNumber(x)
    case StringLit(ps) => RfcBody(ps)
    case EmptyArray(w) => Blank(w)
    case ArrayLit(es) => RfcElems(es)
    case EmptyObject(w) => Blank(w)
    case ObjectLit(ms) => RfcMembs(ms)
  }

  ghost predicate RfcElems(es: Elems) {
    Blank(es.pre) && Rfc(es.v) && Blank(es.post) && (es.MoreElems? ==> RfcElems(es.rest))
  }

  ghost predicate RfcMembs(ms: Membs) {
    && Blank(ms.m.pre) && RfcBody(ms.m.key) && Blank(ms.m.mid) && Blank(ms.m.gap) && Rfc(ms.m.v) && Blank(ms.m.post)
    && (ms.MoreMembs? ==> RfcMembs(ms.rest))
  }

  predicate NumberChars(x: string) { forall i :: 0 <= i < |x| ==> IsNumberChar(x[i]) }

  lemma NumberCharsAppend(a: string, b: string)
    requires NumberChars(a) && NumberChars(b)
    ensures NumberChars(a + b)
  {
  }

  lemma RfcNumberShape(x: string)
    requires RfcNumber(x)
    ensures NumberShape(x)
  {
    hide NumberChars;
    var n: Numeral :| n.Valid() && x == n.Text();
    var sign, frac := if n.minus then "-" else "", if n.frac.Some? then "." + n.frac.value else "";
    var exp := if n.exp.Some? then [n.exp.value.0] + n.exp.value.1 + n.exp.value.2 else "";
    assert NumberChars(sign) && NumberChars(n.whole) && NumberChars(frac) && NumberChars(exp) by { NumeralChars(n); }
    NumberCharsAppend(sign, n.whole);
    NumberCharsAppend(sign + n.whole, frac);
    NumberCharsAppend(sign + n.whole + frac, exp);
    assert NumberChars(x) && x[0] == (if n.minus then '-' else n.whole[0]);
    NumberCharsAre(x);
  }

  lemma NumberCharsAre(x: string)
    requires NumberChars(x)
    ensures forall i :: 0 <= i < |x| ==> IsNumberChar(x[i])
  {
  }

  lemma NumeralChars(n: Numeral)
    requires n.Valid()
    ensures NumberChars(if n.minus then "-" else "") && NumberChars(n.whole)
    ensures NumberChars(if n.frac.Some? then "." + n.frac.value else "")
    ensures NumberChars(if n.exp.Some? then [n.exp.value.0] + n.exp.value.1 + n.exp.value.2 else "")
  {
  }

  lemma {:induction false} RfcIsWf(c: Cst)
    requires Rfc(c)
    ensures Wf(c, Any)
    decreases c
  {
    hide RfcNumber;
    match c
    case NumberLit(x) => RfcNumberShape(x);
    case ArrayLit(es) => RfcElemsWf(es);
    case ObjectLit(ms) => RfcMembsWf(ms);
    case _ =>
  }

  lemma {:induction false} RfcElemsWf(es: Elems)
    requires RfcElems(es)
    ensures WfElems(es, Any)
    decreases es
  {
    RfcIsWf(es.v);
    if es.MoreElems? { RfcElemsWf(es.rest); }
  }

  lemma {:induction false} RfcMembsWf(ms: Membs)
    requires RfcMembs(ms)
    ensures WfMembs(ms, Any)
    decreases ms
  {
    RfcIsWf(ms.m.v);
    if ms.MoreMembs? { RfcMembsWf(ms.rest); }
  }

  /** A text of RFC 8259, white space around its value included, is taken with its meaning
      exactly when std::stod takes each of its numerals, and refused otherwise. */
  lemma RfcTextsParse(c: Cst, w: string, after: string, stod: string -> bool)
    requires Rfc(c) && Blank(w) && Blank(after)
    ensures var r := Source(w + Text(c) + after, stod).Parse();
            if NumsTaken(c, stod) then r == Ok(Meaning(c), |w| + |Text(c)|) else r.Fail?
  {
    hide Rfc, Wf, Meaning, Text, NumsTaken, Source.Parse;
    RfcIsWf(c);
    NumeralsDecide(c, w, after, stod);
  }

  /** std::stod takes no number beyond the range of a double, so not every RFC text is taken. */
  lemma HugeNumberRefused(stod: string -> bool)
    requires !stod("1e400")
    ensures Rfc(NumberLit("1e400")) && Source("1e400", stod).Parse().Fail?
  {
    hide Source.Parse;
    var x, n := "1e400", Numeral(false, "1", None, Some(('e', "", "400")));
    assert n.Valid() && x == n.Text();
    RfcTextsParse(NumberLit(x), "", "", stod);
    assert "" + x + "" == x;
  }

  /** Trees that an RFC 8259 text can give: the parser makes a question mark of every `\u`, so
      the control bytes that have no other escape are out of reach. */
  ghost predicate RfcTree(v: Json) {
    match v
    case Number(x) => RfcNumber(x)
    case Str(s) => Clean(s)
    case Array(vs) => forall i :: 0 <= i < |vs| ==> RfcTree(vs[i])
    case Object(m) => forall k :: k in m ==> Clean(k) && RfcTree(m[k])
    case _ => true
  }

  lemma {:induction false} RfcChars(ps: seq<Piece>)
    requires RfcBody(ps)
    ensures Clean(BodyChars(ps))
  {
    if ps != [] { RfcChars(ps[1..]); }
  }

  lemma {:induction false} RfcMeaning(c: Cst)
    requires Rfc(c)
    ensures RfcTree(Meaning(c))
    decreases c
  {
    hide RfcNumber;
    match c
    case StringLit(ps) => RfcChars(ps);
    case ArrayLit(es) => RfcElemsMeaning(es);
    case ObjectLit(ms) => RfcMembsMeaning(ms);
    case _ =>
  }

  lemma {:induction false} RfcElemsMeaning(es: Elems)
    requires RfcElems(es)
    ensures RfcTree(Array(ElemsMeaning(es)))
    decreases es
  {
    RfcMeaning(es.v);
    if es.MoreElems? { RfcElemsMeaning(es.rest); }
  }

  lemma {:induction false} RfcMembsMeaning(ms: Membs)
    requires RfcMembs(ms)
    ensures RfcTree(Object(MembsMeaning(ms)))
    decreases ms
  {
    RfcChars(ms.m.key);
    RfcMeaning(ms.m.v);
    if ms.MoreMembs? { RfcMembsMeaning(ms.rest); }
  }

  lemma {:induction false} ElemsRfc(pre: string, post: string, cs: seq<Cst>)
    requires Blank(pre) && Blank(post) && cs != [] && forall i :: 0 <= i < |cs| ==> Rfc(cs[i])
    ensures RfcElems(ElemsOf(pre, post, cs))
  {
    hide Rfc;
    if |cs| > 1 { ElemsRfc(pre, post, cs[1..]); }
  }

  lemma RfcArray(cs: seq<Cst>)
    requires forall i :: 0 <= i < |cs| ==> Rfc(cs[i])
    ensures Rfc(JArray("", "", "", cs))
  {
    hide RfcElems;
    if cs != [] { ElemsRfc("\n", "\n", cs); }
    assert "\n" + "" == "\n";
  }

  lemma {:induction false} MembsRfc(pre: string, post: string, fs: seq<Field>)
    requires Blank(pre) && Blank(post) && fs != []
    requires forall i :: 0 <= i < |fs| ==> RfcBody(fs[i].key) && Rfc(fs[i].v)
    ensures RfcMembs(MembsOf(pre, post, fs))
  {
    hide Rfc;
    if |fs| > 1 { MembsRfc(pre, post, fs[1..]); }
  }

  lemma RfcObject(fs: seq<Field>)
    requires forall i :: 0 <= i < |fs| ==> RfcBody(fs[i].key) && Rfc(fs[i].v)
    ensures Rfc(JObject("", "", "", fs))
  {
    hide RfcMembs;
    if fs != [] { MembsRfc("\n", "\n", fs); }
    assert "\n" + "" == "\n";
  }

  lemma {:induction false} WritingIsRfc(v: Json)
    requires RfcTree(v)
    ensures Rfc(Writing(v))
    decreases v, 1
  {
    hide RfcBody, RfcElems, RfcMembs, RfcNumber;
    match v
    case Str(s) => PlainReads(s);
    case Array(vs) =>
      var cs := seq(|vs|, i requires 0 <= i < |vs| => Writing(vs[i]));
      forall i | 0 <= i < |vs| ensures Rfc(cs[i]) { WritingIsRfc(vs[i]); }
      RfcArray(cs);
    case Object(m) => ObjectWritingIsRfc(m);
    case _ =>
  }

  lemma {:induction false} ObjectWritingIsRfc(m: map<string, Json>)
    requires RfcTree(Object(m))
    ensures Rfc(Writing(Object(m)))
    decreases Object(m), 0
  {
    hide Rfc, RfcBody, Clean, JObject, PlainPieces;
    var ks := Ordered(m.Keys);
    OrderedIsPermutation(m.Keys);
    var fs := seq(|ks|, i requires 0 <= i < |ks| => Field(PlainPieces(ks[i]), Writing(m[ks[i]])));
    forall i | 0 <= i < |ks| ensures RfcBody(fs[i].key) && Rfc(fs[i].v) {
      PlainReads(ks[i]);
      WritingIsRfc(m[ks[i]]);
    }
    RfcObject(fs);
  }

  /** A tree has a text of RFC 8259 that the parser reads as it exactly when its numbers are RFC
      numbers that std::stod takes and its strings hold no such control byte. */
  lemma RfcWritableIff(v: Json, stod: string -> bool)
    ensures RfcTree(v) && Numerals(v, stod)
       <==> exists c :: Rfc(c) && Source(Text(c), stod).Parse() == Ok(v, |Text(c)|)
  {
    hide RfcTree, Rfc, Meaning, Text, Writing, Numerals, NumsTaken, Wf, Source.Parse;
    forall c | Rfc(c)
      ensures var r := Source(Text(c), stod).Parse(); if NumsTaken(c, stod) then r == Ok(Meaning(c), |Text(c)|) else r.Fail?
    {
      RfcTextsParse(c, "", "", stod);
      assert "" + Text(c) + "" == Text(c);
    }
    if c :| Rfc(c) && Source(Text(c), stod).Parse() == Ok(v, |Text(c)|) {
      RfcMeaning(c);
      RfcIsWf(c);
      WfIsTaken(c, stod);
      MeaningNumerals(c, stod);
    }
    if RfcTree(v) && Numerals(v, stod) {
      WritingIsRfc(v);
      WritingReads(v, stod);
      WfIsTaken(Writing(v), stod);
    }
  }

  lemma UnknownEscape(stod: string -> bool)
    ensures Source("\"\\q\"", stod).Parse() == Ok(Str("q"), 4)
  {
    hide Source.Parse;
    var ps := [Escaped('q')];
    var x := StringLit(ps);
    assert ps[1..] == [] && Text(x) == "\"\\q\"" && Meaning(x) == Str("q");
    PrintThenParse(x, "", "", stod);
    assert "" + Text(x) + "" == Text(x);
  }

  lemma RfcEscapes(ps: seq<Piece>)
    requires RfcBody(ps)
    ensures var t := Quoted(ps); |t| > 2 && t[1] == '\\' ==> t[2] != 'q'
  {
    if ps != [] {
      var x := PieceText(ps[0]);
      assert Quoted(ps) == "\"" + (x + (BodyText(ps[1..]) + "\""));
    }
  }

  /** The parser takes more than the RFC: an unknown escape stands for its character. */
  lemma LargerThanRfc(c: Cst, stod: string -> bool)
    ensures Source("\"\\q\"", stod).Parse() == Ok(Str("q"), 4)
    ensures Rfc(c) ==> Text(c) != "\"\\q\""
  {
    hide Source.Parse, Quoted, RfcBody, RfcNumber;
    UnknownEscape(stod);
    if Rfc(c) && Text(c) == "\"\\q\"" {
      FirstOfRfc(c);
      RfcEscapes(c.body);
    }
  }

  lemma FirstOfRfc(c: Cst)
    requires Rfc(c) && Text(c) != "" && Text(c)[0] == '"'
    ensures c.StringLit? && RfcBody(c.body)
  {
    hide RfcNumber, RfcBody;
    if c.NumberLit? { RfcNumberShape(c.lexeme); }
  }

  // ------------------------------------------------------------ the RFC's own tables

  /** Section 7: the characters the two-character escapes stand for, as code points. */
  lemma EscapesAre()
    ensures Unescape('"') as int == 0x22 && Unescape('\\') as int == 0x5C && Unescape('/') as int == 0x2F
    ensures Unescape('b') as int == 0x08 && Unescape('f') as int == 0x0C && Unescape('n') as int == 0x0A
    ensures Unescape('r') as int == 0x0D && Unescape('t') as int == 0x09
  {
  }

  /** Section 2: blank, tab, line feed, return. Section 6: what a number is made of. */
  lemma AlphabetIs(c: char)
    ensures IsWs(c) <==> c as int in {0x20, 0x09, 0x0A, 0x0D}
    ensures IsNumberChar(c) <==> c in "0123456789.eE+-"
    ensures StartsNumber(c) <==> c in "-0123456789"
  {
    var s := "0123456789.eE+-";
    if IsDigit(c) { assert s[c as int - 0x30] == c && "-0123456789"[c as int - 0x2F] == c; }
  }

  /** Section 3: the three literal names. */
  lemma LiteralsRead(stod: string -> bool)
    ensures Source("null", stod).Parse() == Ok(Null, 4)
    ensures Source("true", stod).Parse() == Ok(Bool(true), 4) && Source("false", stod).Parse() == Ok(Bool(false), 5)
  {
    hide Source.Parse;
    PrintThenParse(NullLit, "", "", stod);
    PrintThenParse(BoolLit(true), "", "", stod);
    PrintThenParse(BoolLit(false), "", "", stod);
    assert "" + "null" + "" == "null" && "" + "true" + "" == "true" && "" + "false" + "" == "false";
  }

  /** Any `\u` escape is read as a question mark. */
  lemma UnicodeReads(hex: string, stod: string -> bool)
    requires |hex| == 4
    ensures Source("\"\\u" + hex + "\"", stod).Parse() == Ok(Str("?"), 8)
  {
    hide Source.Parse;
    var ps := [Unicode(hex)];
    var x := StringLit(ps);
    BodyTextCons(ps[0], []);
    assert ps == [ps[0]] + [] && "\\u" + hex + "" == "\\u" + hex;
    assert "\"" + (("\\u" + hex) + "\"") == "\"\\u" + hex + "\"";
    assert Text(x) == "\"\\u" + hex + "\"" && Meaning(x) == Str("?");
    PrintThenParse(x, "", "", stod);
    assert "" + Text(x) + "" == Text(x);
  }

  function HexValue(c: char): int {
    if IsDigit(c) then c as int - 0x30 else if 'a' <= c <= 'f' then c as int - 0x57 else if 'A' <= c <= 'F' then c as int - 0x37 else -1
  }

  /** Section 7: where the writer uses `\u`, its four digits are the code point. */
  lemma ControlDigits(c: char)
    requires PieceFor(c).Unicode?
    ensures var h := PieceFor(c).hex;
            |h| == 4 && RfcPiece(PieceFor(c))
            && ((HexValue(h[0]) * 16 + HexValue(h[1])) * 16 + HexValue(h[2])) * 16 + HexValue(h[3]) == c as int
  {
    var n := c as int;
    assert HexDigitIs(n / 16) && HexDigitIs(n % 16) by { HexDigits(n / 16); HexDigits(n % 16); }
  }

  predicate HexDigitIs(n: nat)
    requires n < 16
  {
    HexValue(HexDigit(n)) == n && IsHex(HexDigit(n))
  }

  lemma HexDigits(n: nat)
    requires n < 16
    ensures HexDigitIs(n)
  {
  }
}
