/** export_to_json: the exported text parses to one object per event. */
module EventExport {
  import opened Events
  import opened JsonGrammar
  import opened JsonParser
  import opened JsonWriter
  import opened Strings

  /** strftime output holds no quote and no backslash. */
  ghost predicate PlainTimes(fmt: int -> string) { forall t :: Quotable(fmt(t)) }

  function AttributeRow(m: map<string, string>, keys: seq<string>): seq<Field>
    requires forall i :: 0 <= i < |keys| ==> keys[i] in m
  {
    if keys == [] then [] else [Field(Pieces(keys[0]), StrLit(m[keys[0]]))] + AttributeRow(m, keys[1..])
  }

  function AttributesCst(m: map<string, string>): Cst {
    OrderedDistinct(m.Keys);
    JObject("", "      ", "    ", AttributeRow(m, Ordered(m.Keys)))
  }

  /** The nine lines before the attributes. */
  function EventRow(e: Event, fmt: int -> string): Row {
    [("id", Quantity(Decimal(e.id))), ("timestamp", Plainly(fmt(e.timestamp))),
     ("category", Label(CategoryName(e.category))), ("type", Label(TypeName(e.kind))),
     ("source", Label(e.source)), ("target", Label(e.target)), ("summary", Label(e.summary)),
     ("host", Label(e.host)), ("platform", Label(e.platform))]
  }

  function EventFields(e: Event, fmt: int -> string): seq<Field> {
    RowFields(EventRow(e, fmt)) + [Field(Verbatim("attributes"), AttributesCst(e.attributes))]
  }

  function EventCst(e: Event, fmt: int -> string): Cst { JObject("", "    ", "  ", EventFields(e, fmt)) }

  function EventCsts(es: seq<Event>, fmt: int -> string): seq<Cst> {
    if es == [] then [] else [EventCst(es[0], fmt)] + EventCsts(es[1..], fmt)
  }

  /** The exported document. */
  function ExportCst(es: seq<Event>, fmt: int -> string): Cst { JArray("\n", "  ", "", EventCsts(es, fmt)) }

  // ------------------------------------------------------------ the writing loops

  lemma {:induction false} ItemLinesAppend(indent: string, vs: seq<Cst>, v: Cst)
    ensures ItemLines(indent, vs + [v]) == ItemLines(indent, vs) + [indent + Text(v)]
  {
    hide Text;
    if vs == [] {
      assert [v][1..] == [];
    } else {
      ItemLinesAppend(indent, vs[1..], v);
      assert (vs + [v])[1..] == vs[1..] + [v];
    }
  }

  lemma {:induction false} AttributeRowAppend(m: map<string, string>, keys: seq<string>, k: string)
    requires k in m && forall i :: 0 <= i < |keys| ==> keys[i] in m
    ensures AttributeRow(m, keys + [k]) == AttributeRow(m, keys) + [Field(Pieces(k), StrLit(m[k]))]
  {
    if keys == [] {
      assert [k][1..] == [];
    } else {
      AttributeRowAppend(m, keys[1..], k);
      assert (keys + [k])[1..] == keys[1..] + [k];
    }
  }

  lemma {:induction false} EventCstsAppend(es: seq<Event>, e: Event, fmt: int -> string)
    ensures EventCsts(es + [e], fmt) == EventCsts(es, fmt) + [EventCst(e, fmt)]
  {
    hide EventCst;
    if es == [] {
      assert [e][1..] == [];
    } else {
      EventCstsAppend(es[1..], e, fmt);
      assert (es + [e])[1..] == es[1..] + [e];
    }
  }

  /** The text written once the attributes `keys` are out. */
  ghost function WrittenAttributes(m: map<string, string>, keys: seq<string>): string
    requires forall i :: 0 <= i < |keys| ==> keys[i] in m
  {
    "{" + (if keys == [] then "" else "\n" + JoinWith(",\n", FieldLines("      ", AttributeRow(m, keys))))
  }

  function AttributeField(k: string, v: string): Field { Field(Pieces(k), StrLit(v)) }

  lemma AttributesStep(m: map<string, string>, keys: seq<string>, k: string)
    requires k in m && forall i :: 0 <= i < |keys| ==> keys[i] in m
    ensures WrittenAttributes(m, keys + [k])
         == WrittenAttributes(m, keys) + (if keys == [] then "" else ",") + ("\n" + FieldLine("      ", AttributeField(k, m[k])))
  {
    hide FieldLine, JoinWith;
    var done, f := AttributeRow(m, keys), AttributeField(k, m[k]);
    AttributeRowAppend(m, keys, k);
    FieldLinesAppend("      ", done, f);
    JoinAppend(",\n", FieldLines("      ", done), FieldLine("      ", f));
    var joined, line := JoinWith(",\n", FieldLines("      ", done)), FieldLine("      ", f);
    if keys != [] {
      assert ("{" + ("\n" + joined)) + "," + ("\n" + line) == "{" + ("\n" + (joined + ",\n" + line));
    }
  }

  lemma AttributesEnd(m: map<string, string>)
    ensures var keys := Ordered(m.Keys);
            && (forall i :: 0 <= i < |keys| ==> keys[i] in m)
            && Text(AttributesCst(m)) == WrittenAttributes(m, keys) + (if keys == [] then "" else "\n    ") + "}"
  {
    OrderedDistinct(m.Keys);
    hide FieldLine, JoinWith, Ordered;
    var keys := Ordered(m.Keys);
    var row := AttributeRow(m, keys);
    if keys != [] {
      MembsOfText("      ", "    ", row);
    }
  }

  /** The attributes object of one event. */
  method WriteAttributes(m: map<string, string>) returns (out: string)
    ensures out == Text(AttributesCst(m))
  {
    hide FieldLine, FieldLines, AttributeRow, JoinWith, Ordered, AttributesCst, Text, WrittenAttributes;
    OrderedDistinct(m.Keys);
    var keys := Ordered(m.Keys);
    out := "{";
    assert out == WrittenAttributes(m, []) by { NothingWritten(m); }
    for i := 0 to |keys|
      invariant out == WrittenAttributes(m, keys[..i])
    {
      assert keys[..i + 1] == keys[..i] + [keys[i]];
      AttributesStep(m, keys[..i], keys[i]);
      var line := WriteAttribute(keys[i], m[keys[i]]);
      out := out + (if i > 0 then "," else "") + ("\n" + line);
    }
    assert keys[..|keys|] == keys;
    AttributesEnd(m);
    if |keys| > 0 {
      out := out + "\n    ";
    }
    out := out + "}";
  }

  lemma NothingWritten(m: map<string, string>)
    ensures WrittenAttributes(m, []) == "{"
  {
  }

  method WriteAttribute(k: string, v: string) returns (line: string)
    ensures line == FieldLine("      ", AttributeField(k, v))
  {
    var key := JsonEscape(k);
    var value := JsonEscape(v);
    line := "      " + (("\"" + (key + "\"")) + (": " + ("\"" + (value + "\""))));
  }

  // ------------------------------------------------------------ export_to_json

  /** The text written once the first `k` events are out. */
  ghost function WrittenEvents(es: seq<Event>, k: nat, fmt: int -> string): string
    requires k <= |es|
  {
    "[\n" + (if k == 0 then "" else
              JoinWith(",\n", ItemLines("  ", EventCsts(es[..k], fmt))) + (if k < |es| then ",\n" else "\n"))
  }

  lemma NoCsts(es: seq<Event>, fmt: int -> string)
    ensures ItemLines("  ", EventCsts(es, fmt)) == [] <==> es == []
  {
  }

  lemma EventsStep(es: seq<Event>, k: nat, fmt: int -> string)
    requires k < |es|
    ensures WrittenEvents(es, k + 1, fmt)
         == WrittenEvents(es, k, fmt) + ("  " + Text(EventCst(es[k], fmt))) + (if k < |es| - 1 then "," else "") + "\n"
  {
    hide Text, EventCst, EventCsts, JoinWith, ItemLines;
    var done, line := ItemLines("  ", EventCsts(es[..k], fmt)), "  " + Text(EventCst(es[k], fmt));
    assert es[..k + 1] == es[..k] + [es[k]];
    EventCstsAppend(es[..k], es[k], fmt);
    ItemLinesAppend("  ", EventCsts(es[..k], fmt), EventCst(es[k], fmt));
    JoinAppend(",\n", done, line);
    NoCsts(es[..k], fmt);
    var sep := if k < |es| - 1 then "," else "";
    assert sep + "\n" == if k + 1 < |es| then ",\n" else "\n";
  }

  lemma EventsEnd(es: seq<Event>, fmt: int -> string)
    ensures WrittenEvents(es, |es|, fmt) + "]\n" == Text(ExportCst(es, fmt)) + "\n"
  {
    hide EventCst, JoinWith;
    var vs := EventCsts(es, fmt);
    assert es[..|es|] == es;
    if es != [] {
      ElemsOfText("  ", "", vs);
      var joined := JoinWith(",\n", ItemLines("  ", vs));
      assert "\n" + "" == "\n";
      assert ("[\n" + (joined + "\n")) + "]\n" == ("[" + ("\n" + (joined + ("\n" + ("" + "]"))))) + "\n";
    }
  }

  /** One event between its braces. */
  method WriteEvent(e: Event, fmt: int -> string) returns (out: string)
    ensures out == Text(EventCst(e, fmt))
  {
    hide FieldLine, JoinWith, FieldLines, Listed, EventRow, RowFields, EventFields, Text, JObject;
    var attributes := WriteAttributes(e.attributes);
    var lines := WriteLines("    ", EventRow(e, fmt));
    out := "{\n" + lines + ",\n" + ("    \"attributes\": " + attributes) + "\n  }";
    EventText(e, fmt);
  }

  lemma EventText(e: Event, fmt: int -> string)
    ensures Text(EventCst(e, fmt)) == "{\n" + Listed(FieldLines("    ", RowFields(EventRow(e, fmt))))
                                    + ",\n" + ("    \"attributes\": " + Text(AttributesCst(e.attributes))) + "\n  }"
  {
    hide Text, AttributesCst, EventRow, RowFields, FieldLine, FieldLines, Verbatim, JoinWith;
    var row, last := RowFields(EventRow(e, fmt)), Field(Verbatim("attributes"), AttributesCst(e.attributes));
    EventRowFull(e, fmt);
    RowFieldCount(EventRow(e, fmt));
    FieldCount("    ", row);
    FieldLinesAppend("    ", row, last);
    AttributesLine(AttributesCst(e.attributes));
    var lines, line := FieldLines("    ", row), FieldLine("    ", last);
    JoinAppend(",\n", lines, line);
    FieldsText(row + [last]);
    Braced(JoinWith(",\n", lines), line);
  }

  lemma Braced(joined: string, line: string)
    ensures "{" + ("\n" + ((joined + ",\n" + line) + ("\n" + ("  " + "}")))) == "{\n" + joined + ",\n" + line + "\n  }"
  {
    assert "\n" + ("  " + "}") == "\n  }";
    assert "{" + ("\n" + joined) == "{\n" + joined;
  }

  lemma EventRowFull(e: Event, fmt: int -> string)
    ensures EventRow(e, fmt) != []
  {
  }

  lemma FieldsText(fs: seq<Field>)
    requires fs != []
    ensures Text(JObject("", "    ", "  ", fs)) == "{" + ("\n" + (JoinWith(",\n", FieldLines("    ", fs)) + ("\n" + ("  " + "}"))))
  {
    hide FieldLines, JoinWith, MembsText;
    MembsOfText("    ", "  ", fs);
  }

  lemma AttributesLine(v: Cst)
    ensures FieldLine("    ", Field(Verbatim("attributes"), v)) == "    \"attributes\": " + Text(v)
  {
    hide Text, Verbatim;
    VerbatimText("attributes");
    Named(Text(v));
  }

  lemma Named(t: string)
    ensures "    " + (("\"" + ("attributes" + "\"")) + (": " + t)) == "    \"attributes\": " + t
  {
    assert "    " + (("\"" + ("attributes" + "\"")) + ": ") == "    \"attributes\": ";
  }

  method ExportToJson(es: seq<Event>, fmt: int -> string) returns (out: string)
    ensures out == Text(ExportCst(es, fmt)) + "\n"
  {
    hide EventCst, WrittenEvents;
    out := "[\n";
    assert out == WrittenEvents(es, 0, fmt) by { Started(es, fmt); }
    for i := 0 to |es|
      invariant out == WrittenEvents(es, i, fmt)
    {
      EventsStep(es, i, fmt);
      var text := WriteEvent(es[i], fmt);
      out := out + ("  " + text) + (if i < |es| - 1 then "," else "") + "\n";
    }
    EventsEnd(es, fmt);
    out := out + "]\n";
  }

  lemma Started(es: seq<Event>, fmt: int -> string)
    ensures WrittenEvents(es, 0, fmt) == "[\n"
  {
  }

  // ------------------------------------------------------------ reading it back

  /** The attributes after reading back; attributes are visited in key order. */
  function AttributesJson(m: map<string, string>, keys: seq<string>): map<string, Json>
    requires forall i :: 0 <= i < |keys| ==> keys[i] in m
  {
    if keys == [] then map[] else map[ReadBack(keys[0]) := Str(ReadBack(m[keys[0]]))] + AttributesJson(m, keys[1..])
  }

  function EventJson(e: Event, fmt: int -> string): Json {
    OrderedDistinct(e.attributes.Keys);
    Object(RowJson(EventRow(e, fmt)) + map["attributes" := Object(AttributesJson(e.attributes, Ordered(e.attributes.Keys)))])
  }

  function EventJsons(es: seq<Event>, fmt: int -> string): seq<Json> {
    if es == [] then [] else [EventJson(es[0], fmt)] + EventJsons(es[1..], fmt)
  }

  lemma {:induction false} AttributeRowReads(m: map<string, string>, keys: seq<string>, stod: string -> bool)
    requires forall i :: 0 <= i < |keys| ==> keys[i] in m
    ensures WfFields(AttributeRow(m, keys), stod) && FieldsMeaning(AttributeRow(m, keys)) == AttributesJson(m, keys)
  {
    hide Wf, Meaning, StrLit;
    if keys != [] {
      PiecesReadBack(keys[0]);
      StrLitReads(m[keys[0]], stod);
      AttributeRowReads(m, keys[1..], stod);
      assert AttributeRow(m, keys)[1..] == AttributeRow(m, keys[1..]);
    }
  }

  lemma {:induction false} FieldsMeaningAppend(fs: seq<Field>, f: Field)
    ensures FieldsMeaning(fs + [f]) == FieldsMeaning(fs) + map[BodyChars(f.key) := Meaning(f.v)]
  {
    hide Meaning, BodyChars;
    var last := map[BodyChars(f.key) := Meaning(f.v)];
    if fs == [] {
      assert [f][1..] == [];
      assert last + map[] == last && map[] + last == last;
    } else {
      FieldsMeaningAppend(fs[1..], f);
      assert (fs + [f])[1..] == fs[1..] + [f];
      OverlayAssoc(map[BodyChars(fs[0].key) := Meaning(fs[0].v)], FieldsMeaning(fs[1..]), last);
    }
  }

  lemma OverlayAssoc(a: map<string, Json>, b: map<string, Json>, c: map<string, Json>)
    ensures a + (b + c) == (a + b) + c
  {
  }

  lemma EventRowWf(e: Event, fmt: int -> string, stod: string -> bool)
    requires stod(Decimal(e.id)) && PlainTimes(fmt)
    ensures WfRow(EventRow(e, fmt), stod)
  {
    hide Decimal;
    DecimalShape(e.id);
  }

  lemma EventFieldsRead(e: Event, fmt: int -> string, stod: string -> bool)
    requires stod(Decimal(e.id)) && PlainTimes(fmt)
    ensures WfFields(EventFields(e, fmt), stod)
    ensures Object(FieldsMeaning(EventFields(e, fmt))) == EventJson(e, fmt)
  {
    hide Wf, Meaning, EventRow, AttributesCst, RowFields, RowJson, FieldsMeaning, Verbatim, Ordered, AttributesJson,
         PlainTimes, Decimal, WfRow, WfBody, BodyText, BodyChars;
    var row, last := EventRow(e, fmt), Field(Verbatim("attributes"), AttributesCst(e.attributes));
    EventRowWf(e, fmt, stod);
    RowReads(row, stod);
    VerbatimReads("attributes");
    AttributesRead(e.attributes, stod);
    FieldsMeaningAppend(RowFields(row), last);
  }

  lemma EventReads(e: Event, fmt: int -> string, stod: string -> bool)
    requires stod(Decimal(e.id)) && PlainTimes(fmt)
    ensures Wf(EventCst(e, fmt), stod) && Meaning(EventCst(e, fmt)) == EventJson(e, fmt)
  {
    hide Wf, Meaning, EventFields, EventJson;
    EventFieldsRead(e, fmt, stod);
    JObjectReads("", "    ", "  ", EventFields(e, fmt), stod);
  }

  lemma AttributesRead(m: map<string, string>, stod: string -> bool)
    ensures var keys := Ordered(m.Keys);
            && (forall i :: 0 <= i < |keys| ==> keys[i] in m)
            && Wf(AttributesCst(m), stod) && Meaning(AttributesCst(m)) == Object(AttributesJson(m, keys))
  {
    hide Wf, Meaning, JObject, AttributeRow, AttributesJson, WfFields, FieldsMeaning, Ordered;
    OrderedDistinct(m.Keys);
    AttributeRowReads(m, Ordered(m.Keys), stod);
    JObjectReads("", "      ", "    ", AttributeRow(m, Ordered(m.Keys)), stod);
  }

  lemma {:induction false} EventsRead(es: seq<Event>, fmt: int -> string, stod: string -> bool)
    requires PlainTimes(fmt) && forall i :: 0 <= i < |es| ==> stod(Decimal(es[i].id))
    ensures forall i :: 0 <= i < |EventCsts(es, fmt)| ==> Wf(EventCsts(es, fmt)[i], stod)
    ensures ItemsMeaning(EventCsts(es, fmt)) == EventJsons(es, fmt)
  {
    hide Wf, Meaning, EventCst, EventJson;
    if es != [] {
      EventReads(es[0], fmt, stod);
      EventsRead(es[1..], fmt, stod);
      assert EventCsts(es, fmt)[1..] == EventCsts(es[1..], fmt);
    }
  }

  /** If std::stod takes the ids of the events, the exported document parses, up to its final
      line end, to one object per event. */
  lemma ExportParses(es: seq<Event>, fmt: int -> string, stod: string -> bool)
    requires PlainTimes(fmt) && forall i :: 0 <= i < |es| ==> stod(Decimal(es[i].id))
    ensures var text := Text(ExportCst(es, fmt)) + "\n";
            Source(text, stod).Parse() == Ok(Array(EventJsons(es, fmt)), |text| - 1)
  {
    hide Text, EventCsts, EventJsons;
    EventsRead(es, fmt, stod);
    JArrayReads("\n", "  ", "", EventCsts(es, fmt), stod);
    var c := ExportCst(es, fmt);
    PrintThenParse(c, "", "\n", stod);
    assert "" + Text(c) + "\n" == Text(c) + "\n";
  }

  /** With no control byte outside the short escapes the strings come back unchanged. */
  lemma {:induction false} CleanAttributesSurvive(m: map<string, string>, keys: seq<string>)
    requires forall i :: 0 <= i < |keys| ==> keys[i] in m && Clean(keys[i]) && Clean(m[keys[i]])
    ensures AttributesJson(m, keys) == map k | k in keys :: Str(m[k])
  {
    if keys != [] {
      ReadBackIffClean(keys[0]);
      ReadBackIffClean(m[keys[0]]);
      CleanAttributesSurvive(m, keys[1..]);
      assert forall k :: k in keys <==> k == keys[0] || k in keys[1..];
    }
  }

  /** Each simple member of an exported event holds what its name says, and the nine names are all
      there; the attributes are the tenth. */
  lemma ExportedMembers(e: Event, fmt: int -> string, i: nat)
    requires i < |EventRow(e, fmt)|
    ensures |EventRow(e, fmt)| == 9
    ensures var name, v := EventRow(e, fmt)[i].0, CellJson(EventRow(e, fmt)[i].1);
            || (name == "id" && v == Number(Decimal(e.id))) || (name == "timestamp" && v == Str(fmt(e.timestamp)))
            || (name == "category" && v == Str(ReadBack(CategoryName(e.category))))
            || (name == "type" && v == Str(ReadBack(TypeName(e.kind))))
            || (name == "source" && v == Str(ReadBack(e.source))) || (name == "target" && v == Str(ReadBack(e.target)))
            || (name == "summary" && v == Str(ReadBack(e.summary))) || (name == "host" && v == Str(ReadBack(e.host)))
            || (name == "platform" && v == Str(ReadBack(e.platform)))
    ensures forall n :: n in ["id", "timestamp", "category", "type", "source", "target", "summary", "host", "platform"] ==>
              exists k :: 0 <= k < 9 && EventRow(e, fmt)[k].0 == n
    ensures (forall k :: 0 <= k < |Ordered(e.attributes.Keys)| ==> Ordered(e.attributes.Keys)[k] in e.attributes)
    ensures EventJson(e, fmt) == Object(RowJson(EventRow(e, fmt))["attributes" :=
              Object(AttributesJson(e.attributes, Ordered(e.attributes.Keys)))])
  {
    OrderedDistinct(e.attributes.Keys);
    hide ReadBack, CategoryName, TypeName, Decimal, RowJson, AttributesJson, Ordered;
    var r := EventRow(e, fmt);
    assert r[0].0 == "id" && r[1].0 == "timestamp" && r[2].0 == "category" && r[3].0 == "type" && r[4].0 == "source";
    assert r[5].0 == "target" && r[6].0 == "summary" && r[7].0 == "host" && r[8].0 == "platform";
  }
}
