/** The document layout of SnapshotGenerator::generate. What the operating system reports is
    given as rows of cells; the text written for them parses back to the same data. */
module SnapshotWriter {
  import opened EventExport
  import opened JsonGrammar
  import opened JsonParser
  import opened JsonWriter
  import opened Strings

  /** An object section (system, environment) or a table section (disks, processes, ...). */
  datatype Section = Record(name: string, row: Row) | Table(name: string, rows: seq<Row>)

  function RowCst(r: Row): Cst { JObject("\n\n        ", "          ", "        ", RowFields(r)) }

  function RowCsts(rows: seq<Row>): seq<Cst> {
    if rows == [] then [] else [RowCst(rows[0])] + RowCsts(rows[1..])
  }

  function SectionCst(s: Section): Cst {
    match s
    case Record(_, row) => JObject("\n\n      ", "        ", "      ", RowFields(row))
    case Table(_, rows) => JArray("\n\n      ", "        ", "      ", RowCsts(rows))
  }

  function SectionField(s: Section): Field { Field(Verbatim(s.name), SectionCst(s)) }

  function SectionFields(ss: seq<Section>): seq<Field> {
    if ss == [] then [] else [SectionField(ss[0])] + SectionFields(ss[1..])
  }

  function SectionsCst(ss: seq<Section>): Cst { JObject("\n    ", "      ", "    ", SectionFields(ss)) }

  function BodyFields(meta: Row, ss: seq<Section>): seq<Field> {
    RowFields(meta) + [Field(Verbatim("sections"), SectionsCst(ss))]
  }

  /** The whole document. */
  function DocumentCst(meta: Row, ss: seq<Section>): Cst {
    JObject("", "  ", "", [Field(Verbatim("snapshot"), JObject("", "    ", "  ", BodyFields(meta, ss)))])
  }

  // ------------------------------------------------------------ the writing loops

  lemma {:induction false} RowCstsAppend(rows: seq<Row>, r: Row)
    ensures RowCsts(rows + [r]) == RowCsts(rows) + [RowCst(r)]
  {
    hide RowCst;
    if rows == [] {
      assert [r][1..] == [];
    } else {
      RowCstsAppend(rows[1..], r);
      assert (rows + [r])[1..] == rows[1..] + [r];
    }
  }

  lemma {:induction false} SectionFieldsAppend(ss: seq<Section>, s: Section)
    ensures SectionFields(ss + [s]) == SectionFields(ss) + [SectionField(s)]
  {
    hide SectionField;
    if ss == [] {
      assert [s][1..] == [];
    } else {
      SectionFieldsAppend(ss[1..], s);
      assert (ss + [s])[1..] == ss[1..] + [s];
    }
  }

  /** The object of a row or section, with what the source prints where it has no lines. */
  lemma ObjectText(indent: string, close: string, fs: seq<Field>)
    ensures Text(JObject("\n\n" + close, indent, close, fs)) == "{\n" + Listed(FieldLines(indent, fs)) + ("\n" + close) + "}"
  {
    hide FieldLine, JoinWith;
    FieldCount(indent, fs);
    if fs == [] {
      assert "{" + (("\n\n" + close) + "}") == "{\n" + "" + ("\n" + close) + "}";
    } else {
      MembsOfText(indent, close, fs);
      var joined := JoinWith(",\n", FieldLines(indent, fs));
      assert "{" + ("\n" + (joined + ("\n" + (close + "}")))) == "{\n" + joined + ("\n" + close) + "}";
    }
  }

  /** One row of a table. */
  method WriteRow(r: Row) returns (out: string)
    ensures out == Text(RowCst(r))
  {
    hide Text, JObject, Listed, FieldLines, RowFields;
    var lines := WriteLines("          ", r);
    out := "{\n" + lines + "\n        " + "}";
    assert "\n\n" + "        " == "\n\n        " && "\n" + "        " == "\n        ";
    ObjectText("          ", "        ", RowFields(r));
  }

  lemma TableEnd(rows: seq<Row>)
    ensures Text(SectionCst(Table("", rows))) == "[\n" + Listed(ItemLines("        ", RowCsts(rows))) + "\n      ]"
  {
    hide RowCst, JoinWith;
    if rows == [] {
      assert "[" + ("\n\n      " + "]") == "[\n" + "" + "\n      ]";
    } else {
      ElemsOfText("        ", "      ", RowCsts(rows));
      var joined := JoinWith(",\n", ItemLines("        ", RowCsts(rows)));
      assert "[" + ("\n" + (joined + ("\n" + ("      " + "]")))) == "[\n" + joined + "\n      ]";
    }
  }

  lemma TableStep(rows: seq<Row>, i: nat)
    requires i < |rows|
    ensures Listed(ItemLines("        ", RowCsts(rows[..i + 1])))
         == Listed(ItemLines("        ", RowCsts(rows[..i]))) + (if i == 0 then "" else ",\n") + ("        " + Text(RowCst(rows[i])))
  {
    hide RowCst, RowCsts, Text, Listed, ItemLines;
    assert rows[..i + 1] == rows[..i] + [rows[i]];
    RowCstsAppend(rows[..i], rows[i]);
    ItemLinesAppend("        ", RowCsts(rows[..i]), RowCst(rows[i]));
    ListedStep(ItemLines("        ", RowCsts(rows[..i])), "        " + Text(RowCst(rows[i])));
    RowLineCount(rows[..i]);
  }

  lemma RowLineCount(rows: seq<Row>)
    ensures ItemLines("        ", RowCsts(rows)) == [] <==> rows == []
  {
  }

  /** capture_disk_usage, capture_processes, capture_network and capture_ports write this way. */
  method WriteTable(rows: seq<Row>) returns (out: string)
    ensures out == Text(SectionCst(Table("", rows)))
  {
    hide RowCst, RowCsts, Text, Listed, ItemLines, SectionCst;
    out := "[\n";
    var first := true;
    NoRowsListed();
    assert rows[..0] == [];
    for i := 0 to |rows|
      invariant first == (i == 0)
      invariant out == "[\n" + Listed(ItemLines("        ", RowCsts(rows[..i])))
    {
      TableStep(rows, i);
      var row := WriteRow(rows[i]);
      out := out + (if first then "" else ",\n") + ("        " + row);
      first := false;
    }
    assert rows[..|rows|] == rows;
    TableEnd(rows);
    out := out + "\n      ]";
  }

  lemma NoRowsListed()
    ensures Listed(ItemLines("        ", RowCsts([]))) == ""
  {
  }

  /** capture_environment writes this way; capture_system_load is its unrolled form. */
  method WriteRecord(r: Row) returns (out: string)
    ensures out == Text(SectionCst(Record("", r)))
  {
    hide Text, JObject, Listed, FieldLines, RowFields;
    var lines := WriteLines("        ", r);
    out := "{\n" + lines + "\n      " + "}";
    assert "\n\n" + "      " == "\n\n      " && "\n" + "      " == "\n      ";
    ObjectText("        ", "      ", RowFields(r));
  }

  method WriteSection(s: Section) returns (out: string)
    ensures out == FieldLine("      ", SectionField(s))
  {
    VerbatimText(s.name);
    var text;
    match s {
      case Record(_, row) => text := WriteRecord(row);
      case Table(_, rows) => text := WriteTable(rows);
    }
    out := "      " + (("\"" + (s.name + "\"")) + (": " + text));
  }

  /** The text of the sections loop after `k` of `n` sections. */
  ghost function WrittenSections(ss: seq<Section>, k: nat): string
    requires k <= |ss|
  {
    if k == 0 then ""
    else JoinWith(",\n", FieldLines("      ", SectionFields(ss[..k]))) + (if k < |ss| then ",\n" else "\n")
  }

  lemma SectionsStep(ss: seq<Section>, k: nat)
    requires k < |ss|
    ensures WrittenSections(ss, k + 1)
         == WrittenSections(ss, k) + FieldLine("      ", SectionField(ss[k])) + (if k + 1 < |ss| then "," else "") + "\n"
  {
    hide FieldLine, JoinWith, SectionField;
    var done, line := FieldLines("      ", SectionFields(ss[..k])), FieldLine("      ", SectionField(ss[k]));
    assert ss[..k + 1] == ss[..k] + [ss[k]];
    SectionFieldsAppend(ss[..k], ss[k]);
    FieldLinesAppend("      ", SectionFields(ss[..k]), SectionField(ss[k]));
    FieldCount("      ", SectionFields(ss[..k]));
    JoinAppend(",\n", done, line);
    var sep := if k + 1 < |ss| then "," else "";
    assert sep + "\n" == if k + 1 < |ss| then ",\n" else "\n";
    if k > 0 {
      var joined := JoinWith(",\n", done);
      assert (joined + ",\n" + line) + (sep + "\n") == (joined + ",\n") + line + sep + "\n";
    } else {
      assert line + (sep + "\n") == "" + line + sep + "\n";
    }
  }

  lemma SectionsEnd(ss: seq<Section>)
    ensures Text(SectionsCst(ss)) == "{\n" + WrittenSections(ss, |ss|) + "    }"
  {
    hide FieldLine, JoinWith, SectionField;
    assert ss[..|ss|] == ss;
    if ss == [] {
      assert "{" + ("\n    " + "}") == "{\n" + "" + "    }";
    } else {
      MembsOfText("      ", "    ", SectionFields(ss));
      var joined := JoinWith(",\n", FieldLines("      ", SectionFields(ss)));
      assert "{" + ("\n" + (joined + ("\n" + ("    " + "}")))) == "{\n" + (joined + "\n") + "    }";
    }
  }

  ghost function MetaText(meta: Row): string { Listed(FieldLines("    ", RowFields(meta))) }

  lemma DocumentText(meta: Row, ss: seq<Section>)
    requires meta != []
    ensures Text(DocumentCst(meta, ss))
         == "{\n  \"snapshot\": {\n" + MetaText(meta) + ",\n" + ("    \"sections\": " + Text(SectionsCst(ss))) + "\n  }\n}"
  {
    hide Text, FieldLine, JoinWith, SectionsCst, RowFields, Verbatim, FieldLines;
    var last := Field(Verbatim("sections"), SectionsCst(ss));
    var line := FieldLine("    ", last);
    RowFieldCount(meta);
    FieldCount("    ", RowFields(meta));
    FieldLinesAppend("    ", RowFields(meta), last);
    JoinAppend(",\n", FieldLines("    ", RowFields(meta)), line);
    SectionsLine(SectionsCst(ss));
    var inner := JObject("", "    ", "  ", BodyFields(meta, ss));
    InnerText(meta, ss);
    OuterText(inner);
  }

  lemma SectionsLine(v: Cst)
    ensures FieldLine("    ", Field(Verbatim("sections"), v)) == "    \"sections\": " + Text(v)
  {
    hide Text, Verbatim;
    VerbatimText("sections");
    NamedSections(Text(v));
  }

  lemma NamedSections(t: string)
    ensures "    " + (("\"" + ("sections" + "\"")) + (": " + t)) == "    \"sections\": " + t
  {
    assert "    " + (("\"" + ("sections" + "\"")) + ": ") == "    \"sections\": ";
  }

  lemma InnerText(meta: Row, ss: seq<Section>)
    ensures Text(JObject("", "    ", "  ", BodyFields(meta, ss)))
         == "{" + ("\n" + (JoinWith(",\n", FieldLines("    ", BodyFields(meta, ss))) + ("\n" + ("  " + "}"))))
  {
    hide FieldLine, FieldLines, JoinWith, MembsText, BodyFields;
    assert BodyFields(meta, ss) != [] by { BodyNotEmpty(meta, ss); }
    MembsOfText("    ", "  ", BodyFields(meta, ss));
  }

  lemma BodyNotEmpty(meta: Row, ss: seq<Section>)
    ensures BodyFields(meta, ss) != []
  {
  }

  lemma OuterLine(t: string)
    ensures "{" + ("\n" + (("  " + (("\"" + ("snapshot" + "\"")) + (": " + t))) + ("\n" + ("" + "}"))))
         == "{\n  \"snapshot\": " + t + "\n}"
  {
  }

  lemma OuterText(inner: Cst)
    ensures Text(JObject("", "  ", "", [Field(Verbatim("snapshot"), inner)]))
         == "{\n  \"snapshot\": " + Text(inner) + "\n}"
  {
    hide Verbatim, MembsOf, MembsText;
    var f := Field(Verbatim("snapshot"), inner);
    VerbatimReads("snapshot");
    MembsOfText("  ", "", [f]);
    assert [f][1..] == [];
    assert FieldLines("  ", [f]) == [FieldLine("  ", f)];
    OuterLine(Text(inner));
  }

  /** SnapshotGenerator::generate, from the captured data to the document text. */
  method Generate(meta: Row, ss: seq<Section>) returns (out: string)
    requires meta != []
    ensures out == Text(DocumentCst(meta, ss)) + "\n"
  {
    hide FieldLine, FieldLines, Listed, RowFields, WrittenSections, SectionField;
    var body := "";
    assert body == WrittenSections(ss, 0) by { NoSectionsYet(ss); }
    for i := 0 to |ss|
      invariant body == WrittenSections(ss, i)
    {
      SectionsStep(ss, i);
      var section := WriteSection(ss[i]);
      body := body + section + (if i + 1 < |ss| then "," else "") + "\n";
    }
    SectionsEnd(ss);
    var lines := WriteLines("    ", meta);
    out := "{\n  \"snapshot\": {\n" + lines + ",\n" + ("    \"sections\": " + ("{\n" + body + "    }")) + "\n  }\n}" + "\n";
    assert out == Text(DocumentCst(meta, ss)) + "\n" by { DocumentText(meta, ss); }
  }

  lemma NoSectionsYet(ss: seq<Section>)
    ensures WrittenSections(ss, 0) == ""
  {
  }

  // ------------------------------------------------------------ reading it back

  predicate WfSection(s: Section, stod: string -> bool) {
    && Quotable(s.name)
    && (s.Record? ==> WfRow(s.row, stod))
    && (s.Table? ==> forall i :: 0 <= i < |s.rows| ==> WfRow(s.rows[i], stod))
  }

  function RowJsons(rows: seq<Row>): seq<Json> {
    if rows == [] then [] else [Object(RowJson(rows[0]))] + RowJsons(rows[1..])
  }

  function SectionJson(s: Section): Json {
    match s
    case Record(_, row) => Object(RowJson(row))
    case Table(_, rows) => Array(RowJsons(rows))
  }

  function SectionsJson(ss: seq<Section>): map<string, Json> {
    if ss == [] then map[] else map[ss[0].name := SectionJson(ss[0])] + SectionsJson(ss[1..])
  }

  function SnapshotJson(meta: Row, ss: seq<Section>): Json {
    Object(map["snapshot" := Object(RowJson(meta) + map["sections" := Object(SectionsJson(ss))])])
  }

  lemma {:induction false} RowsRead(rows: seq<Row>, stod: string -> bool)
    requires forall i :: 0 <= i < |rows| ==> WfRow(rows[i], stod)
    ensures forall i :: 0 <= i < |RowCsts(rows)| ==> Wf(RowCsts(rows)[i], stod)
    ensures ItemsMeaning(RowCsts(rows)) == RowJsons(rows)
  {
    hide Wf, Meaning, WfRow, RowFields, JObject;
    if rows != [] {
      RowReads(rows[0], stod);
      JObjectReads("\n\n        ", "          ", "        ", RowFields(rows[0]), stod);
      RowsRead(rows[1..], stod);
      assert RowCsts(rows)[1..] == RowCsts(rows[1..]);
    }
  }

  lemma SectionReads(s: Section, stod: string -> bool)
    requires WfSection(s, stod)
    ensures Wf(SectionCst(s), stod) && Meaning(SectionCst(s)) == SectionJson(s)
  {
    hide Wf, Meaning, WfRow, RowFields, JObject, JArray;
    match s
    case Record(_, row) =>
      RowReads(row, stod);
      JObjectReads("\n\n      ", "        ", "      ", RowFields(row), stod);
    case Table(_, rows) =>
      RowsRead(rows, stod);
      JArrayReads("\n\n      ", "        ", "      ", RowCsts(rows), stod);
  }

  lemma {:induction false} SectionsRead(ss: seq<Section>, stod: string -> bool)
    requires forall i :: 0 <= i < |ss| ==> WfSection(ss[i], stod)
    ensures WfFields(SectionFields(ss), stod) && FieldsMeaning(SectionFields(ss)) == SectionsJson(ss)
  {
    hide Wf, Meaning, SectionCst, SectionJson, Verbatim, WfRow;
    if ss != [] {
      VerbatimReads(ss[0].name);
      SectionReads(ss[0], stod);
      SectionsRead(ss[1..], stod);
      assert SectionFields(ss)[1..] == SectionFields(ss[1..]);
    }
  }

  lemma BodyReads(meta: Row, ss: seq<Section>, stod: string -> bool)
    requires WfRow(meta, stod) && forall i :: 0 <= i < |ss| ==> WfSection(ss[i], stod)
    ensures WfFields(BodyFields(meta, ss), stod)
    ensures FieldsMeaning(BodyFields(meta, ss)) == RowJson(meta) + map["sections" := Object(SectionsJson(ss))]
  {
    hide Wf, Meaning, Verbatim, WfRow, WfBody, BodyText, BodyChars, RowFields, RowJson, FieldsMeaning, SectionsJson, SectionFields,
         JObject, WfSection;
    RowReads(meta, stod);
    SectionsRead(ss, stod);
    JObjectReads("\n    ", "      ", "    ", SectionFields(ss), stod);
    VerbatimReads("sections");
    FieldsMeaningAppend(RowFields(meta), Field(Verbatim("sections"), SectionsCst(ss)));
  }

  /** A generated snapshot file parses, up to its final line end, to the captured data. */
  lemma SnapshotParses(meta: Row, ss: seq<Section>, stod: string -> bool)
    requires WfRow(meta, stod) && forall i :: 0 <= i < |ss| ==> WfSection(ss[i], stod)
    ensures var text := Text(DocumentCst(meta, ss)) + "\n";
            Source(text, stod).Parse() == Ok(SnapshotJson(meta, ss), |text| - 1)
  {
    hide Text, Wf, Meaning, Verbatim, WfRow, WfBody, BodyText, BodyChars, BodyFields, RowJson, SectionsJson, JObject, WfSection;
    BodyReads(meta, ss, stod);
    JObjectReads("", "    ", "  ", BodyFields(meta, ss), stod);
    var inner := JObject("", "    ", "  ", BodyFields(meta, ss));
    VerbatimReads("snapshot");
    var f := Field(Verbatim("snapshot"), inner);
    assert [f][1..] == [];
    assert FieldsMeaning([f]) == map["snapshot" := Meaning(inner)];
    JObjectReads("", "  ", "", [f], stod);
    var c := DocumentCst(meta, ss);
    assert c.ObjectLit? by { DocumentIsObject(meta, ss); }
    PrintThenParse(c, "", "\n", stod);
    assert "" + Text(c) + "\n" == Text(c) + "\n";
  }

  lemma DocumentIsObject(meta: Row, ss: seq<Section>)
    ensures DocumentCst(meta, ss).ObjectLit?
  {
  }
}
