/** The CSV export, against a decoder written from RFC 4180. */
module CsvExport {
  import opened Events
  import opened Strings

  // ------------------------------------------------------------ writing

  predicate Special(c: char) { c == ',' || c == '"' || c == '\n' || c == '\r' }

  predicate NeedsQuotes(s: string) { exists i :: 0 <= i < |s| && Special(s[i]) }

  function Doubled(s: string): string {
    if s == "" then "" else (if s[0] == '"' then "\"\"" else [s[0]]) + Doubled(s[1..])
  }

  function Field(s: string): string { if NeedsQuotes(s) then "\"" + Doubled(s) + "\"" else s }

  lemma {:induction false} DoubledAppend(a: string, c: char)
    ensures Doubled(a + [c]) == Doubled(a) + (if c == '"' then "\"\"" else [c])
  {
    if a == "" {
      assert a + [c] == [c] && [c][1..] == "";
    } else {
      DoubledAppend(a[1..], c);
      assert (a + [c])[1..] == a[1..] + [c] && (a + [c])[0] == a[0];
    }
  }

  method EscapeCsvField(field: string) returns (out: string)
    ensures out == Field(field)
  {
    var needsQuotes := false;
    for i := 0 to |field|
      invariant !needsQuotes && forall k :: 0 <= k < i ==> !Special(field[k])
    {
      if Special(field[i]) {
        needsQuotes := true;
        break;
      }
    }
    if !needsQuotes { return field; }
    out := "\"";
    for i := 0 to |field|
      invariant out == "\"" + Doubled(field[..i])
    {
      assert field[..i + 1] == field[..i] + [field[i]];
      DoubledAppend(field[..i], field[i]);
      if field[i] == '"' {
        out := out + "\"\"";
      } else {
        out := out + [field[i]];
      }
    }
    assert field[..|field|] == field;
    out := out + "\"";
  }

  function Fields(values: seq<string>): seq<string> {
    if values == [] then [] else [Field(values[0])] + Fields(values[1..])
  }

  function Row(values: seq<string>): string { JoinWith(",", Fields(values)) + "\n" }

  function Pairs(m: map<string, string>, keys: seq<string>): seq<string>
    requires forall i :: 0 <= i < |keys| ==> keys[i] in m
  {
    if keys == [] then []
    else Pairs(m, keys[..|keys| - 1]) + [keys[|keys| - 1] + "=" + m[keys[|keys| - 1]]]
  }

  /** The attributes in map order, as `key=value` parts. */
  ghost function AttributesText(m: map<string, string>): string {
    OrderedDistinct(m.Keys);
    JoinWith("; ", Pairs(m, Ordered(m.Keys)))
  }

  const COLUMNS := ["id", "timestamp", "category", "type", "source", "target", "summary", "host", "platform", "attributes"]

  /** The ten values of an event; `stamp` renders a timestamp in local time. */
  ghost function Values(e: Event, stamp: int -> string): seq<string> {
    [Decimal(e.id), stamp(e.timestamp), CategoryName(e.category), TypeName(e.kind), e.source, e.target, e.summary, e.host,
     e.platform, AttributesText(e.attributes)]
  }

  ghost function Rows(es: seq<Event>, stamp: int -> string): string {
    if es == [] then "" else Rows(es[..|es| - 1], stamp) + Row(Values(es[|es| - 1], stamp))
  }

  lemma PairsStep(m: map<string, string>, keys: seq<string>, i: nat)
    requires i < |keys| && forall j :: 0 <= j < |keys| ==> keys[j] in m
    ensures JoinWith("; ", Pairs(m, keys[..i + 1]))
         == (if i == 0 then "" else JoinWith("; ", Pairs(m, keys[..i])) + "; ") + (keys[i] + "=" + m[keys[i]])
  {
    hide JoinWith;
    var pair := keys[i] + "=" + m[keys[i]];
    assert keys[..i + 1][..i] == keys[..i];
    JoinAppend("; ", Pairs(m, keys[..i]), pair);
    assert "" + pair == pair;
  }

  lemma NoPairs(m: map<string, string>)
    ensures JoinWith("; ", Pairs(m, [])) == ""
  {
  }

  method WriteAttributes(m: map<string, string>) returns (attrs: string)
    ensures attrs == AttributesText(m)
  {
    hide Ordered, JoinWith, Pairs;
    OrderedDistinct(m.Keys);
    var keys := Ordered(m.Keys);
    attrs := "";
    NoPairs(m);
    assert keys[..0] == [];
    for i := 0 to |keys|
      invariant attrs == JoinWith("; ", Pairs(m, keys[..i])) && (attrs == "" <==> i == 0)
    {
      PairsStep(m, keys, i);
      if attrs != "" { attrs := attrs + "; "; }
      attrs := attrs + (keys[i] + "=" + m[keys[i]]);
    }
    assert keys[..|keys|] == keys;
  }

  method WriteEvent(e: Event, stamp: int -> string) returns (line: string)
    ensures line == Row(Values(e, stamp))
  {
    hide Field, NeedsQuotes, AttributesText, CategoryName, TypeName, Decimal;
    var time := EscapeCsvField(stamp(e.timestamp));
    var category := EscapeCsvField(CategoryName(e.category));
    var kind := EscapeCsvField(TypeName(e.kind));
    var source := EscapeCsvField(e.source);
    var target := EscapeCsvField(e.target);
    var summary := EscapeCsvField(e.summary);
    var host := EscapeCsvField(e.host);
    var platform := EscapeCsvField(e.platform);
    var attrs := WriteAttributes(e.attributes);
    attrs := EscapeCsvField(attrs);
    DecimalPlain(e.id);
    TenFields(Values(e, stamp));
    line := JoinWith(",", [Decimal(e.id), time, category, kind, source, target, summary, host, platform, attrs]) + "\n";
  }

  lemma TenFields(v: seq<string>)
    requires |v| == 10
    ensures Fields(v) == [Field(v[0]), Field(v[1]), Field(v[2]), Field(v[3]), Field(v[4]), Field(v[5]), Field(v[6]), Field(v[7]),
                          Field(v[8]), Field(v[9])]
  {
    hide Field;
    FieldsAt(v);
  }

  lemma {:induction false} FieldsAt(v: seq<string>)
    ensures |Fields(v)| == |v| && forall i :: 0 <= i < |v| ==> Fields(v)[i] == Field(v[i])
  {
    hide Field;
    if v != [] {
      FieldsAt(v[1..]);
    }
  }

  lemma DecimalPlain(n: nat)
    ensures Field(Decimal(n)) == Decimal(n)
  {
    DigitsRead(n);
    var s := Decimal(n);
    forall i | 0 <= i < |s| ensures !Special(s[i]) {
      assert IsDigit(s[i]);
    }
  }

  method ExportToCsv(es: seq<Event>, stamp: int -> string) returns (file: string)
    ensures file == Row(COLUMNS) + Rows(es, stamp)
  {
    hide Row, Values, Rows, JoinWith;
    file := JoinWith(",", COLUMNS) + "\n";
    ColumnsPlain();
    NoRows(stamp);
    for i := 0 to |es|
      invariant file == Row(COLUMNS) + Rows(es[..i], stamp)
    {
      RowsStep(es, i, stamp);
      var line := WriteEvent(es[i], stamp);
      file := file + line;
    }
    assert es[..|es|] == es;
  }

  lemma NoRows(stamp: int -> string)
    ensures Rows([], stamp) == ""
  {
  }

  lemma RowsStep(es: seq<Event>, i: nat, stamp: int -> string)
    requires i < |es|
    ensures Rows(es[..i + 1], stamp) == Rows(es[..i], stamp) + Row(Values(es[i], stamp))
  {
    hide Row, Values;
    assert es[..i + 1][..i] == es[..i];
  }

  predicate Lower(s: string) { forall i :: 0 <= i < |s| ==> 'a' <= s[i] <= 'z' }

  lemma LowerPlain(s: string)
    requires Lower(s)
    ensures Field(s) == s
  {
  }

  lemma ColumnsLower(i: nat)
    requires i < |COLUMNS|
    ensures Lower(COLUMNS[i])
  {
  }

  lemma AllPlain(v: seq<string>)
    requires forall i :: 0 <= i < |v| ==> Field(v[i]) == v[i]
    ensures Fields(v) == v
  {
    hide Field;
    FieldsAt(v);
  }

  lemma ColumnsPlain()
    ensures Row(COLUMNS) == JoinWith(",", COLUMNS) + "\n"
  {
    hide JoinWith, Field, Lower;
    forall i | 0 <= i < |COLUMNS| ensures Field(COLUMNS[i]) == COLUMNS[i] {
      ColumnsLower(i);
      LowerPlain(COLUMNS[i]);
    }
    AllPlain(COLUMNS);
  }

  // ------------------------------------------------------------ RFC 4180, section 2

  /** Where a decoder stands: before a field, in a plain one, in a quoted one, or behind a
      quote inside a quoted one. */
  datatype State = Before | Plain | Quoted | Quote

  function Cons(record: seq<string>, rest: Option<seq<seq<string>>>): Option<seq<seq<string>>> {
    if rest.None? then None else Some([record] + rest.value)
  }

  /** Decoding the rest of a file, with the record and the field read so far. A line feed alone
      ends a line; None is a malformed file. */
  function Decoded(text: string, state: State, field: string, record: seq<string>): Option<seq<seq<string>>> {
    if text == "" then
      match state
      case Before => if record == [] then Some([]) else Some([record + [""]])
      case Quoted => None
      case _ => Some([record + [field]])
    else
      var c, rest := text[0], text[1..];
      match state
      case Before =>
        if c == '"' then Decoded(rest, Quoted, "", record)
        else if c == ',' then Decoded(rest, Before, "", record + [""])
        else if c == '\n' then Cons(record + [""], Decoded(rest, Before, "", []))
        else if c == '\r' then None
        else Decoded(rest, Plain, [c], record)
      case Plain =>
        if c == ',' then Decoded(rest, Before, "", record + [field])
        else if c == '\n' then Cons(record + [field], Decoded(rest, Before, "", []))
        else if c == '"' || c == '\r' then None
        else Decoded(rest, Plain, field + [c], record)
      case Quoted =>
        if c == '"' then Decoded(rest, Quote, field, record) else Decoded(rest, Quoted, field + [c], record)
      case Quote =>
        if c == '"' then Decoded(rest, Quoted, field + ['"'], record)
        else if c == ',' then Decoded(rest, Before, "", record + [field])
        else if c == '\n' then Cons(record + [field], Decoded(rest, Before, "", []))
        else None
  }

  function Csv(text: string): Option<seq<seq<string>>> { Decoded(text, Before, "", []) }

  lemma OneChar(c: char, rest: string)
    ensures ([c] + rest)[0] == c && ([c] + rest)[1..] == rest && [c] + rest != ""
  {
  }

  lemma {:induction false} PlainRuns(s: string, rest: string, field: string, record: seq<string>)
    requires !NeedsQuotes(s)
    ensures Decoded(s + rest, Plain, field, record) == Decoded(rest, Plain, field + s, record)
  {
    if s == "" {
      assert s + rest == rest && field + s == field;
    } else {
      assert Special(s[0]) ==> NeedsQuotes(s);
      assert forall i :: 0 <= i < |s[1..]| ==> s[1..][i] == s[i + 1];
      PlainRuns(s[1..], rest, field + [s[0]], record);
      assert s + rest == [s[0]] + (s[1..] + rest);
      OneChar(s[0], s[1..] + rest);
      assert field + [s[0]] + s[1..] == field + s;
    }
  }

  lemma {:induction false} QuotedRuns(s: string, rest: string, field: string, record: seq<string>)
    ensures Decoded(Doubled(s) + rest, Quoted, field, record) == Decoded(rest, Quoted, field + s, record)
  {
    if s == "" {
      assert Doubled(s) + rest == rest && field + s == field;
    } else {
      var tail := Doubled(s[1..]) + rest;
      QuotedRuns(s[1..], rest, field + [s[0]], record);
      assert field + [s[0]] + s[1..] == field + s;
      if s[0] == '"' {
        assert Doubled(s) + rest == ['"'] + (['"'] + tail);
        OneChar('"', ['"'] + tail);
        OneChar('"', tail);
      } else {
        assert Doubled(s) + rest == [s[0]] + tail;
        OneChar(s[0], tail);
      }
    }
  }

  function AfterField(s: string, c: char, rest: string, record: seq<string>): Option<seq<seq<string>>> {
    if c == ',' then Decoded(rest, Before, "", record + [s]) else Cons(record + [s], Decoded(rest, Before, "", []))
  }

  /** A written field decodes to its value, whatever it contains. */
  lemma FieldReads(s: string, c: char, rest: string, record: seq<string>)
    requires c == ',' || c == '\n'
    ensures Decoded(Field(s) + ([c] + rest), Before, "", record) == AfterField(s, c, rest, record)
  {
    hide Doubled;
    OneChar(c, rest);
    if NeedsQuotes(s) {
      QuotedReads(s, c, rest, record);
    } else if s == "" {
      assert Field(s) + ([c] + rest) == [c] + rest;
    } else {
      assert Special(s[0]) ==> NeedsQuotes(s);
      assert forall i :: 0 <= i < |s[1..]| ==> s[1..][i] == s[i + 1];
      assert s + ([c] + rest) == [s[0]] + (s[1..] + ([c] + rest));
      OneChar(s[0], s[1..] + ([c] + rest));
      PlainRuns(s[1..], [c] + rest, [s[0]], record);
      assert [s[0]] + s[1..] == s;
    }
  }

  lemma QuotedReads(s: string, c: char, rest: string, record: seq<string>)
    requires c == ',' || c == '\n'
    ensures Decoded("\"" + Doubled(s) + "\"" + ([c] + rest), Before, "", record) == AfterField(s, c, rest, record)
  {
    hide Doubled;
    var tail := ['"'] + ([c] + rest);
    assert "\"" + Doubled(s) + "\"" + ([c] + rest) == ['"'] + (Doubled(s) + tail);
    OneChar('"', Doubled(s) + tail);
    QuotedRuns(s, tail, "", record);
    assert "" + s == s;
    OneChar('"', [c] + rest);
    OneChar(c, rest);
  }

  lemma RowCons(v: seq<string>, rest: string)
    requires |v| > 1
    ensures Row(v) + rest == Field(v[0]) + ([','] + (Row(v[1..]) + rest))
  {
    hide Field;
    var more := Fields(v[1..]);
    assert Fields(v)[1..] == more && more != [];
    Regroup(Field(v[0]), JoinWith(",", more), rest);
  }

  lemma Regroup(a: string, b: string, rest: string)
    ensures a + ("," + b) + "\n" + rest == a + ([','] + ((b + "\n") + rest))
  {
    assert "," + b + "\n" + rest == [','] + ((b + "\n") + rest);
  }

  lemma RowOne(v: seq<string>, rest: string)
    requires |v| == 1
    ensures Row(v) + rest == Field(v[0]) + (['\n'] + rest) && v == [v[0]]
  {
    hide Field;
    assert JoinWith(",", Fields(v)) == Field(v[0]);
  }

  /** A written row decodes to its values as one record. */
  lemma {:induction false} RowReads(v: seq<string>, rest: string, record: seq<string>)
    requires v != []
    ensures Decoded(Row(v) + rest, Before, "", record) == Cons(record + v, Decoded(rest, Before, "", []))
  {
    hide Decoded, Field, Cons, Row;
    if |v| == 1 {
      RowOne(v, rest);
      FieldReads(v[0], '\n', rest, record);
    } else {
      RowReads(v[1..], rest, record + [v[0]]);
      RowCons(v, rest);
      FieldReads(v[0], ',', Row(v[1..]) + rest, record);
      assert (record + [v[0]]) + v[1..] == record + v;
    }
  }

  ghost function Records(es: seq<Event>, stamp: int -> string): seq<seq<string>> {
    if es == [] then [] else [Values(es[0], stamp)] + Records(es[1..], stamp)
  }

  lemma {:induction false} RowsFront(es: seq<Event>, stamp: int -> string)
    requires es != []
    ensures Rows(es, stamp) == Row(Values(es[0], stamp)) + Rows(es[1..], stamp)
  {
    hide Row, Values;
    var n := |es| - 1;
    if n == 0 {
      assert es[..0] == [] && es[1..] == [];
      assert Rows([], stamp) == "";
    } else {
      RowsFront(es[..n], stamp);
      assert es[..n][1..] == es[1..][..n - 1];
      assert Row(Values(es[0], stamp)) + Rows(es[1..][..n - 1], stamp) + Row(Values(es[n], stamp))
          == Row(Values(es[0], stamp)) + (Rows(es[1..][..n - 1], stamp) + Row(Values(es[n], stamp)));
    }
  }

  lemma {:induction false} RowsRead(es: seq<Event>, stamp: int -> string)
    ensures Csv(Rows(es, stamp)) == Some(Records(es, stamp))
  {
    hide Row, Values, Decoded;
    if es == [] {
      NothingReads();
    } else {
      RowsFront(es, stamp);
      RowsRead(es[1..], stamp);
      ValuesAreTen(es[0], stamp);
      RowReads(Values(es[0], stamp), Rows(es[1..], stamp), []);
      assert [] + Values(es[0], stamp) == Values(es[0], stamp);
    }
  }

  lemma NothingReads()
    ensures Csv("") == Some([])
  {
  }

  lemma ValuesAreTen(e: Event, stamp: int -> string)
    ensures |Values(e, stamp)| == 10
  {
  }

  /** An exported file decodes to the header and one ten-field record per event, each value as
      it was, whatever quotes, commas or line breaks it contains. */
  lemma ExportDecodes(es: seq<Event>, stamp: int -> string)
    ensures Csv(Row(COLUMNS) + Rows(es, stamp)) == Some([COLUMNS] + Records(es, stamp))
    ensures |Records(es, stamp)| == |es| && forall i :: 0 <= i < |es| ==> Records(es, stamp)[i] == Values(es[i], stamp)
  {
    hide Row, Values, Decoded;
    RowReads(COLUMNS, Rows(es, stamp), []);
    assert [] + COLUMNS == COLUMNS;
    RowsRead(es, stamp);
    RecordsAt(es, stamp);
  }

  lemma {:induction false} RecordsAt(es: seq<Event>, stamp: int -> string)
    ensures |Records(es, stamp)| == |es| && forall i :: 0 <= i < |es| ==> Records(es, stamp)[i] == Values(es[i], stamp)
  {
    hide Values;
    if es != [] {
      RecordsAt(es[1..], stamp);
    }
  }

  /** Each column holds what its heading says, and the ten headings are all there. */
  lemma ColumnsHold(e: Event, stamp: int -> string, i: nat)
    requires i < |COLUMNS|
    ensures |COLUMNS| == 10 == |Values(e, stamp)|
    ensures var h, v := COLUMNS[i], Values(e, stamp)[i];
            || (h == "id" && v == Decimal(e.id)) || (h == "timestamp" && v == stamp(e.timestamp))
            || (h == "category" && v == CategoryName(e.category)) || (h == "type" && v == TypeName(e.kind))
            || (h == "source" && v == e.source) || (h == "target" && v == e.target) || (h == "summary" && v == e.summary)
            || (h == "host" && v == e.host) || (h == "platform" && v == e.platform)
            || (h == "attributes" && v == AttributesText(e.attributes))
    ensures forall h :: h in ["id", "timestamp", "category", "type", "source", "target", "summary", "host", "platform", "attributes"]
              ==> h in COLUMNS
  {
    hide CategoryName, TypeName, Decimal, AttributesText;
  }

  /** The attributes column: `key=value` for each attribute in map order, joined by semicolons. */
  lemma AttributesAre(m: map<string, string>, parts: seq<string>)
    requires |parts| == |Ordered(m.Keys)|
    requires forall i :: 0 <= i < |parts| ==> Ordered(m.Keys)[i] in m && parts[i] == Ordered(m.Keys)[i] + "=" + m[Ordered(m.Keys)[i]]
    ensures AttributesText(m) == JoinWith("; ", parts)
  {
    hide Ordered, JoinWith;
    OrderedDistinct(m.Keys);
    PairsAre(m, Ordered(m.Keys));
    assert parts == Pairs(m, Ordered(m.Keys));
  }

  lemma {:induction false} PairsAre(m: map<string, string>, keys: seq<string>)
    requires forall i :: 0 <= i < |keys| ==> keys[i] in m
    ensures |Pairs(m, keys)| == |keys| && forall i :: 0 <= i < |keys| ==> Pairs(m, keys)[i] == keys[i] + "=" + m[keys[i]]
  {
    if keys != [] {
      PairsAre(m, keys[..|keys| - 1]);
    }
  }
}
