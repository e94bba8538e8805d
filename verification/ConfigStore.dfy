/** The configuration store and its file format. */
module ConfigStore {
  import opened ConfigText
  import opened Strings

  /** Where a character first occurs, or the length. */
  function IndexOf(s: string, c: char): (i: nat)
    ensures i <= |s| && Without(s[..i], c) && (i < |s| ==> s[i] == c)
  {
    if s == "" || s[0] == c then 0 else 1 + IndexOf(s[1..], c)
  }

  datatype Setting = Setting(key: string, value: string)

  /** What one line of a file sets, if anything. */
  function Parsed(line: string): Option<Setting> {
    var t := Trim(line);
    var eq := IndexOf(t, '=');
    if t == "" || t[0] == '#' || t[0] == ';' || eq == |t| then None
    else
      var key := Trim(t[..eq]);
      if key == "" then None else Some(Setting(key, Unescape(Trim(t[eq + 1..]))))
  }

  function Loaded(base: map<string, string>, lines: seq<string>): map<string, string> {
    if lines == [] then base
    else
      var m, p := Loaded(base, lines[..|lines| - 1]), Parsed(lines[|lines| - 1]);
      if p.None? then m else m[p.value.key := p.value.value]
  }

  const TITLE := "# change-of-system configuration"
  const NOTE := "# Auto-generated by ConfigStore"
  const HEADER := (TITLE + "\n") + ((NOTE + "\n") + ("" + "\n"))

  function Line(key: string, value: string): string { key + " = " + Escape(value) }

  function SavedLines(m: map<string, string>, keys: seq<string>): string
    requires forall i :: 0 <= i < |keys| ==> keys[i] in m
  {
    if keys == [] then ""
    else SavedLines(m, keys[..|keys| - 1]) + (Line(keys[|keys| - 1], m[keys[|keys| - 1]]) + "\n")
  }

  ghost function Saved(m: map<string, string>): string {
    OrderedDistinct(m.Keys);
    HEADER + SavedLines(m, Ordered(m.Keys))
  }

  lemma SavedStep(m: map<string, string>, keys: seq<string>, i: nat, head: string)
    requires i < |keys| && forall k :: 0 <= k < |keys| ==> keys[k] in m
    ensures head + SavedLines(m, keys[..i + 1]) == head + SavedLines(m, keys[..i]) + (Line(keys[i], m[keys[i]]) + "\n")
  {
    assert keys[..i + 1][..i] == keys[..i];
  }

  lemma SavedNothing(m: map<string, string>, head: string)
    ensures head + SavedLines(m, []) == head
  {
  }

  class Store {
    var values: map<string, string>

    constructor (defaults: map<string, string>)
      ensures values == defaults
    {
      values := defaults;
    }

    /** `text` is the file's content, if it opens. */
    method Load(text: Option<string>)
      modifies this
      ensures values == if text.None? then old(values) else Loaded(old(values), Lines(text.value))
    {
      if text.None? { return; }
      var lines := Lines(text.value);
      for i := 0 to |lines|
        invariant values == Loaded(old(values), lines[..i])
      {
        assert lines[..i + 1][..i] == lines[..i];
        var trimmed := TrimText(lines[i]);
        if trimmed == "" || trimmed[0] == '#' || trimmed[0] == ';' { continue; }
        var eq := IndexOf(trimmed, '=');
        if eq == |trimmed| { continue; }
        var key := TrimText(trimmed[..eq]);
        var value := TrimText(trimmed[eq + 1..]);
        value := UnescapeValue(value);
        if key != "" { values := values[key := value]; }
      }
      assert lines[..|lines|] == lines;
    }

    method Save() returns (text: string)
      ensures text == Saved(values)
    {
      hide Escape, SavedLines, Ordered;
      OrderedDistinct(values.Keys);
      var keys := Ordered(values.Keys);
      text := HEADER;
      SavedNothing(values, HEADER);
      for i := 0 to |keys|
        invariant text == HEADER + SavedLines(values, keys[..i])
      {
        SavedStep(values, keys, i, HEADER);
        var value := EscapeValue(values[keys[i]]);
        text := text + (keys[i] + " = " + value + "\n");
      }
      assert keys[..|keys|] == keys;
    }

    method Set(key: string, value: string)
      modifies this
      ensures values == old(values)[key := value]
    {
      values := values[key := value];
    }

    method Get(key: string, fallback: string) returns (value: string)
      ensures value == if key in values then values[key] else fallback
    {
      value := if key in values then values[key] else fallback;
    }

    method SetList(key: string, items: seq<string>)
      modifies this
      ensures values == old(values)[key := JoinWith(", ", items)]
    {
      var text := JoinList(items);
      Set(key, text);
    }

    method GetList(key: string, fallback: seq<string>) returns (items: seq<string>)
      ensures items == ListOf(values, key, fallback)
    {
      var v := Get(key, "");
      if v == "" { return fallback; }
      items := SplitList(v);
    }
  }

  function ListOf(m: map<string, string>, key: string, fallback: seq<string>): seq<string> {
    if key !in m || m[key] == "" then fallback else Items(m[key])
  }

  /** Setting a list and getting it gives the list back exactly when its items are trimmed and
      comma-free; a list of nothing and a list of one empty item give the fallback. */
  lemma SetThenGetList(m: map<string, string>, key: string, items: seq<string>, fallback: seq<string>)
    ensures ListOf(m[key := JoinWith(", ", items)], key, fallback) == items <==>
              if items == [] || items == [""] then fallback == items
              else forall i :: 0 <= i < |items| ==> ItemOk(items[i])
  {
    hide Items, ItemOk, JoinWith;
    EmptyLists(items);
    if JoinWith(", ", items) != "" {
      ListReadsBack(items);
    }
  }

  // ------------------------------------------------------------ load after save

  predicate KeyOk(key: string) {
    key != "" && Tight(key, IsSpace) && Without(key, '=') && Without(key, '\n') && key[0] != '#' && key[0] != ';'
  }

  predicate KeysOk(m: map<string, string>) { forall k :: k in m ==> KeyOk(k) }

  predicate ValuesOk(m: map<string, string>) { forall k :: k in m ==> Tight(m[k], Soft) }

  lemma {:induction false} IndexAt(a: string, c: char, b: string)
    requires Without(a, c)
    ensures IndexOf(a + [c] + b, c) == |a|
  {
    if a != "" {
      IndexAt(a[1..], c, b);
      assert (a + [c] + b)[1..] == a[1..] + [c] + b;
    }
  }

  /** A saved line sets its key to the value without the white space escaping left at its ends. */
  lemma LineReads(key: string, value: string)
    requires KeyOk(key)
    ensures Parsed(Line(key, value)) == Some(Setting(key, Strip(value, Soft)))
  {
    hide Trim, Escape, Unescape, Strip, IndexOf, Parsed, KeyOk;
    var a, b := TrimEscaped(value);
    var v := Escape(Strip(value, Soft));
    LineTrims(key, a, v, b);
    TrimmedReads(Line(key, value), key, a, v);
    UnescapeEscape(Strip(value, Soft));
  }

  lemma TrimmedReads(line: string, key: string, a: string, v: string)
    requires KeyOk(key) && All(a, IsSpace) && Tight(v, IsSpace)
    requires Trim(line) == if v == "" then key + " =" else key + " = " + a + v
    ensures Parsed(line) == Some(Setting(key, Unescape(v)))
  {
    hide Trim, Unescape, IndexOf;
    var t := Trim(line);
    var rest := if v == "" then "" else " " + a + v;
    EqualsAt(t, key, rest);
    KeyTrims(key);
    ValueTrims(a, v);
  }

  lemma EqualsAt(t: string, key: string, rest: string)
    requires t == key + " =" + rest && Without(key, '=')
    ensures IndexOf(t, '=') == |key| + 1 < |t| && t[..|key| + 1] == key + " " && t[|key| + 2..] == rest
  {
    IndexAt(key + " ", '=', rest);
    assert t == (key + " ") + ['='] + rest;
  }

  lemma LineTrims(key: string, a: string, v: string, b: string)
    requires KeyOk(key) && All(a, IsSpace) && All(b, IsSpace) && Tight(v, IsSpace)
    ensures Trim(key + " = " + (a + v + b)) == if v == "" then key + " =" else key + " = " + a + v
  {
    if v == "" {
      var t := key + " =";
      assert "" + t + (" " + a + b) == key + " = " + (a + v + b);
      StripMiddle("", t, " " + a + b, IsSpace);
    } else {
      var t := key + " = " + a + v;
      assert "" + t + b == key + " = " + (a + v + b);
      assert t[0] == key[0] && t[|t| - 1] == v[|v| - 1];
      StripMiddle("", t, b, IsSpace);
    }
  }

  lemma KeyTrims(key: string)
    requires Tight(key, IsSpace)
    ensures Trim(key + " ") == key
  {
    assert "" + key + " " == key + " ";
    StripMiddle("", key, " ", IsSpace);
  }

  lemma ValueTrims(a: string, v: string)
    requires All(a, IsSpace) && Tight(v, IsSpace)
    ensures Trim(if v == "" then "" else " " + a + v) == v
  {
    if v != "" {
      assert (" " + a) + v + "" == " " + a + v;
      StripMiddle(" " + a, v, "", IsSpace);
    }
  }

  // ------------------------------------------------------------ whole files

  lemma {:induction false} LoadedAppend(base: map<string, string>, a: seq<string>, b: seq<string>)
    ensures Loaded(base, a + b) == Loaded(Loaded(base, a), b)
    decreases |b|
  {
    hide Parsed;
    if b == [] {
      assert a + b == a;
    } else {
      assert (a + b)[..|a + b| - 1] == a + b[..|b| - 1];
      LoadedAppend(base, a, b[..|b| - 1]);
    }
  }

  lemma {:induction false} StripEndKeepsHead(s: string, p: CharTest)
    requires s != "" && !p(s[0])
    ensures StripEnd(s, p) != "" && StripEnd(s, p)[0] == s[0]
  {
    if p(s[|s| - 1]) {
      StripEndKeepsHead(s[..|s| - 1], p);
    }
  }

  lemma CommentSkipped(line: string)
    requires line == "" || line[0] == '#'
    ensures Parsed(line) == None
  {
    if line != "" {
      StripEndKeepsHead(line, IsSpace);
    }
  }

  lemma HeaderLines()
    ensures EndsLine(HEADER) && Lines(HEADER) == [TITLE] + ([NOTE] + [""])
  {
    hide Lines;
    LineOf(TITLE);
    LineOf(NOTE);
    LineOf("");
    LinesAppend(TITLE + "\n", (NOTE + "\n") + ("" + "\n"));
    LinesAppend(NOTE + "\n", "" + "\n");
  }

  lemma LineSkipped(base: map<string, string>, line: string)
    requires line == "" || line[0] == '#'
    ensures Loaded(base, [line]) == base
  {
    hide Parsed;
    CommentSkipped(line);
    assert [line][..0] == [];
    assert Loaded(base, []) == base;
  }

  lemma HeaderSkipped(base: map<string, string>)
    ensures EndsLine(HEADER) && Loaded(base, Lines(HEADER)) == base
  {
    hide Loaded, Lines;
    HeaderLines();
    LineSkipped(base, TITLE);
    LineSkipped(base, NOTE);
    LineSkipped(base, "");
    LoadedAppend(base, [NOTE], [""]);
    LoadedAppend(base, [TITLE], [NOTE] + [""]);
  }

  /** What a map reads back as, key by key. */
  function Softened(m: map<string, string>, keys: set<string>): map<string, string> {
    map k | k in m && k in keys :: Strip(m[k], Soft)
  }

  lemma LineFree(key: string, value: string)
    requires KeyOk(key)
    ensures Without(Line(key, value), '\n')
  {
    EscapeNoNewline(value);
  }

  lemma {:induction false} SavedLinesLoad(base: map<string, string>, m: map<string, string>, keys: seq<string>)
    requires KeysOk(m) && forall i :: 0 <= i < |keys| ==> keys[i] in m
    ensures EndsLine(SavedLines(m, keys))
    ensures Loaded(base, Lines(SavedLines(m, keys))) == base + Softened(m, set k | k in keys)
  {
    hide Parsed, Lines, Line, Strip, KeyOk;
    if keys == [] {
      assert Lines("") == [] by { NoLines(); }
      assert Softened(m, set k | k in keys) == map[];
    } else {
      var n := |keys| - 1;
      var key, front := keys[n], keys[..n];
      SavedLinesLoad(base, m, front);
      var text, line := SavedLines(m, front), Line(key, m[key]);
      LinesAppend(text, line + "\n");
      LineFree(key, m[key]);
      LineOf(line);
      LineReads(key, m[key]);
      LoadedAppend(base, Lines(text), [line]);
      var before := Loaded(base, Lines(text));
      assert [line][..0] == [] && Loaded(before, []) == before;
      assert Loaded(before, [line]) == before[key := Strip(m[key], Soft)];
      SoftenedStep(base, m, front, key);
      assert keys == front + [key];
    }
  }

  lemma NoLines()
    ensures Lines("") == []
  {
    assert Split("", '\n') == [""];
  }

  lemma SoftenedStep(base: map<string, string>, m: map<string, string>, front: seq<string>, key: string)
    requires key in m
    ensures (base + Softened(m, set k | k in front))[key := Strip(m[key], Soft)] == base + Softened(m, set k | k in front + [key])
  {
  }

  /** Loading a saved store on top of any settings sets every key to its value without the
      blanks, vertical tabs and form feeds at its ends. */
  lemma LoadAfterSave(base: map<string, string>, m: map<string, string>)
    requires KeysOk(m)
    ensures Loaded(base, Lines(Saved(m))) == base + Softened(m, m.Keys)
  {
    hide Lines, KeysOk, Ordered, Loaded;
    OrderedDistinct(m.Keys);
    var keys := Ordered(m.Keys);
    HeaderSkipped(base);
    LinesAppend(HEADER, SavedLines(m, keys));
    LoadedAppend(base, Lines(HEADER), Lines(SavedLines(m, keys)));
    SavedLinesLoad(base, m, keys);
    assert (set k | k in keys) == m.Keys;
  }

  lemma StripWithout(s: string, p: CharTest, c: char)
    requires Without(s, c)
    ensures Without(Strip(s, p), c) && Tight(Strip(s, p), p)
  {
    hide Strip;
    var a, b := StripParts(s, p);
    assert forall i :: 0 <= i < |Strip(s, p)| ==> Strip(s, p)[i] == s[|a| + i];
  }

  lemma StripKeepsHead(s: string, p: CharTest)
    requires s != "" && !p(s[0])
    ensures Strip(s, p) != "" && Strip(s, p)[0] == s[0]
  {
    StripEndKeepsHead(s, p);
  }

  lemma StripNothing(p: CharTest)
    ensures Strip("", p) == ""
  {
  }

  lemma ParsedKeyOk(line: string)
    requires Without(line, '\n') && Parsed(line).Some?
    ensures KeyOk(Parsed(line).value.key)
  {
    hide Unescape, Strip, IndexOf;
    var t := Trim(line);
    var s := t[..IndexOf(t, '=')];
    StripWithout(line, IsSpace, '\n');
    StripWithout(s, IsSpace, '\n');
    StripWithout(s, IsSpace, '=');
    StripNothing(IsSpace);
    if s != "" {
      StripKeepsHead(s, IsSpace);
    }
  }

  /** A file never sets a key outside the well-formed ones. */
  lemma {:induction false} LoadedKeysOk(base: map<string, string>, lines: seq<string>)
    requires KeysOk(base) && forall i :: 0 <= i < |lines| ==> Without(lines[i], '\n')
    ensures KeysOk(Loaded(base, lines))
  {
    hide Parsed, KeyOk;
    if lines != [] {
      LoadedKeysOk(base, lines[..|lines| - 1]);
      if Parsed(lines[|lines| - 1]).Some? {
        ParsedKeyOk(lines[|lines| - 1]);
      }
    }
  }

  /** Saving and loading into an empty store gives back the whole map exactly when every key is
      trimmed, not empty, free of '=' and newlines and no comment, and no value begins or ends
      in a blank, vertical tab or form feed. */
  lemma SaveLoadRoundTrip(m: map<string, string>)
    ensures Loaded(map[], Lines(Saved(m))) == m <==> KeysOk(m) && ValuesOk(m)
  {
    hide Lines, Loaded, KeyOk, Strip;
    if KeysOk(m) {
      LoadAfterSave(map[], m);
      forall k | k in m ensures Strip(m[k], Soft) == m[k] <==> Tight(m[k], Soft) {
        StripTight(m[k], Soft);
      }
      var back := Softened(m, m.Keys);
      assert map[] + back == back;
      if !ValuesOk(m) {
        var k :| k in m && !Tight(m[k], Soft);
        assert back[k] != m[k];
      }
    } else {
      LinesPieces(Saved(m));
      LoadedKeysOk(map[], Lines(Saved(m)));
    }
  }

  /** A saved store loads back whole on top of any settings whose keys it has. */
  lemma ReloadRestores(base: map<string, string>, m: map<string, string>)
    requires KeysOk(m) && ValuesOk(m) && base.Keys <= m.Keys
    ensures Loaded(base, Lines(Saved(m))) == m
  {
    hide Lines, Loaded, KeyOk, Strip;
    LoadAfterSave(base, m);
    forall k | k in m ensures Strip(m[k], Soft) == m[k] {
      StripTight(m[k], Soft);
    }
    assert base + Softened(m, m.Keys) == m;
  }

  // ------------------------------------------------------------ lines written by hand

  /** White space around key and value does not matter, and only the first equals sign counts. */
  lemma AnyLineReads(w1: string, key: string, w2: string, w3: string, v: string, w4: string)
    requires KeyOk(key) && Tight(v, IsSpace)
    requires All(w1, IsSpace) && All(w2, IsSpace) && All(w3, IsSpace) && All(w4, IsSpace)
    ensures Parsed(w1 + (key + w2 + "=" + w3 + v) + w4) == Some(Setting(key, Unescape(v)))
  {
    hide Trim, Unescape, IndexOf;
    var line := w1 + (key + w2 + "=" + w3 + v) + w4;
    var head := key + w2;
    var rest := if v == "" then "" else w3 + v;
    var t := head + "=" + rest;
    assert t[0] == key[0] && t[|t| - 1] == if v == "" then '=' else v[|v| - 1];
    if v == "" {
      assert line == w1 + t + (w3 + w4);
      TrimMiddle(w1, t, w3 + w4);
    } else {
      assert line == w1 + t + w4;
      TrimMiddle(w1, t, w4);
    }
    assert Without(head, '=') by { SpacesHold(w2); }
    IndexAt(head, '=', rest);
    assert t == head + ['='] + rest;
    assert t[..|head|] == head && t[|head| + 1..] == rest;
    assert "" + key + w2 == head;
    TrimMiddle("", key, w2);
    if v == "" {
      TrimMiddle("", "", "");
      assert "" + "" + "" == "";
    } else {
      assert w3 + v + "" == rest;
      TrimMiddle(w3, v, "");
    }
  }

  lemma TrimMiddle(a: string, t: string, b: string)
    requires All(a, IsSpace) && Tight(t, IsSpace) && All(b, IsSpace)
    ensures Trim(a + t + b) == t
  {
    StripMiddle(a, t, b, IsSpace);
  }

  lemma SpacesHold(w: string)
    requires All(w, IsSpace)
    ensures Without(w, '=')
  {
  }

  /** Blank lines, comments and lines without an equals sign set nothing. */
  lemma IgnoredLine(w: string, rest: string)
    requires All(w, IsSpace)
    requires rest == "" || rest[0] == '#' || rest[0] == ';' || Without(rest, '=')
    ensures Parsed(w + rest) == None
  {
    hide Trim, Unescape, IndexOf, Strip;
    StripStartPast(w, rest, IsSpace);
    TrimKeepsWhat(w, rest);
  }

  lemma TrimKeepsWhat(w: string, rest: string)
    requires All(w, IsSpace)
    ensures var t := Trim(w + rest);
            && (rest == "" ==> t == "")
            && (rest != "" && !IsSpace(rest[0]) ==> t != "" && t[0] == rest[0])
            && (Without(rest, '=') ==> Without(t, '='))
  {
    StripStartPast(w, rest, IsSpace);
    var s := StripStart(rest, IsSpace);
    var a := StripStartParts(rest, IsSpace);
    var b := StripEndParts(s, IsSpace);
    if rest != "" && !IsSpace(rest[0]) { StripEndKeepsHead(rest, IsSpace); }
    if Without(rest, '=') {
      assert forall i :: 0 <= i < |s| ==> rest[|a| + i] == s[i];
      assert forall i :: 0 <= i < |StripEnd(s, IsSpace)| ==> s[i] == StripEnd(s, IsSpace)[i];
    }
  }
}
