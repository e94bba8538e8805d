/** The text codecs of the configuration store: trimming, escaping and comma lists. */
module ConfigText {
  import opened Strings

  // ------------------------------------------------------------ stripping

  type CharTest = char -> bool

  function StripStart(s: string, p: CharTest): string {
    if s != "" && p(s[0]) then StripStart(s[1..], p) else s
  }

  function StripEnd(s: string, p: CharTest): string {
    if s != "" && p(s[|s| - 1]) then StripEnd(s[..|s| - 1], p) else s
  }

  function Strip(s: string, p: CharTest): string { StripEnd(StripStart(s, p), p) }

  function Trim(s: string): string { Strip(s, IsSpace) }

  predicate All(s: string, p: CharTest) { forall i :: 0 <= i < |s| ==> p(s[i]) }

  /** Neither end would be stripped. */
  predicate Tight(s: string, p: CharTest) { s == "" || (!p(s[0]) && !p(s[|s| - 1])) }

  lemma {:induction false} StripStartPast(a: string, s: string, p: CharTest)
    requires All(a, p)
    ensures StripStart(a + s, p) == StripStart(s, p)
  {
    if a == "" {
      assert a + s == s;
    } else {
      StripStartPast(a[1..], s, p);
      assert (a + s)[1..] == a[1..] + s && (a + s)[0] == a[0];
    }
  }

  lemma {:induction false} StripEndPast(s: string, b: string, p: CharTest)
    requires All(b, p)
    ensures StripEnd(s + b, p) == StripEnd(s, p)
  {
    if b == "" {
      assert s + b == s;
    } else {
      var n := |b| - 1;
      StripEndPast(s, b[..n], p);
      assert (s + b)[..|s| + n] == s + b[..n] && (s + b)[|s| + n] == b[n];
    }
  }

  /** Stripping gives the tight middle, however the ends are padded. */
  lemma StripMiddle(a: string, t: string, b: string, p: CharTest)
    requires All(a, p) && Tight(t, p) && All(b, p)
    ensures Strip(a + t + b, p) == t
  {
    assert a + t + b == a + (t + b);
    StripStartPast(a, t + b, p);
    if t == "" {
      assert t + b == b && b + "" == b;
      StripStartPast(b, "", p);
    } else {
      StripEndPast(t, b, p);
    }
  }

  lemma {:induction false} StripStartParts(s: string, p: CharTest) returns (a: string)
    ensures s == a + StripStart(s, p) && All(a, p)
  {
    if s != "" && p(s[0]) {
      var more := StripStartParts(s[1..], p);
      a := [s[0]] + more;
    } else {
      a := "";
    }
  }

  lemma {:induction false} StripEndParts(s: string, p: CharTest) returns (b: string)
    ensures s == StripEnd(s, p) + b && All(b, p)
    ensures StripEnd(s, p) == "" || !p(StripEnd(s, p)[|StripEnd(s, p)| - 1])
  {
    if s != "" && p(s[|s| - 1]) {
      var more := StripEndParts(s[..|s| - 1], p);
      b := more + [s[|s| - 1]];
      assert s == s[..|s| - 1] + [s[|s| - 1]];
    } else {
      b := "";
    }
  }

  lemma {:induction false} StripStartTight(s: string, p: CharTest)
    ensures StripStart(s, p) == "" || !p(StripStart(s, p)[0])
  {
    if s != "" && p(s[0]) {
      StripStartTight(s[1..], p);
    }
  }

  /** Every text is its stripped form with padding on both sides. */
  lemma StripParts(s: string, p: CharTest) returns (a: string, b: string)
    ensures s == a + Strip(s, p) + b && All(a, p) && Tight(Strip(s, p), p) && All(b, p)
  {
    a := StripStartParts(s, p);
    b := StripEndParts(StripStart(s, p), p);
    StripStartTight(s, p);
    assert a + (Strip(s, p) + b) == a + Strip(s, p) + b;
    if Strip(s, p) != "" {
      assert StripStart(s, p)[0] == Strip(s, p)[0];
    }
  }

  lemma StripTight(s: string, p: CharTest)
    ensures Strip(s, p) == s <==> Tight(s, p)
  {
    if Tight(s, p) {
      assert "" + s + "" == s;
      StripMiddle("", s, "", p);
    } else {
      var a, b := StripParts(s, p);
    }
  }

  lemma StripStartStep(s: string, i: nat, p: CharTest)
    requires i < |s|
    ensures StripStart(s[i..], p) == if p(s[i]) then StripStart(s[i + 1..], p) else s[i..]
  {
    assert s[i..][1..] == s[i + 1..];
  }

  lemma StripEndStep(s: string, i: nat, j: nat, p: CharTest)
    requires i < j <= |s|
    ensures StripEnd(s[i..j], p) == if p(s[j - 1]) then StripEnd(s[i..j - 1], p) else s[i..j]
  {
    assert s[i..j][..j - i - 1] == s[i..j - 1];
  }

  lemma StripNothing(s: string, i: nat, p: CharTest)
    requires i <= |s|
    ensures StripStart(s[|s|..], p) == s[|s|..] && StripEnd(s[i..i], p) == s[i..i] && s[0..] == s && s[i..|s|] == s[i..]
  {
  }

  method TrimText(s: string) returns (r: string)
    ensures r == Trim(s)
  {
    hide StripStart, StripEnd;
    var start := 0;
    StripNothing(s, 0, IsSpace);
    while start < |s| && IsSpace(s[start])
      invariant 0 <= start <= |s|
      invariant StripStart(s, IsSpace) == StripStart(s[start..], IsSpace)
    {
      StripStartStep(s, start, IsSpace);
      start := start + 1;
    }
    if start < |s| { StripStartStep(s, start, IsSpace); }
    StripNothing(s, start, IsSpace);
    var end := |s|;
    while end > start && IsSpace(s[end - 1])
      invariant start <= end <= |s|
      invariant Trim(s) == StripEnd(s[start..end], IsSpace)
    {
      StripEndStep(s, start, end, IsSpace);
      end := end - 1;
    }
    if end > start { StripEndStep(s, start, end, IsSpace); }
    return s[start..end];
  }

  // ------------------------------------------------------------ escaping

  function Piece(c: char): string {
    match c
    case '\n' => "\\n"
    case '\r' => "\\r"
    case '\t' => "\\t"
    case '\\' => "\\\\"
    case _ => [c]
  }

  function Escape(s: string): string { if s == "" then "" else Piece(s[0]) + Escape(s[1..]) }

  function Raw(c: char): char {
    match c
    case 'n' => '\n'
    case 'r' => '\r'
    case 't' => '\t'
    case _ => c
  }

  function Unescape(s: string): string {
    if s == "" then ""
    else if s[0] == '\\' && |s| > 1 then [Raw(s[1])] + Unescape(s[2..])
    else [s[0]] + Unescape(s[1..])
  }

  lemma {:induction false} EscapeAppend(a: string, b: string)
    ensures Escape(a + b) == Escape(a) + Escape(b)
  {
    if a == "" {
      EscapeEmpty();
      assert a + b == b;
    } else {
      EscapeAppend(a[1..], b);
      assert (a + b)[1..] == a[1..] + b && (a + b)[0] == a[0];
      hide Piece, Escape;
      Joined(Piece(a[0]), Escape(a[1..]), Escape(b));
      EscapeCons(a);
      EscapeCons(a + b);
    }
  }

  lemma Joined(a: string, b: string, c: string)
    ensures a + (b + c) == (a + b) + c
  {
  }

  lemma EscapeEmpty()
    ensures Escape("") == ""
  {
  }

  lemma EscapeCons(s: string)
    requires s != ""
    ensures Escape(s) == Piece(s[0]) + Escape(s[1..])
  {
  }

  lemma EscapeOne(c: char)
    ensures Escape([c]) == Piece(c)
  {
    assert [c][1..] == "";
  }

  method EscapeValue(value: string) returns (out: string)
    ensures out == Escape(value)
  {
    out := "";
    for i := 0 to |value|
      invariant out == Escape(value[..i])
    {
      assert value[..i + 1] == value[..i] + [value[i]];
      EscapeAppend(value[..i], [value[i]]);
      EscapeOne(value[i]);
      match value[i] {
        case '\n' => out := out + "\\n";
        case '\r' => out := out + "\\r";
        case '\t' => out := out + "\\t";
        case '\\' => out := out + "\\\\";
        case _ => out := out + [value[i]];
      }
    }
    assert value[..|value|] == value;
  }

  lemma UnescapeAt(s: string, i: nat, out: string)
    requires i < |s|
    ensures out + Unescape(s[i..]) ==
            if s[i] == '\\' && i + 1 < |s| then out + [Raw(s[i + 1])] + Unescape(s[i + 2..]) else out + [s[i]] + Unescape(s[i + 1..])
  {
    assert s[i..][1..] == s[i + 1..];
    if i + 1 < |s| {
      assert s[i..][2..] == s[i + 2..];
    }
  }

  method UnescapeValue(value: string) returns (out: string)
    ensures out == Unescape(value)
  {
    hide Unescape;
    out := "";
    var i := 0;
    assert value[0..] == value && "" + Unescape(value) == Unescape(value);
    while i < |value|
      invariant 0 <= i <= |value|
      invariant Unescape(value) == out + Unescape(value[i..])
    {
      UnescapeAt(value, i, out);
      if value[i] == '\\' && i + 1 < |value| {
        i := i + 1;
        match value[i] {
          case 'n' => out := out + ['\n'];
          case 'r' => out := out + ['\r'];
          case 't' => out := out + ['\t'];
          case '\\' => out := out + ['\\'];
          case _ => out := out + [value[i]];
        }
      } else {
        out := out + [value[i]];
      }
      i := i + 1;
    }
    UnescapeNothing(value[i..]);
  }

  lemma UnescapeNothing(s: string)
    requires s == ""
    ensures Unescape(s) == ""
  {
  }

  /** Unescaping undoes escaping, for every text. */
  lemma {:induction false} UnescapeEscape(s: string)
    ensures Unescape(Escape(s)) == s
  {
    if s != "" {
      UnescapeEscape(s[1..]);
      var e := Escape(s);
      if |Piece(s[0])| == 2 {
        assert e[2..] == Escape(s[1..]);
      } else {
        assert e[1..] == Escape(s[1..]);
      }
    }
  }

  /** The white space that escaping leaves as it is: blanks, vertical tabs and form feeds. */
  predicate Soft(c: char) { c == ' ' || c == '\U{000B}' || c == '\U{000C}' }

  lemma {:induction false} EscapeSoft(s: string)
    requires All(s, Soft)
    ensures Escape(s) == s
  {
    if s != "" {
      EscapeSoft(s[1..]);
    }
  }

  lemma EscapeTight(t: string)
    requires Tight(t, Soft)
    ensures Tight(Escape(t), IsSpace)
  {
    if t != "" {
      var n := |t| - 1;
      assert t == t[..n] + [t[n]];
      EscapeAppend(t[..n], [t[n]]);
      EscapeOne(t[n]);
      var e := Escape(t);
      assert e[0] == Piece(t[0])[0] && e[|e| - 1] == Piece(t[n])[|Piece(t[n])| - 1];
    }
  }

  /** Trimming an escaped value strips exactly the white space that was not escaped. */
  lemma TrimEscaped(v: string) returns (a: string, b: string)
    ensures Escape(v) == a + Escape(Strip(v, Soft)) + b
    ensures All(a, IsSpace) && All(b, IsSpace) && Tight(Escape(Strip(v, Soft)), IsSpace)
  {
    a, b := StripParts(v, Soft);
    var t := Strip(v, Soft);
    EscapeAppend(a + t, b);
    EscapeAppend(a, t);
    EscapeSoft(a);
    EscapeSoft(b);
    EscapeTight(t);
  }

  lemma {:induction false} EscapeNoNewline(s: string)
    ensures Without(Escape(s), '\n')
  {
    if s != "" {
      EscapeNoNewline(s[1..]);
    }
  }

  // ------------------------------------------------------------ comma lists

  function Trimmed(tokens: seq<string>): seq<string> {
    if tokens == [] then [] else [Trim(tokens[0])] + Trimmed(tokens[1..])
  }

  /** The tokens between the commas, without an empty last one. */
  function Tokens(value: string): seq<string> {
    var p := Split(value, ',');
    if p[|p| - 1] == "" then p[..|p| - 1] else p
  }

  function Items(value: string): seq<string> { Trimmed(Tokens(value)) }

  lemma {:induction false} TrimmedAppend(a: seq<string>, b: seq<string>)
    ensures Trimmed(a + b) == Trimmed(a) + Trimmed(b)
  {
    if a == [] {
      assert a + b == b;
    } else {
      TrimmedAppend(a[1..], b);
      assert (a + b)[1..] == a[1..] + b && (a + b)[0] == a[0];
      assert [Trim(a[0])] + (Trimmed(a[1..]) + Trimmed(b)) == ([Trim(a[0])] + Trimmed(a[1..])) + Trimmed(b);
    }
  }

  lemma {:induction false} TrimmedAt(tokens: seq<string>)
    ensures |Trimmed(tokens)| == |tokens|
    ensures forall i :: 0 <= i < |tokens| ==> Trimmed(tokens)[i] == Trim(tokens[i])
  {
    hide Trim;
    if tokens != [] {
      TrimmedAt(tokens[1..]);
    }
  }

  method SplitList(value: string) returns (result: seq<string>)
    ensures result == Items(value)
  {
    hide Split, Trim;
    result := [];
    var token := "";
    ghost var done: seq<string> := [];
    SplitNothing(',');
    for i := 0 to |value|
      invariant Split(value[..i], ',') == done + [token] && result == Trimmed(done)
    {
      assert value[..i + 1] == value[..i] + [value[i]];
      SplitLastChar(value[..i], ',', value[i]);
      if value[i] == ',' {
        var item := TrimText(token);
        TrimmedAppend(done, [token]);
        done := done + [token];
        result := result + [item];
        token := "";
      } else {
        token := token + [value[i]];
      }
    }
    assert value[..|value|] == value;
    if token != "" {
      var item := TrimText(token);
      TrimmedAppend(done, [token]);
      result := result + [item];
    }
  }

  /** What set_list stores. */
  method JoinList(items: seq<string>) returns (text: string)
    ensures text == JoinWith(", ", items)
  {
    text := "";
    for i := 0 to |items|
      invariant text == JoinWith(", ", items[..i])
    {
      assert items[..i + 1] == items[..i] + [items[i]];
      JoinAppend(", ", items[..i], items[i]);
      if i > 0 { text := text + ", "; }
      text := text + items[i];
    }
    assert items[..|items|] == items;
  }

  predicate ItemOk(item: string) { Tight(item, IsSpace) && Without(item, ',') }

  /** Joined comma-free items split into themselves, all but the first behind a blank. */
  lemma {:induction false} SplitJoined(items: seq<string>)
    requires items != [] && forall i :: 0 <= i < |items| ==> Without(items[i], ',')
    ensures var p := Split(JoinWith(", ", items), ',');
            |p| == |items| && p[0] == items[0] && forall i :: 0 < i < |items| ==> p[i] == " " + items[i]
  {
    hide Split;
    if |items| == 1 {
      SplitFree(items[0], ',');
    } else {
      var rest := JoinWith(", ", items[1..]);
      SplitJoined(items[1..]);
      assert JoinWith(", ", items) == items[0] + [','] + ([' '] + rest);
      SplitCons(items[0], ',', [' '] + rest);
      SplitStep(' ', rest, ',');
    }
  }

  lemma ItemsAreOk(value: string)
    ensures forall i :: 0 <= i < |Items(value)| ==> ItemOk(Items(value)[i])
  {
    SplitPieces(value, ',');
    TrimmedAt(Tokens(value));
    forall i | 0 <= i < |Items(value)| ensures ItemOk(Items(value)[i]) {
      var token := Split(value, ',')[i];
      var a, b := StripParts(token, IsSpace);
      forall k | 0 <= k < |Trim(token)| ensures Trim(token)[k] != ',' {
        assert token[|a| + k] == Trim(token)[k];
      }
    }
  }

  lemma TrimPadded(item: string)
    requires Tight(item, IsSpace)
    ensures Trim(item) == item && Trim(" " + item) == item
  {
    StripTight(item, IsSpace);
    assert " " + item + "" == " " + item;
    StripMiddle(" ", item, "", IsSpace);
  }

  lemma TrimmedPieces(p: seq<string>, items: seq<string>)
    requires |p| == |items| > 0 && p[0] == items[0] && forall i :: 0 < i < |items| ==> p[i] == " " + items[i]
    requires forall i :: 0 <= i < |items| ==> Tight(items[i], IsSpace)
    ensures Trimmed(p) == items
  {
    hide Trim, Trimmed, Tight;
    TrimmedAt(p);
    forall i | 0 <= i < |items| ensures Trimmed(p)[i] == items[i] {
      TrimPadded(items[i]);
    }
  }

  lemma LastPiece(p: seq<string>, items: seq<string>)
    requires |p| == |items| > 0 && p[0] == items[0] && forall i :: 0 < i < |items| ==> p[i] == " " + items[i]
    requires JoinWith(", ", items) != ""
    ensures p[|p| - 1] != ""
  {
    hide JoinWith;
    if |items| == 1 {
      JoinOne(items[0]);
      assert items == [items[0]];
    }
  }

  lemma OkReadsBack(items: seq<string>)
    requires JoinWith(", ", items) != "" && forall i :: 0 <= i < |items| ==> ItemOk(items[i])
    ensures Items(JoinWith(", ", items)) == items
  {
    hide Split, Trim, JoinWith, Trimmed, Tight;
    assert items != [] by { JoinNothing(); }
    SplitJoined(items);
    var p := Split(JoinWith(", ", items), ',');
    LastPiece(p, items);
    TrimmedPieces(p, items);
  }

  /** A stored list reads back item by item exactly when every item is trimmed and free of
      commas. */
  lemma ListReadsBack(items: seq<string>)
    requires JoinWith(", ", items) != ""
    ensures Items(JoinWith(", ", items)) == items <==> forall i :: 0 <= i < |items| ==> ItemOk(items[i])
  {
    hide Items, ItemOk, JoinWith;
    if forall i :: 0 <= i < |items| ==> ItemOk(items[i]) {
      OkReadsBack(items);
    } else {
      ItemsAreOk(JoinWith(", ", items));
    }
  }

  lemma JoinNothing()
    ensures JoinWith(", ", []) == ""
  {
  }

  lemma JoinOne(x: string)
    ensures JoinWith(", ", [x]) == x
  {
  }

  /** The two lists that are stored as an empty text. */
  lemma EmptyLists(items: seq<string>)
    ensures JoinWith(", ", items) == "" <==> items == [] || items == [""]
  {
  }

  /** The four escapes, by code; any other character behind a backslash stands for itself, and so
      does a backslash at the end. */
  lemma EscapesAre(c: char, t: string)
    ensures Unescape(['\\', c] + t)
         == [(if c == 'n' then 10 as char else if c == 'r' then 13 as char else if c == 't' then 9 as char else c)] + Unescape(t)
    ensures Unescape("\\") == "\\"
    ensures Escape([10 as char]) == ['\\', 'n'] && Escape([13 as char]) == ['\\', 'r'] && Escape([9 as char]) == ['\\', 't']
    ensures Escape("\\") == "\\\\"
  {
    var s := ['\\', c] + t;
    assert s[2..] == t && |s| > 1;
    EscapeOne(10 as char);
    EscapeOne(13 as char);
    EscapeOne(9 as char);
    EscapeOne('\\');
  }

  /** A comma at the end starts no further item, and an empty text holds none. */
  lemma TrailingComma(value: string)
    ensures Items(value + ",") == Trimmed(Split(value, ','))
    ensures Items("") == []
  {
    hide Split, Trim;
    SplitNothing(',');
    SplitAt(value, ',', "");
    assert value + [','] + "" == value + ",";
    var p := Split(value, ',');
    assert (p + [""])[..|p|] == p;
  }
}
