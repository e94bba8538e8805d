/** The tab-separated record of the event store: serialize_event and parse_event. */
module StorageCodec {
  import opened Events
  import opened Strings

  // ------------------------------------------------------------ writing

  function Blanked(s: string): string {
    seq(|s|, i requires 0 <= i < |s| => if s[i] == '\n' then ' ' else s[i])
  }

  function Entry(k: string, v: string): string { k + ("=" + v) }

  /** The attributes in key order, entries separated by two bars. */
  function AttrText(m: map<string, string>, keys: seq<string>): string
    requires forall i :: 0 <= i < |keys| ==> keys[i] in m
  {
    if keys == [] then "" else
      Entry(keys[0], m[keys[0]]) + (if |keys| == 1 then "" else "||" + AttrText(m, keys[1..]))
  }

  function AttrLine(m: map<string, string>): string {
    OrderedDistinct(m.Keys);
    AttrText(m, Ordered(m.Keys))
  }

  function Tokens(e: Event): seq<string> {
    [Decimal(e.timestamp), CategoryName(e.category), TypeName(e.kind), e.source, e.target, e.host, e.platform,
     Blanked(AttrLine(e.attributes)), Blanked(e.summary)]
  }

  /** One record, without its line end. */
  function SerializedEvent(e: Event): string { JoinWith("\t", Tokens(e)) }

  lemma {:induction false} AttrTextAppend(m: map<string, string>, keys: seq<string>, k: string)
    requires k in m && forall i :: 0 <= i < |keys| ==> keys[i] in m
    ensures AttrText(m, keys + [k]) == AttrText(m, keys) + (if keys == [] then "" else "||") + Entry(k, m[k])
  {
    hide Entry;
    if keys == [] {
      assert [k][1..] == [];
    } else {
      AttrTextAppend(m, keys[1..], k);
      assert (keys + [k])[1..] == keys[1..] + [k];
    }
  }

  lemma AttrTextEmpty(m: map<string, string>, keys: seq<string>)
    requires forall i :: 0 <= i < |keys| ==> keys[i] in m
    ensures AttrText(m, keys) == "" <==> keys == []
  {
  }

  method BlankNewlines(s: string) returns (t: string)
    ensures t == Blanked(s)
  {
    t := "";
    for i := 0 to |s|
      invariant t == Blanked(s[..i])
    {
      t := t + [if s[i] == '\n' then ' ' else s[i]];
      assert Blanked(s[..i + 1]) == Blanked(s[..i]) + [if s[i] == '\n' then ' ' else s[i]];
    }
    assert s[..|s|] == s;
  }

  method SerializeEvent(e: Event) returns (line: string)
    ensures line == SerializedEvent(e)
  {
    hide Entry, AttrText, JoinWith;
    OrderedDistinct(e.attributes.Keys);
    var keys := Ordered(e.attributes.Keys);
    var attrs := "";
    AttrTextEmpty(e.attributes, keys[..0]);
    for i := 0 to |keys|
      invariant attrs == AttrText(e.attributes, keys[..i])
    {
      assert keys[..i + 1] == keys[..i] + [keys[i]];
      AttrTextAppend(e.attributes, keys[..i], keys[i]);
      AttrTextEmpty(e.attributes, keys[..i]);
      if attrs != "" { attrs := attrs + "||"; }
      attrs := attrs + Entry(keys[i], e.attributes[keys[i]]);
    }
    assert keys[..|keys|] == keys;
    attrs := BlankNewlines(attrs);
    var summary := BlankNewlines(e.summary);
    line := JoinWith("\t", [Decimal(e.timestamp), CategoryName(e.category), TypeName(e.kind), e.source, e.target, e.host,
                            e.platform, attrs, summary]);
  }

  // ------------------------------------------------------------ reading

  function SkipSpaces(s: string): string {
    if s != "" && IsSpace(s[0]) then SkipSpaces(s[1..]) else s
  }

  function DigitPrefix(s: string): (d: string)
    ensures AllDigits(d)
  {
    if s != "" && IsDigit(s[0]) then [s[0]] + DigitPrefix(s[1..]) else ""
  }

  const INT64_LIMIT := 0x8000_0000_0000_0000

  /** std::stoll: blanks, a sign, digits; None where it throws. */
  function Stoll(s: string): Option<int> {
    var t := SkipSpaces(s);
    var negative := t != "" && t[0] == '-';
    var d := DigitPrefix(if t != "" && (t[0] == '-' || t[0] == '+') then t[1..] else t);
    if d == "" then None
    else
      var n: int := if negative then -(ValueOf(d) as int) else ValueOf(d);
      if -INT64_LIMIT <= n < INT64_LIMIT then Some(n) else None
  }

  /** The attribute scanner: `key` is empty while a key is being read into `cur`. */
  function Scan(s: string, key: string, cur: string, found: map<string, string>): map<string, string>
    decreases |s|
  {
    if s == "" then (if key != "" then found[key := cur] else found)
    else if s[0] == '|' && |s| > 1 && s[1] == '|' then
      if key != "" then Scan(s[2..], "", "", found[key := cur]) else Scan(s[2..], key, cur, found)
    else if key == "" && s[0] == '=' then Scan(s[1..], cur, "", found)
    else Scan(s[1..], key, cur + [s[0]], found)
  }

  /** A default-constructed event; its timestamp is the clock. */
  function Blank(now: int): Event { Event(0, now, Unknown, UnknownType, "", "", map[], "", "", "") }

  function ParsedEvent(line: string, now: int): Event {
    var t := Split(line, '\t');
    if |t| < 9 then Blank(now)
    else
      var ms := Stoll(t[0]);
      Event(0, if ms.Some? then ms.value else now, CategoryFromName(t[1]), TypeFromName(t[2]), t[3], t[4],
            Scan(t[7], "", "", map[]), t[8], t[5], t[6])
  }

  method SplitTokens(line: string) returns (tokens: seq<string>)
    ensures tokens == Split(line, '\t')
  {
    tokens := [];
    var token := "";
    assert line[..0] == "";
    for i := 0 to |line|
      invariant Split(line[..i], '\t') == tokens + [token]
    {
      assert line[..i + 1] == line[..i] + [line[i]];
      SplitLastChar(line[..i], '\t', line[i]);
      if line[i] == '\t' {
        tokens := tokens + [token];
        token := "";
      } else {
        token := token + [line[i]];
      }
    }
    assert line[..|line|] == line;
    tokens := tokens + [token];
  }

  method ScanAttributes(attrs: string) returns (found: map<string, string>)
    ensures found == Scan(attrs, "", "", map[])
  {
    found := map[];
    var cur, key := "", "";
    var i := 0;
    assert attrs[0..] == attrs;
    while i < |attrs|
      invariant 0 <= i <= |attrs|
      invariant Scan(attrs[i..], key, cur, found) == Scan(attrs, "", "", map[])
    {
      assert attrs[i..][1..] == attrs[i + 1..];
      if attrs[i] == '|' && i + 1 < |attrs| && attrs[i + 1] == '|' {
        assert attrs[i..][2..] == attrs[i + 2..];
        if key != "" {
          found := found[key := cur];
          key, cur := "", "";
        }
        i := i + 2;
        continue;
      }
      if key == "" && attrs[i] == '=' {
        key, cur := cur, "";
      } else {
        cur := cur + [attrs[i]];
      }
      i := i + 1;
    }
    if key != "" { found := found[key := cur]; }
  }

  method ParseEvent(line: string, now: int) returns (e: Event)
    ensures e == ParsedEvent(line, now)
  {
    e := Blank(now);
    var tokens := SplitTokens(line);
    if |tokens| < 9 { return; }
    var ms := Stoll(tokens[0]);
    if ms.Some? { e := e.(timestamp := ms.value); }
    e := e.(category := CategoryFromName(tokens[1]), kind := TypeFromName(tokens[2]), source := tokens[3],
            target := tokens[4], host := tokens[5], platform := tokens[6]);
    var attributes := ScanAttributes(tokens[7]);
    e := e.(attributes := attributes, summary := tokens[8]);
  }

  // ------------------------------------------------------------ numerals

  lemma {:induction false} DigitPrefixAll(s: string)
    requires AllDigits(s)
    ensures DigitPrefix(s) == s
  {
    if s != "" {
      DigitPrefixAll(s[1..]);
      assert [s[0]] + s[1..] == s;
    }
  }

  lemma StollDecimal(n: int)
    requires -INT64_LIMIT <= n < INT64_LIMIT
    ensures Stoll(Decimal(n)) == Some(n)
  {
    hide Digits, ValueOf, DigitPrefix;
    var m := if n < 0 then -n else n;
    DigitsRead(m);
    DigitPrefixAll(Digits(m));
    assert ("-" + Digits(m))[1..] == Digits(m);
  }

  // ------------------------------------------------------------ what the scanner can produce

  /** No two bars in a row. */
  predicate NoBars(s: string) { forall i :: 0 <= i < |s| - 1 ==> !(s[i] == '|' && s[i + 1] == '|') }

  predicate EndsBar(s: string) { s != "" && s[|s| - 1] == '|' }

  predicate KeyFits(k: string) { k != "" && Without(k, '=') && NoBars(k) }

  ghost predicate EntriesFit(m: map<string, string>) { forall k :: k in m ==> KeyFits(k) && NoBars(m[k]) }

  lemma {:induction false} ScanShape(s: string, key: string, cur: string, found: map<string, string>)
    requires EntriesFit(found) && NoBars(cur) && (EndsBar(cur) && s != "" ==> s[0] != '|')
    requires if key != "" then KeyFits(key) else Without(cur, '=')
    ensures EntriesFit(Scan(s, key, cur, found))
    decreases |s|
  {
    if s != "" {
      if s[0] == '|' && |s| > 1 && s[1] == '|' {
        ScanShape(s[2..], "", if key != "" then "" else cur, if key != "" then found[key := cur] else found);
      } else if key == "" && s[0] == '=' {
        ScanShape(s[1..], cur, "", found);
      } else {
        ScanShape(s[1..], key, cur + [s[0]], found);
      }
    }
  }

  predicate Free(m: map<string, string>, c: char) { forall k :: k in m ==> Without(k, c) && Without(m[k], c) }

  lemma {:induction false} ScanFree(s: string, key: string, cur: string, found: map<string, string>, c: char)
    requires Without(s, c) && Without(key, c) && Without(cur, c) && Free(found, c)
    ensures Free(Scan(s, key, cur, found), c)
    decreases |s|
  {
    if s != "" {
      if s[0] == '|' && |s| > 1 && s[1] == '|' {
        ScanFree(s[2..], "", if key != "" then "" else cur, if key != "" then found[key := cur] else found, c);
      } else if key == "" && s[0] == '=' {
        ScanFree(s[1..], cur, "", found, c);
      } else {
        ScanFree(s[1..], key, cur + [s[0]], found, c);
      }
    }
  }

  // ------------------------------------------------------------ scanning one entry

  lemma {:induction false} ScanKey(k: string, rest: string, cur: string, found: map<string, string>)
    requires Without(k, '=') && NoBars(k)
    ensures Scan(k + ("=" + rest), "", cur, found) == Scan(rest, cur + k, "", found)
    decreases |k|
  {
    var s := k + ("=" + rest);
    if k == "" {
      assert s[1..] == rest && cur + "" == cur;
    } else {
      assert s[1..] == k[1..] + ("=" + rest);
      ScanKey(k[1..], rest, cur + [k[0]], found);
      assert cur + [k[0]] + k[1..] == cur + k;
    }
  }

  lemma {:induction false} ScanValue(v: string, rest: string, key: string, cur: string, found: map<string, string>)
    requires key != "" && NoBars(v) && (rest == "" || (rest[0] == '|' && !EndsBar(v)))
    ensures Scan(v + rest, key, cur, found) == Scan(rest, key, cur + v, found)
    decreases |v|
  {
    if v == "" {
      assert v + rest == rest && cur + "" == cur;
    } else {
      assert (v + rest)[1..] == v[1..] + rest;
      ScanValue(v[1..], rest, key, cur + [v[0]], found);
      assert cur + [v[0]] + v[1..] == cur + v;
    }
  }

  // ------------------------------------------------------------ all entries

  /** The entries survive: only the last value in key order may end in a bar. */
  predicate Separable(m: map<string, string>, keys: seq<string>)
    requires forall i :: 0 <= i < |keys| ==> keys[i] in m
  {
    forall i :: 0 <= i < |keys| ==> KeyFits(keys[i]) && NoBars(m[keys[i]]) && (i < |keys| - 1 ==> !EndsBar(m[keys[i]]))
  }

  function Pick(m: map<string, string>, keys: seq<string>): map<string, string>
    requires forall i :: 0 <= i < |keys| ==> keys[i] in m
  {
    map k | k in keys :: m[k]
  }

  lemma ScanEntry(k: string, v: string, rest: string, found: map<string, string>)
    requires KeyFits(k) && NoBars(v) && (rest == "" || (rest[0] == '|' && !EndsBar(v)))
    ensures Scan(k + ("=" + (v + rest)), "", "", found) == Scan(rest, k, v, found)
  {
    hide Scan;
    ScanKey(k, v + rest, "", found);
    ScanValue(v, rest, k, "", found);
    assert "" + k == k && "" + v == v;
  }

  lemma EntryFirst(m: map<string, string>, keys: seq<string>)
    requires keys != [] && forall i :: 0 <= i < |keys| ==> keys[i] in m
    ensures AttrText(m, keys)
         == keys[0] + ("=" + (m[keys[0]] + (if |keys| == 1 then "" else "||" + AttrText(m, keys[1..]))))
  {
    hide AttrText;
    var rest := if |keys| == 1 then "" else "||" + AttrText(m, keys[1..]);
    assert keys[0] + ("=" + m[keys[0]]) + rest == keys[0] + ("=" + (m[keys[0]] + rest));
    AttrTextUnfold(m, keys);
  }

  lemma AttrTextUnfold(m: map<string, string>, keys: seq<string>)
    requires keys != [] && forall i :: 0 <= i < |keys| ==> keys[i] in m
    ensures AttrText(m, keys) == keys[0] + ("=" + m[keys[0]]) + (if |keys| == 1 then "" else "||" + AttrText(m, keys[1..]))
  {
  }

  /** A separator met while a value is being read stores the entry. */
  lemma ScanSeparator(t: string, key: string, cur: string, found: map<string, string>)
    ensures key != "" ==> Scan("||" + t, key, cur, found) == Scan(t, "", "", found[key := cur])
    ensures key == "" ==> Scan("||" + t, key, cur, found) == Scan(t, "", cur, found)
  {
    assert ("||" + t)[2..] == t;
  }

  lemma PickFirst(m: map<string, string>, keys: seq<string>, found: map<string, string>)
    requires keys != [] && forall i :: 0 <= i < |keys| ==> keys[i] in m
    ensures found[keys[0] := m[keys[0]]] + Pick(m, keys[1..]) == found + Pick(m, keys)
  {
    assert forall x :: x in keys <==> x == keys[0] || x in keys[1..];
  }

  lemma {:induction false} ScanEntries(m: map<string, string>, keys: seq<string>, found: map<string, string>)
    requires (forall i :: 0 <= i < |keys| ==> keys[i] in m) && Separable(m, keys)
    ensures Scan(AttrText(m, keys), "", "", found) == found + Pick(m, keys)
    decreases |keys|
  {
    hide AttrText, NoBars, EndsBar, Scan, Pick;
    if keys == [] {
      AttrTextEmpty(m, keys);
      ScanEnd("", "", found);
      PickNone(m, found);
    } else {
      var k, v := keys[0], m[keys[0]];
      EntryFirst(m, keys);
      ScanEntry(k, v, if |keys| == 1 then "" else "||" + AttrText(m, keys[1..]), found);
      PickFirst(m, keys, found);
      if |keys| > 1 {
        ScanSeparator(AttrText(m, keys[1..]), k, v, found);
        ScanEntries(m, keys[1..], found[k := v]);
      } else {
        ScanEnd(k, v, found);
        PickNone(m, found[k := v]);
      }
    }
  }

  lemma PickNone(m: map<string, string>, found: map<string, string>)
    ensures found + Pick(m, []) == found
  {
  }

  lemma ScanEnd(key: string, cur: string, found: map<string, string>)
    ensures Scan("", key, cur, found) == if key != "" then found[key := cur] else found
  {
  }

  // ------------------------------------------------------------ entries that do not survive

  /** Storing entries one after the other. */
  function Stored(es: seq<(string, string)>, found: map<string, string>): map<string, string> {
    if es == [] then found else Stored(es[1..], found[es[0].0 := es[0].1])
  }

  lemma StoredCons(k: string, v: string, es: seq<(string, string)>, found: map<string, string>)
    ensures Stored([(k, v)] + es, found) == Stored(es, found[k := v])
  {
    assert ([(k, v)] + es)[1..] == es;
  }

  /** As many keys as stores: nothing was overwritten. */
  lemma {:induction false} StoredAll(es: seq<(string, string)>, found: map<string, string>)
    ensures |Stored(es, found)| <= |found| + |es|
    ensures |Stored(es, found)| == |found| + |es| ==>
              && (forall k :: k in found ==> k in Stored(es, found) && Stored(es, found)[k] == found[k])
              && (forall i :: 0 <= i < |es| ==> es[i].0 in Stored(es, found) && Stored(es, found)[es[i].0] == es[i].1)
  {
    if es != [] {
      var next := found[es[0].0 := es[0].1];
      assert next.Keys == found.Keys + {es[0].0};
      StoredAll(es[1..], next);
      if |Stored(es, found)| == |found| + |es| {
        assert es[0].0 !in found;
        forall i | 0 <= i < |es| ensures es[i].0 in Stored(es, found) && Stored(es, found)[es[i].0] == es[i].1 {
          if i > 0 { assert es[i] == es[1..][i - 1]; }
        }
      }
    }
  }

  /** Inside a stretch without a separator nothing is stored. */
  lemma {:induction false} ScanStretch(s: string, rest: string, key: string, cur: string, found: map<string, string>)
    returns (key': string, cur': string)
    requires NoBars(s) && (rest == "" || rest[0] != '|' || !EndsBar(s))
    ensures Scan(s + rest, key, cur, found) == Scan(rest, key', cur', found)
    decreases |s|
  {
    if s == "" {
      assert s + rest == rest;
      key', cur' := key, cur;
    } else {
      assert (s + rest)[1..] == s[1..] + rest;
      if key == "" && s[0] == '=' {
        key', cur' := ScanStretch(s[1..], rest, cur, "", found);
      } else {
        key', cur' := ScanStretch(s[1..], rest, key, cur + [s[0]], found);
      }
    }
  }

  /** The text of an entry, from what was left over before it to what it leaves over. */
  lemma EntryText(lead: string, k: string, v: string, more: string) returns (s: string, skip: string, rest: string)
    requires KeyFits(k) && NoBars(v) && (lead == "" || lead == "|")
    requires more == "" || (|more| >= 2 && more[..2] == "||")
    ensures skip == "" || skip == "||"
    ensures lead + (k + ("=" + (v + more))) == skip + (s + rest)
    ensures rest == (if more != "" && EndsBar(v) then "|" + more else more)
    ensures NoBars(s) && (rest == "" || !EndsBar(s))
  {
    var bar := more != "" && EndsBar(v);
    var u := if bar then v[..|v| - 1] else v;
    rest := if bar then "|" + more else more;
    assert v + more == u + rest;
    if lead == "|" && k[0] == '|' {
      s, skip := k[1..] + ("=" + u), "||";
      assert lead + (k + ("=" + (u + rest))) == skip + (s + rest);
    } else {
      s, skip := lead + (k + ("=" + u)), "";
      assert lead + (k + ("=" + (u + rest))) == skip + (s + rest);
    }
    StretchFits(lead, k, u, s);
  }

  lemma ScanSkip(skip: string, t: string, cur: string, found: map<string, string>)
    requires skip == "" || skip == "||"
    ensures Scan(skip + t, "", cur, found) == Scan(t, "", cur, found)
  {
    ScanSeparator(t, "", cur, found);
    assert "" + t == t;
  }

  /** Whatever was left over before, `n` entries give at most `n` stores. */
  lemma {:induction false} ScanStores(m: map<string, string>, keys: seq<string>, lead: string, cur: string, found: map<string, string>)
    returns (es: seq<(string, string)>)
    requires forall i :: 0 <= i < |keys| ==> keys[i] in m && KeyFits(keys[i]) && NoBars(m[keys[i]])
    requires keys != [] && (lead == "" || lead == "|")
    ensures Scan(lead + AttrText(m, keys), "", cur, found) == Stored(es, found)
    ensures |es| <= |keys|
    decreases |keys|
  {
    hide Scan, AttrText, Stored, EndsBar;
    var more := if |keys| == 1 then "" else "||" + AttrText(m, keys[1..]);
    EntryFirst(m, keys);
    var s, skip, rest := EntryText(lead, keys[0], m[keys[0]], more);
    ScanSkip(skip, s + rest, cur, found);
    var key, val := ScanStretch(s, rest, "", cur, found);
    if |keys| == 1 {
      ScanEnd(key, val, found);
      es := if key != "" then [(key, val)] else [];
      StoredNone(found[key := val]);
      StoredNone(found);
      StoredCons(key, val, [], found);
      assert [(key, val)] + [] == [(key, val)];
    } else {
      var left := if rest == more then "" else "|";
      assert rest == "||" + (left + AttrText(m, keys[1..]));
      ScanSeparator(left + AttrText(m, keys[1..]), key, val, found);
      var tail := ScanStores(m, keys[1..], left, if key != "" then "" else val, if key != "" then found[key := val] else found);
      es := if key != "" then [(key, val)] + tail else tail;
      StoredCons(key, val, tail, found);
    }
  }

  lemma StoredNone(found: map<string, string>)
    ensures Stored([], found) == found
  {
  }

  lemma StretchFits(lead: string, k: string, u: string, s: string)
    requires KeyFits(k) && NoBars(u) && (lead == "" || lead == "|")
    requires s == if lead == "|" && k[0] == '|' then k[1..] + ("=" + u) else lead + (k + ("=" + u))
    ensures NoBars(s) && (EndsBar(s) ==> EndsBar(u))
  {
    hide NoBars;
    EntryFits(k, u);
    if lead == "|" && k[0] == '|' {
      TailFits(k + ("=" + u));
      assert s == (k + ("=" + u))[1..];
    } else if lead == "|" {
      BarFits(k + ("=" + u));
    } else {
      assert s == k + ("=" + u);
    }
    EntryEnd(k, u);
  }

  lemma EntryFits(k: string, u: string)
    requires NoBars(k) && NoBars(u)
    ensures NoBars(k + ("=" + u))
  {
  }

  lemma EntryEnd(k: string, u: string)
    ensures EndsBar(k + ("=" + u)) ==> EndsBar(u)
    ensures EndsBar("|" + (k + ("=" + u))) ==> EndsBar(u)
  {
  }

  lemma TailFits(s: string)
    requires NoBars(s) && s != ""
    ensures NoBars(s[1..]) && (EndsBar(s[1..]) ==> EndsBar(s))
  {
  }

  lemma BarFits(s: string)
    requires NoBars(s) && s != "" && s[0] != '|'
    ensures NoBars("|" + s)
  {
  }

  /** A bar at the end of a value that is not the last one spoils an entry for good. */
  lemma {:induction false} ScanSpoils(m: map<string, string>, keys: seq<string>, found: map<string, string>)
    returns (es: seq<(string, string)>, j: nat)
    requires forall i :: 0 <= i < |keys| ==> keys[i] in m && KeyFits(keys[i]) && NoBars(m[keys[i]])
    requires !Separable(m, keys)
    ensures Scan(AttrText(m, keys), "", "", found) == Stored(es, found)
    ensures |es| <= |keys| && j < |es| && es[j].0 in m && es[j].1 != m[es[j].0]
    decreases |keys|
  {
    hide Scan, AttrText, Stored;
    var k, v := keys[0], m[keys[0]];
    var t := AttrText(m, keys[1..]);
    EntryFirst(m, keys);
    if !EndsBar(v) {
      ScanEntry(k, v, "||" + t, found);
      ScanSeparator(t, k, v, found);
      var tail, i := ScanSpoils(m, keys[1..], found[k := v]);
      es, j := [(k, v)] + tail, i + 1;
      StoredCons(k, v, tail, found);
    } else {
      var u := v[..|v| - 1];
      assert v + ("||" + t) == u + ("||" + ("|" + t));
      ScanEntry(k, u, "||" + ("|" + t), found);
      ScanSeparator("|" + t, k, u, found);
      var tail := ScanStores(m, keys[1..], "|", "", found[k := u]);
      es, j := [(k, u)] + tail, 0;
      StoredCons(k, u, tail, found);
    }
  }

  // ------------------------------------------------------------ the round trip

  predicate Attributable(m: map<string, string>) {
    OrderedDistinct(m.Keys);
    Free(m, '\t') && Free(m, '\n') && Separable(m, Ordered(m.Keys))
  }

  lemma {:induction false} AttrTextFree(m: map<string, string>, keys: seq<string>, c: char)
    requires (forall i :: 0 <= i < |keys| ==> keys[i] in m) && Free(m, c) && c != '=' && c != '|'
    ensures Without(AttrText(m, keys), c)
  {
    if keys != [] {
      AttrTextFree(m, keys[1..], c);
    }
  }

  lemma {:induction false} AttrTextHas(m: map<string, string>, keys: seq<string>, c: char)
    requires (forall i :: 0 <= i < |keys| ==> keys[i] in m) && Without(AttrText(m, keys), c)
    ensures forall i :: 0 <= i < |keys| ==> Without(keys[i], c) && Without(m[keys[i]], c)
  {
    if keys != [] {
      var k, v := keys[0], m[keys[0]];
      var rest := if |keys| == 1 then "" else "||" + AttrText(m, keys[1..]);
      EntryFirst(m, keys);
      var t := AttrText(m, keys);
      assert forall i :: 0 <= i < |k| ==> t[i] == k[i];
      assert forall i :: 0 <= i < |v| ==> t[|k| + 1 + i] == v[i];
      if |keys| > 1 {
        var r := AttrText(m, keys[1..]);
        assert forall i :: 0 <= i < |r| ==> t[|k| + 1 + |v| + 2 + i] == r[i];
        AttrTextHas(m, keys[1..], c);
      }
    }
  }

  lemma BlankedSame(s: string)
    ensures Without(s, '\n') ==> Blanked(s) == s
    ensures Without(Blanked(s), '\n')
    ensures Blanked(s) == s ==> Without(s, '\n')
    ensures Without(s, '\t') <==> Without(Blanked(s), '\t')
  {
    assert forall i :: 0 <= i < |s| ==> (s[i] == '\t' <==> Blanked(s)[i] == '\t');
    if Blanked(s) == s {
      assert forall i :: 0 <= i < |s| ==> Blanked(s)[i] == s[i];
    }
  }

  lemma SpoiledDiffers(m: map<string, string>)
    requires EntriesFit(m) && forall i :: 0 <= i < |Ordered(m.Keys)| ==> Ordered(m.Keys)[i] in m
    requires !Separable(m, Ordered(m.Keys))
    ensures Scan(AttrLine(m), "", "", map[]) != m
  {
    hide Scan, AttrText, Stored, Ordered;
    OrderedIsPermutation(m.Keys);
    var es, j := ScanSpoils(m, Ordered(m.Keys), map[]);
    StoredAll(es, map[]);
  }

  lemma AttributableSurvives(m: map<string, string>)
    requires Attributable(m)
    ensures Scan(Blanked(AttrLine(m)), "", "", map[]) == m
  {
    hide Scan, AttrText, Ordered, Separable;
    OrderedDistinct(m.Keys);
    AttrTextFree(m, Ordered(m.Keys), '\n');
    BlankedSame(AttrLine(m));
    ScanEntries(m, Ordered(m.Keys), map[]);
    assert map[] + Pick(m, Ordered(m.Keys)) == m;
  }

  /** Written and read back, the attribute map is the same exactly when it is attributable. */
  lemma AttributesRoundTrip(m: map<string, string>)
    requires Without(AttrLine(m), '\t')
    ensures Scan(Blanked(AttrLine(m)), "", "", map[]) == m <==> Attributable(m)
  {
    hide Scan, AttrText, Ordered, Separable, EntriesFit;
    var line := Blanked(AttrLine(m));
    OrderedDistinct(m.Keys);
    AttrTextHas(m, Ordered(m.Keys), '\t');
    BlankedSame(AttrLine(m));
    if Attributable(m) {
      AttributableSurvives(m);
    } else if Scan(line, "", "", map[]) == m {
      assert EntriesFit(m) by {
        ScanShape(line, "", "", map[]);
      }
      ScanFree(line, "", "", map[], '\n');
      AttrTextFree(m, Ordered(m.Keys), '\n');
      SpoiledDiffers(m);
    }
  }

  lemma {:induction false} JoinedSplits(tokens: seq<string>)
    requires tokens != [] && forall i :: 0 <= i < |tokens| ==> Without(tokens[i], '\t')
    ensures Split(JoinWith("\t", tokens), '\t') == tokens
  {
    hide Split;
    if |tokens| == 1 {
      SplitFree(tokens[0], '\t');
    } else {
      JoinedSplits(tokens[1..]);
      var rest := JoinWith("\t", tokens[1..]);
      assert tokens[0] + ("\t" + rest) == tokens[0] + ['\t'] + rest;
      SplitCons(tokens[0], '\t', rest);
    }
  }

  lemma FirstTokensFree(e: Event, c: char)
    requires c == '\t' || c == '\n'
    ensures Without(Decimal(e.timestamp), c) && Without(CategoryName(e.category), c) && Without(TypeName(e.kind), c)
  {
    hide CategoryName, TypeName, CategoryFromName, TypeFromName, Digits, ValueOf;
    NamesRoundTrip(e.category, e.kind);
    DigitsRead(if e.timestamp < 0 then -e.timestamp else e.timestamp);
  }

  lemma TokensTabFree(e: Event)
    requires Without(e.source, '\t') && Without(e.target, '\t') && Without(e.host, '\t') && Without(e.platform, '\t')
    requires Without(e.summary, '\t') && Without(AttrLine(e.attributes), '\t')
    ensures Split(SerializedEvent(e), '\t') == Tokens(e)
  {
    hide CategoryName, TypeName, Split, JoinWith, AttrLine, Decimal, Blanked;
    FirstTokensFree(e, '\t');
    BlankedSame(e.summary);
    BlankedSame(AttrLine(e.attributes));
    JoinedSplits(Tokens(e));
  }

  /** The events a record can carry. */
  predicate Storable(e: Event) {
    && Without(e.source, '\t') && Without(e.target, '\t') && Without(e.host, '\t') && Without(e.platform, '\t')
    && Without(e.summary, '\t') && Without(e.summary, '\n')
    && Attributable(e.attributes)
  }

  /** Nothing that was read holds a tab. */
  lemma ParsedTabFree(line: string, now: int)
    ensures var e := ParsedEvent(line, now);
            && Without(e.source, '\t') && Without(e.target, '\t') && Without(e.host, '\t') && Without(e.platform, '\t')
            && Without(e.summary, '\t') && Free(e.attributes, '\t')
  {
    hide Split, Scan, Stoll, CategoryFromName, TypeFromName;
    SplitPieces(line, '\t');
    var t := Split(line, '\t');
    if |t| >= 9 {
      ScanFree(t[7], "", "", map[], '\t');
    }
  }

  /** parse_event undoes serialize_event, up to the id, exactly on the storable events: no tab
      in a text field, no line end in the summary or an attribute, attribute keys non-empty
      and without `=`, no two bars in a row in a key or value, and no value but the last in
      key order ending in a bar. */
  lemma EventRoundTrip(e: Event, now: int)
    requires -INT64_LIMIT <= e.timestamp < INT64_LIMIT
    ensures ParsedEvent(SerializedEvent(e), now) == e.(id := 0) <==> Storable(e)
  {
    hide CategoryName, TypeName, CategoryFromName, TypeFromName, Split, JoinWith, Scan, Stoll, Decimal, Separable, Ordered, AttrText;
    OrderedDistinct(e.attributes.Keys);
    ParsedTabFree(SerializedEvent(e), now);
    if Storable(e) || ParsedEvent(SerializedEvent(e), now) == e.(id := 0) {
      AttrTextFree(e.attributes, Ordered(e.attributes.Keys), '\t');
      TokensTabFree(e);
      StollDecimal(e.timestamp);
      NamesRoundTrip(e.category, e.kind);
      AttributesRoundTrip(e.attributes);
      BlankedSame(e.summary);
    }
  }

  /** A record is one line exactly when its four plain fields hold no line end. */
  lemma RecordIsOneLine(e: Event)
    ensures Without(SerializedEvent(e), '\n') <==>
              Without(e.source, '\n') && Without(e.target, '\n') && Without(e.host, '\n') && Without(e.platform, '\n')
  {
    hide CategoryName, TypeName, AttrLine, Decimal, Blanked, JoinWith, Without;
    FirstTokensFree(e, '\n');
    BlankedSame(e.summary);
    BlankedSame(AttrLine(e.attributes));
    JoinedFree(Tokens(e), '\n');
    var t := Tokens(e);
    assert t[3] == e.source && t[4] == e.target && t[5] == e.host && t[6] == e.platform;
  }

  lemma {:induction false} JoinedFree(tokens: seq<string>, c: char)
    requires c != '\t'
    ensures Without(JoinWith("\t", tokens), c) <==> forall i :: 0 <= i < |tokens| ==> Without(tokens[i], c)
  {
    if |tokens| > 1 {
      JoinedFree(tokens[1..], c);
      var x, rest := tokens[0], JoinWith("\t", tokens[1..]);
      var t := x + ("\t" + rest);
      assert forall i :: 0 <= i < |x| ==> t[i] == x[i];
      assert forall i :: 0 <= i < |rest| ==> t[|x| + 1 + i] == rest[i];
      assert forall i :: 0 <= i < |tokens[1..]| ==> tokens[1..][i] == tokens[i + 1];
    }
  }

  // ------------------------------------------------------------ the columns

  /** Without tabs in it, an event's record has nine columns: time, category, type, source, target,
      host, platform, attributes and summary, the last two with blanks for line ends. */
  lemma ColumnsAre(e: Event, attributes: string, summary: string)
    requires Without(e.source, '\t') && Without(e.target, '\t') && Without(e.host, '\t') && Without(e.platform, '\t')
    requires Without(e.summary, '\t') && Without(AttrLine(e.attributes), '\t')
    requires |summary| == |e.summary| && forall i :: 0 <= i < |summary| ==> summary[i] == if e.summary[i] == '\n' then ' ' else e.summary[i]
    requires var a := AttrLine(e.attributes);
             |attributes| == |a| && forall i :: 0 <= i < |a| ==> attributes[i] == if a[i] == '\n' then ' ' else a[i]
    ensures Split(SerializedEvent(e), '\t')
         == [Decimal(e.timestamp), CategoryName(e.category), TypeName(e.kind), e.source, e.target, e.host, e.platform, attributes, summary]
  {
    hide CategoryName, TypeName, Split, SerializedEvent, AttrLine, Decimal;
    TokensTabFree(e);
    assert summary == Blanked(e.summary) && attributes == Blanked(AttrLine(e.attributes));
  }

  /** A line of fewer than nine columns gives the default event, stamped with the clock. */
  lemma ShortLineIsDefault(line: string, now: int)
    requires |Split(line, '\t')| < 9
    ensures ParsedEvent(line, now) == Event(0, now, Unknown, UnknownType, "", "", map[], "", "", "")
  {
  }

  /** An unreadable time gives the clock; the other columns are read all the same, and further ones
      are ignored. */
  lemma BadTimeIsNow(line: string, now: int)
    requires |Split(line, '\t')| >= 9
    ensures var t, e := Split(line, '\t'), ParsedEvent(line, now);
            && (Stoll(t[0]).None? ==> e.timestamp == now) && (Stoll(t[0]).Some? ==> e.timestamp == Stoll(t[0]).value)
            && e.source == t[3] && e.target == t[4] && e.host == t[5] && e.platform == t[6] && e.summary == t[8]
  {
  }

  /** std::stoll on white space, a sign or none, digits, and anything else behind them. */
  lemma StollReads(w: string, sign: string, digits: string, rest: string)
    requires (forall i :: 0 <= i < |w| ==> IsSpace(w[i])) && sign in ["", "+", "-"]
    requires AllDigits(digits) && digits != "" && (rest == "" || !IsDigit(rest[0]))
    ensures var n: int := if sign == "-" then -(ValueOf(digits) as int) else ValueOf(digits);
            Stoll(w + (sign + (digits + rest))) == if -0x8000_0000_0000_0000 <= n <= 0x7FFF_FFFF_FFFF_FFFF then Some(n) else None
  {
    hide ValueOf, SkipSpaces, DigitPrefix;
    var t := sign + (digits + rest);
    assert !IsSpace(t[0]);
    SkipsSpaces(w, t);
    DigitPrefixOf(digits, rest);
    if sign != "" { assert t[1..] == digits + rest; } else { assert t == digits + rest; }
  }

  lemma {:induction false} SkipsSpaces(w: string, t: string)
    requires (forall i :: 0 <= i < |w| ==> IsSpace(w[i])) && (t == "" || !IsSpace(t[0]))
    ensures SkipSpaces(w + t) == t
  {
    if w == "" {
      assert w + t == t;
    } else {
      assert (w + t)[1..] == w[1..] + t;
      SkipsSpaces(w[1..], t);
    }
  }

  lemma {:induction false} DigitPrefixOf(digits: string, rest: string)
    requires AllDigits(digits) && (rest == "" || !IsDigit(rest[0]))
    ensures DigitPrefix(digits + rest) == digits
  {
    if digits == "" {
      assert digits + rest == rest;
    } else {
      assert (digits + rest)[1..] == digits[1..] + rest;
      DigitPrefixOf(digits[1..], rest);
      assert [digits[0]] + digits[1..] == digits;
    }
  }

  /** Without digits there is nothing to read, and the clock stands in. */
  lemma StollRefuses(w: string, t: string)
    requires (forall i :: 0 <= i < |w| ==> IsSpace(w[i])) && (t == "" || !IsSpace(t[0]))
    requires t == "" || (!IsDigit(t[0]) && (t[0] in "+-" ==> |t| == 1 || !IsDigit(t[1])))
    ensures Stoll(w + t) == None
  {
    hide SkipSpaces;
    SkipsSpaces(w, t);
  }
}
