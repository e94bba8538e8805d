/** The recursive-descent JSON parser of the snapshot differ. `Source` gives each
    parse routine as a function of the text and the cursor; class `Parser` is the
    imperative original, proved to compute exactly those functions. */
module JsonParser {
  import opened Strings

  /** A number is kept as its lexeme; converting it to a double is not modelled. */
  datatype Json =
    | Null
    | Bool(b: bool)
    | Number(lexeme: string)
    | Str(s: string)
    | Array(items: seq<Json>)
    | Object(fields: map<string, Json>)

  /** Outcome of a parse routine: the value or the error text, and the cursor it leaves. */
  datatype Parsed<+T> = Ok(value: T, pos: nat) | Fail(error: string, pos: nat) {
    predicate IsFailure() { Fail? }

    function PropagateFailure<U>(): Parsed<U>
      requires Fail?
    {
      Fail(error, pos)
    }

    function Extract(): (T, nat)
      requires Ok?
    {
      (value, pos)
    }
  }

  predicate IsWs(c: char) { c == ' ' || c == '\t' || c == '\n' || c == '\r' }

  predicate IsNumberChar(c: char) {
    IsDigit(c) || c == '.' || c == 'e' || c == 'E' || c == '+' || c == '-'
  }

  predicate StartsNumber(c: char) { c == '-' || IsDigit(c) }

  /** The character an escape `\c` stands for; an unknown one stands for itself. */
  function Unescape(c: char): char {
    match c
    case 'b' => '\U{0008}'
    case 'f' => '\U{000C}'
    case 'n' => '\n'
    case 'r' => '\r'
    case 't' => '\t'
    case _ => c
  }

  /** What was collected before, put in front of what the rest of the text gives. */
  function Prepend<T>(done: seq<T>, rest: Parsed<seq<T>>): Parsed<seq<T>> {
    if rest.Ok? then Ok(done + rest.value, rest.pos) else rest
  }

  /** For members the later ones win. */
  function PrependFields(done: map<string, Json>, rest: Parsed<map<string, Json>>): Parsed<map<string, Json>> {
    if rest.Ok? then Ok(done + rest.value, rest.pos) else rest
  }

  lemma PrependAssoc<T>(a: seq<T>, b: seq<T>, rest: Parsed<seq<T>>)
    ensures Prepend(a, Prepend(b, rest)) == Prepend(a + b, rest)
  {
    if rest.Ok? {
      assert a + (b + rest.value) == a + b + rest.value;
    }
  }

  lemma PrependNothing<T>(rest: Parsed<seq<T>>)
    ensures Prepend([], rest) == rest
  {
    if rest.Ok? {
      assert [] + rest.value == rest.value;
    }
  }

  lemma PrependFieldsAssoc(a: map<string, Json>, b: map<string, Json>, rest: Parsed<map<string, Json>>)
    ensures PrependFields(a, PrependFields(b, rest)) == PrependFields(a + b, rest)
  {
    if rest.Ok? {
      assert a + (b + rest.value) == a + b + rest.value;
    }
  }

  lemma PrependNoFields(rest: Parsed<map<string, Json>>)
    ensures PrependFields(map[], rest) == rest
  {
    if rest.Ok? {
      assert map[] + rest.value == rest.value;
    }
  }

  /** `stod` tells which lexemes std::stod accepts. */
  datatype Source = Source(text: string, stod: string -> bool) {

    /** `x` stands in the text at position `p`. */
    predicate At(p: nat, x: string) {
      p + |x| <= |text| && text[p..p + |x|] == x
    }

    function SkipWs(p: nat): (q: nat)
      requires p <= |text|
      ensures p <= q <= |text|
      decreases |text| - p
    {
      if p < |text| && IsWs(text[p]) then SkipWs(p + 1) else p
    }

    function NumberEnd(p: nat): (q: nat)
      requires p <= |text|
      ensures p <= q <= |text|
      decreases |text| - p
    {
      if p < |text| && IsNumberChar(text[p]) then NumberEnd(p + 1) else p
    }

    /** The characters of a string literal from `p`, its opening quote already read. */
    function Chars(p: nat): (r: Parsed<string>)
      requires p <= |text|
      ensures r.Ok? ==> p < r.pos <= |text|
      ensures r.Fail? ==> p <= r.pos <= |text|
      decreases |text| - p
    {
      if p == |text| then
        Fail("unterminated string", p)
      else if text[p] == '"' then
        Ok("", p + 1)
      else if text[p] != '\\' then
        Prepend([text[p]], Chars(p + 1))
      else if p + 1 == |text| then
        Fail("bad escape", p + 1)
      else if text[p + 1] != 'u' then
        Prepend([Unescape(text[p + 1])], Chars(p + 2))
      else if p + 6 > |text| then
        Fail("bad \\u", p + 2)
      else
        Prepend("?", Chars(p + 6))
    }

    function String(p: nat): (r: Parsed<string>)
      requires p <= |text|
      ensures r.Ok? ==> p < r.pos <= |text|
      ensures r.Fail? ==> p <= r.pos <= |text|
    {
      if p == |text| || text[p] != '"' then Fail("expected string", p) else Chars(p + 1)
    }

    function Literal(p: nat): (r: Parsed<Json>)
      requires p < |text|
      ensures r.Ok? ==> p < r.pos <= |text|
      ensures r.Fail? ==> p <= r.pos <= |text|
    {
      if text[p] == 'n' then
        if At(p, "null") then Ok(Null, p + 4) else Fail("bad null", p)
      else if At(p, "true") then Ok(Bool(true), p + 4)
      else if At(p, "false") then Ok(Bool(false), p + 5)
      else Fail("bad bool", p)
    }

    function Numeral(p: nat): (r: Parsed<Json>)
      requires p < |text| && StartsNumber(text[p])
      ensures r.Ok? ==> p < r.pos <= |text|
      ensures r.Fail? ==> p <= r.pos <= |text|
    {
      var q := NumberEnd(p);
      var lexeme := text[p..q];
      if stod(lexeme) then Ok(Number(lexeme), q) else Fail("bad number: " + lexeme, q)
    }

    function Value(p: nat): (r: Parsed<Json>)
      requires p <= |text|
      ensures r.Ok? ==> p < r.pos <= |text|
      ensures r.Fail? ==> p <= r.pos <= |text|
      decreases |text| - p, 1
    {
      var q := SkipWs(p);
      if q == |text| then Fail("unexpected end", q)
      else if text[q] == '{' then Obj(q)
      else if text[q] == '[' then Arr(q)
      else if text[q] == '"' then
        var (s, e) :- String(q);
        Ok(Str(s), e)
      else if text[q] == 't' || text[q] == 'f' || text[q] == 'n' then Literal(q)
      else if StartsNumber(text[q]) then Numeral(q)
      else Fail("unexpected char '" + [text[q]] + "'", q)
    }

    function Obj(p: nat): (r: Parsed<Json>)
      requires p < |text|
      ensures r.Ok? ==> p < r.pos <= |text|
      ensures r.Fail? ==> p <= r.pos <= |text|
      decreases |text| - p, 0
    {
      var q := SkipWs(p + 1);
      if q < |text| && text[q] == '}' then Ok(Object(map[]), q + 1)
      else
        var (fields, e) :- Members(q);
        Ok(Object(fields), e)
    }

    /** One pass of the loop of parse_object up to the member's value. */
    function Member(p: nat): (r: Parsed<(string, Json)>)
      requires p <= |text|
      ensures r.Ok? ==> p < r.pos <= |text|
      ensures r.Fail? ==> p <= r.pos <= |text|
      decreases |text| - p, 2
    {
      var (key, q) :- String(SkipWs(p));
      var c := SkipWs(q);
      if c == |text| || text[c] != ':' then Fail("expected ':'", c)
      else
        var (val, e) :- Value(c + 1);
        Ok((key, val), e)
    }

    /** A later member with the same key replaces an earlier one. */
    function Members(p: nat): (r: Parsed<map<string, Json>>)
      requires p <= |text|
      ensures r.Ok? ==> p < r.pos <= |text|
      ensures r.Fail? ==> p <= r.pos <= |text|
      decreases |text| - p, 3
    {
      var (kv, q) :- Member(p);
      var c := SkipWs(q);
      if c == |text| then Fail("unterminated object", c)
      else if text[c] == ',' then
        PrependFields(map[kv.0 := kv.1], Members(c + 1))
      else if text[c] == '}' then Ok(map[kv.0 := kv.1], c + 1)
      else Fail("expected ',' or '}'", c)
    }

    function Arr(p: nat): (r: Parsed<Json>)
      requires p < |text|
      ensures r.Ok? ==> p < r.pos <= |text|
      ensures r.Fail? ==> p <= r.pos <= |text|
      decreases |text| - p, 0
    {
      var q := SkipWs(p + 1);
      if q < |text| && text[q] == ']' then Ok(Array([]), q + 1)
      else
        var (items, e) :- Elements(q);
        Ok(Array(items), e)
    }

    function Elements(p: nat): (r: Parsed<seq<Json>>)
      requires p <= |text|
      ensures r.Ok? ==> p < r.pos <= |text|
      ensures r.Fail? ==> p <= r.pos <= |text|
      decreases |text| - p, 2
    {
      var (v, q) :- Value(p);
      var c := SkipWs(q);
      if c == |text| then Fail("unterminated array", c)
      else if text[c] == ',' then
        Prepend([v], Elements(c + 1))
      else if text[c] == ']' then Ok([v], c + 1)
      else Fail("expected ',' or ']'", c)
    }

    /** JsonParser::parse. What follows the first value is not looked at. */
    function Parse(): (r: Parsed<Json>)
      ensures r.pos <= |text|
    {
      Value(SkipWs(0))
    }
  }

  class Parser {
    const src: Source
    var pos: nat
    var error: string

    constructor (text: string, stod: string -> bool)
      ensures src == Source(text, stod) && pos == 0 && error == ""
    {
      src := Source(text, stod);
      pos := 0;
      error := "";
    }

    ghost predicate Valid()
      reads this
    {
      pos <= |src.text|
    }

    /** The routine ended as `r` says: same success, same cursor, same message. */
    twostate predicate Did<T>(ok: bool, new v: T, r: Parsed<T>)
      reads this
    {
      Valid() && pos == r.pos && ok == r.Ok? && (ok ==> v == r.value && error == old(error)) && (!ok ==> error == r.error)
    }

    method SkipWs()
      requires Valid()
      modifies this`pos
      ensures Valid() && pos == src.SkipWs(old(pos))
    {
      while pos < |src.text| && IsWs(src.text[pos])
        invariant pos <= |src.text| && src.SkipWs(pos) == src.SkipWs(old(pos))
      {
        pos := pos + 1;
      }
    }

    method ParseString() returns (ok: bool, s: string)
      requires Valid()
      modifies this
      ensures Did(ok, s, src.String(old(pos)))
    {
      s := "";
      if pos >= |src.text| || src.text[pos] != '"' {
        error := "expected string";
        return false, s;
      }
      pos := pos + 1;
      ghost var body := src.Chars(pos);
      PrependNothing(body);
      while pos < |src.text|
        invariant pos <= |src.text| && error == old(error)
        invariant body == Prepend(s, src.Chars(pos))
      {
        var c := src.text[pos];
        if c == '"' {
          pos := pos + 1;
          assert s + "" == s;
          return true, s;
        } else if c == '\\' {
          if pos + 1 >= |src.text| {
            error, pos := "bad escape", pos + 1;
            return false, s;
          }
          var e := src.text[pos + 1];
          if e == 'u' {
            if pos + 6 > |src.text| {
              error, pos := "bad \\u", pos + 2;
              return false, s;
            }
            PrependAssoc(s, "?", src.Chars(pos + 6));
            s, pos := s + "?", pos + 6;
          } else {
            PrependAssoc(s, [Unescape(e)], src.Chars(pos + 2));
            s, pos := s + [Unescape(e)], pos + 2;
          }
        } else {
          PrependAssoc(s, [c], src.Chars(pos + 1));
          s, pos := s + [c], pos + 1;
        }
      }
      error := "unterminated string";
      ok := false;
    }

    method ParseNumber() returns (ok: bool, v: Json)
      requires Valid() && pos < |src.text| && StartsNumber(src.text[pos])
      modifies this
      ensures Did(ok, v, src.Numeral(old(pos)))
    {
      var start := pos;
      if src.text[pos] == '-' {
        pos := pos + 1;
      }
      while pos < |src.text| && IsNumberChar(src.text[pos])
        invariant start <= pos <= |src.text| && error == old(error)
        invariant src.NumberEnd(start) == src.NumberEnd(pos)
      {
        pos := pos + 1;
      }
      var lexeme := src.text[start..pos];
      v := Null;
      if src.stod(lexeme) {
        return true, Number(lexeme);
      }
      error := "bad number: " + lexeme;
      ok := false;
    }

    method ParseLiteral() returns (ok: bool, v: Json)
      requires Valid() && pos < |src.text|
      modifies this
      ensures Did(ok, v, src.Literal(old(pos)))
    {
      ok, v := true, Null;
      if src.text[pos] == 'n' {
        if src.At(pos, "null") {
          pos := pos + 4;
        } else {
          ok, error := false, "bad null";
        }
      } else if src.At(pos, "true") {
        v, pos := Bool(true), pos + 4;
      } else if src.At(pos, "false") {
        v, pos := Bool(false), pos + 5;
      } else {
        ok, error := false, "bad bool";
      }
    }

    method ParseValue() returns (ok: bool, v: Json)
      requires Valid()
      modifies this
      ensures Did(ok, v, src.Value(old(pos)))
      decreases |src.text| - pos, 1
    {
      SkipWs();
      v := Null;
      if pos >= |src.text| {
        error := "unexpected end";
        return false, v;
      }
      var c := src.text[pos];
      if c == '{' {
        ok, v := ParseObject();
      } else if c == '[' {
        ok, v := ParseArray();
      } else if c == '"' {
        var s;
        ok, s := ParseString();
        v := Str(s);
      } else if c == 't' || c == 'f' || c == 'n' {
        ok, v := ParseLiteral();
      } else if StartsNumber(c) {
        ok, v := ParseNumber();
      } else {
        error := "unexpected char '" + [c] + "'";
        ok := false;
      }
    }

    /** Key, colon and value: the first part of each pass of the loop below. */
    method ParseMember() returns (ok: bool, member: (string, Json))
      requires Valid()
      modifies this
      ensures Did(ok, member, src.Member(old(pos)))
      decreases |src.text| - pos, 2
    {
      hide Source.Value;
      SkipWs();
      var key;
      ok, key := ParseString();
      member := (key, Null);
      if !ok { return; }
      SkipWs();
      if pos >= |src.text| || src.text[pos] != ':' {
        error := "expected ':'";
        return false, member;
      }
      pos := pos + 1;
      var val;
      ok, val := ParseValue();
      member := (key, val);
    }

    method ParseObject() returns (ok: bool, v: Json)
      requires Valid() && pos < |src.text|
      modifies this
      ensures Did(ok, v, src.Obj(old(pos)))
      decreases |src.text| - pos, 0
    {
      hide Source.SkipWs, Source.String, Source.Member, Source.Value, Source.Elements, Source.Arr;
      pos := pos + 1;
      SkipWs();
      var fields: map<string, Json> := map[];
      if pos < |src.text| && src.text[pos] == '}' {
        pos := pos + 1;
        return true, Object(fields);
      }
      ghost var all := src.Members(pos);
      PrependNoFields(all);
      while true
        invariant old(pos) < pos <= |src.text| && error == old(error)
        invariant all == PrependFields(fields, src.Members(pos))
        decreases |src.text| - pos
      {
        ghost var done := fields;
        var member: (string, Json);
        ok, member := ParseMember();
        if !ok { return false, Object(fields); }
        fields := fields[member.0 := member.1];
        assert fields == done + map[member.0 := member.1];
        SkipWs();
        if pos >= |src.text| {
          error := "unterminated object";
          return false, Object(fields);
        }
        if src.text[pos] == ',' {
          pos := pos + 1;
          PrependFieldsAssoc(done, map[member.0 := member.1], src.Members(pos));
        } else if src.text[pos] == '}' {
          pos := pos + 1;
          return true, Object(fields);
        } else {
          error := "expected ',' or '}'";
          return false, Object(fields);
        }
      }
    }

    method ParseArray() returns (ok: bool, v: Json)
      requires Valid() && pos < |src.text|
      modifies this
      ensures Did(ok, v, src.Arr(old(pos)))
      decreases |src.text| - pos, 0
    {
      hide Source.SkipWs, Source.String, Source.Value, Source.Members, Source.Obj;
      pos := pos + 1;
      SkipWs();
      var items: seq<Json> := [];
      if pos < |src.text| && src.text[pos] == ']' {
        pos := pos + 1;
        return true, Array(items);
      }
      ghost var all := src.Elements(pos);
      PrependNothing(all);
      while true
        invariant old(pos) < pos <= |src.text| && error == old(error)
        invariant all == Prepend(items, src.Elements(pos))
        decreases |src.text| - pos
      {
        ghost var done := items;
        var val;
        ok, val := ParseValue();
        if !ok { return false, Array(items); }
        items := items + [val];
        SkipWs();
        if pos >= |src.text| {
          error := "unterminated array";
          return false, Array(items);
        }
        if src.text[pos] == ',' {
          pos := pos + 1;
          PrependAssoc(done, [val], src.Elements(pos));
        } else if src.text[pos] == ']' {
          pos := pos + 1;
          return true, Array(items);
        } else {
          error := "expected ',' or ']'";
          return false, Array(items);
        }
      }
    }

    method Parse() returns (ok: bool, v: Json)
      requires pos == 0
      modifies this
      ensures Did(ok, v, src.Parse())
    {
      SkipWs();
      ok, v := ParseValue();
    }
  }
}
