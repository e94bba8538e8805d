/** Text helpers shared by the codecs: std::getline, splitting at a character, decimal
    numerals and the iteration order of std::map<std::string, ...>. */
module Strings {
  datatype Option<+T> = None | Some(value: T)

  // ------------------------------------------------------------ splitting

  predicate Without(s: string, c: char) { forall i :: 0 <= i < |s| ==> s[i] != c }

  /** The pieces between the separators; one more piece than separators. */
  function Split(s: string, c: char): (r: seq<string>)
    ensures r != []
  {
    if s == "" then [""]
    else
      var rest := Split(s[1..], c);
      if s[0] == c then [""] + rest else [[s[0]] + rest[0]] + rest[1..]
  }

  lemma {:induction false} SplitFree(s: string, c: char)
    requires Without(s, c)
    ensures Split(s, c) == [s]
  {
    if s != "" {
      SplitFree(s[1..], c);
      assert [s[0]] + s[1..] == s;
    }
  }

  lemma SplitStep(h: char, t: string, c: char)
    ensures Split([h] + t, c) == (if h == c then [""] + Split(t, c) else [[h] + Split(t, c)[0]] + Split(t, c)[1..])
  {
    assert ([h] + t)[1..] == t;
  }

  /** A separator cuts the text: the two sides are split on their own. */
  lemma {:induction false} SplitAt(a: string, c: char, b: string)
    ensures Split(a + [c] + b, c) == Split(a, c) + Split(b, c)
  {
    hide Split;
    var y := Split(b, c);
    if a == "" {
      assert a + [c] + b == [c] + b;
      SplitStep(c, b, c);
      SplitNothing(c);
    } else {
      var h, x := a[0], Split(a[1..], c);
      assert a == [h] + a[1..] && a + [c] + b == [h] + (a[1..] + [c] + b);
      SplitAt(a[1..], c, b);
      SplitStep(h, a[1..], c);
      SplitStep(h, a[1..] + [c] + b, c);
      assert (x + y)[1..] == x[1..] + y && (x + y)[0] == x[0];
      if h == c {
        assert [""] + (x + y) == ([""] + x) + y;
      } else {
        assert [[h] + x[0]] + (x[1..] + y) == ([[h] + x[0]] + x[1..]) + y;
      }
    }
  }

  lemma SplitNothing(c: char)
    ensures Split("", c) == [""]
  {
  }

  lemma SplitCons(a: string, c: char, b: string)
    requires Without(a, c)
    ensures Split(a + [c] + b, c) == [a] + Split(b, c)
  {
    SplitAt(a, c, b);
    SplitFree(a, c);
  }

  lemma {:induction false} SplitPieces(s: string, c: char)
    ensures forall i :: 0 <= i < |Split(s, c)| ==> Without(Split(s, c)[i], c)
  {
    if s != "" {
      SplitPieces(s[1..], c);
    }
  }

  /** Splitting one character further. */
  lemma {:induction false} SplitLastChar(s: string, c: char, x: char)
    ensures var p := Split(s, c);
            Split(s + [x], c) == if x == c then p + [""] else p[..|p| - 1] + [p[|p| - 1] + [x]]
  {
    hide Split;
    SplitNothing(c);
    if x == c {
      SplitAt(s, c, "");
      assert s + [c] + "" == s + [c];
    } else if s == "" {
      SplitStep(x, "", c);
      assert s + [x] == [x] == [x] + "" == "" + [x];
    } else {
      var h, t := s[0], s[1..];
      assert s == [h] + t && s + [x] == [h] + (t + [x]);
      SplitLastChar(t, c, x);
      SplitStep(h, t, c);
      SplitStep(h, t + [x], c);
      if h == c { GrowBehind(Split(t, c), x); } else { GrowJoined(Split(t, c), h, x); }
    }
  }

  lemma GrowBehind(p: seq<string>, x: char)
    requires p != []
    ensures var n, all := |p| - 1, [""] + p; [""] + (p[..n] + [p[n] + [x]]) == all[..|all| - 1] + [all[|all| - 1] + [x]]
  {
  }

  lemma GrowJoined(p: seq<string>, h: char, x: char)
    requires p != []
    ensures var n, all := |p| - 1, [[h] + p[0]] + p[1..];
            var q := p[..n] + [p[n] + [x]];
            [[h] + q[0]] + q[1..] == all[..|all| - 1] + [all[|all| - 1] + [x]]
  {
    if |p| == 1 { assert [h] + (p[0] + [x]) == ([h] + p[0]) + [x]; }
  }

  // ------------------------------------------------------------ lines

  /** What a loop over std::getline reads: an unfinished last line counts unless it is empty. */
  function Lines(text: string): seq<string> {
    var p := Split(text, '\n');
    if p[|p| - 1] == "" then p[..|p| - 1] else p
  }

  predicate EndsLine(text: string) { text == "" || text[|text| - 1] == '\n' }

  lemma {:induction false} SplitLast(s: string, c: char)
    ensures var p := Split(s, c); p[|p| - 1] == "" <==> s == "" || s[|s| - 1] == c
  {
    if s != "" {
      SplitLast(s[1..], c);
      if |s| == 1 {
        assert s == [s[0]] && s[1..] == "";
      }
    }
  }

  /** Text appended to a file that ends at a line end adds its own lines. */
  lemma LinesAppend(a: string, b: string)
    requires EndsLine(a)
    ensures Lines(a + b) == Lines(a) + Lines(b)
  {
    if a == "" {
      assert a + b == b;
    } else {
      var front := a[..|a| - 1];
      assert a == front + ['\n'] + "" && a + b == front + ['\n'] + b;
      SplitAt(front, '\n', b);
      SplitAt(front, '\n', "");
      assert Split("", '\n') == [""];
      assert Lines(a) == Split(front, '\n');
      var p := Split(b, '\n');
      assert Split(front, '\n') + p[..|p| - 1] == (Split(front, '\n') + p)[..|Split(front, '\n')| + |p| - 1];
    }
  }

  lemma LineOf(line: string)
    requires Without(line, '\n')
    ensures Lines(line + "\n") == [line]
  {
    assert line + "\n" == line + ['\n'] + "";
    SplitCons(line, '\n', "");
  }

  lemma LinesPieces(text: string)
    ensures forall i :: 0 <= i < |Lines(text)| ==> Without(Lines(text)[i], '\n')
  {
    SplitPieces(text, '\n');
  }

  function NonEmpty(lines: seq<string>): seq<string> {
    if lines == [] then []
    else (if lines[0] == "" then [] else [lines[0]]) + NonEmpty(lines[1..])
  }

  lemma {:induction false} NonEmptyAppend(a: seq<string>, b: seq<string>)
    ensures NonEmpty(a + b) == NonEmpty(a) + NonEmpty(b)
  {
    if a == [] {
      assert a + b == b;
    } else {
      NonEmptyAppend(a[1..], b);
      assert (a + b)[1..] == a[1..] + b && (a + b)[0] == a[0];
      var head, x, y := if a[0] == "" then [] else [a[0]], NonEmpty(a[1..]), NonEmpty(b);
      assert head + (x + y) == (head + x) + y;
    }
  }

  /** std::isspace in the C locale: blank, tab, line feed, vertical tab, form feed, return. */
  predicate IsSpace(c: char) { c == ' ' || '\t' <= c <= '\r' }

  // ------------------------------------------------------------ joining

  function JoinWith(sep: string, xs: seq<string>): string {
    if xs == [] then "" else if |xs| == 1 then xs[0] else xs[0] + (sep + JoinWith(sep, xs[1..]))
  }

  lemma {:induction false} JoinAppend(sep: string, xs: seq<string>, x: string)
    ensures JoinWith(sep, xs + [x]) == (if xs == [] then x else JoinWith(sep, xs) + sep + x)
  {
    if |xs| == 1 {
      assert (xs + [x])[1..] == [x];
    } else if |xs| > 1 {
      JoinAppend(sep, xs[1..], x);
      assert (xs + [x])[1..] == xs[1..] + [x];
    }
  }

  // ------------------------------------------------------------ decimal numerals

  predicate IsDigit(c: char) { '0' <= c <= '9' }

  function DigitValue(c: char): (d: nat)
    requires IsDigit(c)
    ensures d < 10
  {
    c as int - '0' as int
  }

  function Digits(n: nat): (s: string) {
    (if n < 10 then "" else Digits(n / 10)) + ["0123456789"[n % 10]]
  }

  /** operator<< and std::to_string on an integer. */
  function Decimal(n: int): string { if n < 0 then "-" + Digits(-n) else Digits(n) }

  predicate AllDigits(s: string) { forall i :: 0 <= i < |s| ==> IsDigit(s[i]) }

  function ValueOf(s: string): nat
    requires AllDigits(s)
  {
    if s == "" then 0 else 10 * ValueOf(s[..|s| - 1]) + DigitValue(s[|s| - 1])
  }

  lemma {:induction false} DigitsRead(n: nat)
    ensures Digits(n) != "" && AllDigits(Digits(n)) && ValueOf(Digits(n)) == n
  {
    var s := Digits(n);
    if n >= 10 {
      DigitsRead(n / 10);
      assert s[..|s| - 1] == Digits(n / 10);
    } else {
      assert s[..|s| - 1] == "";
    }
  }

  // ------------------------------------------------------------ std::map order

  /** Lexicographic order of std::string. */
  predicate Less(a: string, b: string) {
    b != "" && (a == "" || a[0] < b[0] || (a[0] == b[0] && Less(a[1..], b[1..])))
  }

  lemma {:induction false} LessTotal(a: string, b: string)
    ensures a == b || Less(a, b) || Less(b, a)
  {
    if a != "" && b != "" && a[0] == b[0] {
      LessTotal(a[1..], b[1..]);
      assert a == [a[0]] + a[1..] && b == [b[0]] + b[1..];
    }
  }

  lemma {:induction false} LessIrreflexive(a: string)
    ensures !Less(a, a)
  {
    if a != "" {
      LessIrreflexive(a[1..]);
    }
  }

  lemma {:induction false} LessTransitive(a: string, b: string, c: string)
    requires Less(a, b) && Less(b, c)
    ensures Less(a, c)
  {
    if a != "" && a[0] == b[0] && b[0] == c[0] {
      LessTransitive(a[1..], b[1..], c[1..]);
    }
  }

  predicate IsLeast(k: string, s: set<string>) { k in s && forall j :: j in s && j != k ==> Less(k, j) }

  lemma {:induction false} LeastExists(s: set<string>) returns (k: string)
    requires s != {}
    ensures IsLeast(k, s)
    decreases |s|
  {
    var x :| x in s;
    if s == {x} {
      k := x;
    } else {
      var rest := s - {x};
      assert s == rest + {x};
      var m := LeastExists(rest);
      LessTotal(x, m);
      if Less(x, m) {
        k := x;
        forall j | j in s && j != x ensures Less(x, j) {
          if j != m { LessTransitive(x, m, j); }
        }
      } else {
        k := m;
      }
    }
  }

  lemma LeastUnique(a: string, b: string, s: set<string>)
    requires IsLeast(a, s) && IsLeast(b, s)
    ensures a == b
  {
    if a != b {
      LessTransitive(a, b, a);
      LessIrreflexive(a);
    }
  }

  function Least(s: set<string>): (k: string)
    requires s != {}
    ensures IsLeast(k, s)
  {
    assert exists k :: k in s && IsLeast(k, s) by {
      var k := LeastExists(s);
    }
    assert forall a, b | IsLeast(a, s) && IsLeast(b, s) :: a == b by {
      forall a, b | IsLeast(a, s) && IsLeast(b, s) ensures a == b { LeastUnique(a, b, s); }
    }
    var k :| k in s && IsLeast(k, s);
    k
  }

  /** The keys of a std::map in the order a range-for visits them. */
  function Ordered(s: set<string>): (r: seq<string>)
    decreases |s|
  {
    if s == {} then [] else var k := Least(s); [k] + Ordered(s - {k})
  }

  lemma {:induction false} OrderedIsPermutation(s: set<string>)
    ensures |Ordered(s)| == |s|
    ensures forall k :: k in Ordered(s) <==> k in s
    ensures forall i, j :: 0 <= i < j < |Ordered(s)| ==> Less(Ordered(s)[i], Ordered(s)[j])
    decreases |s|
  {
    if s != {} {
      var k := Least(s);
      OrderedIsPermutation(s - {k});
      assert Ordered(s) == [k] + Ordered(s - {k});
    }
  }

  lemma OrderedDistinct(s: set<string>)
    ensures forall i, j :: 0 <= i < j < |Ordered(s)| ==> Ordered(s)[i] != Ordered(s)[j]
    ensures forall k :: k in Ordered(s) <==> k in s
  {
    OrderedIsPermutation(s);
    forall i, j | 0 <= i < j < |Ordered(s)| ensures Ordered(s)[i] != Ordered(s)[j] {
      LessIrreflexive(Ordered(s)[i]);
    }
  }

  /** The order of std::string: a proper beginning comes first, else the first difference decides. */
  lemma {:induction false} LessIs(a: string, b: string)
    ensures Less(a, b) <==>
              || (|a| < |b| && a == b[..|a|])
              || exists i :: 0 <= i < |a| && i < |b| && a[..i] == b[..i] && a[i] < b[i]
  {
    if a != "" && b != "" && a[0] == b[0] {
      var x, y := a[1..], b[1..];
      LessIs(x, y);
      assert a == [a[0]] + x && b == [a[0]] + y;
      if |x| < |y| && x == y[..|x|] { assert b[..|a|] == [a[0]] + y[..|x|]; }
      if |a| < |b| && a == b[..|a|] { assert y[..|x|] == b[..|a|][1..]; }
      if i :| 0 <= i < |x| && i < |y| && x[..i] == y[..i] && x[i] < y[i] {
        assert a[..i + 1] == [a[0]] + x[..i] && b[..i + 1] == [a[0]] + y[..i];
      }
      if i :| 0 <= i < |a| && i < |b| && a[..i] == b[..i] && a[i] < b[i] {
        assert x[..i - 1] == a[..i][1..] && y[..i - 1] == b[..i][1..];
      }
    } else if a != "" && b != "" {
      assert a[..0] == b[..0];
      if i :| 0 < i < |a| && i < |b| && a[..i] == b[..i] {
        assert a[..i][0] == b[..i][0];
      }
    }
  }

  /** The white space of the C locale and the ten digits, by code. */
  lemma ClassesAre(c: char)
    ensures IsSpace(c) <==> c as int in {9, 10, 11, 12, 13, 32}
    ensures IsDigit(c) <==> 48 <= c as int <= 57
    ensures IsDigit(c) ==> DigitValue(c) == c as int - 48
  {
  }

  /** A digit more at the right is ten times the value and the digit. */
  lemma ValueAppend(s: string, c: char)
    requires AllDigits(s) && IsDigit(c)
    ensures AllDigits(s + [c]) && ValueOf(s + [c]) == 10 * ValueOf(s) + (c as int - 48) && ValueOf("") == 0
  {
    assert (s + [c])[..|s|] == s;
  }
}
