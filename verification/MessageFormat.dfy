/** format_message: placeholders are replaced in place, one kind after the other. */
module MessageFormat {
  import opened Strings

  predicate NoBrace(s: string) { Without(s, '{') }

  /** The pattern stands at position `i`. */
  predicate StandsAt(s: string, i: nat, pat: string) { i + |pat| <= |s| && s[i..i + |pat|] == pat }

  lemma StandsChars(s: string, i: nat, pat: string)
    requires StandsAt(s, i, pat)
    ensures forall d :: 0 <= d < |pat| ==> s[i + d] == pat[d]
  {
    var x := s[i..i + |pat|];
    assert forall d :: 0 <= d < |x| ==> x[d] == s[i + d];
  }

  /** std::string::find from position `i`; the length of the text when there is none. */
  function FindFrom(s: string, pat: string, i: nat): (r: nat)
    requires i <= |s|
    ensures i <= r <= |s|
    ensures r < |s| ==> StandsAt(s, r, pat)
    ensures forall j :: i <= j < r ==> !StandsAt(s, j, pat)
    decreases |s| - i
  {
    if i == |s| then |s| else if StandsAt(s, i, pat) then i else FindFrom(s, pat, i + 1)
  }

  function Find(s: string, pat: string): (r: nat)
    ensures r <= |s|
    ensures r < |s| ==> StandsAt(s, r, pat)
    ensures forall j :: 0 <= j < r ==> !StandsAt(s, j, pat)
  {
    FindFrom(s, pat, 0)
  }

  function Braces(s: string): nat { if s == "" then 0 else (if s[0] == '{' then 1 else 0) + Braces(s[1..]) }

  lemma {:induction false} BracesAppend(a: string, b: string)
    ensures Braces(a + b) == Braces(a) + Braces(b)
  {
    if a == "" {
      assert a + b == b;
    } else {
      BracesAppend(a[1..], b);
      assert (a + b)[1..] == a[1..] + b;
    }
  }

  lemma {:induction false} BracesFree(s: string)
    ensures Braces(s) == 0 <==> NoBrace(s)
  {
    if s != "" {
      BracesFree(s[1..]);
      assert NoBrace(s) <==> s[0] != '{' && NoBrace(s[1..]);
    }
  }

  /** A placeholder: two braces, a name, two braces. */
  predicate IsPattern(pat: string) { |pat| > 4 && pat[0] == '{' && pat[1] == '{' && NoBrace(pat[2..]) }

  /** std::string::replace of `n` characters at `p`. */
  function ReplaceAt(s: string, p: nat, n: nat, val: string): string
    requires p <= |s|
  {
    s[..p] + val + (if p + n <= |s| then s[p + n..] else "")
  }

  /** The text after at most `k` rounds of find and replace. */
  function Rounds(s: string, pat: string, n: nat, val: string, k: nat): string
    decreases k
  {
    var p := Find(s, pat);
    if k == 0 || p == |s| then s else Rounds(ReplaceAt(s, p, n, val), pat, n, val, k - 1)
  }

  predicate Done(s: string, pat: string) { Find(s, pat) == |s| }

  /** The loop of the source ends: some number of rounds leaves no placeholder. */
  ghost predicate Ends(s: string, pat: string, n: nat, val: string) {
    exists k: nat :: Done(Rounds(s, pat, n, val, k), pat)
  }

  /** What the loop for one placeholder leaves: find, replace `n` characters, until none is found. */
  ghost function ReplaceAll(s: string, pat: string, n: nat, val: string): string
    requires Ends(s, pat, n, val)
  {
    var k: nat :| Done(Rounds(s, pat, n, val, k), pat);
    Rounds(s, pat, n, val, k)
  }

  lemma {:induction false} SameOutcome(s: string, pat: string, n: nat, val: string, j: nat, k: nat)
    requires Done(Rounds(s, pat, n, val, j), pat) && Done(Rounds(s, pat, n, val, k), pat)
    ensures Rounds(s, pat, n, val, j) == Rounds(s, pat, n, val, k)
    decreases j
  {
    hide Find, ReplaceAt;
    var p := Find(s, pat);
    if p < |s| {
      SameOutcome(ReplaceAt(s, p, n, val), pat, n, val, j - 1, k - 1);
    }
  }

  lemma NotFound(s: string, pat: string, n: nat, val: string)
    requires Done(s, pat)
    ensures Ends(s, pat, n, val) && ReplaceAll(s, pat, n, val) == s
  {
    hide Find;
    assert Done(Rounds(s, pat, n, val, 0), pat);
  }

  /** One round is the start of the whole loop. */
  lemma ReplaceOnce(s: string, pat: string, n: nat, val: string)
    requires !Done(s, pat)
    ensures var r := ReplaceAt(s, Find(s, pat), n, val);
            && (Ends(s, pat, n, val) <==> Ends(r, pat, n, val))
            && (Ends(r, pat, n, val) ==> ReplaceAll(s, pat, n, val) == ReplaceAll(r, pat, n, val))
  {
    hide Find, ReplaceAt;
    var r := ReplaceAt(s, Find(s, pat), n, val);
    if Ends(s, pat, n, val) {
      var k: nat :| Done(Rounds(s, pat, n, val, k), pat) && ReplaceAll(s, pat, n, val) == Rounds(s, pat, n, val, k);
      assert k > 0 && Done(Rounds(r, pat, n, val, k - 1), pat);
    }
    if Ends(r, pat, n, val) {
      var k: nat :| Done(Rounds(r, pat, n, val, k), pat) && ReplaceAll(r, pat, n, val) == Rounds(r, pat, n, val, k);
      assert Rounds(s, pat, n, val, k + 1) == Rounds(r, pat, n, val, k);
      var j: nat :| Done(Rounds(s, pat, n, val, j), pat) && ReplaceAll(s, pat, n, val) == Rounds(s, pat, n, val, j);
      SameOutcome(s, pat, n, val, j, k + 1);
    }
  }

  /** The source's loop, on every input on which it ends. */
  method ReplaceLoop(s: string, pat: string, n: nat, val: string) returns (result: string)
    requires Ends(s, pat, n, val)
    ensures result == ReplaceAll(s, pat, n, val)
  {
    hide Find;
    result := s;
    var p := Find(result, pat);
    ghost var k: nat :| Done(Rounds(s, pat, n, val, k), pat);
    while p < |result|
      invariant p == Find(result, pat) <= |result|
      invariant Ends(result, pat, n, val) && ReplaceAll(result, pat, n, val) == ReplaceAll(s, pat, n, val)
      invariant Done(Rounds(result, pat, n, val, k), pat)
      decreases k
    {
      ReplaceOnce(result, pat, n, val);
      result := ReplaceAt(result, p, n, val);
      p := Find(result, pat);
      k := k - 1;
    }
    NotFound(result, pat, n, val);
  }

  // ------------------------------------------------------------ when the loop ends

  /** Replacing a placeholder by a text with at most one opening brace removes one or two. */
  lemma ReplaceShrinks(s: string, p: nat, pat: string, n: nat, val: string)
    requires IsPattern(pat) && StandsAt(s, p, pat) && Braces(val) <= 1 && n >= |pat|
    ensures Braces(ReplaceAt(s, p, n, val)) < Braces(s)
  {
    var rest := s[p + |pat|..];
    var left := if p + n <= |s| then s[p + n..] else "";
    var eaten := rest[..|rest| - |left|];
    assert rest == eaten + left;
    assert s == s[..p] + (pat + rest) && ReplaceAt(s, p, n, val) == s[..p] + (val + left);
    BracesAppend(s[..p], pat + rest);
    BracesAppend(pat, rest);
    BracesAppend(eaten, left);
    BracesAppend(s[..p], val + left);
    BracesAppend(val, left);
    TwoBraces(pat);
  }

  lemma TwoBraces(pat: string)
    requires IsPattern(pat)
    ensures Braces(pat) == 2
  {
    BracesFree(pat[2..]);
    assert pat[1..][1..] == pat[2..];
  }

  lemma {:induction false} FewBracesEnd(s: string, pat: string, n: nat, val: string)
    requires IsPattern(pat) && n >= |pat| && Braces(val) <= 1
    ensures Ends(s, pat, n, val)
    decreases Braces(s)
  {
    hide Braces, ReplaceAt, Ends, StandsAt;
    if Done(s, pat) {
      NotFound(s, pat, n, val);
    } else {
      ReplaceShrinks(s, Find(s, pat), pat, n, val);
      FewBracesEnd(ReplaceAt(s, Find(s, pat), n, val), pat, n, val);
      ReplaceOnce(s, pat, n, val);
    }
  }

  /** The text ends in a proper beginning of the placeholder. */
  ghost predicate EndsInStart(val: string, pat: string) {
    exists d: nat :: 0 < d < |pat| && d <= |val| && val[|val| - d..] == pat[..d]
  }

  /** For each character how much of an inserted text is left from it on, 0 for a character of
      the template: inserted texts are only ever cut at their front. */
  ghost predicate Tailed(s: string, tails: seq<nat>, val: string) {
    && |tails| == |s|
    && forall q :: 0 <= q < |s| && tails[q] > 0 ==> TailAt(s, tails, val, q)
  }

  ghost predicate TailAt(s: string, tails: seq<nat>, val: string, q: nat)
    requires q < |s| == |tails|
  {
    && tails[q] <= |val| && q + tails[q] <= |s| && s[q..q + tails[q]] == val[|val| - tails[q]..]
    && (tails[q] > 1 ==> tails[q + 1] == tails[q] - 1)
  }

  function Zeros(tails: seq<nat>): nat { if tails == [] then 0 else (if tails[0] == 0 then 1 else 0) + Zeros(tails[1..]) }

  lemma {:induction false} ZerosAppend(a: seq<nat>, b: seq<nat>)
    ensures Zeros(a + b) == Zeros(a) + Zeros(b)
  {
    if a == [] {
      assert a + b == b;
    } else {
      ZerosAppend(a[1..], b);
      assert (a + b)[1..] == a[1..] + b;
    }
  }

  lemma {:induction false} NoZeros(a: seq<nat>)
    requires forall i :: 0 <= i < |a| ==> a[i] > 0
    ensures Zeros(a) == 0
  {
    if a != [] {
      NoZeros(a[1..]);
    }
  }

  /** A placeholder that starts inside an inserted text is in it, or its beginning ends it. */
  lemma StartsInValue(s: string, tails: seq<nat>, pat: string, val: string, p: nat)
    requires p < |s| && Tailed(s, tails, val) && StandsAt(s, p, pat) && pat != "" && tails[p] > 0
    ensures !Done(val, pat) || EndsInStart(val, pat)
  {
    hide Find;
    var t := tails[p];
    assert TailAt(s, tails, val, p);
    var o := |val| - t;
    if t >= |pat| {
      assert s[p..p + |pat|] == s[p..p + t][..|pat|] == val[o..][..|pat|] == val[o..o + |pat|];
      FoundBefore(val, pat, o);
    } else {
      assert s[p..p + t] == s[p..p + |pat|][..t] == pat[..t];
      assert val[|val| - t..] == pat[..t];
    }
  }

  /** So it starts in the template when the value is harmless. */
  lemma StartsInTemplate(s: string, tails: seq<nat>, pat: string, val: string, p: nat)
    requires Tailed(s, tails, val) && StandsAt(s, p, pat) && pat != "" && Done(val, pat) && !EndsInStart(val, pat)
    ensures p < |s| && tails[p] == 0
  {
    hide Find, EndsInStart;
    if tails[p] > 0 { StartsInValue(s, tails, pat, val, p); }
  }

  lemma FoundBefore(s: string, pat: string, i: nat)
    requires StandsAt(s, i, pat) && pat != ""
    ensures Find(s, pat) <= i < |s|
  {
  }

  /** An inserted text that starts before a character of the template ends before it. */
  lemma {:induction false} StopsBefore(s: string, tails: seq<nat>, val: string, q: nat, p: nat)
    requires Tailed(s, tails, val) && q < p < |s| && tails[p] == 0
    ensures q + tails[q] <= p
    decreases p - q
  {
    if tails[q] > 0 {
      assert TailAt(s, tails, val, q);
      if tails[q] > 1 {
        if q + 1 < p { StopsBefore(s, tails, val, q + 1, p); }
      }
    }
  }

  function Down(m: nat): seq<nat> { seq(m, i requires 0 <= i < m => m - i) }

  function NextTails(tails: seq<nat>, p: nat, n: nat, m: nat): seq<nat>
    requires p <= |tails|
  {
    tails[..p] + Down(m) + (if p + n <= |tails| then tails[p + n..] else [])
  }

  lemma NextTailed(s: string, tails: seq<nat>, val: string, p: nat, n: nat)
    requires Tailed(s, tails, val) && p < |s| && tails[p] == 0 && n > 0
    ensures Tailed(ReplaceAt(s, p, n, val), NextTails(tails, p, n, |val|), val)
  {
    hide TailAt;
    var rest, left := (if p + n <= |s| then s[p + n..] else ""), (if p + n <= |s| then tails[p + n..] else []);
    if p + n <= |s| { TailedSuffix(s, tails, val, p + n); }
    TailedPrefix(s, tails, val, p);
    TailedDown(val);
    TailedJoin(s[..p], tails[..p], val, Down(|val|), val);
    TailedJoin(s[..p] + val, tails[..p] + Down(|val|), rest, left, val);
  }

  lemma TailedSuffix(s: string, tails: seq<nat>, val: string, p: nat)
    requires Tailed(s, tails, val) && p <= |s|
    ensures Tailed(s[p..], tails[p..], val)
  {
    forall q | 0 <= q < |s[p..]| && tails[p..][q] > 0 ensures TailAt(s[p..], tails[p..], val, q) {
      assert TailAt(s, tails, val, p + q);
      assert s[p..][q..q + tails[p + q]] == s[p + q..p + q + tails[p + q]];
    }
  }

  lemma TailedPrefix(s: string, tails: seq<nat>, val: string, p: nat)
    requires Tailed(s, tails, val) && p < |s| && tails[p] == 0
    ensures Tailed(s[..p], tails[..p], val)
  {
    forall q | 0 <= q < p && tails[q] > 0 ensures TailAt(s[..p], tails[..p], val, q) {
      assert TailAt(s, tails, val, q);
      StopsBefore(s, tails, val, q, p);
      PrefixSlice(s, p, q, q + tails[q]);
    }
  }

  lemma PrefixSlice(s: string, p: nat, i: nat, j: nat)
    requires i <= j <= p <= |s|
    ensures s[..p][i..j] == s[i..j]
  {
  }

  lemma TailedDown(val: string)
    ensures Tailed(val, Down(|val|), val)
  {
    forall q | 0 <= q < |val| ensures TailAt(val, Down(|val|), val, q) {
      assert val[q..q + (|val| - q)] == val[q..];
    }
  }

  lemma TailedJoin(a: string, ta: seq<nat>, b: string, tb: seq<nat>, val: string)
    requires Tailed(a, ta, val) && Tailed(b, tb, val)
    ensures Tailed(a + b, ta + tb, val)
  {
    hide TailAt;
    forall q | 0 <= q < |a + b| && (ta + tb)[q] > 0 ensures TailAt(a + b, ta + tb, val, q) {
      if q < |a| { TailLeft(a, ta, b, tb, val, q); } else { TailRight(a, ta, b, tb, val, q - |a|); }
    }
  }

  lemma TailLeft(a: string, ta: seq<nat>, b: string, tb: seq<nat>, val: string, q: nat)
    requires q < |a| == |ta| && |b| == |tb| && TailAt(a, ta, val, q) && ta[q] > 0
    ensures TailAt(a + b, ta + tb, val, q)
  {
    assert (a + b)[q..q + ta[q]] == a[q..q + ta[q]];
  }

  lemma TailRight(a: string, ta: seq<nat>, b: string, tb: seq<nat>, val: string, o: nat)
    requires |a| == |ta| && o < |b| == |tb| && TailAt(b, tb, val, o) && tb[o] > 0
    ensures TailAt(a + b, ta + tb, val, |a| + o)
  {
    var q := |a| + o;
    assert (a + b)[q..q + tb[o]] == b[o..o + tb[o]];
  }

  lemma FewerZeros(tails: seq<nat>, p: nat, n: nat, m: nat)
    requires p < |tails| && tails[p] == 0 && n > 0
    ensures Zeros(NextTails(tails, p, n, m)) < Zeros(tails)
  {
    hide Zeros;
    var rest := if p + n <= |tails| then tails[p + n..] else [];
    var eaten := CutTails(tails, p, n, rest);
    ZerosAppend(tails[..p], [0] + (eaten + rest));
    ZerosAppend([0], eaten + rest);
    ZerosAppend(eaten, rest);
    ZerosAppend(tails[..p] + Down(m), rest);
    ZerosAppend(tails[..p], Down(m));
    NoZeros(Down(m));
    OneZero();
  }

  lemma OneZero()
    ensures Zeros([0]) == 1
  {
    assert [0][1..] == [];
  }

  lemma CutTails(tails: seq<nat>, p: nat, n: nat, rest: seq<nat>) returns (eaten: seq<nat>)
    requires p < |tails| && tails[p] == 0 && n > 0
    requires rest == if p + n <= |tails| then tails[p + n..] else []
    ensures tails == tails[..p] + ([0] + (eaten + rest))
  {
    eaten := tails[p + 1..|tails| - |rest|];
    assert tails[p + 1..] == eaten + rest;
  }

  lemma {:induction false} TailedEnds(s: string, tails: seq<nat>, pat: string, n: nat, val: string)
    requires pat != "" && n >= |pat| && Tailed(s, tails, val) && Done(val, pat) && !EndsInStart(val, pat)
    ensures Ends(s, pat, n, val)
    decreases Zeros(tails)
  {
    hide Tailed, Zeros, EndsInStart, ReplaceAt, Ends, NextTails;
    if Done(s, pat) {
      NotFound(s, pat, n, val);
    } else {
      var p := Find(s, pat);
      StartsInTemplate(s, tails, pat, val, p);
      assert |tails| == |s| by { TailsLength(s, tails, val); }
      NextTailed(s, tails, val, p, n);
      FewerZeros(tails, p, n, |val|);
      TailedEnds(ReplaceAt(s, p, n, val), NextTails(tails, p, n, |val|), pat, n, val);
      ReplaceOnce(s, pat, n, val);
    }
  }

  lemma TailsLength(s: string, tails: seq<nat>, val: string)
    requires Tailed(s, tails, val)
    ensures |tails| == |s|
  {
  }

  function Mirror(s: string): (r: string)
    ensures |r| == |s|
  {
    seq(|s|, i requires 0 <= i < |s| => s[|s| - 1 - i])
  }

  /** The text starts in a proper ending of the placeholder. */
  ghost predicate StartsInEnd(val: string, pat: string) { EndsInStart(Mirror(val), Mirror(pat)) }

  lemma MirrorSlice(s: string, i: nat, j: nat)
    requires i <= j <= |s|
    ensures Mirror(s[i..j]) == Mirror(s)[|s| - j..|s| - i]
  {
  }

  lemma MirrorTwice(s: string)
    ensures Mirror(Mirror(s)) == s
  {
  }

  lemma MirrorStands(s: string, p: nat, pat: string)
    requires StandsAt(s, p, pat)
    ensures StandsAt(Mirror(s), |s| - p - |pat|, Mirror(pat))
  {
    MirrorSlice(s, p, p + |pat|);
  }

  lemma MirrorFound(s: string, pat: string)
    requires !Done(Mirror(s), Mirror(pat)) && pat != ""
    ensures !Done(s, pat)
  {
    hide Find, Mirror;
    var p := Find(Mirror(s), Mirror(pat));
    MirrorStands(Mirror(s), p, Mirror(pat));
    MirrorTwice(s);
    MirrorTwice(pat);
    FoundBefore(s, pat, |s| - p - |pat|);
  }

  lemma MirrorReplace(s: string, p: nat, n: nat, val: string)
    requires p + n <= |s|
    ensures Mirror(ReplaceAt(s, p, n, val)) == ReplaceAt(Mirror(s), |s| - p - n, n, Mirror(val))
  {
  }

  /** Read backwards, the same count falls when the value starts in no end of the placeholder. */
  lemma {:induction false} MirrorEnds(s: string, tails: seq<nat>, pat: string, val: string)
    requires Tailed(Mirror(s), tails, Mirror(val)) && pat != "" && Done(val, pat) && !StartsInEnd(val, pat)
    ensures Ends(s, pat, |pat|, val)
    decreases Zeros(tails)
  {
    hide Tailed, Zeros, EndsInStart, ReplaceAt, Ends, NextTails, Mirror;
    if Done(s, pat) {
      NotFound(s, pat, |pat|, val);
    } else {
      var p := Find(s, pat);
      var q := |s| - p - |pat|;
      MirrorStands(s, p, pat);
      if !Done(Mirror(val), Mirror(pat)) { MirrorFound(val, pat); }
      StartsInTemplate(Mirror(s), tails, Mirror(pat), Mirror(val), q);
      assert |tails| == |s| by { TailsLength(Mirror(s), tails, Mirror(val)); }
      NextTailed(Mirror(s), tails, Mirror(val), q, |pat|);
      FewerZeros(tails, q, |pat|, |val|);
      MirrorReplace(s, p, |pat|, val);
      MirrorEnds(ReplaceAt(s, p, |pat|, val), NextTails(tails, q, |pat|, |val|), pat, val);
      ReplaceOnce(s, pat, |pat|, val);
    }
  }

  /** Texts that are safe to insert: at most one opening brace, or no whole placeholder inside
      and no beginning of one at the end or (where just the placeholder is replaced) no end of
      one at the start. */
  ghost predicate Harmless(val: string, pat: string, n: nat) {
    || Braces(val) <= 1
    || (Done(val, pat) && (!EndsInStart(val, pat) || (n == |pat| && !StartsInEnd(val, pat))))
  }

  /** With a harmless value the loop ends on every template. */
  lemma HarmlessEnds(s: string, pat: string, n: nat, val: string)
    requires IsPattern(pat) && n >= |pat| && Harmless(val, pat, n)
    ensures Ends(s, pat, n, val)
  {
    hide Braces, EndsInStart, StartsInEnd, Ends, Done, Mirror;
    if Braces(val) <= 1 {
      FewBracesEnd(s, pat, n, val);
    } else if !EndsInStart(val, pat) {
      TailedEnds(s, seq(|s|, _ => 0), pat, n, val);
    } else {
      MirrorEnds(s, seq(|s|, _ => 0), pat, val);
    }
  }

  // ------------------------------------------------------------ when it does not

  lemma {:induction false} NeverDone(s: string, pat: string, n: nat, val: string, k: nat)
    requires Find(s, pat) < |s| && Find(val, pat) < |val| && pat != ""
    ensures !Done(Rounds(s, pat, n, val, k), pat)
    decreases k
  {
    hide Find, StandsAt;
    if k > 0 {
      LeavesOneBehind(s, pat, n, val);
      NeverDone(ReplaceAt(s, Find(s, pat), n, val), pat, n, val, k - 1);
    }
  }

  lemma LeavesOneBehind(s: string, pat: string, n: nat, val: string)
    requires pat != "" && Find(s, pat) < |s| && Find(val, pat) < |val|
    ensures var r := ReplaceAt(s, Find(s, pat), n, val); Find(r, pat) < |r|
  {
    var p, q := Find(s, pat), Find(val, pat);
    var r := ReplaceAt(s, p, n, val);
    assert r[p + q..p + q + |pat|] == val[q..q + |pat|];
    assert StandsAt(r, p + q, pat);
  }

  /** When the inserted text holds the placeholder itself, the loop ends exactly on the
      templates that do not. */
  lemma PlaceholderInValueNeverEnds(s: string, pat: string, n: nat, val: string)
    requires pat != "" && !Done(val, pat)
    ensures Ends(s, pat, n, val) <==> Done(s, pat)
  {
    hide Find;
    if Done(s, pat) {
      NotFound(s, pat, n, val);
    } else {
      forall k: nat ensures !Done(Rounds(s, pat, n, val, k), pat) {
        NeverDone(s, pat, n, val, k);
      }
    }
  }

  ghost predicate Holds(s: string, x: string) { exists i: nat :: StandsAt(s, i, x) }

  /** Values that do not hold the placeholder can loop too: with the placeholder cut into `u`
      and `c`, the value `c c u u` turns each `u c c` into `u u c` and each `u u c` into `u c c`. */
  ghost predicate Junction(s: string, u: string, c: string) { Holds(s, u + c + c) || Holds(s, u + u + c) }

  lemma JunctionStays(s: string, u: string, c: string)
    requires IsPattern(u + c) && c != "" && |u| > 2 && Junction(s, u, c)
    ensures !Done(s, u + c) && Junction(ReplaceAt(s, Find(s, u + c), |u + c|, c + c + u + u), u, c)
  {
    hide Find, IsPattern;
    if Holds(s, u + c + c) {
      var q: nat :| StandsAt(s, q, u + c + c);
      ShortJunction(s, u, c, q);
    } else {
      var q: nat :| StandsAt(s, q, u + u + c);
      LongJunction(s, u, c, q);
    }
  }

  lemma ShortJunction(s: string, u: string, c: string, q: nat)
    requires IsPattern(u + c) && c != "" && |u| > 2 && StandsAt(s, q, u + c + c)
    ensures !Done(s, u + c) && Junction(ReplaceAt(s, Find(s, u + c), |u + c|, c + c + u + u), u, c)
  {
    hide Find;
    var pat, val, w := u + c, c + c + u + u, u + c + c;
    var x, y := s[..q], s[q + |w|..];
    assert s == x + w + y;
    assert s[q..q + |pat|] == w[..|pat|] == pat;
    FoundBefore(s, pat, q);
    var p := Find(s, pat);
    if p == q {
      assert s[p + |pat|..] == c + y;
      Regroup(x, c, u, y);
      HoldsMiddle(x + c + c, u + u + c, y);
    } else {
      Apart(s, pat, p, q, w);
      StaysBehind(s, p, pat, val, q, w);
    }
  }

  lemma Regroup(x: string, c: string, u: string, y: string)
    ensures x + (c + c + u + u) + (c + y) == (x + c + c) + (u + u + c) + y
    ensures (x + u) + (c + c + u + u) + y == x + (u + c + c) + (u + u + y)
  {
  }

  lemma LongJunction(s: string, u: string, c: string, q: nat)
    requires IsPattern(u + c) && c != "" && |u| > 2 && StandsAt(s, q, u + u + c)
    ensures !Done(s, u + c) && Junction(ReplaceAt(s, Find(s, u + c), |u + c|, c + c + u + u), u, c)
  {
    hide Find;
    var pat, val, w := u + c, c + c + u + u, u + u + c;
    var x, y := s[..q], s[q + |w|..];
    assert s == x + w + y;
    assert s[q + |u|..q + |u| + |pat|] == w[|u|..] == pat;
    FoundBefore(s, pat, q + |u|);
    var p := Find(s, pat);
    if p == q + |u| {
      assert s[..p] == x + u && s[p + |pat|..] == y;
      Regroup(x, c, u, y);
      HoldsMiddle(x, u + c + c, u + u + y);
    } else {
      NotInside(s, u, c, p, q);
      Apart(s, pat, p, q, w);
      StaysBehind(s, p, pat, val, q, w);
    }
  }

  lemma HoldsMiddle(x: string, w: string, y: string)
    ensures Holds(x + w + y, w)
  {
    assert (x + w + y)[|x|..|x| + |w|] == w;
    assert StandsAt(x + w + y, |x|, w);
  }

  lemma ReadAt(s: string, p: nat, pat: string, q: nat)
    requires StandsAt(s, p, pat) && p <= q < p + |pat|
    ensures q < |s| && s[q] == pat[q - p]
  {
    StandsChars(s, p, pat);
    var d: nat := q - p;
    assert s[p + d] == pat[d];
  }

  lemma PairAt(s: string, q: nat, w: string)
    requires StandsAt(s, q, w) && |w| > 1 && w[0] == w[1] == '{'
    ensures q + 1 < |s| && s[q] == s[q + 1] == '{'
  {
    ReadAt(s, q, w, q);
    ReadAt(s, q, w, q + 1);
  }

  /** A placeholder has no brace behind its first two. */
  lemma NoBraceInside(s: string, p: nat, pat: string, q: nat)
    requires IsPattern(pat) && StandsAt(s, p, pat) && p + 2 <= q < p + |pat|
    ensures q < |s| && s[q] != '{'
  {
    ReadAt(s, p, pat, q);
    assert pat[2..][q - p - 2] == pat[q - p];
  }

  /** The two cut pieces: `u` starts with two braces, the rest has none. */
  lemma CutPieces(u: string, c: string)
    requires IsPattern(u + c) && |u| > 2
    ensures u[0] == u[1] == '{' && (forall d :: 2 <= d < |u| ==> u[d] != '{') && (forall d :: 0 <= d < |c| ==> c[d] != '{')
  {
    var pat := u + c;
    assert forall d :: 2 <= d < |pat| ==> pat[2..][d - 2] == pat[d];
    assert forall d :: 0 <= d < |u| ==> u[d] == pat[d];
    assert forall d :: 0 <= d < |c| ==> c[d] == pat[|u| + d];
  }

  lemma PairsInLong(u: string, c: string, d: nat)
    requires IsPattern(u + c) && c != "" && |u| > 2 && d < |u|
    ensures var w := u + u + c; (w[d] == w[d + 1] == '{' ==> d == 0) && w[|u|] == '{'
  {
    CutPieces(u, c);
    var w := u + u + c;
    assert w[d] == u[d] && w[|u|] == u[0];
    assert d + 1 < |u| ==> w[d + 1] == u[d + 1];
  }

  /** In `u u c` a placeholder stands at the second `u` only. */
  lemma NotInside(s: string, u: string, c: string, p: nat, q: nat)
    requires IsPattern(u + c) && c != "" && |u| > 2 && StandsAt(s, q, u + u + c) && StandsAt(s, p, u + c) && p < q + |u|
    ensures p < q
  {
    hide IsPattern, StandsAt;
    if q <= p {
      assert |u + c| > 1 && (u + c)[0] == (u + c)[1] == '{' by { CutPieces(u, c); }
      PairAt(s, p, u + c);
      ReadAt(s, q, u + u + c, p);
      ReadAt(s, q, u + u + c, p + 1);
      PairsInLong(u, c, p - q);
      ReadAt(s, q, u + u + c, q + |u|);
      NoBraceInside(s, p, u + c, p + |u|);
    }
  }

  /** Two braces stand only at the start of a placeholder, so an earlier one ends before. */
  lemma Apart(s: string, pat: string, p: nat, q: nat, w: string)
    requires IsPattern(pat) && StandsAt(s, p, pat) && StandsAt(s, q, w) && |w| > 1 && w[0] == w[1] == '{' && p < q
    ensures p + |pat| <= q
  {
    PairAt(s, q, w);
    if q < p + |pat| { NoBraceInside(s, p, pat, if q + 1 < p + |pat| then q + 1 else q); }
  }

  lemma StaysBehind(s: string, p: nat, pat: string, val: string, q: nat, w: string)
    requires StandsAt(s, p, pat) && StandsAt(s, q, w) && p + |pat| <= q
    ensures Holds(ReplaceAt(s, p, |pat|, val), w)
  {
    var r, i := ReplaceAt(s, p, |pat|, val), p + |val| + (q - p - |pat|);
    assert r[i..i + |w|] == s[q..q + |w|];
    assert StandsAt(r, i, w);
  }

  lemma {:induction false} JunctionNeverDone(s: string, u: string, c: string, k: nat)
    requires IsPattern(u + c) && c != "" && |u| > 2 && Junction(s, u, c)
    ensures !Done(Rounds(s, u + c, |u + c|, c + c + u + u, k), u + c)
    decreases k
  {
    hide Find, Junction, ReplaceAt;
    JunctionStays(s, u, c);
    if k > 0 {
      JunctionNeverDone(ReplaceAt(s, Find(s, u + c), |u + c|, c + c + u + u), u, c, k - 1);
    }
  }

  /** A template of two placeholders and a value that holds none: the loop never ends. */
  lemma TwoSlotsNeverEnd(u: string, c: string)
    requires IsPattern(u + c) && c != "" && |u| > 2
    ensures var pat, val := u + c, c + c + u + u; !Ends(pat + pat, pat, |pat|, val) && Done(val, pat)
  {
    hide Junction, IsPattern, Find, Ends, Rounds, Holds;
    var pat, val := u + c, c + c + u + u;
    assert (pat + pat)[0..|pat|] == pat;
    FoundBefore(pat + pat, pat, 0);
    var r := ReplaceAt(pat + pat, 0, |pat|, val);
    assert r == (c + c + u) + (u + u + c) + "";
    HoldsMiddle(c + c + u, u + u + c, "");
    assert Junction(r, u, c) by { JunctionOfLong(r, u, c); }
    ReplaceOnce(pat + pat, pat, |pat|, val);
    forall k: nat ensures !Done(Rounds(r, pat, |pat|, val, k), pat) {
      JunctionNeverDone(r, u, c, k);
    }
    NoneInside(u, c);
  }

  lemma JunctionOfLong(s: string, u: string, c: string)
    requires Holds(s, u + u + c)
    ensures Junction(s, u, c)
  {
  }

  lemma NoneInside(u: string, c: string)
    requires IsPattern(u + c) && c != "" && |u| > 2
    ensures Done(c + c + u + u, u + c)
  {
    hide IsPattern;
    forall p: nat | p < |c + c + u + u| ensures !StandsAt(c + c + u + u, p, u + c) {
      NoneAt(u, c, p);
    }
  }

  lemma NoneAt(u: string, c: string, p: nat)
    requires IsPattern(u + c) && c != "" && |u| > 2
    ensures !StandsAt(c + c + u + u, p, u + c)
  {
    hide IsPattern, StandsAt;
    var pat, val := u + c, c + c + u + u;
    if StandsAt(val, p, pat) {
      assert |pat| > 1 && pat[0] == pat[1] == '{' by { CutPieces(u, c); }
      PairAt(val, p, pat);
      PairsInValue(u, c, p);
      NoBraceInside(val, p, pat, p + |u|);
    }
  }

  lemma PairsInValue(u: string, c: string, p: nat)
    requires IsPattern(u + c) && c != "" && |u| > 2 && p + 1 < |c + c + u + u|
    requires var val := c + c + u + u; val[p] == val[p + 1] == '{'
    ensures var val, m := c + c + u + u, 2 * |c|; (p == m || p == m + |u|) && val[m + |u|] == '{'
  {
    CutPieces(u, c);
    var val, m := c + c + u + u, 2 * |c|;
    assert forall d :: 0 <= d < m ==> val[d] == c[if d < |c| then d else d - |c|];
    assert forall d :: m <= d < |val| ==> val[d] == u[if d < m + |u| then d - m else d - m - |u|];
  }

  /** In particular the template `{{source}}{{source}}` with the source `}}}}{{source{{source`. */
  lemma SourceLoops()
    ensures var pat, val := "{{source}}", "}}}}{{source{{source";
            !Ends(pat + pat, pat, 10, val) && Done(val, pat)
  {
    assert "{{source" + "}}" == "{{source}}";
    assert "}}" + "}}" + "{{source" + "{{source" == "}}}}{{source{{source";
    TwoSlotsNeverEnd("{{source", "}}");
  }

  // ------------------------------------------------------------ the message

  datatype Values = Values(source: string, target: string, summary: string, category: string, kind: string,
      count: string, window: string)

  datatype Kind = Source | Target | Summary | Category | Type

  function Pattern(k: Kind): string {
    match k
    case Source => "{{source}}"
    case Target => "{{target}}"
    case Summary => "{{summary}}"
    case Category => "{{category}}"
    case Type => "{{type}}"
  }

  function ValueFor(k: Kind, v: Values): string {
    match k
    case Source => v.source
    case Target => v.target
    case Summary => v.summary
    case Category => v.category
    case Type => v.kind
  }

  const COUNT_PATTERN := "{{threshold_count}}"
  const WINDOW_PATTERN := "{{threshold_window_ms}}"

  lemma PatternShape(k: Kind)
    ensures IsPattern(Pattern(k)) && IsPattern(COUNT_PATTERN) && IsPattern(WINDOW_PATTERN)
    ensures |COUNT_PATTERN| == 19 && |WINDOW_PATTERN| == 23
  {
  }

  /** One loop of format_message: a placeholder, how many characters go, and what comes. */
  datatype Step = Step(pat: string, n: nat, val: string)

  function EventStep(k: Kind, v: Values): Step { Step(Pattern(k), |Pattern(k)|, ValueFor(k, v)) }

  /** The source replaces one character too many for the two threshold placeholders. */
  function ThresholdSteps(v: Values): seq<Step> { [Step(COUNT_PATTERN, 20, v.count), Step(WINDOW_PATTERN, 24, v.window)] }

  function Steps(v: Values): seq<Step> {
    [EventStep(Source, v), EventStep(Target, v), EventStep(Summary, v), EventStep(Category, v), EventStep(Type, v)]
    + ThresholdSteps(v)
  }

  ghost predicate StepEnds(s: string, t: Step) { Ends(s, t.pat, t.n, t.val) }

  ghost function StepText(s: string, t: Step): string
    requires StepEnds(s, t)
  {
    ReplaceAll(s, t.pat, t.n, t.val)
  }

  /** Each loop ends on what the ones before it leave. */
  ghost predicate AllEnd(s: string, ts: seq<Step>)
    decreases |ts|
  {
    ts == [] || (StepEnds(s, ts[0]) && AllEnd(StepText(s, ts[0]), ts[1..]))
  }

  ghost function AfterAll(s: string, ts: seq<Step>): string
    requires AllEnd(s, ts)
    decreases |ts|
  {
    if ts == [] then s else AfterAll(StepText(s, ts[0]), ts[1..])
  }

  /** format_message ends on this template with these values. */
  ghost predicate FormatEnds(template: string, v: Values) { template == "" || AllEnd(template, Steps(v)) }

  ghost function Formatted(template: string, v: Values): string
    requires FormatEnds(template, v)
  {
    if template == "" then "Alert triggered for event: " + v.summary else AfterAll(template, Steps(v))
  }

  method FormatMessage(template: string, v: Values) returns (result: string)
    requires FormatEnds(template, v)
    ensures result == Formatted(template, v)
  {
    hide StepEnds, StepText, AllEnd, AfterAll;
    if template == "" { return "Alert triggered for event: " + v.summary; }
    ghost var ts := Steps(v);
    FirstStep(template, ts);
    result := ReplaceLoop(template, "{{source}}", 10, v.source);
    FirstStep(result, ts[1..]);
    result := ReplaceLoop(result, "{{target}}", 10, v.target);
    FirstStep(result, ts[1..][1..]);
    result := ReplaceLoop(result, "{{summary}}", 11, v.summary);
    FirstStep(result, ts[1..][1..][1..]);
    result := ReplaceLoop(result, "{{category}}", 12, v.category);
    FirstStep(result, ts[1..][1..][1..][1..]);
    result := ReplaceLoop(result, "{{type}}", 8, v.kind);
    FirstStep(result, ts[1..][1..][1..][1..][1..]);
    result := ReplaceLoop(result, "{{threshold_count}}", 20, v.count);
    FirstStep(result, ts[1..][1..][1..][1..][1..][1..]);
    result := ReplaceLoop(result, "{{threshold_window_ms}}", 24, v.window);
    LastStep(result, ts[1..][1..][1..][1..][1..][1..][1..]);
  }

  lemma FirstStep(s: string, ts: seq<Step>)
    requires AllEnd(s, ts) && ts != []
    ensures var t := ts[0];
            && Ends(s, t.pat, t.n, t.val)
            && AllEnd(ReplaceAll(s, t.pat, t.n, t.val), ts[1..])
            && AfterAll(s, ts) == AfterAll(ReplaceAll(s, t.pat, t.n, t.val), ts[1..])
  {
  }

  lemma LastStep(s: string, ts: seq<Step>)
    requires ts == []
    ensures AllEnd(s, ts) && AfterAll(s, ts) == s
  {
  }

  /** The values are safe to insert for their own placeholders. */
  ghost predicate HarmlessSteps(ts: seq<Step>) {
    forall i :: 0 <= i < |ts| ==> IsPattern(ts[i].pat) && ts[i].n >= |ts[i].pat| && Harmless(ts[i].val, ts[i].pat, ts[i].n)
  }

  lemma {:induction false} HarmlessStepsEnd(s: string, ts: seq<Step>)
    requires HarmlessSteps(ts)
    ensures AllEnd(s, ts)
    decreases |ts|
  {
    hide Harmless, IsPattern, Ends;
    if ts != [] {
      HarmlessEnds(s, ts[0].pat, ts[0].n, ts[0].val);
      HarmlessStepsEnd(StepText(s, ts[0]), ts[1..]);
    }
  }

  /** format_message ends on every template when each value has at most one opening brace, or
      does not hold its placeholder and either does not end in the beginning of it or does not
      start in the end of it. */
  lemma HarmlessMessageEnds(template: string, v: Values)
    requires forall k :: Harmless(ValueFor(k, v), Pattern(k), |Pattern(k)|)
    requires Harmless(v.count, COUNT_PATTERN, 20) && Harmless(v.window, WINDOW_PATTERN, 24)
    ensures FormatEnds(template, v)
  {
    hide Harmless, Pattern, ValueFor, AllEnd;
    PatternShape(Source); PatternShape(Target); PatternShape(Summary); PatternShape(Category); PatternShape(Type);
    HarmlessStepsEnd(template, Steps(v));
  }

  // ------------------------------------------------------------ simultaneous substitution

  /** A template cut into literals and event placeholders. */
  datatype Piece = Literal(s: string) | Slot(k: Kind)

  function PieceText(p: Piece): string { if p.Literal? then p.s else Pattern(p.k) }

  function TemplateText(ps: seq<Piece>): string { if ps == [] then "" else PieceText(ps[0]) + TemplateText(ps[1..]) }

  /** A text in which, whatever follows it, no occurrence of the placeholder starts. */
  ghost predicate Inert(x: string, pat: string) { Done(x, pat) && !EndsInStart(x, pat) }

  ghost predicate LiteralsInert(ps: seq<Piece>, pat: string) {
    forall i :: 0 <= i < |ps| && ps[i].Literal? ==> Inert(ps[i].s, pat)
  }

  ghost predicate PiecesInert(ps: seq<Piece>, pat: string) { forall i :: 0 <= i < |ps| ==> Inert(PieceText(ps[i]), pat) }

  function Substitute1(p: Piece, v: Values): string { if p.Literal? then p.s else ValueFor(p.k, v) }

  /** Every placeholder replaced at once. */
  function Substituted(ps: seq<Piece>, v: Values): string {
    if ps == [] then "" else Substitute1(ps[0], v) + Substituted(ps[1..], v)
  }

  /** The placeholders of one kind turned into literals. */
  function Resolve(ps: seq<Piece>, k: Kind, v: Values): seq<Piece> {
    if ps == [] then []
    else [if ps[0] == Slot(k) then Literal(ValueFor(k, v)) else ps[0]] + Resolve(ps[1..], k, v)
  }

  lemma PatternBraces(pat: string)
    requires IsPattern(pat)
    ensures forall d :: 2 <= d < |pat| ==> pat[d] != '{'
  {
    assert forall d :: 2 <= d < |pat| ==> pat[2..][d - 2] == pat[d];
  }

  lemma StandsFront(x: string, pat: string)
    requires StandsAt(x, 0, pat) && |pat| > 3
    ensures x[2] == pat[2] && x[3] == pat[3]
  {
    StandsChars(x, 0, pat);
  }

  lemma OverlapChar(x: string, pat: string, d: nat, e: nat)
    requires e < d <= |pat| && d <= |x| && x[|x| - d..] == pat[..d]
    ensures x[|x| - d + e] == pat[e]
  {
    assert x[|x| - d + e] == x[|x| - d..][e] == pat[..d][e];
  }

  lemma OverlapFront(x: string, pat: string, d: nat)
    requires IsPattern(x) && IsPattern(pat) && 0 < d < |pat| && d <= |x| && x[|x| - d..] == pat[..d]
    ensures d == |x| && x[2] == pat[2] && x[3] == pat[3]
  {
    hide IsPattern;
    PatternBraces(x);
    BracesOf(x);
    BracesOf(pat);
    OverlapChar(x, pat, d, 0);
    if d < |x| {
      OverlapChar(x, pat, d, 1);
    } else {
      OverlapChar(x, pat, d, 2);
      OverlapChar(x, pat, d, 3);
    }
  }

  /** Placeholders that differ in their third or fourth character do not overlap. */
  lemma UnlikeInert(x: string, pat: string)
    requires IsPattern(x) && IsPattern(pat) && (x[2] != pat[2] || x[3] != pat[3])
    ensures Inert(x, pat)
  {
    hide IsPattern, Find, EndsInStart;
    forall i: nat | i < |x| ensures !StandsAt(x, i, pat) {
      if StandsAt(x, i, pat) {
        PairAt(x, i, pat) by { BracesOf(pat); }
        PatternBraces(x);
        StandsFront(x, pat) by { BracesOf(pat); }
      }
    }
    NotStanding(x, pat);
    if EndsInStart(x, pat) {
      var d := OverlapOf(x, pat);
      OverlapFront(x, pat, d);
    }
  }

  lemma BracesOf(pat: string)
    requires IsPattern(pat)
    ensures |pat| > 4 && pat[0] == pat[1] == '{'
  {
  }

  lemma OverlapOf(x: string, pat: string) returns (d: nat)
    requires EndsInStart(x, pat)
    ensures 0 < d < |pat| && d <= |x| && x[|x| - d..] == pat[..d]
  {
    d :| 0 < d < |pat| && d <= |x| && x[|x| - d..] == pat[..d];
  }

  lemma SlotsInert(j: Kind, k: Kind)
    ensures j != k ==> Inert(Pattern(j), Pattern(k))
    ensures Inert(Pattern(j), COUNT_PATTERN) && Inert(Pattern(j), WINDOW_PATTERN)
  {
    hide Inert, IsPattern;
    PatternShape(j);
    PatternShape(k);
    if j != k { UnlikeInert(Pattern(j), Pattern(k)); }
    UnlikeInert(Pattern(j), COUNT_PATTERN);
    UnlikeInert(Pattern(j), WINDOW_PATTERN);
  }

  /** An occurrence that starts in an inert text would be in it or run over its end. */
  lemma InertHidesNone(x: string, pat: string, rest: string, i: nat)
    requires Inert(x, pat) && i < |x| && pat != ""
    ensures !StandsAt(x + rest, i, pat)
  {
    hide Find;
    if StandsAt(x + rest, i, pat) {
      StartsOrRunsOver(x, pat, rest, i);
    }
  }

  lemma StartsOrRunsOver(x: string, pat: string, rest: string, i: nat)
    requires StandsAt(x + rest, i, pat) && i < |x| && pat != ""
    ensures !Done(x, pat) || EndsInStart(x, pat)
  {
    hide Find;
    var t := x + rest;
    if i + |pat| <= |x| {
      assert x[i..i + |pat|] == t[i..i + |pat|];
      FoundBefore(x, pat, i);
    } else {
      var d := |x| - i;
      assert x[|x| - d..] == t[i..i + |pat|][..d] == pat[..d];
    }
  }

  lemma ShiftStands(a: string, b: string, i: nat, pat: string)
    ensures StandsAt(a + b, |a| + i, pat) <==> StandsAt(b, i, pat)
  {
    if i + |pat| <= |b| {
      assert (a + b)[|a| + i..|a| + i + |pat|] == b[i..i + |pat|];
    }
  }

  /** Inert pieces hide no occurrence, whatever follows. */
  lemma {:induction false} NoOccurrence(ps: seq<Piece>, pat: string, rest: string, i: nat)
    requires PiecesInert(ps, pat) && pat != "" && i < |TemplateText(ps)|
    ensures !StandsAt(TemplateText(ps) + rest, i, pat)
  {
    hide PieceText, StandsAt, Inert;
    var x, more := PieceText(ps[0]), TemplateText(ps[1..]);
    assert TemplateText(ps) + rest == x + (more + rest);
    if i < |x| {
      InertHidesNone(x, pat, more + rest, i);
    } else {
      NoOccurrence(ps[1..], pat, rest, i - |x|);
      ShiftStands(x, more + rest, i - |x|, pat);
    }
  }

  lemma NothingOccurs(ps: seq<Piece>, pat: string, n: nat, val: string)
    requires PiecesInert(ps, pat) && pat != ""
    ensures var s := TemplateText(ps); Ends(s, pat, n, val) && ReplaceAll(s, pat, n, val) == s
  {
    hide StandsAt, PiecesInert, TemplateText, Ends, ReplaceAll;
    var s := TemplateText(ps);
    forall j: nat | j < |s| ensures !StandsAt(s, j, pat) {
      NoOccurrence(ps, pat, "", j);
      assert s + "" == s;
    }
    NotStanding(s, pat);
    NotFound(s, pat, n, val);
  }

  lemma OthersInert(ps: seq<Piece>, k: Kind)
    requires LiteralsInert(ps, Pattern(k)) && Slot(k) !in ps
    ensures PiecesInert(ps, Pattern(k))
  {
    hide Inert, Pattern;
    forall i | 0 <= i < |ps| ensures Inert(PieceText(ps[i]), Pattern(k)) {
      assert ps[i] in ps;
      if ps[i].Slot? { SlotsInert(ps[i].k, k); }
    }
  }

  lemma ThresholdInert(ps: seq<Piece>, pat: string)
    requires LiteralsInert(ps, pat) && (pat == COUNT_PATTERN || pat == WINDOW_PATTERN)
    ensures PiecesInert(ps, pat)
  {
    hide Inert, Pattern;
    forall i | 0 <= i < |ps| ensures Inert(PieceText(ps[i]), pat) {
      if ps[i].Slot? { SlotsInert(ps[i].k, ps[i].k); }
    }
  }

  lemma {:induction false} TemplateAppend(a: seq<Piece>, b: seq<Piece>)
    ensures TemplateText(a + b) == TemplateText(a) + TemplateText(b)
  {
    hide Pattern, PieceText;
    if a == [] {
      assert a + b == b;
    } else {
      TemplateAppend(a[1..], b);
      assert (a + b)[1..] == a[1..] + b;
      assert PieceText(a[0]) + (TemplateText(a[1..]) + TemplateText(b)) == TemplateText(a) + TemplateText(b);
    }
  }

  lemma {:induction false} ResolveNothing(ps: seq<Piece>, k: Kind, v: Values)
    requires Slot(k) !in ps
    ensures Resolve(ps, k, v) == ps
  {
    if ps != [] {
      assert ps[0] in ps && forall p :: p in ps[1..] ==> p in ps;
      ResolveNothing(ps[1..], k, v);
      assert [ps[0]] + ps[1..] == ps;
    }
  }

  lemma {:induction false} ResolveOne(ps: seq<Piece>, i: nat, k: Kind, v: Values)
    requires i < |ps| && ps[i] == Slot(k)
    ensures Resolve(ps[i := Literal(ValueFor(k, v))], k, v) == Resolve(ps, k, v)
  {
    var ps' := ps[i := Literal(ValueFor(k, v))];
    if i == 0 {
      assert ps'[1..] == ps[1..];
    } else {
      assert ps'[1..] == ps[1..][i - 1 := Literal(ValueFor(k, v))];
      ResolveOne(ps[1..], i - 1, k, v);
    }
  }

  function Slots(ps: seq<Piece>, k: Kind): nat {
    if ps == [] then 0 else (if ps[0] == Slot(k) then 1 else 0) + Slots(ps[1..], k)
  }

  lemma {:induction false} SlotsDrop(ps: seq<Piece>, i: nat, k: Kind, s: string)
    requires i < |ps| && ps[i] == Slot(k)
    ensures Slots(ps[i := Literal(s)], k) < Slots(ps, k)
  {
    if i == 0 {
      assert ps[i := Literal(s)][1..] == ps[1..];
    } else {
      assert ps[i := Literal(s)][1..] == ps[1..][i - 1 := Literal(s)];
      SlotsDrop(ps[1..], i - 1, k, s);
    }
  }

  lemma FirstSlot(ps: seq<Piece>, k: Kind) returns (i: nat)
    requires Slot(k) in ps
    ensures i < |ps| && ps[i] == Slot(k) && Slot(k) !in ps[..i]
  {
    i := 0;
    while ps[i] != Slot(k)
      invariant i < |ps| && Slot(k) !in ps[..i] && Slot(k) in ps[i..]
      decreases |ps| - i
    {
      assert ps[i..] == [ps[i]] + ps[i + 1..] && ps[..i + 1] == ps[..i] + [ps[i]];
      i := i + 1;
    }
  }

  /** One round fills the first slot of the kind. */
  lemma FillFirst(ps: seq<Piece>, i: nat, k: Kind, v: Values)
    requires LiteralsInert(ps, Pattern(k)) && i < |ps| && ps[i] == Slot(k) && Slot(k) !in ps[..i]
    ensures var s, pat, val := TemplateText(ps), Pattern(k), ValueFor(k, v);
            !Done(s, pat) && ReplaceAt(s, Find(s, pat), |pat|, val) == TemplateText(ps[i := Literal(val)])
  {
    hide Pattern, StandsAt, FindFrom, Find, TemplateText, PieceText, ReplaceAt, ValueFor, Inert;
    var s, pat, val := TemplateText(ps), Pattern(k), ValueFor(k, v);
    var ps' := ps[i := Literal(val)];
    var pre, post := ps[..i], ps[i + 1..];
    assert ps == pre + ([Slot(k)] + post) && ps' == pre + ([Literal(val)] + post);
    SplitText(pre, Slot(k), post);
    SplitText(pre, Literal(val), post);
    var a, b := TemplateText(pre), TemplateText(post);
    PatternShape(k);
    OthersInert(pre, k);
    forall j: nat | j < |a| ensures !StandsAt(s, j, pat) {
      NoOccurrence(pre, pat, pat + b, j);
    }
    FoundBehind(a, pat, b);
    ReplaceMiddle(a, pat, b, val);
  }

  lemma FoundBehind(a: string, pat: string, b: string)
    requires pat != "" && forall j: nat :: j < |a| ==> !StandsAt(a + (pat + b), j, pat)
    ensures Find(a + (pat + b), pat) == |a|
  {
    hide StandsAt, FindFrom, Find;
    var s := a + (pat + b);
    StandsFirst(pat, b);
    ShiftStands(a, pat + b, 0, pat);
    FoundBefore(s, pat, |a|);
    var p := Find(s, pat);
    assert StandsAt(s, p, pat);
  }

  lemma ReplaceMiddle(a: string, pat: string, b: string, val: string)
    ensures ReplaceAt(a + (pat + b), |a|, |pat|, val) == a + (val + b)
  {
    var s := a + (pat + b);
    assert s[..|a|] == a && s[|a| + |pat|..] == b;
    assert a + val + b == a + (val + b);
  }

  /** Rewriting one kind of placeholder in place ends and replaces exactly its slots. */
  ghost predicate LoopSubstitutes(ps: seq<Piece>, k: Kind, v: Values) {
    var s, t := TemplateText(ps), EventStep(k, v);
    StepEnds(s, t) && StepText(s, t) == TemplateText(Resolve(ps, k, v))
  }

  lemma {:induction false} FillResolves(ps: seq<Piece>, k: Kind, v: Values)
    requires LiteralsInert(ps, Pattern(k)) && Inert(ValueFor(k, v), Pattern(k))
    ensures LoopSubstitutes(ps, k, v)
    decreases Slots(ps, k)
  {
    hide Pattern, StandsAt, FindFrom, Find, PieceText, TemplateText, ReplaceAll, ReplaceAt, Ends, Rounds, Resolve, ValueFor, Inert;
    var s, pat, val := TemplateText(ps), Pattern(k), ValueFor(k, v);
    PatternShape(k);
    if Slot(k) !in ps {
      ResolveNothing(ps, k, v);
      OthersInert(ps, k);
      NothingOccurs(ps, pat, |pat|, val);
    } else {
      var i := FirstSlot(ps, k);
      FillFirst(ps, i, k, v);
      ReplaceOnce(s, pat, |pat|, val);
      SlotsDrop(ps, i, k, val);
      ResolveOne(ps, i, k, v);
      FillResolves(ps[i := Literal(val)], k, v);
    }
  }

  lemma ReplaceAllDone(s: string, pat: string, n: nat, val: string)
    requires Ends(s, pat, n, val)
    ensures Done(ReplaceAll(s, pat, n, val), pat)
  {
    hide Find;
  }

  /** A value that holds its placeholder: the template of one slot keeps the loop running. */
  lemma HeldBreaks(k: Kind, v: Values)
    requires !Done(ValueFor(k, v), Pattern(k))
    ensures !LoopSubstitutes([Slot(k)], k, v)
  {
    hide Pattern, ValueFor, Find, StandsAt, Ends;
    var pat := Pattern(k);
    PatternShape(k);
    OneSlotText(k, "");
    StandsFirst(pat, "");
    FoundBefore(pat + "", pat, 0);
    PlaceholderInValueNeverEnds(pat + "", pat, |pat|, ValueFor(k, v));
  }

  lemma OneSlotText(k: Kind, c: string)
    ensures TemplateText([Slot(k)]) == Pattern(k) + ""
    ensures TemplateText([Slot(k), Literal(c)]) == Pattern(k) + (c + "")
  {
    hide Pattern;
    var a, b: seq<Piece> := [Slot(k)], [Literal(c)];
    assert a[1..] == [] && b[1..] == [] && [Slot(k), Literal(c)][1..] == b;
  }

  /** A value that ends in the beginning of it: the rest behind the slot makes a new one. */
  lemma OverlapBreaks(k: Kind, v: Values, d: nat)
    requires var val, pat := ValueFor(k, v), Pattern(k); 0 < d < |pat| && d <= |val| && val[|val| - d..] == pat[..d]
    ensures var ps := [Slot(k), Literal(Pattern(k)[d..])]; LiteralsInert(ps, Pattern(k)) && !LoopSubstitutes(ps, k, v)
  {
    hide Pattern, ValueFor, Ends, ReplaceAll, TemplateText, Find, StandsAt;
    var val, pat := ValueFor(k, v), Pattern(k);
    var c := pat[d..];
    PatternShape(k);
    EndInert(pat, d);
    var ps := [Slot(k), Literal(c)];
    ResolvedText(k, v, c);
    var text := val + (c + "");
    assert StandsAt(text, |val| - d, pat) by { Completed(val, pat, d); }
    FoundBefore(text, pat, |val| - d);
    if LoopSubstitutes(ps, k, v) {
      ReplaceAllDone(TemplateText(ps), pat, |pat|, val);
    }
  }

  lemma Completed(val: string, pat: string, d: nat)
    requires 0 < d < |pat| && d <= |val| && val[|val| - d..] == pat[..d]
    ensures StandsAt(val + (pat[d..] + ""), |val| - d, pat)
  {
    var x := val[..|val| - d];
    assert val == x + pat[..d] && pat == pat[..d] + pat[d..];
    assert val + (pat[d..] + "") == x + pat;
    assert (x + pat)[|x|..|x| + |pat|] == pat;
  }

  lemma ResolvedText(k: Kind, v: Values, c: string)
    ensures TemplateText(Resolve([Slot(k), Literal(c)], k, v)) == ValueFor(k, v) + (c + "")
  {
    hide Pattern, ValueFor;
    var ps: seq<Piece> := [Slot(k), Literal(c)];
    var a, b: seq<Piece> := [Literal(c)], [Literal(ValueFor(k, v)), Literal(c)];
    assert ps[1..] == a && a[1..] == [] && b[1..] == a;
    assert Resolve(a, k, v) == a;
    assert Resolve(ps, k, v) == b;
    assert TemplateText(a) == c + "" && TemplateText(b) == ValueFor(k, v) + (c + "");
  }

  /** The end of a placeholder holds none and does not end in the beginning of one. */
  lemma EndInert(pat: string, d: nat)
    requires IsPattern(pat) && 0 < d < |pat|
    ensures Inert(pat[d..], pat)
  {
    hide Find;
    var c := pat[d..];
    forall i: nat | i < |c| ensures !StandsAt(c, i, pat) {
    }
    NotStanding(c, pat);
    PatternBraces(pat);
    forall e: nat | 0 < e < |pat| && e <= |c| ensures c[|c| - e..] != pat[..e] {
      var x := c[|c| - e..];
      assert x[0] == pat[|pat| - e] && (e > 1 ==> x[1] == pat[|pat| - e + 1]);
      assert pat[..e][0] == '{' && (e > 1 ==> pat[..e][1] == '{');
    }
  }

  /** For one kind of placeholder: the rewriting in place substitutes in every template whose
      literals are inert if and only if the value is. */
  lemma LoopSubstitutesIff(k: Kind, v: Values)
    ensures Inert(ValueFor(k, v), Pattern(k))
       <==> forall ps :: LiteralsInert(ps, Pattern(k)) ==> LoopSubstitutes(ps, k, v)
  {
    hide Pattern, ValueFor, LoopSubstitutes, Find, EndsInStart;
    var val, pat := ValueFor(k, v), Pattern(k);
    if Inert(val, pat) {
      forall ps | LiteralsInert(ps, pat) ensures LoopSubstitutes(ps, k, v) {
        FillResolves(ps, k, v);
      }
    } else if !Done(val, pat) {
      HeldBreaks(k, v);
      assert LiteralsInert([Slot(k)], pat);
    } else {
      var d := OverlapOf(val, pat);
      OverlapBreaks(k, v, d);
    }
  }

  lemma NotStanding(s: string, pat: string)
    requires forall j: nat :: j < |s| ==> !StandsAt(s, j, pat)
    ensures Done(s, pat)
  {
    hide StandsAt;
  }

  lemma StandsFirst(pat: string, b: string)
    ensures StandsAt(pat + b, 0, pat)
  {
  }

  lemma SplitText(pre: seq<Piece>, p: Piece, post: seq<Piece>)
    ensures TemplateText(pre + ([p] + post)) == TemplateText(pre) + (PieceText(p) + TemplateText(post))
    ensures p.Slot? ==> PieceText(p) == Pattern(p.k)
    ensures p.Literal? ==> PieceText(p) == p.s
  {
    hide Pattern;
    TemplateAppend(pre, [p] + post);
    assert ([p] + post)[1..] == post;
  }

  function ResolveAll(ps: seq<Piece>, v: Values): seq<Piece> {
    Resolve(Resolve(Resolve(Resolve(Resolve(ps, Source, v), Target, v), Summary, v), Category, v), Type, v)
  }

  lemma {:induction false} ResolveAllText(ps: seq<Piece>, v: Values)
    ensures TemplateText(ResolveAll(ps, v)) == Substituted(ps, v)
  {
    if ps != [] {
      ResolveAllText(ps[1..], v);
      var x := Literal(Substitute1(ps[0], v));
      assert ([x] + ResolveAll(ps[1..], v))[1..] == ResolveAll(ps[1..], v);
    }
  }

  lemma {:induction false} ResolveInert(ps: seq<Piece>, k: Kind, v: Values, pat: string)
    requires LiteralsInert(ps, pat) && Inert(ValueFor(k, v), pat)
    ensures LiteralsInert(Resolve(ps, k, v), pat)
  {
    hide Inert, ValueFor;
    if ps != [] {
      ResolveInert(ps[1..], k, v, pat);
    }
  }

  lemma NothingToReplace(s: string, pat: string, n: nat, val: string)
    requires NoBrace(s) && IsPattern(pat)
    ensures Ends(s, pat, n, val) && ReplaceAll(s, pat, n, val) == s
  {
    hide Ends, ReplaceAll;
    forall j | 0 <= j < |s| ensures !StandsAt(s, j, pat) {
      if StandsAt(s, j, pat) { StandsChars(s, j, pat); }
    }
    NotFound(s, pat, n, val);
  }

  /** One loop in front of others. */
  lemma StepsOn(s: string, t: Step, ts: seq<Step>)
    requires StepEnds(s, t) && AllEnd(StepText(s, t), ts)
    ensures AllEnd(s, [t] + ts) && AfterAll(s, [t] + ts) == AfterAll(StepText(s, t), ts)
  {
    hide StepEnds, StepText;
    assert ([t] + ts)[1..] == ts;
  }

  const KINDS: seq<Kind> := [Source, Target, Summary, Category, Type]

  /** What the seven loops look for, in their order. */
  const PATTERNS: seq<string> :=
    [Pattern(Source), Pattern(Target), Pattern(Summary), Pattern(Category), Pattern(Type), COUNT_PATTERN, WINDOW_PATTERN]

  /** The literals are inert for the loops from `i` on. */
  ghost predicate Ready(ps: seq<Piece>, i: nat) { forall j :: i <= j < |PATTERNS| ==> LiteralsInert(ps, PATTERNS[j]) }

  /** From loop `i` on, each value is inert for its own placeholder and those looked for later;
      it may hold any that are looked for before. */
  ghost predicate Tame(v: Values, i: nat) {
    forall k, j :: i <= k < |KINDS| && k <= j < |PATTERNS| ==> Inert(ValueFor(KINDS[k], v), PATTERNS[j])
  }

  function ResolveFrom(ps: seq<Piece>, i: nat, v: Values): seq<Piece>
    decreases |KINDS| - i
  {
    if i >= |KINDS| then ps else ResolveFrom(Resolve(ps, KINDS[i], v), i + 1, v)
  }

  lemma StepsAre(v: Values, i: nat)
    requires i <= |KINDS|
    ensures |PATTERNS| == |Steps(v)| == 7 && |KINDS| == 5
    ensures Steps(v)[5..] == ThresholdSteps(v)
    ensures i < |KINDS| ==> PATTERNS[i] == Pattern(KINDS[i]) && Steps(v)[i..] == [EventStep(KINDS[i], v)] + Steps(v)[i + 1..]
  {
    hide Pattern, ThresholdSteps, EventStep;
    TwoThresholds(v);
    var s := Steps(v);
    if i < |KINDS| {
      assert i == 0 || i == 1 || i == 2 || i == 3 || i == 4;
      assert s[i] == EventStep(KINDS[i], v) && PATTERNS[i] == Pattern(KINDS[i]);
      assert s[i..] == [EventStep(KINDS[i], v)] + s[i + 1..];
    }
  }

  lemma TwoThresholds(v: Values)
    ensures |ThresholdSteps(v)| == 2
  {
  }

  /** The loops from `i` on fill the slots of their kinds. */
  lemma {:induction false} StagesSubstitute(ps: seq<Piece>, i: nat, v: Values)
    requires i <= |KINDS| && Ready(ps, i) && Tame(v, i)
    ensures AllEnd(TemplateText(ps), Steps(v)[i..])
    ensures AfterAll(TemplateText(ps), Steps(v)[i..]) == TemplateText(ResolveFrom(ps, i, v))
    decreases |KINDS| - i
  {
    hide Steps, ThresholdSteps, EventStep, Pattern, Inert, LiteralsInert, Resolve, TemplateText, StepEnds, StepText, AllEnd, AfterAll,
         ValueFor;
    StepsAre(v, i);
    if i == |KINDS| {
      assert LiteralsInert(ps, PATTERNS[5]) && LiteralsInert(ps, PATTERNS[6]);
      ThresholdsRest(ps, v);
    } else {
      var k := KINDS[i];
      assert Inert(ValueFor(k, v), PATTERNS[i]) && LiteralsInert(ps, PATTERNS[i]);
      FillResolves(ps, k, v);
      var next := Resolve(ps, k, v);
      forall j | i + 1 <= j < |PATTERNS| ensures LiteralsInert(next, PATTERNS[j]) {
        assert Inert(ValueFor(k, v), PATTERNS[j]);
        ResolveInert(ps, k, v, PATTERNS[j]);
      }
      StagesSubstitute(next, i + 1, v);
      StepsOn(TemplateText(ps), EventStep(k, v), Steps(v)[i + 1..]);
    }
  }

  lemma ResolveFromStart(ps: seq<Piece>, v: Values)
    ensures ResolveFrom(ps, 0, v) == ResolveAll(ps, v)
  {
    hide Resolve;
    assert KINDS[0] == Source && KINDS[1] == Target && KINDS[2] == Summary && KINDS[3] == Category && KINDS[4] == Type;
  }

  /** For a template of event placeholders and literals that are inert for all loops, and values
      each inert from its own loop on, the rewriting in place, one kind after the other, ends and
      is the simultaneous substitution. */
  lemma FormatSubstitutes(ps: seq<Piece>, v: Values)
    requires Ready(ps, 0) && Tame(v, 0) && TemplateText(ps) != ""
    ensures FormatEnds(TemplateText(ps), v) && Formatted(TemplateText(ps), v) == Substituted(ps, v)
  {
    hide Ready, Tame, ResolveAll, ResolveFrom, TemplateText, AllEnd, AfterAll, Steps;
    StagesSubstitute(ps, 0, v);
    ResolveFromStart(ps, v);
    ResolveAllText(ps, v);
    assert Steps(v)[0..] == Steps(v);
  }

  /** No two opening braces in a row, and none at the end. */
  predicate SingleBraces(x: string) { forall i :: 0 <= i < |x| && x[i] == '{' ==> i + 1 < |x| && x[i + 1] != '{' }

  lemma SingleBracesInert(x: string, pat: string)
    requires SingleBraces(x) && IsPattern(pat)
    ensures Inert(x, pat)
  {
    hide IsPattern, Find, StandsAt, EndsInStart;
    BracesOf(pat);
    forall i: nat | i < |x| ensures !StandsAt(x, i, pat) {
      if StandsAt(x, i, pat) { PairAt(x, i, pat); }
    }
    NotStanding(x, pat);
    if EndsInStart(x, pat) {
      var d := OverlapOf(x, pat);
      OverlapPair(x, pat, d);
    }
  }

  lemma OverlapPair(x: string, pat: string, d: nat)
    requires 0 < d < |pat| && d <= |x| && x[|x| - d..] == pat[..d] && pat[0] == '{' && |pat| > 1 && pat[1] == '{'
    ensures !SingleBraces(x)
  {
    var o := |x| - d;
    assert x[o] == x[o..][0] == pat[0];
    assert d > 1 ==> x[o + 1] == x[o..][1] == pat[1];
  }

  /** In particular for literals and event values without two opening braces in a row and
      without one at the end, such as `{"a":1}`. */
  lemma SingleBracesSubstitute(ps: seq<Piece>, v: Values)
    requires forall i :: 0 <= i < |ps| && ps[i].Literal? ==> SingleBraces(ps[i].s)
    requires TemplateText(ps) != "" && forall k :: SingleBraces(ValueFor(k, v))
    ensures FormatEnds(TemplateText(ps), v) && Formatted(TemplateText(ps), v) == Substituted(ps, v)
  {
    hide SingleBraces, Inert, TemplateText, FormatEnds, ValueFor;
    forall j | 0 <= j < |PATTERNS| ensures IsPattern(PATTERNS[j]) {
      PatternShape(Source); PatternShape(Target); PatternShape(Summary); PatternShape(Category); PatternShape(Type);
    }
    hide IsPattern, PATTERNS;
    forall x, j | SingleBraces(x) && 0 <= j < |PATTERNS| ensures Inert(x, PATTERNS[j]) {
      SingleBracesInert(x, PATTERNS[j]);
    }
    FormatSubstitutes(ps, v);
  }

  /** A value that holds a placeholder looked for later is rewritten itself. */
  lemma LaterPlaceholderRewritten(v: Values)
    requires v.source == "{{target}}" && Tame(v, 1)
    ensures FormatEnds("{{source}}", v) && Formatted("{{source}}", v) == v.target
    ensures Substituted([Slot(Source)], v) == "{{target}}" != v.target
  {
    hide Inert, AllEnd, AfterAll, StepEnds, StepText, Steps, EventStep, ResolveFrom, Tame;
    var ps, next: seq<Piece> := [Slot(Source)], [Slot(Target)];
    OneSlotText(Source, "");
    OneSlotText(Target, "");
    assert Pattern(Source) + "" == "{{source}}" && Pattern(Target) + "" == "{{target}}";
    SlotsInert(Target, Source);
    assert LiteralsInert(ps, Pattern(Source));
    FillResolves(ps, Source, v);
    assert ps[1..] == [];
    assert Resolve(ps, Source, v) == [Literal("{{target}}")];
    assert [Literal("{{target}}")][1..] == [];
    assert TemplateText([Literal("{{target}}")]) == "{{target}}" + "";
    assert Ready(next, 1);
    StagesSubstitute(next, 1, v);
    StepsAre(v, 0);
    StepsOn("{{source}}", EventStep(Source, v), Steps(v)[1..]);
    assert Steps(v)[0..] == Steps(v);
    OneTargetText(v);
    OwnPlaceholder(v);
  }

  lemma OneTargetText(v: Values)
    ensures TemplateText(ResolveFrom([Slot(Target)], 1, v)) == v.target
    ensures Substituted([Slot(Source)], v) == v.source
  {
    var a, b, c: seq<Piece> := [Slot(Target)], [Literal(v.target)], [Slot(Source)];
    assert a[1..] == [] && b[1..] == [] && c[1..] == [];
    assert Resolve(a, Target, v) == b && Resolve(b, Summary, v) == b && Resolve(b, Category, v) == b && Resolve(b, Type, v) == b;
    assert KINDS[1] == Target && KINDS[2] == Summary && KINDS[3] == Category && KINDS[4] == Type;
    assert v.target + "" == v.target && v.source + "" == v.source;
  }

  lemma OwnPlaceholder(v: Values)
    requires Tame(v, 1)
    ensures v.target != "{{target}}"
  {
    hide Find;
    assert Inert(ValueFor(KINDS[1], v), PATTERNS[1]);
    StandsFirst("{{target}}", "");
    assert "{{target}}" + "" == "{{target}}";
    FoundBefore("{{target}}", "{{target}}", 0);
  }

  /** Inert pieces leave nothing for the threshold loops. */
  lemma ThresholdsRest(ps: seq<Piece>, v: Values)
    requires LiteralsInert(ps, COUNT_PATTERN) && LiteralsInert(ps, WINDOW_PATTERN)
    ensures var s := TemplateText(ps); AllEnd(s, ThresholdSteps(v)) && AfterAll(s, ThresholdSteps(v)) == s
  {
    hide ReplaceAll, Ends, LiteralsInert, PiecesInert, TemplateText;
    PatternShape(Source);
    ThresholdInert(ps, COUNT_PATTERN);
    ThresholdInert(ps, WINDOW_PATTERN);
    NothingOccurs(ps, COUNT_PATTERN, 20, v.count);
    NothingOccurs(ps, WINDOW_PATTERN, 24, v.window);
    TwoSteps(TemplateText(ps), v);
  }

  lemma TwoSteps(s: string, v: Values)
    requires Ends(s, COUNT_PATTERN, 20, v.count)
    requires Ends(ReplaceAll(s, COUNT_PATTERN, 20, v.count), WINDOW_PATTERN, 24, v.window)
    ensures AllEnd(s, ThresholdSteps(v))
    ensures AfterAll(s, ThresholdSteps(v)) == ReplaceAll(ReplaceAll(s, COUNT_PATTERN, 20, v.count), WINDOW_PATTERN, 24, v.window)
  {
    hide ReplaceAll, Ends, AllEnd, AfterAll;
    var a, b := Step(COUNT_PATTERN, 20, v.count), Step(WINDOW_PATTERN, 24, v.window);
    LastStep(ReplaceAll(StepText(s, a), b.pat, b.n, b.val), []);
    StepsOn(StepText(s, a), b, []);
    StepsOn(s, a, [b] + []);
    assert ThresholdSteps(v) == [a] + ([b] + []);
  }

  /** A threshold placeholder takes the character behind it with it. */
  lemma ThresholdEatsOne(a: string, b: string, v: Values)
    requires NoBrace(a) && NoBrace(b) && NoBrace(v.count) && NoBrace(v.window)
    ensures var s, t := a + (COUNT_PATTERN + b), a + (WINDOW_PATTERN + b);
            && AllEnd(s, ThresholdSteps(v)) && AllEnd(t, ThresholdSteps(v))
            && AfterAll(s, ThresholdSteps(v)) == a + v.count + (if b == "" then "" else b[1..])
            && AfterAll(t, ThresholdSteps(v)) == a + v.window + (if b == "" then "" else b[1..])
  {
    hide ReplaceAll, Ends, Find, FindFrom, AllEnd, AfterAll;
    PatternShape(Source);
    OneThreshold(a, COUNT_PATTERN, b, v.count);
    OneThreshold(a, WINDOW_PATTERN, b, v.window);
    var tail := if b == "" then "" else b[1..];
    NothingToReplace(a + v.count + tail, WINDOW_PATTERN, 24, v.window);
    OtherThreshold(a, b, v.count);
    TwoSteps(a + (COUNT_PATTERN + b), v);
    TwoSteps(a + (WINDOW_PATTERN + b), v);
  }

  lemma OneThreshold(a: string, pat: string, b: string, val: string)
    requires NoBrace(a) && NoBrace(b) && NoBrace(val) && IsPattern(pat)
    ensures var s := a + (pat + b);
            Ends(s, pat, |pat| + 1, val) && ReplaceAll(s, pat, |pat| + 1, val) == a + val + (if b == "" then "" else b[1..])
  {
    hide ReplaceAll, Ends;
    var s, tail := a + (pat + b), if b == "" then "" else b[1..];
    forall j | 0 <= j < |a| ensures !StandsAt(s, j, pat) {
      if StandsAt(s, j, pat) { StandsChars(s, j, pat); }
    }
    ShiftStands(a, pat + b, 0, pat);
    StandsFirst(pat, b);
    assert ReplaceAt(s, |a|, |pat| + 1, val) == a + val + tail by {
      assert s[..|a|] == a;
      if b != "" { assert s[|a| + |pat| + 1..] == b[1..]; }
    }
    NothingToReplace(a + val + tail, pat, |pat| + 1, val);
    ReplaceOnce(s, pat, |pat| + 1, val);
  }

  /** The count pattern does not occur in a text whose only braces are the window pattern's. */
  lemma OtherThreshold(a: string, b: string, val: string)
    requires NoBrace(a) && NoBrace(b)
    ensures var s := a + (WINDOW_PATTERN + b); Ends(s, COUNT_PATTERN, 20, val) && ReplaceAll(s, COUNT_PATTERN, 20, val) == s
  {
    hide ReplaceAll, Ends, Find, FindFrom, Braces;
    var s, pat := a + (WINDOW_PATTERN + b), COUNT_PATTERN;
    PatternShape(Source);
    assert s[|a| + 12] == WINDOW_PATTERN[12] == 'w' && pat[12] == 'c';
    forall j | 0 <= j < |s| ensures !StandsAt(s, j, pat) {
      if StandsAt(s, j, pat) { StandsChars(s, j, pat); }
    }
    NotFound(s, pat, 20, val);
  }

  /** Which value each placeholder stands for, and what an empty template gives. */
  lemma PlaceholdersAre(k: Kind, v: Values)
    ensures Pattern(k) == "{{source}}" ==> ValueFor(k, v) == v.source
    ensures Pattern(k) == "{{target}}" ==> ValueFor(k, v) == v.target
    ensures Pattern(k) == "{{summary}}" ==> ValueFor(k, v) == v.summary
    ensures Pattern(k) == "{{category}}" ==> ValueFor(k, v) == v.category
    ensures Pattern(k) == "{{type}}" ==> ValueFor(k, v) == v.kind
    ensures Pattern(k) in ["{{source}}", "{{target}}", "{{summary}}", "{{category}}", "{{type}}"]
    ensures FormatEnds("", v) && Formatted("", v) == "Alert triggered for event: " + v.summary
  {
    assert Pattern(k)[2] == (match k case Source => 's' case Target => 't' case Summary => 's' case Category => 'c' case Type => 't');
    assert Pattern(k)[3] == (match k case Source => 'o' case Target => 'a' case Summary => 'u' case Category => 'a' case Type => 'y');
    assert "{{source}}"[3] == 'o' && "{{summary}}"[3] == 'u' && "{{target}}"[3] == 'a' && "{{type}}"[3] == 'y';
    assert "{{source}}"[2] == 's' && "{{summary}}"[2] == 's' && "{{target}}"[2] == 't' && "{{type}}"[2] == 't' && "{{category}}"[2] == 'c';
  }
}
