/** What the event store keeps over whole runs: its history, its counters, the sizes of its
    files, and what queries see. */
module StorageHistory {
  import opened Collections
  import opened Events
  import opened FileStorage
  import opened StorageCodec
  import opened Strings

  datatype Op = Insert(e: Event) | Prune(max: int)

  function Apply(s: Store, op: Op): (r: Store)
    requires Valid(s)
    ensures Valid(r) && r.maxBytes == s.maxBytes && r.maxFiles == s.maxFiles && (s.open ==> r.open)
  {
    match op
    case Insert(e) => Inserted(s, SerializedEvent(e))
    case Prune(max) => Pruned(s, max)
  }

  function Run(s: Store, ops: seq<Op>): (r: Store)
    requires Valid(s)
    ensures Valid(r) && r.maxBytes == s.maxBytes && r.maxFiles == s.maxFiles && (s.open ==> r.open)
  {
    if ops == [] then s else Apply(Run(s, ops[..|ops| - 1]), ops[|ops| - 1])
  }

  /** The records the inserts of a run write, in order. */
  function Log(ops: seq<Op>): seq<string> {
    if ops == [] then []
    else
      var last := ops[|ops| - 1];
      Log(ops[..|ops| - 1]) + (if last.Insert? then [SerializedEvent(last.e)] else [])
  }

  predicate OnlyInserts(ops: seq<Op>) { forall i :: 0 <= i < |ops| ==> ops[i].Insert? }

  predicate OneLine(e: Event) {
    Without(e.source, '\n') && Without(e.target, '\n') && Without(e.host, '\n') && Without(e.platform, '\n')
  }

  predicate OneLiners(ops: seq<Op>) { forall i :: 0 <= i < |ops| && ops[i].Insert? ==> OneLine(ops[i].e) }

  // ------------------------------------------------------------ the bytes on disk

  function TextOf(files: Files, j: int): string { if j in files then files[j] else "" }

  /** The backups from `n` down to 1 and then the active file. */
  function Chain(files: Files, n: nat): string {
    if n == 0 then TextOf(files, 0) else TextOf(files, n) + Chain(files, n - 1)
  }

  predicate Suffix<T(==)>(a: seq<T>, b: seq<T>) { |a| <= |b| && a == b[|b| - |a|..] }

  lemma SuffixChain<T>(a: seq<T>, b: seq<T>, c: seq<T>, x: seq<T>)
    requires Suffix(a, b + x) && Suffix(b, c)
    ensures Suffix(a, c + x)
  {
    assert c + x == c[..|c| - |b|] + (b + x);
  }

  lemma {:induction false} ChainAppend(files: Files, n: nat, x: string)
    requires 0 in files
    ensures Chain(files[0 := files[0] + x], n) == Chain(files, n) + x
  {
    if n > 0 {
      ChainAppend(files, n - 1, x);
      assert TextOf(files, n) + (Chain(files, n - 1) + x) == (TextOf(files, n) + Chain(files, n - 1)) + x;
    }
  }

  /** After a rotation the chain has lost the oldest backup and nothing else. */
  lemma RotatedText(files: Files, n: nat, k: nat)
    requires 0 < k <= n
    ensures TextOf(Rotated(files, n), 0) == "" && TextOf(Rotated(files, n), k) == TextOf(files, k - 1)
  {
    hide Rotated;
    RotatedSlots(files, n, k);
    RotatedSlots(files, n, 0);
    assert Slot(Rotated(files, n), k) == Slot(files, k - 1);
    assert Slot(Rotated(files, n), 0) == Some("");
  }

  lemma {:induction false} ChainRotated(files: Files, n: nat, k: nat)
    requires 0 < k <= n
    ensures Chain(Rotated(files, n), k) == Chain(files, k - 1)
  {
    hide Rotated, TextOf;
    RotatedText(files, n, k);
    if k == 1 {
      assert TextOf(files, 0) + "" == TextOf(files, 0);
    } else {
      ChainRotated(files, n, k - 1);
    }
  }

  lemma InsertedChain(s: Store, line: string)
    requires Valid(s) && s.open
    ensures Suffix(Chain(Inserted(s, line).files, s.maxFiles), Chain(s.files, s.maxFiles) + (line + "\n"))
  {
    hide Rotated, Chain;
    var n := s.maxFiles;
    var mid := s.files[0 := s.files[0] + (line + "\n")];
    ChainAppend(s.files, n, line + "\n");
    if n > 0 {
      ChainRotated(mid, n, n);
      ChainTop(mid, n);
    }
  }

  lemma ChainTop(files: Files, n: nat)
    requires n > 0
    ensures Suffix(Chain(files, n - 1), Chain(files, n))
  {
  }

  /** In every run of inserts the files, oldest backup first, hold a contiguous tail of what
      was on disk followed by everything inserted: nothing reordered, duplicated or lost from
      the middle. No assumption on the events. */
  lemma {:induction false} HistoryIsSuffix(s: Store, ops: seq<Op>)
    requires Valid(s) && s.open && OnlyInserts(ops)
    ensures Suffix(Chain(Run(s, ops).files, s.maxFiles), Chain(s.files, s.maxFiles) + WithEnds(Log(ops)))
  {
    hide Chain, Inserted, SerializedEvent;
    if ops == [] {
      assert Chain(s.files, s.maxFiles) + "" == Chain(s.files, s.maxFiles);
    } else {
      var front, e := ops[..|ops| - 1], ops[|ops| - 1].e;
      HistoryIsSuffix(s, front);
      var before, line := Run(s, front), SerializedEvent(e);
      InsertedChain(before, line);
      WithEndsAppend(Log(front), [line]);
      OneWithEnd(line, "");
      var base := Chain(s.files, s.maxFiles);
      SuffixChain(Chain(Run(s, ops).files, s.maxFiles), Chain(before.files, s.maxFiles), base + WithEnds(Log(front)), line + "\n");
      assert base + WithEnds(Log(front)) + (line + "\n") == base + WithEnds(Log(ops));
    }
  }

  // ------------------------------------------------------------ the records on disk

  /** The records of the backups from `n` down to 1. */
  function Backups(files: Files, n: nat): seq<string> {
    if n == 0 then [] else Records(TextOf(files, n)) + Backups(files, n - 1)
  }

  /** All records kept, oldest first. */
  function Kept(s: Store): seq<string> { Backups(s.files, s.maxFiles) + Records(TextOf(s.files, 0)) }

  /** An opened store whose active file ends at a line end. */
  predicate Settled(s: Store) { s.open && 0 in s.files && EndsLine(s.files[0]) }

  /** ... and whose cached counters agree with that file. */
  predicate Consistent(s: Store) { Settled(s) && s.bytes == |s.files[0]| && s.count == |Records(s.files[0])| }

  lemma SerializedShape(e: Event)
    ensures var line := SerializedEvent(e); line != "" && line[0] != '\n' && line[|line| - 1] != '\n'
    ensures Without(SerializedEvent(e), '\n') <==> OneLine(e)
  {
    hide Decimal, CategoryName, TypeName, AttrLine, Blanked;
    RecordIsOneLine(e);
    FirstTokensFree(e, '\n');
    BlankedSame(e.summary);
    JoinedEnds(Tokens(e));
  }

  /** A joined text starts with its first token and ends with its last one or a tab. */
  lemma {:induction false} JoinedEnds(tokens: seq<string>)
    requires tokens != []
    ensures var t := JoinWith("\t", tokens);
            && (tokens[0] != "" ==> t != "" && t[0] == tokens[0][0])
            && (t != "" ==> t[|t| - 1] == '\t' || (tokens[|tokens| - 1] != "" && t[|t| - 1] == tokens[|tokens| - 1][|tokens[|tokens| - 1]| - 1]))
  {
    if |tokens| > 1 {
      JoinedEnds(tokens[1..]);
      assert tokens[1..][|tokens| - 2] == tokens[|tokens| - 1];
    }
  }

  /** Whatever is written after a line end adds its own records. */
  lemma RecordsAppend(text: string, more: string)
    requires EndsLine(text)
    ensures Records(text + more) == Records(text) + Records(more)
    ensures EndsLine(more) ==> EndsLine(text + more)
  {
    hide Lines, NonEmpty;
    LinesAppend(text, more);
    NonEmptyAppend(Lines(text), Lines(more));
    if more == "" { assert text + more == text; }
  }

  lemma LineRecord(line: string)
    requires line != "" && Without(line, '\n')
    ensures Records(line + "\n") == [line]
  {
    hide Lines, NonEmpty;
    LineOf(line);
    OneRecord(line);
  }

  lemma OneRecord(line: string)
    requires line != ""
    ensures NonEmpty([line]) == [line]
  {
    assert [line][1..] == [];
  }

  lemma NoRecordsInNothing()
    ensures Records("") == [] && EndsLine("")
  {
  }

  lemma {:induction false} BackupsRotated(files: Files, n: nat, k: nat)
    requires 0 < k <= n
    ensures Backups(Rotated(files, n), k) == Backups(files, k - 1) + Records(TextOf(files, 0))
  {
    hide Rotated, Records;
    RotatedSlots(files, n, k);
    assert TextOf(Rotated(files, n), k) == TextOf(files, k - 1) by {
      assert Slot(Rotated(files, n), k) == Slot(files, k - 1);
    }
    if k == 1 {
      assert Records(TextOf(files, 0)) + [] == [] + Records(TextOf(files, 0));
    } else {
      BackupsRotated(files, n, k - 1);
      var top := Records(TextOf(files, k - 1));
      assert top + (Backups(files, k - 2) + Records(TextOf(files, 0))) == (top + Backups(files, k - 2)) + Records(TextOf(files, 0));
    }
  }

  lemma {:induction false} BackupsIgnoreActive(files: Files, n: nat, text: string)
    ensures Backups(files[0 := text], n) == Backups(files, n)
  {
    if n > 0 {
      BackupsIgnoreActive(files, n - 1, text);
    }
  }

  /** One insert, whatever its record looks like: the record is the last one kept, as one
      record for each of its non-empty lines, and only oldest records may go. */
  lemma InsertKeeps(s: Store, line: string)
    requires Settled(s)
    ensures Settled(Inserted(s, line))
    ensures Suffix(Kept(Inserted(s, line)), Kept(s) + Records(line + "\n"))
  {
    hide Rotated, Records, EndsLine;
    var n, text, more := s.maxFiles, s.files[0] + (line + "\n"), Records(line + "\n");
    var mid := s.files[0 := text];
    RecordsAppend(s.files[0], line + "\n");
    assert EndsLine(line + "\n") by { LineEnds(line); }
    BackupsIgnoreActive(s.files, n, text);
    if Rotates(s) && s.bytes + |line| + 1 >= s.maxBytes {
      BackupsRotated(mid, n, n);
      RotatedSlots(mid, n, 0);
      assert Slot(Rotated(mid, n), 0) == Some("");
      NoRecordsInNothing();
      BackupsIgnoreActive(s.files, n - 1, text);
      RotatedKept(Records(TextOf(s.files, n)), Backups(s.files, n - 1), Records(s.files[0]), more);
      assert Kept(Inserted(s, line)) == Backups(s.files, n - 1) + Records(text) + [] == Backups(s.files, n - 1) + Records(text);
    } else {
      assert Backups(s.files, n) + (Records(s.files[0]) + more) == (Backups(s.files, n) + Records(s.files[0])) + more;
    }
  }

  lemma LineEnds(line: string)
    ensures EndsLine(line + "\n")
  {
  }

  lemma RotatedKept(top: seq<string>, backups: seq<string>, active: seq<string>, more: seq<string>)
    ensures Suffix(backups + (active + more), ((top + backups) + active) + more)
  {
    assert ((top + backups) + active) + more == top + (backups + (active + more));
  }

  lemma {:induction false} WithEndsEndsLine(lines: seq<string>)
    ensures EndsLine(WithEnds(lines))
  {
    if lines != [] {
      WithEndsEndsLine(lines[1..]);
    }
  }

  /** The records of a log grow by those of each line. */
  lemma LogRecords(log: seq<string>, line: string)
    ensures Records(WithEnds(log + [line])) == Records(WithEnds(log)) + Records(line + "\n")
  {
    hide Records, EndsLine, WithEnds;
    WithEndsAppend(log, [line]);
    OneWithEnd(line, "");
    WithEndsEndsLine(log);
    RecordsAppend(WithEnds(log), line + "\n");
  }

  /** In every run of inserts the records kept are a contiguous tail of those at the start
      followed by all records of all inserts. */
  lemma {:induction false} RecordsRun(s: Store, ops: seq<Op>)
    requires Settled(s) && OnlyInserts(ops)
    ensures Settled(Run(s, ops))
    ensures Suffix(Kept(Run(s, ops)), Kept(s) + Records(WithEnds(Log(ops))))
  {
    hide Inserted, SerializedEvent, Kept, Records, EndsLine;
    if ops == [] {
      NoRecordsInNothing();
      assert Kept(s) + [] == Kept(s);
    } else {
      var front, line := ops[..|ops| - 1], SerializedEvent(ops[|ops| - 1].e);
      RecordsRun(s, front);
      InsertKeeps(Run(s, front), line);
      var before, more := Records(WithEnds(Log(front))), Records(line + "\n");
      SuffixChain(Kept(Run(s, ops)), Kept(Run(s, front)), Kept(s) + before, more);
      LogRecords(Log(front), line);
      assert Kept(s) + before + more == Kept(s) + (before + more);
    }
  }

  // ------------------------------------------------------------ with pruning

  predicate Subsequence(a: seq<string>, b: seq<string>) {
    a == [] || (b != [] && ((a[0] == b[0] && Subsequence(a[1..], b[1..])) || Subsequence(a, b[1..])))
  }

  lemma {:induction false} SubsequenceSkip(a: seq<string>, pre: seq<string>, b: seq<string>)
    requires Subsequence(a, b)
    ensures Subsequence(a, pre + b)
  {
    if pre == [] {
      assert pre + b == b;
    } else {
      SubsequenceSkip(a, pre[1..], b);
      assert (pre + b)[1..] == pre[1..] + b;
    }
  }

  lemma {:induction false} SubsequenceOfItself(a: seq<string>)
    ensures Subsequence(a, a)
  {
    if a != [] {
      SubsequenceOfItself(a[1..]);
    }
  }

  lemma SuffixIsSubsequence(a: seq<string>, b: seq<string>)
    requires Suffix(a, b)
    ensures Subsequence(a, b)
  {
    SubsequenceOfItself(a);
    SubsequenceSkip(a, b[..|b| - |a|], a);
    assert b == b[..|b| - |a|] + a;
  }

  lemma {:induction false} SubsequenceAppend(a: seq<string>, b: seq<string>, c: seq<string>, d: seq<string>)
    requires Subsequence(a, b) && Subsequence(c, d)
    ensures Subsequence(a + c, b + d)
    decreases |b|
  {
    if a == [] {
      assert a + c == c;
      SubsequenceSkip(c, b, d);
    } else {
      assert (b + d)[1..] == b[1..] + d && (a + c)[1..] == a[1..] + c;
      if a[0] == b[0] && Subsequence(a[1..], b[1..]) {
        SubsequenceAppend(a[1..], b[1..], c, d);
      } else {
        SubsequenceAppend(a, b[1..], c, d);
      }
    }
  }

  lemma {:induction false} SubsequenceTransitive(a: seq<string>, b: seq<string>, c: seq<string>)
    requires Subsequence(a, b) && Subsequence(b, c)
    ensures Subsequence(a, c)
    decreases |c|
  {
    if a != [] {
      if b[0] == c[0] && Subsequence(b[1..], c[1..]) {
        if a[0] == b[0] && Subsequence(a[1..], b[1..]) {
          SubsequenceTransitive(a[1..], b[1..], c[1..]);
        } else {
          SubsequenceTransitive(a, b[1..], c[1..]);
        }
      } else {
        SubsequenceTransitive(a, b, c[1..]);
      }
    }
  }

  predicate Clean(lines: seq<string>) { forall i :: 0 <= i < |lines| ==> lines[i] != "" && Without(lines[i], '\n') }

  lemma {:induction false} RecordsOfWithEnds(lines: seq<string>)
    requires Clean(lines)
    ensures Records(WithEnds(lines)) == lines
  {
    hide Records;
    if lines == [] {
      NoRecordsInNothing();
    } else {
      var n := |lines| - 1;
      RecordsOfWithEnds(lines[..n]);
      assert lines == lines[..n] + [lines[n]];
      LogRecords(lines[..n], lines[n]);
      LineRecord(lines[n]);
    }
  }

  lemma {:induction false} NonEmptyClean(lines: seq<string>)
    requires forall i :: 0 <= i < |lines| ==> Without(lines[i], '\n')
    ensures Clean(NonEmpty(lines))
  {
    if lines != [] {
      NonEmptyClean(lines[1..]);
    }
  }

  lemma RecordsClean(text: string)
    ensures Clean(Records(text))
  {
    LinesPieces(text);
    NonEmptyClean(Lines(text));
  }

  /** How many records a prune skips: as many as the counter is over the bound, if there are. */
  function Skipped(s: Store, max: int): int
    requires 0 in s.files
  {
    if s.count <= max then 0 else Min(s.count - max, |Records(s.files[0])|)
  }

  /** A prune that acts skips as many records as the counter is over the bound, the oldest
      ones, and keeps the rest of the active file and the backups; with the counter right and a bound that is not
      negative, the last `max` records are left. */
  lemma PruneKeeps(s: Store, max: int)
    requires s.open && 0 in s.files
    ensures var r, all := Pruned(s, max), Records(s.files[0]);
            && 0 in r.files && r.open
            && Suffix(Records(r.files[0]), all)
            && |Records(r.files[0])| == |all| - Skipped(s, max)
            && (s.count > max || EndsLine(s.files[0]) ==> EndsLine(r.files[0]))
            && (s.count == |all| && 0 <= max ==> |Records(r.files[0])| == Min(s.count, max))
            && Backups(r.files, s.maxFiles) == Backups(s.files, s.maxFiles)
    ensures Subsequence(Kept(Pruned(s, max)), Kept(s))
  {
    hide Records, EndsLine, WithEnds, Subsequence;
    var all := Records(s.files[0]);
    RecordsClean(s.files[0]);
    if s.count > max {
      var kept := Drop(all, s.count - max);
      RecordsOfWithEnds(kept);
      WithEndsEndsLine(kept);
      BackupsIgnoreActive(s.files, s.maxFiles, WithEnds(kept));
    }
    var backups, now := Backups(s.files, s.maxFiles), Records(Pruned(s, max).files[0]);
    SuffixIsSubsequence(now, all);
    SubsequenceOfItself(backups);
    SubsequenceAppend(backups, backups, now, all);
  }

  lemma InsertStep(s: Store, line: string, goal: seq<string>)
    requires Settled(s) && Subsequence(Kept(s), goal)
    ensures Settled(Inserted(s, line)) && Subsequence(Kept(Inserted(s, line)), goal + Records(line + "\n"))
  {
    hide Inserted, Kept, Records, EndsLine, Subsequence;
    var more, after := Records(line + "\n"), Kept(Inserted(s, line));
    InsertKeeps(s, line);
    SuffixIsSubsequence(after, Kept(s) + more);
    SubsequenceOfItself(more);
    SubsequenceAppend(Kept(s), goal, more, more);
    SubsequenceTransitive(after, Kept(s) + more, goal + more);
  }

  lemma PruneStep(s: Store, max: int, goal: seq<string>)
    requires Settled(s) && Subsequence(Kept(s), goal)
    ensures Settled(Pruned(s, max)) && Subsequence(Kept(Pruned(s, max)), goal)
  {
    hide Pruned, Kept, Records, EndsLine, Subsequence;
    PruneKeeps(s, max);
    SubsequenceTransitive(Kept(Pruned(s, max)), Kept(s), goal);
  }

  lemma LogGrows(kept: seq<string>, ops: seq<Op>)
    requires ops != []
    ensures var front, op := ops[..|ops| - 1], ops[|ops| - 1];
            kept + Records(WithEnds(Log(ops)))
            == kept + Records(WithEnds(Log(front))) + (if op.Insert? then Records(SerializedEvent(op.e) + "\n") else [])
  {
    hide SerializedEvent, Records, WithEnds;
    var front, op := ops[..|ops| - 1], ops[|ops| - 1];
    if op.Insert? {
      LogRecords(Log(front), SerializedEvent(op.e));
    } else {
      assert Log(front) + [] == Log(front);
    }
  }

  /** In every run of inserts and prunes, with or without rotation, whatever the events hold
      and whatever the bounds are, the records kept are an in-order subsequence of those at the
      start followed by all records of all inserts. */
  lemma {:induction false} KeptIsSubsequence(s: Store, ops: seq<Op>)
    requires Settled(s)
    ensures Settled(Run(s, ops))
    ensures Subsequence(Kept(Run(s, ops)), Kept(s) + Records(WithEnds(Log(ops))))
  {
    hide Inserted, Pruned, SerializedEvent, Kept, Records, Settled, Subsequence, WithEnds, Log;
    if ops == [] {
      NothingLogged();
      SubsequenceOfItself(Kept(s));
      assert Kept(s) + [] == Kept(s);
    } else {
      var front, op := ops[..|ops| - 1], ops[|ops| - 1];
      KeptIsSubsequence(s, front);
      SettledValid(s);
      LogGrows(Kept(s), ops);
      var goal := Kept(s) + Records(WithEnds(Log(front)));
      match op {
        case Insert(e) => InsertStep(Run(s, front), SerializedEvent(e), goal);
        case Prune(max) =>
          PruneStep(Run(s, front), max, goal);
          assert goal + [] == goal;
      }
    }
  }

  lemma SettledValid(s: Store)
    requires Settled(s)
    ensures Valid(s)
  {
  }

  lemma NothingLogged()
    ensures Records(WithEnds(Log([]))) == []
  {
    NoRecordsInNothing();
    NoRecords();
  }

  lemma {:induction false} SplitLonger(text: string, line: string, c: char)
    requires Without(line, c)
    ensures var p := Split(text, c); Split(text + line, c) == p[..|p| - 1] + [p[|p| - 1] + line]
    decreases |line|
  {
    hide Split;
    var p, n := Split(text, c), |line| - 1;
    if line == "" {
      assert text + line == text && p[|p| - 1] + line == p[|p| - 1];
      assert p == p[..|p| - 1] + [p[|p| - 1]];
    } else {
      SplitLonger(text, line[..n], c);
      SplitLastChar(text + line[..n], c, line[n]);
      assert text + line == (text + line[..n]) + [line[n]];
      assert p[|p| - 1] + line == (p[|p| - 1] + line[..n]) + [line[n]];
    }
  }

  /** Behind an unfinished last line a record runs into it. */
  lemma RunsInto(text: string, line: string)
    requires !EndsLine(text) && line != "" && Without(line, '\n')
    ensures var before, after := Records(text), Records(text + (line + "\n"));
            |after| == |before| > 0 && |after[|after| - 1]| > |line| && |after[|after| - 1]| > |before[|before| - 1]|
  {
    hide Split, NonEmpty;
    var p, n := Split(text, '\n'), |Split(text, '\n')| - 1;
    SplitLast(text, '\n');
    SplitLonger(text, line, '\n');
    SplitAt(text + line, '\n', "");
    SplitNothing('\n');
    assert (text + line) + ['\n'] + "" == text + (line + "\n");
    assert Lines(text + (line + "\n")) == p[..n] + [p[n] + line];
    assert Lines(text) == p[..n] + [p[n]];
    NonEmptyAppend(p[..n], [p[n]]);
    NonEmptyAppend(p[..n], [p[n] + line]);
    OneRecord(p[n]);
    OneRecord(p[n] + line);
  }

  lemma {:induction false} ShortSubsequence(a: seq<string>, b: seq<string>)
    requires Subsequence(a, b)
    ensures |a| <= |b|
    ensures a != [] && |b| == |a| + 1 ==> a[|a| - 1] == b[|b| - 1] || a[|a| - 1] == b[|b| - 2]
    ensures a != [] && |b| == |a| ==> a[|a| - 1] == b[|b| - 1]
    decreases |b|
  {
    if a != [] {
      if a[0] == b[0] && Subsequence(a[1..], b[1..]) {
        ShortSubsequence(a[1..], b[1..]);
      } else {
        ShortSubsequence(a, b[1..]);
      }
    }
  }

  /** That the file ends at a line end is needed: else the very first insert, unless it rotates,
      leaves a record that is neither an old nor an inserted one. */
  lemma KeptNeedsLineEnd(s: Store, line: string)
    requires s.open && 0 in s.files && !EndsLine(s.files[0]) && line != "" && Without(line, '\n')
    requires !(Rotates(s) && s.bytes + |line| + 1 >= s.maxBytes)
    ensures !Subsequence(Kept(Inserted(s, line)), Kept(s) + Records(line + "\n"))
  {
    hide Records, EndsLine, Rotated, Subsequence;
    var kept, now := Kept(s), Kept(Inserted(s, line));
    RunsInto(s.files[0], line);
    LineRecord(line);
    BackupsIgnoreActive(s.files, s.maxFiles, s.files[0] + (line + "\n"));
    if Subsequence(now, kept + [line]) {
      ShortSubsequence(now, kept + [line]);
    }
  }

  // ------------------------------------------------------------ when the counters are right

  predicate BytesRight(s: Store) { s.open && 0 in s.files && s.bytes == |s.files[0]| }

  lemma StepBytes(s: Store, op: Op)
    requires BytesRight(s)
    ensures BytesRight(Apply(s, op))
  {
    hide Rotated, SerializedEvent, WithEnds, Records;
    if op.Insert? {
      var text := s.files[0] + (SerializedEvent(op.e) + "\n");
      RotatedSlots(s.files[0 := text], s.maxFiles, 0);
      assert Slot(Rotated(s.files[0 := text], s.maxFiles), 0) == Some("");
    }
  }

  /** In every run the byte counter is the length of the active file. */
  lemma {:induction false} BytesAlwaysRight(s: Store, ops: seq<Op>)
    requires BytesRight(s)
    ensures BytesRight(Run(s, ops))
  {
    hide Apply;
    if ops != [] {
      BytesAlwaysRight(s, ops[..|ops| - 1]);
      StepBytes(Run(s, ops[..|ops| - 1]), ops[|ops| - 1]);
    }
  }

  predicate SanePrunes(ops: seq<Op>) { forall i :: 0 <= i < |ops| && ops[i].Prune? ==> 0 <= ops[i].max }

  /** In every run of one-line inserts and prunes with bounds that are not negative the event
      counter is the number of records in the active file. */
  lemma {:induction false} CountersAgree(s: Store, ops: seq<Op>)
    requires Consistent(s) && OneLiners(ops) && SanePrunes(ops)
    ensures Consistent(Run(s, ops))
  {
    hide Inserted, Pruned, SerializedEvent, Kept, Records, EndsLine, OneLine;
    KeptIsSubsequence(s, ops);
    BytesAlwaysRight(s, ops);
    if ops != [] {
      var front, op := ops[..|ops| - 1], ops[|ops| - 1];
      CountersAgree(s, front);
      match op {
        case Insert(e) => CounterExactlyWhenOneLine(Run(s, front), e);
        case Prune(max) => CounterAfterPrune(Run(s, front), max);
      }
    }
  }

  /** Opening reads the counters off the file, so all this holds of every run after opening:
      the byte counter on any file, the rest when the file found ends at a line end. */
  lemma AfterOpening(s: Store, ops: seq<Op>)
    ensures var o := Opened(s); var r := Run(o, ops);
            && BytesRight(r)
            && (EndsLine(o.files[0]) ==> Subsequence(Kept(r), Kept(o) + Records(WithEnds(Log(ops)))))
            && (EndsLine(o.files[0]) && OneLiners(ops) && SanePrunes(ops) ==> r.count == |Records(r.files[0])|)
  {
    hide Run, Subsequence, Kept, Records, WithEnds, Log, EndsLine, OneLiners, SanePrunes;
    var o := Opened(s);
    BytesAlwaysRight(o, ops);
    if EndsLine(o.files[0]) {
      KeptIsSubsequence(o, ops);
      if OneLiners(ops) && SanePrunes(ops) { CountersAgree(o, ops); }
    }
  }

  lemma NonEmptyEnds(lines: seq<string>)
    requires lines != [] && lines[0] != "" && lines[|lines| - 1] != ""
    ensures |NonEmpty(lines)| >= 1 && (|lines| > 1 ==> |NonEmpty(lines)| >= 2)
  {
    if |lines| > 1 {
      LastCounts(lines[1..]);
    }
  }

  lemma {:induction false} LastCounts(lines: seq<string>)
    requires lines != [] && lines[|lines| - 1] != ""
    ensures |NonEmpty(lines)| >= 1
  {
    if |lines| > 1 {
      LastCounts(lines[1..]);
    }
  }

  lemma {:induction false} SplitIsOne(s: string, c: char)
    ensures |Split(s, c)| == 1 <==> Without(s, c)
    ensures s != "" && s[0] != c ==> Split(s, c)[0] != ""
  {
    if s != "" {
      SplitIsOne(s[1..], c);
      assert Without(s, c) <==> s[0] != c && Without(s[1..], c);
    }
  }

  lemma RecordsOfOne(line: string)
    requires line != "" && line[0] != '\n' && line[|line| - 1] != '\n'
    ensures |Records(line + "\n")| == 1 <==> Without(line, '\n')
  {
    hide NonEmpty;
    SplitAt(line, '\n', "");
    SplitNothing('\n');
    assert line + ['\n'] + "" == line + "\n";
    var p := Split(line, '\n');
    assert (p + [""])[..|p|] == p;
    SplitIsOne(line, '\n');
    SplitLast(line, '\n');
    NonEmptyEnds(p);
    if |p| == 1 { OneRecord(p[0]); assert p == [p[0]]; }
  }

  /** One insert keeps the event counter equal to the number of records exactly when it
      rotates (which clears both) or the record is a single line: no line end in source,
      target, host or platform. */
  lemma CounterExactlyWhenOneLine(s: Store, e: Event)
    requires Consistent(s)
    ensures var r := Inserted(s, SerializedEvent(e));
            r.count == |Records(r.files[0])| <==>
              OneLine(e) || (Rotates(s) && s.bytes + |SerializedEvent(e)| + 1 >= s.maxBytes)
  {
    hide Lines, NonEmpty, SerializedEvent, Rotated;
    var line := SerializedEvent(e);
    SerializedShape(e);
    LinesAppend(s.files[0], line + "\n");
    NonEmptyAppend(Lines(s.files[0]), Lines(line + "\n"));
    RecordsOfOne(line);
    if Rotates(s) && s.bytes + |line| + 1 >= s.maxBytes {
      RotatedSlots(s.files[0 := s.files[0] + (line + "\n")], s.maxFiles, 0);
      assert Slot(Rotated(s.files[0 := s.files[0] + (line + "\n")], s.maxFiles), 0) == Some("");
      NoRecordsInNothing();
    }
  }

  /** A negative prune bound leaves a negative counter; any other bound keeps it right. */
  lemma CounterAfterPrune(s: Store, max: int)
    requires Consistent(s)
    ensures var r := Pruned(s, max); r.count == |Records(r.files[0])| <==> max >= 0
  {
    hide Records, EndsLine, Subsequence;
    PruneKeeps(s, max);
  }

  // ------------------------------------------------------------ file sizes

  /** Every file kept as a backup since the start reached the limit and passed it by less
      than one line. */
  predicate SizesFit(s: Store, start: Files, line: nat) {
    forall j :: 1 <= j <= s.maxFiles && j in s.files ==>
      s.maxBytes <= |s.files[j]| < s.maxBytes + line || exists i :: i in start && 1 <= i <= j && s.files[j] == start[i]
  }

  lemma InsertSizes(s: Store, text: string, start: Files, line: nat)
    requires s.open && 0 in s.files && s.bytes == |s.files[0]| < s.maxBytes && Rotates(s)
    requires SizesFit(s, start, line) && |text| + 1 <= line
    ensures var r := Inserted(s, text); r.open && 0 in r.files && r.bytes == |r.files[0]| < r.maxBytes && SizesFit(r, start, line)
  {
    hide Rotated;
    var n, whole := s.maxFiles, s.files[0] + (text + "\n");
    var mid := s.files[0 := whole];
    var r := Inserted(s, text);
    if s.bytes + |text| + 1 >= s.maxBytes {
      RotatedSlots(mid, n, 0);
      assert Slot(r.files, 0) == Some("");
      forall j | 1 <= j <= n && j in r.files
        ensures s.maxBytes <= |r.files[j]| < s.maxBytes + line || exists i :: i in start && 1 <= i <= j && r.files[j] == start[i]
      {
        RotatedSlots(mid, n, j);
        assert Slot(r.files, j) == Slot(mid, j - 1);
        if j > 1 && !(s.maxBytes <= |s.files[j - 1]| < s.maxBytes + line) {
          var i :| i in start && 1 <= i <= j - 1 && s.files[j - 1] == start[i];
        }
      }
    }
  }

  lemma {:induction false} NonEmptyShorter(lines: seq<string>)
    ensures |WithEnds(NonEmpty(lines))| <= |WithEnds(lines)|
  {
    if lines != [] {
      NonEmptyShorter(lines[1..]);
      WithEndsAppend(if lines[0] == "" then [] else [lines[0]], NonEmpty(lines[1..]));
    }
  }

  lemma {:induction false} SplitLength(text: string)
    ensures |WithEnds(Split(text, '\n'))| == |text| + 1
  {
    if text != "" {
      SplitLength(text[1..]);
      var rest := Split(text[1..], '\n');
      assert ([""] + rest)[1..] == rest && ([[text[0]] + rest[0]] + rest[1..])[1..] == rest[1..];
    }
  }

  /** A prune that acts never makes the file longer, even if it has to end its last line. */
  lemma PruneShrinks(text: string, skip: int)
    requires skip >= 1
    ensures |WithEnds(Drop(Records(text), skip))| <= |text|
  {
    hide WithEnds, Split, NonEmpty;
    var all := Records(text);
    RecordsClean(text);
    NonEmptyShorter(Lines(text));
    SplitLength(text);
    LinesShorter(Split(text, '\n'));
    if skip < |all| {
      assert all == all[..skip] + all[skip..];
      WithEndsAppend(all[..skip], all[skip..]);
      assert all[..skip] == [all[0]] + all[1..skip];
      WithEndsAppend([all[0]], all[1..skip]);
      OneWithEnd(all[0], "");
    } else {
      NoRecords();
    }
  }

  lemma LinesShorter(p: seq<string>)
    requires p != []
    ensures |WithEnds(p[..|p| - 1])| <= |WithEnds(p)|
  {
    assert p == p[..|p| - 1] + [p[|p| - 1]];
    WithEndsAppend(p[..|p| - 1], [p[|p| - 1]]);
  }

  /** With rotation on and the active file opened below the limit, it is below the limit after
      every insert and prune, and each backup made on the way holds at least the limit and less
      than the limit plus one line. */
  lemma {:induction false} RunSizes(s: Store, ops: seq<Op>, line: nat)
    requires BytesRight(s) && s.bytes < s.maxBytes && Rotates(s)
    requires forall i :: 0 <= i < |ops| && ops[i].Insert? ==> |SerializedEvent(ops[i].e)| + 1 <= line
    ensures var r := Run(s, ops); BytesRight(r) && r.bytes < r.maxBytes && SizesFit(r, s.files, line)
  {
    hide Inserted, SerializedEvent, Records, WithEnds;
    if ops != [] {
      var front, op := ops[..|ops| - 1], ops[|ops| - 1];
      RunSizes(s, front, line);
      var before := Run(s, front);
      match op {
        case Insert(e) => InsertSizes(before, SerializedEvent(e), s.files, line);
        case Prune(max) => if before.count > max { PruneShrinks(before.files[0], before.count - max); }
      }
    }
  }

  // ------------------------------------------------------------ how much is kept

  /** The backups are exactly slots 1 to `m`, and each holds at least the limit. */
  predicate Stacked(s: Store, m: nat) {
    && m <= s.maxFiles
    && forall j :: 1 <= j <= s.maxFiles ==> (j in s.files <==> j <= m) && (j <= m ==> |s.files[j]| >= s.maxBytes)
  }

  /** An insert that rotates opens one more slot, and loses nothing unless all were in use. */
  lemma InsertStacks(s: Store, line: string, m: nat) returns (k: nat)
    requires BytesRight(s) && Rotates(s) && Stacked(s, m)
    ensures var r := Inserted(s, line);
            && Stacked(r, k) && m <= k
            && (k < s.maxFiles || k > m ==> Chain(r.files, s.maxFiles) == Chain(s.files, s.maxFiles) + (line + "\n"))
  {
    hide Rotated, Chain;
    var n := s.maxFiles;
    var mid := s.files[0 := s.files[0] + (line + "\n")];
    ChainAppend(s.files, n, line + "\n");
    if s.bytes + |line| + 1 < s.maxBytes {
      k := m;
    } else {
      k := Min(m + 1, n);
      StackRotated(s, mid, m);
      ChainRotated(mid, n, n);
      if m < n { ChainTopFree(mid, n); }
    }
  }

  lemma StackRotated(s: Store, mid: Files, m: nat)
    requires Stacked(s, m) && 0 < s.maxFiles && 0 in mid && |mid[0]| >= s.maxBytes && mid == s.files[0 := mid[0]]
    ensures Stacked(s.(files := Rotated(mid, s.maxFiles)), Min(m + 1, s.maxFiles))
    ensures Stacked(s.(files := Rotated(mid, s.maxFiles), open := true, bytes := 0, count := 0), Min(m + 1, s.maxFiles))
  {
    hide Rotated;
    var n := s.maxFiles;
    var out := Rotated(mid, n);
    forall j | 1 <= j <= n ensures (j in out <==> j <= m + 1) && (j <= m + 1 ==> |out[j]| >= s.maxBytes) {
      RotatedSlots(mid, n, j);
      assert Slot(out, j) == Slot(mid, j - 1);
    }
  }

  lemma ChainTopFree(files: Files, n: nat)
    requires n > 0 && n !in files
    ensures Chain(files, n - 1) == Chain(files, n)
  {
    assert "" + Chain(files, n - 1) == Chain(files, n - 1);
  }

  lemma {:induction false} StackLength(s: Store, n: nat)
    requires Stacked(s, s.maxFiles) && n <= s.maxFiles
    ensures |Chain(s.files, n)| >= n * s.maxBytes
  {
    if n > 0 { StackLength(s, n - 1); }
  }

  lemma {:induction false} RunStacks(s: Store, ops: seq<Op>, m: nat) returns (k: nat)
    requires BytesRight(s) && Rotates(s) && Stacked(s, m) && OnlyInserts(ops)
    ensures var r := Run(s, ops);
            && BytesRight(r) && Rotates(r) && r.maxFiles == s.maxFiles && r.maxBytes == s.maxBytes && Stacked(r, k)
            && (k < s.maxFiles ==> Chain(r.files, s.maxFiles) == Chain(s.files, s.maxFiles) + WithEnds(Log(ops)))
  {
    hide Chain, Inserted, SerializedEvent, Stacked, WithEnds;
    if ops == [] {
      k := m;
      NoRecords();
      assert Chain(s.files, s.maxFiles) + "" == Chain(s.files, s.maxFiles);
    } else {
      var front, e := ops[..|ops| - 1], ops[|ops| - 1].e;
      var i := RunStacks(s, front, m);
      var before, line := Run(s, front), SerializedEvent(e);
      StepBytes(before, ops[|ops| - 1]);
      k := InsertStacks(before, line, i);
      WithEndsAppend(Log(front), [line]);
      OneWithEnd(line, "");
      SameSettings(before, line);
      assert Chain(s.files, s.maxFiles) + WithEnds(Log(front)) + (line + "\n") == Chain(s.files, s.maxFiles) + WithEnds(Log(ops));
    }
  }

  lemma SameSettings(s: Store, line: string)
    requires Valid(s)
    ensures Inserted(s, line).maxFiles == s.maxFiles && Inserted(s, line).maxBytes == s.maxBytes
  {
  }

  /** With rotation on, from a store whose backups are full and without gaps, such as one with
      none: in every run of inserts either nothing at all is lost, or every backup slot is in use
      and holds at least the limit. So what is kept falls short of everything only when it is at
      least the number of backups times the limit. */
  lemma HistoryKeepsEnough(s: Store, ops: seq<Op>, m: nat)
    requires BytesRight(s) && Rotates(s) && Stacked(s, m) && OnlyInserts(ops)
    ensures var r, all := Run(s, ops), Chain(s.files, s.maxFiles) + WithEnds(Log(ops));
            && (Chain(r.files, s.maxFiles) == all || Stacked(r, s.maxFiles))
            && |Chain(r.files, s.maxFiles)| >= Min(|all|, s.maxFiles * s.maxBytes)
  {
    hide Chain, Stacked, WithEnds, Log, Run;
    var k := RunStacks(s, ops, m);
    StackAtMost(Run(s, ops), k);
    if k == s.maxFiles { StackLength(Run(s, ops), s.maxFiles); }
  }

  lemma StackAtMost(s: Store, m: nat)
    requires Stacked(s, m)
    ensures m <= s.maxFiles
  {
  }

  // ------------------------------------------------------------ queries

  /** An answer is a slice; a negative offset counts as zero and a limit below one as one. */
  lemma AnswerIs(all: seq<Event>, f: QueryFilter)
    ensures var from, n := if f.offset < 0 then 0 else f.offset, if f.limit < 1 then 1 else f.limit;
            Answer(all, f) == all[Min(from, |all|)..Min(from + n, |all|)]
  {
  }

  /** The answers to the first `k` pages put together. */
  function Pages(all: seq<Event>, f: QueryFilter, k: nat): seq<Event> {
    if k == 0 then [] else Pages(all, f, k - 1) + Answer(all, f.(offset := (k - 1) * f.limit))
  }

  /** Consecutive pages concatenate to the matching events, without gaps or repeats. */
  lemma {:induction false} PagesJoin(all: seq<Event>, f: QueryFilter, k: nat)
    requires f.limit >= 1
    ensures 0 <= k * f.limit && Pages(all, f, k) == all[..Min(k * f.limit, |all|)]
  {
    if k > 0 {
      hide Answer;
      PagesJoin(all, f, k - 1);
      var m := (k - 1) * f.limit;
      assert k * f.limit == m + f.limit;
      AnswerIs(all, f.(offset := m));
      NextSlice(all, m, f.limit);
    }
  }

  lemma NextSlice(all: seq<Event>, m: nat, n: nat)
    ensures all[..Min(m, |all|)] + all[Min(m, |all|)..Min(m + n, |all|)] == all[..Min(m + n, |all|)]
  {
  }

  /** Enough pages give everything. */
  lemma AllPages(all: seq<Event>, f: QueryFilter)
    requires f.limit >= 1
    ensures Pages(all, f, |all|) == all
  {
    PagesJoin(all, f, |all|);
    assert |all| * f.limit >= |all| by { TimesOne(|all|, f.limit); }
  }

  lemma TimesOne(n: nat, k: int)
    requires k >= 1
    ensures n * k >= n
  {
    assert n * k == n * (k - 1) + n && n * (k - 1) >= 0;
  }

  function WithoutIds(es: seq<Event>): seq<Event> {
    seq(|es|, i requires 0 <= i < |es| => es[i].(id := 0))
  }

  function Select(es: seq<Event>, f: QueryFilter): seq<Event> {
    if es == [] then []
    else
      var e := es[|es| - 1];
      Select(es[..|es| - 1], f) + (if Matches(f, e) then [e] else [])
  }

  /** What a query asks for: not before the one bound and not after the other, where they are
      positive, and the keyword somewhere in the summary or the target. */
  ghost predicate Asked(e: Event, f: QueryFilter) {
    && (f.fromMs > 0 ==> f.fromMs <= e.timestamp) && (f.toMs > 0 ==> e.timestamp <= f.toMs)
    && (Occurs(f.keyword, e.summary) || Occurs(f.keyword, e.target))
  }

  ghost predicate Occurs(word: string, text: string) { exists a: string, b: string :: text == a + word + b }

  lemma OccursIs(word: string, text: string)
    ensures Occurs(word, text) <==> Contains(text, word)
    ensures word == "" ==> Occurs(word, text)
  {
    hide StartsAt, Occurs, Contains;
    if Occurs(word, text) { OccursContained(word, text); }
    if Contains(text, word) { ContainedOccurs(word, text); }
    if word == "" { NothingOccurs(text); }
  }

  lemma OccursContained(word: string, text: string)
    requires Occurs(word, text)
    ensures Contains(text, word)
  {
    var a: string, b: string :| text == a + word + b;
    assert StartsAt(text, |a|, word);
  }

  lemma ContainedOccurs(word: string, text: string)
    requires Contains(text, word)
    ensures Occurs(word, text)
  {
    var i :| 0 <= i <= |text| && StartsAt(text, i, word);
    assert text == text[..i] + word + text[i + |word|..];
  }

  lemma NothingOccurs(text: string)
    ensures Occurs("", text)
  {
    assert text == "" + "" + text;
  }

  lemma AskedIs(e: Event, f: QueryFilter)
    ensures Asked(e, f) <==> Matches(f, e)
  {
    hide Occurs, Contains;
    OccursIs(f.keyword, e.summary);
    OccursIs(f.keyword, e.target);
  }

  ghost function AskedAmong(es: seq<Event>, f: QueryFilter): set<nat> { set i: nat | i < |es| && Asked(es[i], f) }

  /** Exactly the events of a list that are asked for, in the order of the list, as they come
      back from their records. */
  ghost predicate ChosenFrom(chosen: seq<Event>, es: seq<Event>, f: QueryFilter) {
    exists idx :: Lists(idx, AskedAmong(es, f)) && |chosen| == |idx|
                  && forall k :: 0 <= k < |idx| ==> idx[k] < |es| && chosen[k] == es[idx[k]].(id := 0)
  }

  lemma {:induction false} SelectLists(es: seq<Event>, f: QueryFilter) returns (idx: seq<nat>)
    ensures var chosen := Select(WithoutIds(es), f);
            && Lists(idx, AskedAmong(es, f)) && |chosen| == |idx|
            && forall k :: 0 <= k < |idx| ==> idx[k] < |es| && chosen[k] == es[idx[k]].(id := 0)
  {
    hide Asked, Matches, Lists;
    if es == [] {
      idx := [];
      NothingListed(f);
    } else {
      var n := |es| - 1;
      idx := SelectLists(es[..n], f);
      var keep := AskedAmong(es[..n], f);
      assert WithoutIds(es)[..n] == WithoutIds(es[..n]);
      AskedIs(es[n].(id := 0), f);
      AskedWithoutId(es[n], f);
      if Asked(es[n], f) {
        ListsNext(idx, keep, n);
        assert AskedAmong(es, f) == keep + {n};
        idx := idx + [n];
      } else {
        assert AskedAmong(es, f) == keep;
      }
    }
  }

  lemma NothingListed(f: QueryFilter)
    ensures Lists([], AskedAmong([], f))
  {
  }

  lemma AskedWithoutId(e: Event, f: QueryFilter)
    ensures Asked(e.(id := 0), f) <==> Asked(e, f)
  {
  }

  lemma SelectChooses(es: seq<Event>, f: QueryFilter)
    ensures ChosenFrom(Select(WithoutIds(es), f), es, f)
  {
    hide Asked, Select, Lists;
    var idx := SelectLists(es, f);
  }

  lemma {:induction false} MatchingAsked(lines: seq<string>, f: QueryFilter, now: int)
    ensures forall i :: 0 <= i < |Matching(lines, f, now)| ==> Asked(Matching(lines, f, now)[i], f)
  {
    hide Asked, Matches, ParsedEvent;
    if lines != [] {
      var n := |lines| - 1;
      MatchingAsked(lines[..n], f, now);
      AskedIs(ParsedEvent(lines[n], now), f);
    }
  }

  /** Whatever a file holds and whatever page is taken: every event answered was asked for. */
  lemma AnswersAreAsked(lines: seq<string>, f: QueryFilter, now: int)
    ensures forall i :: 0 <= i < |Answer(Matching(lines, f, now), f)| ==> Asked(Answer(Matching(lines, f, now), f)[i], f)
  {
    hide Asked, Matching, Answer;
    MatchingAsked(lines, f, now);
    AnswerIs(Matching(lines, f, now), f);
  }

  function Inserts(es: seq<Event>): seq<Op> { seq(|es|, i requires 0 <= i < |es| => Insert(es[i])) }

  predicate Carried(e: Event) { Storable(e) && OneLine(e) && -INT64_LIMIT <= e.timestamp < INT64_LIMIT }

  lemma {:induction false} LogMatching(es: seq<Event>, f: QueryFilter, now: int)
    requires forall i :: 0 <= i < |es| ==> Carried(es[i])
    ensures Matching(Log(Inserts(es)), f, now) == Select(WithoutIds(es), f)
  {
    hide SerializedEvent, ParsedEvent, Storable, OneLine, Matches;
    if es != [] {
      var n := |es| - 1;
      LogMatching(es[..n], f, now);
      assert Inserts(es)[..n] == Inserts(es[..n]) && WithoutIds(es)[..n] == WithoutIds(es[..n]);
      MatchingNext(Log(Inserts(es[..n])), SerializedEvent(es[n]), f, now);
      EventRoundTrip(es[n], now);
    }
  }

  /** With every inserted event storable on one line, the log is its own list of records. */
  lemma {:induction false} LogOfCarried(es: seq<Event>)
    requires forall i :: 0 <= i < |es| ==> Carried(es[i])
    ensures Records(WithEnds(Log(Inserts(es)))) == Log(Inserts(es)) && |Log(Inserts(es))| == |es|
    ensures OnlyInserts(Inserts(es))
  {
    hide Records, SerializedEvent, OneLine, Storable, WithEnds;
    if es == [] {
      NoRecordsInNothing();
      NoRecords();
    } else {
      var n := |es| - 1;
      LogOfCarried(es[..n]);
      assert Inserts(es)[..n] == Inserts(es[..n]);
      SerializedShape(es[n]);
      LogRecords(Log(Inserts(es[..n])), SerializedEvent(es[n]));
      LineRecord(SerializedEvent(es[n]));
    }
  }

  /** Without rotation: a query after any run of inserts answers from what it would have found
      before followed by exactly the inserted events it asks for. */
  lemma QueryAfterInserts(s: Store, es: seq<Event>, f: QueryFilter, now: int) returns (chosen: seq<Event>)
    requires Settled(s) && !Rotates(s)
    requires forall i :: 0 <= i < |es| ==> Carried(es[i])
    ensures var r := Run(s, Inserts(es));
            0 in r.files
            && Answer(Matching(Records(r.files[0]), f, now), f)
               == Answer(Matching(Records(s.files[0]), f, now) + chosen, f)
    ensures ChosenFrom(chosen, es, f)
  {
    hide Records, Answer, Matching, Select, Log, Inserts, Carried, ChosenFrom;
    chosen := Select(WithoutIds(es), f);
    SelectChooses(es, f);
    LogOfCarried(es);
    PlainRun(s, Inserts(es));
    MatchingAppend(Records(s.files[0]), Log(Inserts(es)), f, now);
    LogMatching(es, f, now);
  }

  /** In particular a store that held no records answers with the page asked for of exactly the
      inserted events asked for. */
  lemma QueryAnswers(s: Store, es: seq<Event>, f: QueryFilter, now: int) returns (chosen: seq<Event>)
    requires Settled(s) && !Rotates(s) && Records(s.files[0]) == []
    requires forall i :: 0 <= i < |es| ==> Carried(es[i])
    ensures ChosenFrom(chosen, es, f)
    ensures var r := Run(s, Inserts(es));
            var from, n := if f.offset < 0 then 0 else f.offset, if f.limit < 1 then 1 else f.limit;
            0 in r.files && Answer(Matching(Records(r.files[0]), f, now), f) == chosen[Min(from, |chosen|)..Min(from + n, |chosen|)]
  {
    hide Records, Answer, Log, Inserts, Carried, ChosenFrom, Run;
    chosen := QueryAfterInserts(s, es, f, now);
    assert Matching([], f, now) + chosen == chosen;
    AnswerIs(chosen, f);
  }

  lemma {:induction false} PlainRun(s: Store, ops: seq<Op>)
    requires Settled(s) && !Rotates(s) && OnlyInserts(ops)
    ensures var r := Run(s, ops); Settled(r) && Records(r.files[0]) == Records(s.files[0]) + Records(WithEnds(Log(ops)))
  {
    hide SerializedEvent, Records, EndsLine, WithEnds;
    if ops == [] {
      NoRecordsInNothing();
      NoRecords();
      assert Records(s.files[0]) + [] == Records(s.files[0]);
    } else {
      var front, line := ops[..|ops| - 1], SerializedEvent(ops[|ops| - 1].e);
      PlainRun(s, front);
      LineEnds(line);
      RecordsAppend(Run(s, front).files[0], line + "\n");
      LogRecords(Log(front), line);
      assert Records(s.files[0]) + (Records(WithEnds(Log(front))) + Records(line + "\n"))
          == (Records(s.files[0]) + Records(WithEnds(Log(front)))) + Records(line + "\n");
    }
  }

  lemma {:induction false} LogAt(es: seq<Event>)
    ensures |Log(Inserts(es))| == |es|
    ensures forall i :: 0 <= i < |es| ==> Log(Inserts(es))[i] == SerializedEvent(es[i])
  {
    hide SerializedEvent;
    if es != [] {
      LogAt(es[..|es| - 1]);
      assert Inserts(es)[..|es| - 1] == Inserts(es[..|es| - 1]);
    }
  }

  lemma LogTail(es: seq<Event>, n: nat)
    requires n <= |es|
    ensures |Log(Inserts(es))| == |es| && Log(Inserts(es))[n..] == Log(Inserts(es[n..]))
  {
    hide SerializedEvent, Log, Inserts;
    LogAt(es);
    LogAt(es[n..]);
  }

  /** With rotation: a query after any run of inserts sees exactly the inserted events from
      some point on, those the active file still holds; and older records before them only if
      all the inserted events are there. */
  lemma QueryAfterRotations(s: Store, es: seq<Event>, f: QueryFilter, now: int)
    returns (older: seq<string>, n: nat, chosen: seq<Event>)
    requires Settled(s)
    requires forall i :: 0 <= i < |es| ==> Carried(es[i])
    ensures n <= |es| && (older == [] || n == 0) && Suffix(older, Kept(s))
    ensures var r := Run(s, Inserts(es));
            0 in r.files
            && Records(r.files[0]) == older + Log(Inserts(es[n..]))
            && Answer(Matching(Records(r.files[0]), f, now), f)
               == Answer(Matching(older, f, now) + chosen, f)
    ensures ChosenFrom(chosen, es[n..], f)
  {
    hide Records, Answer, Matching, Select, Log, Run, Backups, Inserts, Carried, ChosenFrom;
    LogOfCarried(es);
    RecordsRun(s, Inserts(es));
    var r, log, kept := Run(s, Inserts(es)), Log(Inserts(es)), Kept(s);
    var held := Records(r.files[0]);
    assert Suffix(held, kept + log) by { assert Kept(r) == Backups(r.files, r.maxFiles) + held; }
    if |held| <= |log| {
      older, n := [], |log| - |held|;
      assert held == log[n..];
      assert [] + held == held;
    } else {
      older, n := kept[|kept| + |log| - |held|..], 0;
      assert held == older + log && log[0..] == log;
    }
    LogTail(es, n);
    MatchingAppend(older, Log(Inserts(es[n..])), f, now);
    LogMatching(es[n..], f, now);
    chosen := Select(WithoutIds(es[n..]), f);
    SelectChooses(es[n..], f);
  }
}
