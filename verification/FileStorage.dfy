/** The rotating event store. The file system is a map from slot to text: slot 0 is the
    active file, slot i the backup `.i`. `Store` and its functions say what each operation
    does; class `FileStorage` does it step by step. */
module FileStorage {
  import opened Events
  import opened StorageCodec
  import opened Strings

  type Files = map<int, string>

  function Slot(files: Files, j: int): Option<string> { if j in files then Some(files[j]) else None }

  datatype Store = Store(files: Files, open: bool, bytes: int, count: int, maxBytes: nat, maxFiles: nat)

  predicate Valid(s: Store) { s.open ==> 0 in s.files }

  predicate Rotates(s: Store) { s.maxBytes > 0 && s.maxFiles > 0 }

  function Up(i: int): int { i + 1 }

  function MovedSlots(files: Files, n: nat): set<int> { set i | i in files && 0 <= i < n :: Up(i) }

  /** Every file up to the limit moves one slot up and the oldest is gone; slot 0 starts empty. */
  function Rotated(files: Files, n: nat): Files {
    var kept := map j | j in files && !(0 <= j <= n) :: files[j];
    var moved := map j | j in MovedSlots(files, n) :: files[j - 1];
    kept + moved + map[0 := ""]
  }

  function RotatedSlot(files: Files, n: nat, j: int): Option<string> {
    if j == 0 then Some("") else if 1 <= j <= n then Slot(files, j - 1) else Slot(files, j)
  }

  lemma RotatedSlots(files: Files, n: nat, j: int)
    ensures Slot(Rotated(files, n), j) == RotatedSlot(files, n, j)
  {
    if 1 <= j <= n && j - 1 in files {
      assert Up(j - 1) == j;
    }
  }

  lemma SlotsDecide(a: Files, b: Files)
    requires forall j :: Slot(a, j) == Slot(b, j)
    ensures a == b
  {
    forall j ensures j in a <==> j in b {
      assert Slot(a, j) == Slot(b, j);
    }
    forall j | j in a ensures a[j] == b[j] {
      assert Slot(a, j) == Slot(b, j);
    }
  }

  function MaybeRotate(s: Store): Store
    requires 0 in s.files
  {
    if Rotates(s) && s.bytes >= s.maxBytes then s.(files := Rotated(s.files, s.maxFiles), open := true, bytes := 0, count := 0) else s
  }

  /** insert, with the record already serialized. */
  function Inserted(s: Store, line: string): Store
    requires Valid(s)
  {
    if !s.open then s
    else MaybeRotate(s.(files := s.files[0 := s.files[0] + (line + "\n")], bytes := s.bytes + |line| + 1, count := s.count + 1))
  }

  function WithEnds(lines: seq<string>): string {
    if lines == [] then "" else lines[0] + "\n" + WithEnds(lines[1..])
  }

  function Records(text: string): seq<string> { NonEmpty(Lines(text)) }

  function Drop(lines: seq<string>, k: int): seq<string> {
    if k <= 0 then lines else if k >= |lines| then [] else lines[k..]
  }

  /** prune. A store never opened has no path, so nothing to read. */
  function Pruned(s: Store, max: int): Store {
    if s.count <= max || !s.open || 0 !in s.files then s
    else
      var text := WithEnds(Drop(Records(s.files[0]), s.count - max));
      s.(files := s.files[0 := text], open := true, bytes := |text|, count := max)
  }

  function Opened(s: Store): Store {
    var text := if 0 in s.files then s.files[0] else "";
    s.(files := s.files[0 := text], open := true, bytes := |text|, count := |Records(text)|)
  }

  // ------------------------------------------------------------ queries

  datatype QueryFilter = QueryFilter(fromMs: int, toMs: int, keyword: string, limit: int, offset: int)

  predicate StartsAt(s: string, i: nat, word: string) { i + |word| <= |s| && s[i..i + |word|] == word }

  predicate Contains(s: string, word: string) { exists i :: 0 <= i <= |s| && StartsAt(s, i, word) }

  predicate Matches(f: QueryFilter, e: Event) {
    && (f.fromMs > 0 ==> e.timestamp >= f.fromMs)
    && (f.toMs > 0 ==> e.timestamp <= f.toMs)
    && (f.keyword == "" || Contains(e.summary, f.keyword) || Contains(e.target, f.keyword))
  }

  /** All events of some records that match, in file order. */
  function Matching(lines: seq<string>, f: QueryFilter, now: int): seq<Event> {
    if lines == [] then []
    else
      var n := |lines| - 1;
      Matching(lines[..n], f, now) + (if Matches(f, ParsedEvent(lines[n], now)) then [ParsedEvent(lines[n], now)] else [])
  }

  function DropEvents(es: seq<Event>, k: int): seq<Event> {
    if k <= 0 then es else if k >= |es| then [] else es[k..]
  }

  function TakeEvents(es: seq<Event>, k: int): seq<Event> {
    if k <= 0 then [] else if k >= |es| then es else es[..k]
  }

  /** A limit below one still lets one event through. */
  function Answer(all: seq<Event>, f: QueryFilter): seq<Event> {
    TakeEvents(DropEvents(all, f.offset), if f.limit < 1 then 1 else f.limit)
  }

  /** Slot `j` while the backups above `i` have moved up and slot `i + 1` is free. */
  ghost function Shifting(was: Files, n: nat, i: int, j: int): Option<string> {
    if j == i + 1 then None else if i + 1 < j <= n then Slot(was, j - 1) else Slot(was, j)
  }

  class Storage {
    var files: Files
    var isOpen: bool
    var bytesWritten: int
    var eventCount: int
    var rotateMaxBytes: nat
    var rotateMaxFiles: nat

    ghost function State(): Store
      reads this
    {
      Store(files, isOpen, bytesWritten, eventCount, rotateMaxBytes, rotateMaxFiles)
    }

    constructor (disk: Files)
      ensures State() == Store(disk, false, 0, 0, 0, 0)
    {
      files, isOpen, bytesWritten, eventCount := disk, false, 0, 0;
      rotateMaxBytes, rotateMaxFiles := 0, 0;
    }

    method Open()
      modifies this
      ensures State() == Opened(old(State()))
    {
      if 0 !in files { files := files[0 := ""]; }
      isOpen := true;
      bytesWritten := |files[0]|;
      eventCount := 0;
      var lines := Lines(files[0]);
      for i := 0 to |lines|
        invariant files == old(State()).files[0 := if 0 in old(files) then old(files)[0] else ""]
        invariant isOpen && bytesWritten == |files[0]| && lines == Lines(files[0])
        invariant rotateMaxBytes == old(rotateMaxBytes) && rotateMaxFiles == old(rotateMaxFiles)
        invariant eventCount == |NonEmpty(lines[..i])|
      {
        assert lines[..i + 1] == lines[..i] + [lines[i]];
        NonEmptyAppend(lines[..i], [lines[i]]);
        if lines[i] != "" { eventCount := eventCount + 1; }
      }
      assert lines[..|lines|] == lines;
    }

    method ConfigureRotation(maxBytes: int, maxFiles: int)
      modifies this
      ensures State() == old(State()).(maxBytes := if maxBytes > 0 then maxBytes else 0,
          maxFiles := if maxFiles > 0 then maxFiles else 0)
    {
      rotateMaxBytes := if maxBytes > 0 then maxBytes else 0;
      rotateMaxFiles := if maxFiles > 0 then maxFiles else 0;
    }

    /** The renaming loop: backups `n - 1` down to 1 move one slot up. */
    method ShiftBackups(n: nat)
      requires n > 0
      modifies `files
      ensures forall j :: Slot(files, j) == Shifting(old(files), n, 0, j)
    {
      files := files - {n};
      var i := n - 1;
      while i >= 1
        invariant 0 <= i <= n - 1
        invariant forall j :: Slot(files, j) == Shifting(old(files), n, i, j)
      {
        ghost var now := files;
        assert Slot(now, i) == Shifting(old(files), n, i, i) && Slot(now, i + 1) == Shifting(old(files), n, i, i + 1);
        if i in files {
          files := files[i + 1 := files[i]] - {i};
        }
        forall j ensures Slot(files, j) == Shifting(old(files), n, i - 1, j) {
          assert Slot(now, j) == Shifting(old(files), n, i, j);
        }
        i := i - 1;
      }
    }

    method MaybeRotateLocked()
      requires 0 in files
      modifies this
      ensures State() == MaybeRotate(old(State()))
    {
      hide Rotated;
      if rotateMaxBytes <= 0 || rotateMaxFiles <= 0 { return; }
      if bytesWritten < rotateMaxBytes { return; }
      var n := rotateMaxFiles;
      ShiftBackups(n);
      ghost var now := files;
      assert Slot(now, 0) == Shifting(old(files), n, 0, 0);
      files := files[1 := files[0]] - {0};
      files := files[0 := ""];
      isOpen := true;
      bytesWritten := 0;
      eventCount := 0;
      forall j ensures Slot(files, j) == Slot(Rotated(old(files), n), j) {
        assert Slot(now, j) == Shifting(old(files), n, 0, j);
        RotatedSlots(old(files), n, j);
      }
      SlotsDecide(files, Rotated(old(files), n));
    }

    method Insert(e: Event)
      requires Valid(State())
      modifies this
      ensures State() == Inserted(old(State()), SerializedEvent(e))
    {
      if !isOpen { return; }
      var line := SerializeEvent(e);
      files := files[0 := files[0] + (line + "\n")];
      bytesWritten := bytesWritten + |line| + 1;
      eventCount := eventCount + 1;
      MaybeRotateLocked();
    }

    /** The copying loop of prune: all records but the first `skip`. */
    static method CopyRecords(lines: seq<string>, skip: int) returns (text: string)
      requires skip > 0
      ensures text == WithEnds(Drop(NonEmpty(lines), skip))
    {
      hide NonEmpty, WithEnds, Drop;
      NoRecords();
      var current := 0;
      text := "";
      for i := 0 to |lines|
        invariant current == |NonEmpty(lines[..i])|
        invariant text == WithEnds(Drop(NonEmpty(lines[..i]), skip))
      {
        NextRecord(lines, i);
        if lines[i] == "" { continue; }
        NextKept(NonEmpty(lines[..i]), lines[i], skip, text);
        current := current + 1;
        if current - 1 < skip { continue; }
        text := text + lines[i] + "\n";
      }
      assert lines[..|lines|] == lines;
    }

    method Prune(max: int)
      requires Valid(State())
      modifies this
      ensures State() == Pruned(old(State()), max)
    {
      hide NonEmpty, Lines, WithEnds, Drop;
      if eventCount <= max { return; }
      var skip := eventCount - max;
      if !isOpen || 0 !in files { return; }
      var text := CopyRecords(Lines(files[0]), skip);
      files := files[0 := text];
      isOpen := true;
      bytesWritten := |text|;
      eventCount := max;
    }

    method Query(f: QueryFilter, now: int) returns (result: seq<Event>)
      ensures result == if isOpen && 0 in files then Answer(Matching(Records(files[0]), f, now), f) else []
    {
      result := [];
      if !isOpen || 0 !in files { return; }
      hide NonEmpty, Lines, ParsedEvent, Matches, Matching, DropEvents, Answer, Drop;
      var lines := Lines(files[0]);
      NoRecords();
      NoMatches(f, now);
      var seen := 0;
      for i := 0 to |lines|
        invariant seen == |Matching(NonEmpty(lines[..i]), f, now)|
        invariant result == DropEvents(Matching(NonEmpty(lines[..i]), f, now), f.offset)
        invariant result == [] || |result| < f.limit
      {
        NextRecord(lines, i);
        if lines[i] == "" { continue; }
        var e := ParseEvent(lines[i], now);
        NextMatch(NonEmpty(lines[..i]), lines[i], f, now);
        if !Matches(f, e) { continue; }
        seen := seen + 1;
        if seen - 1 < f.offset { continue; }
        result := result + [e];
        if |result| >= f.limit {
          StopsHere(lines, i, f, now);
          return;
        }
      }
      assert lines[..|lines|] == lines;
      EndsHere(Matching(NonEmpty(lines), f, now), f);
    }
  }

  /** A further record adds its event if that matches, and to the answer if enough came before. */
  lemma NextMatch(done: seq<string>, line: string, f: QueryFilter, now: int)
    ensures var all, more, e := Matching(done, f, now), Matching(done + [line], f, now), ParsedEvent(line, now);
            if Matches(f, e) then
              && |more| == |all| + 1
              && DropEvents(more, f.offset) == if |all| < f.offset then DropEvents(all, f.offset) else DropEvents(all, f.offset) + [e]
            else more == all
  {
    hide Matching, Matches, DropEvents;
    MatchingNext(done, line, f, now);
    DropEventsNext(Matching(done, f, now), ParsedEvent(line, now), f.offset);
  }

  lemma EndsHere(all: seq<Event>, f: QueryFilter)
    requires DropEvents(all, f.offset) == [] || |DropEvents(all, f.offset)| < f.limit
    ensures Answer(all, f) == DropEvents(all, f.offset)
  {
  }

  lemma NextRecord(lines: seq<string>, i: nat)
    requires i < |lines|
    ensures NonEmpty(lines[..i + 1]) == if lines[i] == "" then NonEmpty(lines[..i]) else NonEmpty(lines[..i]) + [lines[i]]
  {
    assert lines[..i + 1] == lines[..i] + [lines[i]];
    NonEmptyAppend(lines[..i], [lines[i]]);
  }

  lemma DropNext(done: seq<string>, line: string, skip: int)
    requires skip > 0
    ensures |done| < skip ==> Drop(done + [line], skip) == Drop(done, skip) == []
    ensures |done| >= skip ==> Drop(done + [line], skip) == Drop(done, skip) + [line]
  {
  }

  /** A record past the skipped ones is copied out. */
  lemma NextKept(done: seq<string>, line: string, skip: int, text: string)
    requires skip > 0 && text == WithEnds(Drop(done, skip))
    ensures WithEnds(Drop(done + [line], skip)) == if |done| < skip then text else text + line + "\n"
  {
    hide WithEnds, Drop;
    DropNext(done, line, skip);
    if |done| >= skip {
      WithEndsAppend(Drop(done, skip), [line]);
      OneWithEnd(line, text);
    }
  }

  lemma DropEventsNext(done: seq<Event>, e: Event, skip: int)
    ensures |done| < skip ==> DropEvents(done + [e], skip) == DropEvents(done, skip) == []
    ensures |done| >= skip ==> DropEvents(done + [e], skip) == DropEvents(done, skip) + [e]
  {
  }

  lemma MatchingNext(done: seq<string>, line: string, f: QueryFilter, now: int)
    ensures var e := ParsedEvent(line, now);
            Matching(done + [line], f, now) == if Matches(f, e) then Matching(done, f, now) + [e] else Matching(done, f, now)
  {
    hide Matches, ParsedEvent;
    assert (done + [line])[..|done|] == done && (done + [line])[|done|] == line;
  }

  lemma NoMatches(f: QueryFilter, now: int)
    ensures Matching([], f, now) == [] && DropEvents([], f.offset) == []
  {
  }

  lemma NoRecords()
    ensures NonEmpty([]) == [] && WithEnds([]) == "" && forall k :: Drop([], k) == []
  {
  }

  lemma OneWithEnd(line: string, text: string)
    ensures WithEnds([line]) == line + "\n" && text + (line + "\n") == text + line + "\n"
  {
    assert [line][1..] == [];
  }

  lemma {:induction false} WithEndsAppend(a: seq<string>, b: seq<string>)
    ensures WithEnds(a + b) == WithEnds(a) + WithEnds(b)
  {
    if a == [] {
      assert a + b == b;
    } else {
      WithEndsAppend(a[1..], b);
      assert (a + b)[1..] == a[1..] + b && (a + b)[0] == a[0];
      assert a[0] + "\n" + (WithEnds(a[1..]) + WithEnds(b)) == (a[0] + "\n" + WithEnds(a[1..])) + WithEnds(b);
    }
  }

  /** Later records only add to the matches. */
  lemma {:induction false} MatchingAppend(a: seq<string>, b: seq<string>, f: QueryFilter, now: int)
    ensures Matching(a + b, f, now) == Matching(a, f, now) + Matching(b, f, now)
    decreases |b|
  {
    hide Matches, ParsedEvent;
    if b == [] {
      assert a + b == a;
    } else {
      var n := |b| - 1;
      MatchingAppend(a, b[..n], f, now);
      assert (a + b)[..|a| + n] == a + b[..n] && (a + b)[|a| + n] == b[n];
      var x := if Matches(f, ParsedEvent(b[n], now)) then [ParsedEvent(b[n], now)] else [];
      assert Matching(a, f, now) + (Matching(b[..n], f, now) + x) == (Matching(a, f, now) + Matching(b[..n], f, now)) + x;
    }
  }

  /** Once the limit is reached the rest of the file does not matter. */
  lemma StopsHere(lines: seq<string>, i: nat, f: QueryFilter, now: int)
    requires i < |lines|
    requires var r := DropEvents(Matching(NonEmpty(lines[..i + 1]), f, now), f.offset);
             r != [] && (|r| == 1 || |r| - 1 < f.limit) && |r| >= f.limit
    ensures Answer(Matching(NonEmpty(lines), f, now), f) == DropEvents(Matching(NonEmpty(lines[..i + 1]), f, now), f.offset)
  {
    hide Matching, NonEmpty;
    assert lines == lines[..i + 1] + lines[i + 1..];
    NonEmptyAppend(lines[..i + 1], lines[i + 1..]);
    MatchingAppend(NonEmpty(lines[..i + 1]), NonEmpty(lines[i + 1..]), f, now);
  }
}
