/** Under which key the differ files a row, in terms of what the row shows, and what that makes
    of two tables and of two snapshots. */
module SnapshotKeys {
  import opened JsonGrammar
  import opened JsonParser
  import opened SnapshotDiff
  import opened Strings

  /** The row shows `text` under the name; a name it lacks shows nothing. */
  ghost predicate Shows(x: Json, name: string, text: string, show: string -> string) {
    x.Object? && (if name in x.fields then Scalar(x.fields[name], show) == text else text == "")
  }

  ghost predicate ShowsNeither(x: Json, a: string, b: string, show: string -> string) {
    Shows(x, a, "", show) && Shows(x, b, "", show)
  }

  // ------------------------------------------------------------ the six kinds of key

  ghost predicate ByPid(x: Json, key: string, show: string -> string) {
    exists pid :: pid != "" && Shows(x, "pid", pid, show) && key == "pid:" + pid
  }

  ghost predicate ByPort(x: Json, key: string, show: string -> string) {
    && Shows(x, "pid", "", show)
    && exists port, protocol, address :: port != ""
         && Shows(x, "port", port, show) && Shows(x, "protocol", protocol, show) && Shows(x, "address", address, show)
         && key == "port:" + protocol + ":" + address + ":" + port
  }

  ghost predicate ByDisk(x: Json, key: string, show: string -> string) {
    && ShowsNeither(x, "pid", "port", show)
    && exists device, mount :: (device != "" || mount != "")
         && Shows(x, "device", device, show) && Shows(x, "mount_point", mount, show)
         && key == "disk:" + mount + "(" + device + ")"
  }

  ghost predicate ByConnection(x: Json, key: string, show: string -> string) {
    && ShowsNeither(x, "pid", "port", show) && ShowsNeither(x, "device", "mount_point", show)
    && exists local, remote :: (local != "" || remote != "")
         && Shows(x, "local_address", local, show) && Shows(x, "remote_address", remote, show)
         && key == "conn:" + local + "->" + remote
  }

  ghost predicate Anonymous(x: Json, show: string -> string) {
    ShowsNeither(x, "pid", "port", show) && ShowsNeither(x, "device", "mount_point", show) && ShowsNeither(x, "local_address", "remote_address", show)
  }

  ghost predicate ByName(x: Json, key: string, show: string -> string) {
    Anonymous(x, show) && exists name :: name != "" && Shows(x, "name", name, show) && key == "name:" + name
  }

  /** The names of the texts and numbers of a record, in the order of std::map. */
  ghost predicate Spellable(fields: Fields, names: seq<string>) {
    && (forall i, j :: 0 <= i < j < |names| ==> Less(names[i], names[j]))
    && forall n :: n in names <==> n in fields && (fields[n].Str? || fields[n].Number?)
  }

  ghost function SpelledOut(fields: Fields, names: seq<string>, show: string -> string): string
    requires forall i :: 0 <= i < |names| ==> names[i] in fields
  {
    if names == [] then ""
    else
      var n := |names| - 1;
      SpelledOut(fields, names[..n], show) + (names[n] + "=" + Scalar(fields[names[n]], show) + ";")
  }

  ghost predicate ByFields(x: Json, key: string, show: string -> string) {
    && Anonymous(x, show) && Shows(x, "name", "", show)
    && exists names :: Spellable(x.fields, names) && key == SpelledOut(x.fields, names, show) != ""
  }

  /** The row is filed under the key. */
  ghost predicate FiledUnder(x: Json, key: string, show: string -> string) {
    || ByPid(x, key, show) || ByPort(x, key, show) || ByDisk(x, key, show) || ByConnection(x, key, show)
    || ByName(x, key, show) || ByFields(x, key, show)
  }

  // ------------------------------------------------------------ the code's key is that key

  lemma {:induction false} FallbackAppend(fields: Fields, a: seq<string>, b: seq<string>, show: string -> string)
    requires (forall i :: 0 <= i < |a| ==> a[i] in fields) && forall i :: 0 <= i < |b| ==> b[i] in fields
    ensures Fallback(fields, a + b, show) == Fallback(fields, a, show) + Fallback(fields, b, show)
  {
    if a == [] {
      assert a + b == b;
    } else {
      FallbackAppend(fields, a[1..], b, show);
      assert (a + b)[1..] == a[1..] + b;
    }
  }

  function Spelt(fields: Fields, keys: seq<string>): seq<string>
    requires forall i :: 0 <= i < |keys| ==> keys[i] in fields
  {
    if keys == [] then []
    else
      var n := |keys| - 1;
      Spelt(fields, keys[..n]) + (if fields[keys[n]].Str? || fields[keys[n]].Number? then [keys[n]] else [])
  }

  lemma {:induction false} SpeltAre(fields: Fields, keys: seq<string>)
    requires forall i :: 0 <= i < |keys| ==> keys[i] in fields
    requires forall i, j :: 0 <= i < j < |keys| ==> Less(keys[i], keys[j])
    ensures var names := Spelt(fields, keys);
            && (forall n :: n in names <==> n in keys && (fields[n].Str? || fields[n].Number?))
            && forall i, j :: 0 <= i < j < |names| ==> Less(names[i], names[j])
  {
    if keys != [] {
      hide Less;
      var n := |keys| - 1;
      SpeltAre(fields, keys[..n]);
      assert keys == keys[..n] + [keys[n]];
      var front, names := Spelt(fields, keys[..n]), Spelt(fields, keys);
      forall i | 0 <= i < |front| ensures Less(front[i], keys[n]) {
        assert front[i] in keys[..n];
      }
    }
  }

  lemma {:induction false} SpeltText(fields: Fields, keys: seq<string>, show: string -> string)
    requires forall i :: 0 <= i < |keys| ==> keys[i] in fields
    ensures (forall i :: 0 <= i < |Spelt(fields, keys)| ==> Spelt(fields, keys)[i] in fields)
    ensures Fallback(fields, keys, show) == SpelledOut(fields, Spelt(fields, keys), show)
  {
    if keys != [] {
      var n := |keys| - 1;
      var front, last := Spelt(fields, keys[..n]), [keys[n]];
      SpeltText(fields, keys[..n], show);
      assert keys == keys[..n] + last;
      FallbackAppend(fields, keys[..n], last, show);
      assert last[1..] == [];
      assert (front + last)[..|front|] == front;
      assert front + [] == front;
      var t := SpelledOut(fields, front, show);
      assert t + "" == t;
    }
  }

  lemma {:induction false} RisingIsUnique(a: seq<string>, b: seq<string>)
    requires forall i, j :: 0 <= i < j < |a| ==> Less(a[i], a[j])
    requires forall i, j :: 0 <= i < j < |b| ==> Less(b[i], b[j])
    requires forall n :: n in a <==> n in b
    ensures a == b
    decreases |a|
  {
    if a == [] {
      NoElements(b);
    } else {
      hide Less;
      assert a[0] in b;
      var m, n := |a| - 1, |b| - 1;
      SameLast(a, b);
      forall x ensures x in a[..m] <==> x in b[..n] {
        LastApart(a, x);
        LastApart(b, x);
      }
      RisingIsUnique(a[..m], b[..n]);
      assert a == a[..m] + [a[m]] && b == b[..n] + [b[n]];
    }
  }

  lemma SameLast(a: seq<string>, b: seq<string>)
    requires a != [] && b != []
    requires forall i, j :: 0 <= i < j < |a| ==> Less(a[i], a[j])
    requires forall i, j :: 0 <= i < j < |b| ==> Less(b[i], b[j])
    requires forall n :: n in a <==> n in b
    ensures a[|a| - 1] == b[|b| - 1]
  {
    hide Less;
    var m, n := |a| - 1, |b| - 1;
    assert a[m] in b && b[n] in a;
    var i :| 0 <= i < |b| && b[i] == a[m];
    var j :| 0 <= j < |a| && a[j] == b[n];
    if i < n && j < m {
      LessTransitive(a[m], b[n], a[m]);
      LessIrreflexive(a[m]);
    }
  }

  lemma LastApart(a: seq<string>, x: string)
    requires a != [] && forall i, j :: 0 <= i < j < |a| ==> Less(a[i], a[j])
    ensures x in a[..|a| - 1] <==> x in a && x != a[|a| - 1]
  {
    hide Less;
    var m := |a| - 1;
    assert a == a[..m] + [a[m]];
    if x in a[..m] {
      var i :| 0 <= i < m && a[..m][i] == x;
      LessIrreflexive(x);
    }
  }

  lemma FallbackIs(x: Json, key: string, show: string -> string)
    requires x.Object?
    ensures (forall i :: 0 <= i < |Ordered(x.fields.Keys)| ==> Ordered(x.fields.Keys)[i] in x.fields)
    ensures key == Fallback(x.fields, Ordered(x.fields.Keys), show)
       <==> exists names :: Spellable(x.fields, names) && key == SpelledOut(x.fields, names, show)
  {
    hide Less, Ordered, SpelledOut, Fallback;
    OrderedIsPermutation(x.fields.Keys);
    var keys := Ordered(x.fields.Keys);
    SpeltAre(x.fields, keys);
    SpeltText(x.fields, keys, show);
    assert Spellable(x.fields, Spelt(x.fields, keys));
    forall names | Spellable(x.fields, names) ensures names == Spelt(x.fields, keys) {
      RisingIsUnique(names, Spelt(x.fields, keys));
    }
  }

  /** A row is filed under exactly the key the code extracts. */
  lemma KeyIs(x: Json, key: string, show: string -> string)
    ensures FiledUnder(x, key, show) <==> Keyed(x, show) && ExtractKey(x.fields, show) == key
  {
    if x.Object? {
      PidIs(x, key, show);
      PortIs(x, key, show);
      DiskIs(x, key, show);
      ConnectionIs(x, key, show);
      NameIs(x, key, show);
      FieldsIs(x, key, show);
      hide ByPid, ByPort, ByDisk, ByConnection, ByName, ByFields;
      CaseIs(x.fields, show);
    }
  }

  /** What the row shows, as the code reads it. */
  function G(x: Json, name: string, show: string -> string): string
    requires x.Object?
  {
    Get(x.fields, name, show)
  }

  lemma PidIs(x: Json, key: string, show: string -> string)
    requires x.Object?
    ensures ByPid(x, key, show) <==> G(x, "pid", show) != "" && key == "pid:" + G(x, "pid", show)
  {
    assert Shows(x, "pid", G(x, "pid", show), show);
  }

  lemma PortIs(x: Json, key: string, show: string -> string)
    requires x.Object?
    ensures ByPort(x, key, show) <==>
              && G(x, "pid", show) == "" && G(x, "port", show) != ""
              && key == "port:" + G(x, "protocol", show) + ":" + G(x, "address", show) + ":" + G(x, "port", show)
  {
    assert Shows(x, "port", G(x, "port", show), show) && Shows(x, "protocol", G(x, "protocol", show), show)
      && Shows(x, "address", G(x, "address", show), show);
  }

  lemma DiskIs(x: Json, key: string, show: string -> string)
    requires x.Object?
    ensures ByDisk(x, key, show) <==>
              && G(x, "pid", show) == "" && G(x, "port", show) == ""
              && (G(x, "device", show) != "" || G(x, "mount_point", show) != "")
              && key == "disk:" + G(x, "mount_point", show) + "(" + G(x, "device", show) + ")"
  {
    assert Shows(x, "device", G(x, "device", show), show) && Shows(x, "mount_point", G(x, "mount_point", show), show);
  }

  lemma ConnectionIs(x: Json, key: string, show: string -> string)
    requires x.Object?
    ensures ByConnection(x, key, show) <==>
              && G(x, "pid", show) == "" && G(x, "port", show) == ""
              && G(x, "device", show) == "" && G(x, "mount_point", show) == ""
              && (G(x, "local_address", show) != "" || G(x, "remote_address", show) != "")
              && key == "conn:" + G(x, "local_address", show) + "->" + G(x, "remote_address", show)
  {
    assert Shows(x, "local_address", G(x, "local_address", show), show)
      && Shows(x, "remote_address", G(x, "remote_address", show), show);
  }

  lemma NameIs(x: Json, key: string, show: string -> string)
    requires x.Object?
    ensures ByName(x, key, show) <==>
              && G(x, "pid", show) == "" && G(x, "port", show) == ""
              && G(x, "device", show) == "" && G(x, "mount_point", show) == ""
              && G(x, "local_address", show) == "" && G(x, "remote_address", show) == ""
              && G(x, "name", show) != "" && key == "name:" + G(x, "name", show)
  {
    assert Shows(x, "name", G(x, "name", show), show);
  }

  lemma FieldsIs(x: Json, key: string, show: string -> string)
    requires x.Object?
    ensures (forall i :: 0 <= i < |Ordered(x.fields.Keys)| ==> Ordered(x.fields.Keys)[i] in x.fields)
    ensures ByFields(x, key, show) <==>
              && G(x, "pid", show) == "" && G(x, "port", show) == ""
              && G(x, "device", show) == "" && G(x, "mount_point", show) == ""
              && G(x, "local_address", show) == "" && G(x, "remote_address", show) == "" && G(x, "name", show) == ""
              && key == Fallback(x.fields, Ordered(x.fields.Keys), show) != ""
  {
    hide Ordered, Fallback, SpelledOut, Spellable;
    FallbackIs(x, key, show);
  }

  lemma CaseIs(fields: Fields, show: string -> string)
    ensures (forall i :: 0 <= i < |Ordered(fields.Keys)| ==> Ordered(fields.Keys)[i] in fields)
    ensures ExtractKey(fields, show) ==
      if Get(fields, "pid", show) != "" then "pid:" + Get(fields, "pid", show)
      else if Get(fields, "port", show) != "" then
        "port:" + Get(fields, "protocol", show) + ":" + Get(fields, "address", show) + ":" + Get(fields, "port", show)
      else if Get(fields, "device", show) != "" || Get(fields, "mount_point", show) != "" then
        "disk:" + Get(fields, "mount_point", show) + "(" + Get(fields, "device", show) + ")"
      else if Get(fields, "local_address", show) != "" || Get(fields, "remote_address", show) != "" then
        "conn:" + Get(fields, "local_address", show) + "->" + Get(fields, "remote_address", show)
      else if Get(fields, "name", show) != "" then "name:" + Get(fields, "name", show)
      else Fallback(fields, Ordered(fields.Keys), show)
  {
    OrderedDistinct(fields.Keys);
  }

  // ------------------------------------------------------------ tables and snapshots

  ghost predicate Holds(rows: seq<Json>, key: string, show: string -> string) {
    exists x :: x in rows && FiledUnder(x, key, show)
  }

  lemma IndexHolds(rows: seq<Json>, key: string, show: string -> string)
    ensures key in IndexOf(Array(rows), show) <==> Holds(rows, key, show)
  {
    hide FiledUnder, ExtractKey, Index;
    IndexFinds(rows, show);
    forall x ensures FiledUnder(x, key, show) <==> Keyed(x, show) && ExtractKey(x.fields, show) == key {
      KeyIs(x, key, show);
    }
  }

  /** Of any two tables: a key is listed as removed exactly when some row of the first is filed
      under it and none of the second, and as added exactly the other way round. */
  lemma ListedByKey(a: seq<Json>, b: seq<Json>, key: string, show: string -> string)
    ensures var d := ArrayDiff(Array(a), Array(b), show);
            && (key in d.removed <==> Holds(a, key, show) && !Holds(b, key, show))
            && (key in d.added <==> Holds(b, key, show) && !Holds(a, key, show))
  {
    hide Holds, ArrayDiff, IndexOf, FieldDiffs;
    DiffPartitionsKeys(Array(a), Array(b), show);
    IndexHolds(a, key, show);
    IndexHolds(b, key, show);
  }

  ghost predicate AllHavePids(rows: seq<Json>, show: string -> string) {
    forall x :: x in rows ==> exists pid :: pid != "" && Shows(x, "pid", pid, show)
  }

  ghost predicate SomeShows(rows: seq<Json>, name: string, text: string, show: string -> string) {
    exists x :: x in rows && Shows(x, name, text, show)
  }

  /** In tables of processes a pid is listed exactly when one of them shows it and the other
      does not, whatever the names are. */
  lemma ProcessesByPid(a: seq<Json>, b: seq<Json>, pid: string, show: string -> string)
    requires AllHavePids(a, show) && AllHavePids(b, show) && pid != ""
    ensures var d := ArrayDiff(Array(a), Array(b), show);
            && ("pid:" + pid in d.removed <==> SomeShows(a, "pid", pid, show) && !SomeShows(b, "pid", pid, show))
            && ("pid:" + pid in d.added <==> SomeShows(b, "pid", pid, show) && !SomeShows(a, "pid", pid, show))
  {
    hide Holds, AllHavePids, SomeShows, ArrayDiff;
    ListedByKey(a, b, "pid:" + pid, show);
    PidsHold(a, pid, show);
    PidsHold(b, pid, show);
  }

  lemma PidsHold(rows: seq<Json>, pid: string, show: string -> string)
    requires AllHavePids(rows, show) && pid != ""
    ensures Holds(rows, "pid:" + pid, show) <==> SomeShows(rows, "pid", pid, show)
  {
    hide Shows, ByPort, ByDisk, ByConnection, ByName, ByFields;
    forall x | x in rows ensures FiledUnder(x, "pid:" + pid, show) <==> Shows(x, "pid", pid, show) {
      OnlyByPid(x, "pid:" + pid, show);
      assert ("pid:" + pid)[4..] == pid;
    }
  }

  /** A row that shows a pid is filed by nothing else. */
  lemma OnlyByPid(x: Json, key: string, show: string -> string)
    requires exists pid :: pid != "" && Shows(x, "pid", pid, show)
    ensures FiledUnder(x, key, show) <==> ByPid(x, key, show)
    ensures forall p :: "pid:" + p == key ==> (ByPid(x, key, show) <==> p != "" && Shows(x, "pid", p, show))
  {
    forall p | "pid:" + p == key ensures ByPid(x, key, show) <==> p != "" && Shows(x, "pid", p, show) {
      assert key[4..] == p;
      assert forall q :: "pid:" + q == key ==> ("pid:" + q)[4..] == q;
    }
  }

  /** A process that is gone shows in the verdict: two snapshots whose process tables give pids,
      one of which the other lacks, do not agree. */
  lemma VanishedProcessDiffers(a: (Json, Json), b: (Json, Json), rows: seq<Json>, left: seq<Json>, pid: string, show: string -> string)
    requires SnapshotDiff.Find(a.1, "processes") == Some(Array(rows)) && SnapshotDiff.Find(b.1, "processes") == Some(Array(left))
    requires AllHavePids(rows, show) && AllHavePids(left, show) && pid != ""
    requires SomeShows(rows, "pid", pid, show) && !SomeShows(left, "pid", pid, show)
    ensures !SnapshotsAgree(a, b, show)
  {
    hide AllHavePids, SomeShows, ArrayDiff, TablesAgree;
    ProcessesByPid(rows, left, pid, show);
    NoDiffIffAgree(Array(rows), Array(left), show);
    assert SECTIONS[2] == ("processes", true);
  }

  // ------------------------------------------------------------ what is shown and said

  /** A scalar is shown as its JSON text, a string without its quotes and a number as rendered;
      exactly the arrays and objects are not scalars. */
  lemma ScalarsAre(v: Json, show: string -> string)
    ensures IsScalar(v) <==> !v.Array? && !v.Object?
    ensures v.Null? ==> Scalar(v, show) == Text(NullLit)
    ensures v.Bool? ==> Scalar(v, show) == Text(BoolLit(v.b))
    ensures v.Str? ==> Scalar(v, show) == v.s
    ensures v.Number? ==> Scalar(v, show) == show(v.lexeme)
  {
  }

  ghost predicate SaysRemoved(line: string, a: Fields, b: Fields) {
    exists k :: k in a && k !in b && line == k + " (removed)"
  }

  ghost predicate SaysAdded(line: string, a: Fields, b: Fields, show: string -> string) {
    exists k :: k in b && k !in a && line == k + " (added: " + Scalar(b[k], show) + ")"
  }

  ghost predicate SaysChanged(line: string, a: Fields, b: Fields, show: string -> string) {
    exists k :: k in a && k in b && !a[k].Array? && !a[k].Object? && Scalar(a[k], show) != Scalar(b[k], show)
                && line == k + ": " + Scalar(a[k], show) + " -> " + Scalar(b[k], show)
  }

  lemma {:induction false} LostSays(a: Fields, b: Fields, keys: seq<string>, line: string, show: string -> string)
    requires forall i :: 0 <= i < |keys| ==> keys[i] in a
    ensures line in LostOrChanged(a, b, keys, show) <==> exists k :: k in keys && line in LostLine(a, b, k, show)
  {
    hide LostLine;
    if keys != [] {
      var n := |keys| - 1;
      LostSays(a, b, keys[..n], line, show);
      assert keys == keys[..n] + [keys[n]];
    }
  }

  lemma {:induction false} GainedSays(a: Fields, b: Fields, keys: seq<string>, line: string, show: string -> string)
    requires forall i :: 0 <= i < |keys| ==> keys[i] in b
    ensures line in Gained(a, b, keys, show) <==> exists k :: k in keys && line in GainedLine(a, b, k, show)
  {
    hide GainedLine;
    if keys != [] {
      var n := |keys| - 1;
      GainedSays(a, b, keys[..n], line, show);
      assert keys == keys[..n] + [keys[n]];
    }
  }

  /** The lines of a field comparison: names that are gone, names that are new, and scalars that
      show differently, old before new. */
  lemma FieldLines(a: Fields, b: Fields, line: string, show: string -> string)
    ensures line in FieldDiffs(a, b, show) <==> SaysRemoved(line, a, b) || SaysChanged(line, a, b, show) || SaysAdded(line, a, b, show)
  {
    hide LostOrChanged, Gained, Ordered, Scalar;
    OrderedDistinct(a.Keys);
    OrderedDistinct(b.Keys);
    LostSays(a, b, Ordered(a.Keys), line, show);
    GainedSays(a, b, Ordered(b.Keys), line, show);
    forall k | k in a ensures line in LostLine(a, b, k, show) <==>
      (k !in b && line == k + " (removed)")
      || (k in b && !a[k].Array? && !a[k].Object? && Scalar(a[k], show) != Scalar(b[k], show)
          && line == k + ": " + Scalar(a[k], show) + " -> " + Scalar(b[k], show))
    {
    }
  }

  lemma {:induction false} ChangedSays(a: map<string, Fields>, b: map<string, Fields>, keys: seq<string>, k: string, text: string,
                                       show: string -> string)
    requires forall i :: 0 <= i < |keys| ==> keys[i] in a
    ensures (k, text) in Changed(a, b, keys, show) <==>
              k in keys && k in b && FieldDiffs(a[k], b[k], show) != [] && text == JoinWith("; ", FieldDiffs(a[k], b[k], show))
  {
    hide FieldDiffs, JoinWith;
    if keys != [] {
      var n := |keys| - 1;
      ChangedSays(a, b, keys[..n], k, text, show);
      assert keys == keys[..n] + [keys[n]];
    }
  }

  /** A changed row is listed with its lines, separated by semicolons. */
  lemma ChangesAre(a: Json, b: Json, k: string, text: string, show: string -> string)
    ensures var ia, ib := IndexOf(a, show), IndexOf(b, show);
            (k, text) in ArrayDiff(a, b, show).changed <==>
              k in ia && k in ib && FieldDiffs(ia[k], ib[k], show) != [] && text == JoinWith("; ", FieldDiffs(ia[k], ib[k], show))
  {
    hide FieldDiffs, JoinWith, IndexOf, Changed, Missing, Ordered;
    var ia, ib := IndexOf(a, show), IndexOf(b, show);
    OrderedDistinct(ia.Keys);
    ChangedSays(ia, ib, Ordered(ia.Keys), k, text, show);
  }
}
