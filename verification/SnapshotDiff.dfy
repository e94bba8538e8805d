/** The keyed diff of two snapshots. `show` renders a number lexeme the way scalar_to_string
    does; it need not tell different numbers apart. */
module SnapshotDiff {
  import opened JsonGrammar
  import opened JsonParser
  import opened JsonWriter
  import opened SnapshotWriter
  import opened Strings

  type Fields = map<string, Json>

  predicate IsScalar(v: Json) { v.Str? || v.Number? || v.Bool? || v.Null? }

  function Scalar(v: Json, show: string -> string): string {
    match v
    case Str(s) => s
    case Number(x) => show(x)
    case Bool(b) => if b then "true" else "false"
    case Null => "null"
    case _ => "<complex>"
  }

  // ------------------------------------------------------------ keys and the index

  function Get(obj: Fields, k: string, show: string -> string): string {
    if k in obj then Scalar(obj[k], show) else ""
  }

  function Fallback(obj: Fields, keys: seq<string>, show: string -> string): string
    requires forall i :: 0 <= i < |keys| ==> keys[i] in obj
  {
    if keys == [] then "" else
      (if obj[keys[0]].Str? || obj[keys[0]].Number? then keys[0] + "=" + Scalar(obj[keys[0]], show) + ";" else "")
      + Fallback(obj, keys[1..], show)
  }

  /** extract_key: what identifies an item inside its section. */
  function ExtractKey(obj: Fields, show: string -> string): string {
    var pid, port := Get(obj, "pid", show), Get(obj, "port", show);
    var dev, mount := Get(obj, "device", show), Get(obj, "mount_point", show);
    var laddr, raddr := Get(obj, "local_address", show), Get(obj, "remote_address", show);
    var name := Get(obj, "name", show);
    if pid != "" then "pid:" + pid
    else if port != "" then "port:" + Get(obj, "protocol", show) + ":" + Get(obj, "address", show) + ":" + port
    else if dev != "" || mount != "" then "disk:" + mount + "(" + dev + ")"
    else if laddr != "" || raddr != "" then "conn:" + laddr + "->" + raddr
    else if name != "" then "name:" + name
    else
      OrderedDistinct(obj.Keys);
      Fallback(obj, Ordered(obj.Keys), show)
  }

  predicate Keyed(v: Json, show: string -> string) { v.Object? && ExtractKey(v.fields, show) != "" }

  /** index_array on a list of items: the first item with a key keeps it. */
  function Index(items: seq<Json>, show: string -> string): map<string, Fields> {
    if items == [] then map[] else
      var before, item := Index(items[..|items| - 1], show), items[|items| - 1];
      if Keyed(item, show) && ExtractKey(item.fields, show) !in before
      then before[ExtractKey(item.fields, show) := item.fields] else before
  }

  function IndexOf(v: Json, show: string -> string): map<string, Fields> {
    if v.Array? then Index(v.items, show) else map[]
  }

  method IndexArray(v: Json, show: string -> string) returns (out: map<string, Fields>)
    ensures out == IndexOf(v, show)
  {
    out := map[];
    if !v.Array? { return; }
    for i := 0 to |v.items|
      invariant out == Index(v.items[..i], show)
    {
      var item := v.items[i];
      assert v.items[..i + 1][..i] == v.items[..i];
      if !item.Object? { continue; }
      var k := ExtractKey(item.fields, show);
      if k == "" { continue; }
      if k !in out { out := out[k := item.fields]; }
    }
    assert v.items[..|v.items|] == v.items;
  }

  /** Items that share a key are the same item. */
  ghost predicate KeysIdentify(items: seq<Json>, show: string -> string) {
    forall x, y ::
      (x in items && y in items && Keyed(x, show) && Keyed(y, show) && ExtractKey(x.fields, show) == ExtractKey(y.fields, show))
      ==> x == y
  }

  lemma {:induction false} IndexFinds(items: seq<Json>, show: string -> string)
    ensures forall k :: k in Index(items, show) ==>
              exists x :: x in items && Keyed(x, show) && ExtractKey(x.fields, show) == k && Index(items, show)[k] == x.fields
    ensures forall x :: x in items && Keyed(x, show) ==> ExtractKey(x.fields, show) in Index(items, show)
  {
    hide ExtractKey;
    if items != [] {
      var front, item := items[..|items| - 1], items[|items| - 1];
      assert items == front + [item];
      IndexFinds(front, show);
    }
  }

  /** The index does not depend on the order (or repetition) of items that keys identify. */
  lemma IndexIgnoresOrder(a: seq<Json>, b: seq<Json>, show: string -> string)
    requires KeysIdentify(a, show)
    requires forall x :: x in a <==> x in b
    ensures Index(a, show) == Index(b, show)
  {
    hide ExtractKey, Index;
    IndexFinds(a, show);
    IndexFinds(b, show);
    assert forall k :: k in Index(a, show) <==> k in Index(b, show);
    forall k | k in Index(a, show) ensures Index(a, show)[k] == Index(b, show)[k] {
      var x :| x in a && Keyed(x, show) && ExtractKey(x.fields, show) == k && Index(a, show)[k] == x.fields;
      var y :| y in b && Keyed(y, show) && ExtractKey(y.fields, show) == k && Index(b, show)[k] == y.fields;
      assert x == y;
    }
  }

  lemma {:induction false} FirstKeeps(x: Json, rest: seq<Json>, show: string -> string)
    requires Keyed(x, show)
    ensures var k := ExtractKey(x.fields, show); k in Index([x] + rest, show) && Index([x] + rest, show)[k] == x.fields
  {
    hide ExtractKey;
    if rest == [] {
      assert ([x] + rest)[..0] == [];
    } else {
      var n := |rest| - 1;
      assert ([x] + rest)[..|rest|] == [x] + rest[..n];
      FirstKeeps(x, rest[..n], show);
    }
  }

  function ToFront(items: seq<Json>, i: nat): seq<Json>
    requires i < |items|
  {
    [items[i]] + (items[..i] + items[i + 1..])
  }

  lemma ToFrontPermutes(items: seq<Json>, i: nat)
    requires i < |items|
    ensures multiset(ToFront(items, i)) == multiset(items)
  {
    assert items == items[..i] + ([items[i]] + items[i + 1..]);
  }

  /** Otherwise the order shows: putting one of two such items first gives another index than
      putting the other first. So order does not matter exactly when keys identify items. */
  lemma OrderIgnoredIff(items: seq<Json>, show: string -> string)
    ensures KeysIdentify(items, show) <==> forall b :: multiset(b) == multiset(items) ==> Index(b, show) == Index(items, show)
  {
    hide ExtractKey, Index, Keyed, ToFront;
    if KeysIdentify(items, show) {
      forall b | multiset(b) == multiset(items) ensures Index(b, show) == Index(items, show) {
        assert forall x :: x in items <==> x in multiset(items);
        assert forall x :: x in b <==> x in multiset(b);
        IndexIgnoresOrder(items, b, show);
      }
    } else {
      var i, j := SameKey(items, show);
      var x, y := items[i], items[j];
      ToFrontPermutes(items, i);
      ToFrontPermutes(items, j);
      FrontIndex(items, i, show);
      FrontIndex(items, j, show);
    }
  }

  lemma SameKey(items: seq<Json>, show: string -> string) returns (i: nat, j: nat)
    requires !KeysIdentify(items, show)
    ensures i < |items| && j < |items| && Keyed(items[i], show) && Keyed(items[j], show)
    ensures ExtractKey(items[i].fields, show) == ExtractKey(items[j].fields, show) && items[i].fields != items[j].fields
  {
    hide ExtractKey;
    var x, y :| x in items && y in items && Keyed(x, show) && Keyed(y, show)
                && ExtractKey(x.fields, show) == ExtractKey(y.fields, show) && x != y;
    i :| i < |items| && items[i] == x;
    j :| j < |items| && items[j] == y;
  }

  lemma FrontIndex(items: seq<Json>, i: nat, show: string -> string)
    requires i < |items| && Keyed(items[i], show)
    ensures var k := ExtractKey(items[i].fields, show);
            k in Index(ToFront(items, i), show) && Index(ToFront(items, i), show)[k] == items[i].fields
  {
    hide ExtractKey, Index;
    FirstKeeps(items[i], items[..i] + items[i + 1..], show);
  }

  // ------------------------------------------------------------ field lists

  /** The first loop of diff_fields. */
  function LostOrChanged(a: Fields, b: Fields, keys: seq<string>, show: string -> string): seq<string>
    requires forall i :: 0 <= i < |keys| ==> keys[i] in a
  {
    if keys == [] then [] else
      var n := |keys| - 1;
      LostOrChanged(a, b, keys[..n], show) + LostLine(a, b, keys[n], show)
  }

  function LostLine(a: Fields, b: Fields, k: string, show: string -> string): seq<string>
    requires k in a
  {
    if k !in b then [k + " (removed)"]
    else if IsScalar(a[k]) && Scalar(a[k], show) != Scalar(b[k], show)
    then [k + ": " + Scalar(a[k], show) + " -> " + Scalar(b[k], show)] else []
  }

  /** The second loop of diff_fields. */
  function Gained(a: Fields, b: Fields, keys: seq<string>, show: string -> string): seq<string>
    requires forall i :: 0 <= i < |keys| ==> keys[i] in b
  {
    if keys == [] then [] else
      var n := |keys| - 1;
      Gained(a, b, keys[..n], show) + GainedLine(a, b, keys[n], show)
  }

  function GainedLine(a: Fields, b: Fields, k: string, show: string -> string): seq<string>
    requires k in b
  {
    if k in a then [] else [k + " (added: " + Scalar(b[k], show) + ")"]
  }

  function FieldDiffs(a: Fields, b: Fields, show: string -> string): seq<string> {
    OrderedDistinct(a.Keys);
    OrderedDistinct(b.Keys);
    LostOrChanged(a, b, Ordered(a.Keys), show) + Gained(a, b, Ordered(b.Keys), show)
  }

  lemma FieldStep(a: Fields, b: Fields, keys: seq<string>, i: nat, show: string -> string)
    requires i < |keys|
    ensures (forall j :: 0 <= j < |keys| ==> keys[j] in a) ==>
              LostOrChanged(a, b, keys[..i + 1], show) == LostOrChanged(a, b, keys[..i], show) + LostLine(a, b, keys[i], show)
    ensures (forall j :: 0 <= j < |keys| ==> keys[j] in b) ==>
              Gained(a, b, keys[..i + 1], show) == Gained(a, b, keys[..i], show) + GainedLine(a, b, keys[i], show)
  {
    assert keys[..i + 1][..i] == keys[..i];
  }

  method DiffFields(a: Fields, b: Fields, show: string -> string) returns (diffs: seq<string>)
    ensures diffs == FieldDiffs(a, b, show)
  {
    hide Ordered, Scalar, IsScalar, LostOrChanged, Gained;
    OrderedDistinct(a.Keys);
    OrderedDistinct(b.Keys);
    diffs := [];
    var ka, kb := Ordered(a.Keys), Ordered(b.Keys);
    NoFieldLines(a, b, show);
    for i := 0 to |ka|
      invariant diffs == LostOrChanged(a, b, ka[..i], show)
    {
      var k := ka[i];
      FieldStep(a, b, ka, i, show);
      if k !in b {
        diffs := diffs + [k + " (removed)"];
        continue;
      }
      if IsScalar(a[k]) {
        if Scalar(a[k], show) != Scalar(b[k], show) {
          diffs := diffs + [k + ": " + Scalar(a[k], show) + " -> " + Scalar(b[k], show)];
        }
      }
    }
    assert ka[..|ka|] == ka;
    ghost var lost := diffs;
    for i := 0 to |kb|
      invariant diffs == lost + Gained(a, b, kb[..i], show)
    {
      FieldStep(a, b, kb, i, show);
      if kb[i] !in a {
        diffs := diffs + [kb[i] + " (added: " + Scalar(b[kb[i]], show) + ")"];
      }
    }
    assert kb[..|kb|] == kb;
  }

  lemma NoFieldLines(a: Fields, b: Fields, show: string -> string)
    ensures LostOrChanged(a, b, [], show) == [] && Gained(a, b, [], show) == []
  {
  }

  /** What diff_fields accepts as no difference: same names, and every scalar of `a` shown
      as in `b`. A nested value of `a` is not compared. */
  ghost predicate SameFields(a: Fields, b: Fields, show: string -> string) {
    a.Keys == b.Keys && forall k :: k in a && IsScalar(a[k]) ==> Scalar(a[k], show) == Scalar(b[k], show)
  }

  lemma {:induction false} LostOrChangedEmpty(a: Fields, b: Fields, keys: seq<string>, show: string -> string)
    requires forall i :: 0 <= i < |keys| ==> keys[i] in a
    ensures LostOrChanged(a, b, keys, show) == []
       <==> forall k :: k in keys ==> k in b && (IsScalar(a[k]) ==> Scalar(a[k], show) == Scalar(b[k], show))
  {
    if keys != [] {
      var n := |keys| - 1;
      LostOrChangedEmpty(a, b, keys[..n], show);
      assert keys == keys[..n] + [keys[n]];
    }
  }

  lemma {:induction false} GainedEmpty(a: Fields, b: Fields, keys: seq<string>, show: string -> string)
    requires forall i :: 0 <= i < |keys| ==> keys[i] in b
    ensures Gained(a, b, keys, show) == [] <==> forall k :: k in keys ==> k in a
  {
    if keys != [] {
      var n := |keys| - 1;
      GainedEmpty(a, b, keys[..n], show);
      assert keys == keys[..n] + [keys[n]];
    }
  }

  lemma FieldDiffsEmpty(a: Fields, b: Fields, show: string -> string)
    ensures FieldDiffs(a, b, show) == [] <==> SameFields(a, b, show)
  {
    hide Ordered, LostOrChanged, Gained, Scalar, IsScalar;
    OrderedDistinct(a.Keys);
    OrderedDistinct(b.Keys);
    LostOrChangedEmpty(a, b, Ordered(a.Keys), show);
    GainedEmpty(a, b, Ordered(b.Keys), show);
  }

  ghost predicate Flat(m: Fields) { forall k :: k in m ==> IsScalar(m[k]) }

  /** A record as scalar_to_string shows it. */
  ghost function Shown(m: Fields, show: string -> string): map<string, string> {
    map k | k in m :: Scalar(m[k], show)
  }

  /** On flat records, no difference means the same shown record, and so is symmetric. */
  lemma FlatFieldDiffs(a: Fields, b: Fields, show: string -> string)
    requires Flat(a)
    ensures FieldDiffs(a, b, show) == [] <==> Shown(a, show) == Shown(b, show)
    ensures Flat(b) ==> (FieldDiffs(a, b, show) == [] <==> FieldDiffs(b, a, show) == [])
  {
    FieldDiffsEmpty(a, b, show);
    FieldDiffsEmpty(b, a, show);
    assert Shown(a, show).Keys == a.Keys && Shown(b, show).Keys == b.Keys;
    if Shown(a, show) == Shown(b, show) {
      forall k | k in a ensures k in b && Scalar(a[k], show) == Scalar(b[k], show) {
        assert k in Shown(b, show) && Shown(a, show)[k] == Shown(b, show)[k];
      }
    }
  }

  /** For any records: exchanging the sides changes the answer exactly when the names agree,
      the one side finds nothing, and the other has a scalar facing a nested value. */
  lemma FieldDiffsAsymmetry(a: Fields, b: Fields, show: string -> string)
    requires FieldDiffs(a, b, show) == []
    ensures FieldDiffs(b, a, show) != [] <==>
              exists k :: k in a && k in b && !IsScalar(a[k]) && IsScalar(b[k]) && Scalar(b[k], show) != "<complex>"
  {
    FieldDiffsEmpty(a, b, show);
    FieldDiffsEmpty(b, a, show);
  }

  // ------------------------------------------------------------ table sections

  datatype SectionDiff = SectionDiff(added: seq<string>, removed: seq<string>, changed: seq<(string, string)>)

  /** The keys of `keys` that the other index lacks, in order. */
  function Missing(keys: seq<string>, other: map<string, Fields>): seq<string> {
    if keys == [] then [] else
      var n := |keys| - 1;
      Missing(keys[..n], other) + (if keys[n] in other then [] else [keys[n]])
  }

  /** Descriptions joined by "; ". */
  function Describe(fields: seq<string>): string { JoinWith("; ", fields) }

  function Changed(a: map<string, Fields>, b: map<string, Fields>, keys: seq<string>, show: string -> string): seq<(string, string)>
    requires forall i :: 0 <= i < |keys| ==> keys[i] in a
  {
    if keys == [] then [] else
      var n := |keys| - 1;
      Changed(a, b, keys[..n], show) + ChangedItem(a, b, keys[n], show)
  }

  function ChangedItem(a: map<string, Fields>, b: map<string, Fields>, k: string, show: string -> string): seq<(string, string)>
    requires k in a
  {
    if k in b && FieldDiffs(a[k], b[k], show) != [] then [(k, Describe(FieldDiffs(a[k], b[k], show)))] else []
  }

  function TableDiff(a: map<string, Fields>, b: map<string, Fields>, show: string -> string): SectionDiff {
    OrderedDistinct(a.Keys);
    SectionDiff(Missing(Ordered(b.Keys), a), Missing(Ordered(a.Keys), b), Changed(a, b, Ordered(a.Keys), show))
  }

  function ArrayDiff(a: Json, b: Json, show: string -> string): SectionDiff {
    TableDiff(IndexOf(a, show), IndexOf(b, show), show)
  }

  method JoinFields(fields: seq<string>) returns (desc: string)
    ensures desc == Describe(fields)
  {
    desc := "";
    for i := 0 to |fields|
      invariant desc == JoinWith("; ", fields[..i])
    {
      assert fields[..i + 1] == fields[..i] + [fields[i]];
      JoinAppend("; ", fields[..i], fields[i]);
      if i > 0 { desc := desc + "; "; }
      desc := desc + fields[i];
    }
    assert fields[..|fields|] == fields;
  }

  lemma MissingStep(keys: seq<string>, i: nat, other: map<string, Fields>)
    requires i < |keys|
    ensures Missing(keys[..i + 1], other) == Missing(keys[..i], other) + (if keys[i] in other then [] else [keys[i]])
  {
    assert keys[..i + 1][..i] == keys[..i];
  }

  lemma ChangedStep(a: map<string, Fields>, b: map<string, Fields>, keys: seq<string>, i: nat, show: string -> string)
    requires i < |keys| && forall j :: 0 <= j < |keys| ==> keys[j] in a
    ensures Changed(a, b, keys[..i + 1], show) == Changed(a, b, keys[..i], show) + ChangedItem(a, b, keys[i], show)
  {
    hide ChangedItem;
    assert keys[..i + 1][..i] == keys[..i];
  }

  lemma NothingDiffers(a: map<string, Fields>, b: map<string, Fields>, show: string -> string)
    ensures Missing([], a) == [] && Missing([], b) == [] && Changed(a, b, [], show) == []
  {
  }

  method DiffArraySection(a: Json, b: Json, show: string -> string) returns (d: SectionDiff)
    ensures d == ArrayDiff(a, b, show)
  {
    hide FieldDiffs, Describe, IndexOf, Ordered, Missing, Changed;
    var ia := IndexArray(a, show);
    var ib := IndexArray(b, show);
    OrderedDistinct(ia.Keys);
    var ka, kb := Ordered(ia.Keys), Ordered(ib.Keys);
    d := SectionDiff([], [], []);
    NothingDiffers(ia, ib, show);
    for i := 0 to |ka|
      invariant d == SectionDiff([], Missing(ka[..i], ib), Changed(ia, ib, ka[..i], show))
    {
      var k := ka[i];
      MissingStep(ka, i, ib);
      ChangedStep(ia, ib, ka, i, show);
      if k !in ib {
        d := d.(removed := d.removed + [k]);
      } else {
        var fields := DiffFields(ia[k], ib[k], show);
        if fields != [] {
          var desc := JoinFields(fields);
          d := d.(changed := d.changed + [(k, desc)]);
        }
      }
    }
    assert ka[..|ka|] == ka;
    for i := 0 to |kb|
      invariant d == SectionDiff(Missing(kb[..i], ia), Missing(ka, ib), Changed(ia, ib, ka, show))
    {
      MissingStep(kb, i, ia);
      if kb[i] !in ia { d := d.(added := d.added + [kb[i]]); }
    }
    assert kb[..|kb|] == kb;
  }

  // ------------------------------------------------------------ algebra of table diffs

  predicate Distinct(s: seq<string>) { forall i, j :: 0 <= i < j < |s| ==> s[i] != s[j] }

  lemma {:induction false} MissingIs(keys: seq<string>, other: map<string, Fields>)
    requires Distinct(keys)
    ensures Distinct(Missing(keys, other))
    ensures forall k :: k in Missing(keys, other) <==> k in keys && k !in other
  {
    if keys != [] {
      var n := |keys| - 1;
      MissingIs(keys[..n], other);
      assert keys == keys[..n] + [keys[n]];
    }
  }

  function ChangedKeys(changed: seq<(string, string)>): seq<string> {
    if changed == [] then [] else ChangedKeys(changed[..|changed| - 1]) + [changed[|changed| - 1].0]
  }

  lemma {:induction false} ChangedIs(a: map<string, Fields>, b: map<string, Fields>, keys: seq<string>, show: string -> string)
    requires Distinct(keys) && forall i :: 0 <= i < |keys| ==> keys[i] in a
    ensures var ck := ChangedKeys(Changed(a, b, keys, show));
            && Distinct(ck)
            && forall k :: k in ck <==> k in keys && k in b && FieldDiffs(a[k], b[k], show) != []
  {
    hide FieldDiffs, Describe;
    if keys != [] {
      var n := |keys| - 1;
      ChangedIs(a, b, keys[..n], show);
      assert keys == keys[..n] + [keys[n]];
      var front := Changed(a, b, keys[..n], show);
      var d := Changed(a, b, keys, show);
      if d != front {
        assert d[..|d| - 1] == front;
      }
    }
  }

  /** Removed, added and common keys partition the keys of the two indexes; the changed keys
      are those common keys whose fields differ; no key is listed twice. */
  lemma DiffPartitionsKeys(a: Json, b: Json, show: string -> string)
    ensures var d, ia, ib := ArrayDiff(a, b, show), IndexOf(a, show), IndexOf(b, show);
            && Distinct(d.added) && Distinct(d.removed) && Distinct(ChangedKeys(d.changed))
            && (forall k :: k in d.removed <==> k in ia && k !in ib)
            && (forall k :: k in d.added <==> k in ib && k !in ia)
            && (forall k :: k in ChangedKeys(d.changed) <==> k in ia && k in ib && FieldDiffs(ia[k], ib[k], show) != [])
            && (forall k :: k in ia || k in ib <==> k in d.removed || k in d.added || (k in ia && k in ib))
  {
    hide FieldDiffs, Index;
    var ia, ib := IndexOf(a, show), IndexOf(b, show);
    OrderedDistinct(ia.Keys);
    OrderedDistinct(ib.Keys);
    MissingIs(Ordered(ia.Keys), ib);
    MissingIs(Ordered(ib.Keys), ia);
    ChangedIs(ia, ib, Ordered(ia.Keys), show);
  }

  /** Exchanging the snapshots exchanges added and removed; on flat items it keeps the changed keys. */
  lemma DiffConverse(a: Json, b: Json, show: string -> string)
    ensures ArrayDiff(a, b, show).added == ArrayDiff(b, a, show).removed
    ensures ArrayDiff(a, b, show).removed == ArrayDiff(b, a, show).added
    ensures FlatTable(a, show) && FlatTable(b, show) ==>
              forall k :: k in ChangedKeys(ArrayDiff(a, b, show).changed) <==> k in ChangedKeys(ArrayDiff(b, a, show).changed)
  {
    if FlatTable(a, show) && FlatTable(b, show) {
      DiffPartitionsKeys(a, b, show);
      DiffPartitionsKeys(b, a, show);
      var ia, ib := IndexOf(a, show), IndexOf(b, show);
      forall k | k in ia && k in ib ensures FieldDiffs(ia[k], ib[k], show) == [] <==> FieldDiffs(ib[k], ia[k], show) == [] {
        FlatFieldDiffs(ia[k], ib[k], show);
      }
    }
  }

  ghost predicate FlatTable(v: Json, show: string -> string) {
    forall k :: k in IndexOf(v, show) ==> Flat(IndexOf(v, show)[k])
  }

  predicate NoDiff(d: SectionDiff) { d.added == [] && d.removed == [] && d.changed == [] }

  /** Two tables agree: same keys, and the same fields under each key. */
  ghost predicate TablesAgree(a: Json, b: Json, show: string -> string) {
    var ia, ib := IndexOf(a, show), IndexOf(b, show);
    ia.Keys == ib.Keys && forall k :: k in ia ==> SameFields(ia[k], ib[k], show)
  }

  lemma NoDiffIffAgree(a: Json, b: Json, show: string -> string)
    ensures NoDiff(ArrayDiff(a, b, show)) <==> TablesAgree(a, b, show)
  {
    hide FieldDiffs, Index, SameFields, ArrayDiff, TableDiff, Missing, Changed, Ordered;
    var d, ia, ib := ArrayDiff(a, b, show), IndexOf(a, show), IndexOf(b, show);
    DiffPartitionsKeys(a, b, show);
    assert d.changed == [] <==> ChangedKeys(d.changed) == [];
    assert ChangedKeys(d.changed) == [] <==> forall k :: k !in ChangedKeys(d.changed) by { NoElements(ChangedKeys(d.changed)); }
    assert d.added == [] <==> forall k :: k !in d.added by { NoElements(d.added); }
    assert d.removed == [] <==> forall k :: k !in d.removed by { NoElements(d.removed); }
    forall k | k in ia && k in ib ensures FieldDiffs(ia[k], ib[k], show) == [] <==> SameFields(ia[k], ib[k], show) {
      FieldDiffsEmpty(ia[k], ib[k], show);
    }
  }

  lemma NoElements(s: seq<string>)
    ensures s == [] <==> forall k :: k !in s
  {
    if s != [] {
      assert s[0] in s;
    }
  }

  lemma DiffWithItself(a: Json, show: string -> string)
    ensures NoDiff(ArrayDiff(a, a, show))
  {
    NoDiffIffAgree(a, a, show);
  }

  /** Reordering a table whose keys identify its items changes nothing in any diff with it. */
  lemma DiffIgnoresOrder(a: seq<Json>, b: seq<Json>, other: Json, show: string -> string)
    requires KeysIdentify(a, show) && multiset(a) == multiset(b)
    ensures ArrayDiff(Array(a), other, show) == ArrayDiff(Array(b), other, show)
    ensures ArrayDiff(other, Array(a), show) == ArrayDiff(other, Array(b), show)
    ensures NoDiff(ArrayDiff(Array(a), Array(b), show))
  {
    forall x ensures x in a <==> x in b {
      assert x in a <==> x in multiset(a);
      assert x in b <==> x in multiset(b);
    }
    IndexIgnoresOrder(a, b, show);
    DiffWithItself(Array(a), show);
  }

  // ------------------------------------------------------------ the verdict of SnapshotDiff::run

  /** The sections that are compared; true marks a table. */
  const SECTIONS: seq<(string, bool)> :=
    [("system", false), ("disks", true), ("processes", true), ("connections", true),
     ("listening_ports", true), ("environment", false)]

  const META_KEYS: seq<string> := ["host", "platform", "architecture", "user", "uptime_seconds"]

  function Find(v: Json, key: string): Option<Json> {
    if v.Object? && key in v.fields then Some(v.fields[key]) else None
  }

  /** The snapshot object and its sections, when the document has both. */
  function Extract(root: Json): Option<(Json, Json)> {
    match Find(root, "snapshot")
    case None => None
    case Some(snap) =>
      match Find(snap, "sections")
      case None => None
      case Some(secs) => Some((snap, secs))
  }

  /** When a section counts as unchanged. Two values that are not both objects pass unseen. */
  ghost predicate SectionAgrees(a: Option<Json>, b: Option<Json>, table: bool, show: string -> string) {
    match (a, b)
    case (None, None) => true
    case (Some(x), Some(y)) =>
      if table then TablesAgree(x, y, show)
      else x.Object? && y.Object? ==> SameFields(x.fields, y.fields, show)
    case _ => false
  }

  ghost predicate MetaAgrees(a: Option<Json>, b: Option<Json>, show: string -> string) {
    match (a, b)
    case (None, None) => true
    case (Some(x), Some(y)) => Scalar(x, show) == Scalar(y, show)
    case _ => false
  }

  ghost predicate SnapshotsAgree(a: (Json, Json), b: (Json, Json), show: string -> string) {
    && (forall i :: 0 <= i < |SECTIONS| ==>
          SectionAgrees(Find(a.1, SECTIONS[i].0), Find(b.1, SECTIONS[i].0), SECTIONS[i].1, show))
    && (forall i :: 0 <= i < |META_KEYS| ==> MetaAgrees(Find(a.0, META_KEYS[i]), Find(b.0, META_KEYS[i]), show))
  }

  method SectionDiffers(a: Option<Json>, b: Option<Json>, table: bool, show: string -> string) returns (differs: bool)
    ensures differs <==> !SectionAgrees(a, b, table, show)
  {
    hide SameFields, FieldDiffs, Index;
    if a.None? && b.None? { return false; }
    if a.None? || b.None? { return true; }
    if table {
      var d := DiffArraySection(a.value, b.value, show);
      NoDiffIffAgree(a.value, b.value, show);
      return d.added != [] || d.removed != [] || d.changed != [];
    }
    if !a.value.Object? || !b.value.Object? { return false; }
    var fields := DiffFields(a.value.fields, b.value.fields, show);
    FieldDiffsEmpty(a.value.fields, b.value.fields, show);
    return fields != [];
  }

  /** Whether anything differs between two snapshots. */
  method AnyDiff(a: (Json, Json), b: (Json, Json), show: string -> string) returns (any: bool)
    ensures any <==> !SnapshotsAgree(a, b, show)
  {
    hide SectionAgrees, MetaAgrees;
    any := false;
    for i := 0 to |SECTIONS|
      invariant !any <==> forall j :: 0 <= j < i ==>
        SectionAgrees(Find(a.1, SECTIONS[j].0), Find(b.1, SECTIONS[j].0), SECTIONS[j].1, show)
    {
      var differs := SectionDiffers(Find(a.1, SECTIONS[i].0), Find(b.1, SECTIONS[i].0), SECTIONS[i].1, show);
      if differs { any := true; }
    }
    ghost var sectionsAgree := !any;
    for i := 0 to |META_KEYS|
      invariant !any <==> sectionsAgree && forall j :: 0 <= j < i ==>
        MetaAgrees(Find(a.0, META_KEYS[j]), Find(b.0, META_KEYS[j]), show)
    {
      var differs := MetaDiffers(Find(a.0, META_KEYS[i]), Find(b.0, META_KEYS[i]), show);
      if differs { any := true; }
    }
  }

  method MetaDiffers(a: Option<Json>, b: Option<Json>, show: string -> string) returns (differs: bool)
    ensures differs <==> !MetaAgrees(a, b, show)
  {
    if a.Some? && b.Some? { return Scalar(a.value, show) != Scalar(b.value, show); }
    return a.Some? || b.Some?;
  }

  /** A text that holds a snapshot: it parses, and has a snapshot object with sections. */
  function Snapshot(text: string, stod: string -> bool): Option<(Json, Json)> {
    var r := Source(text, stod).Parse();
    if r.Ok? then Extract(r.value) else None
  }

  /** Both texts hold snapshots, and these agree. */
  ghost predicate NoDifference(textA: string, textB: string, stod: string -> bool, show: string -> string) {
    && Snapshot(textA, stod).Some? && Snapshot(textB, stod).Some?
    && SnapshotsAgree(Snapshot(textA, stod).value, Snapshot(textB, stod).value, show)
  }

  /** The exit status for two readable files: 2 for bad input, else 1 when something differs. */
  method Run(textA: string, textB: string, stod: string -> bool, show: string -> string) returns (status: int)
    ensures status == 0 || status == 1 || status == 2
    ensures status == 2 <==> Snapshot(textA, stod).None? || Snapshot(textB, stod).None?
    ensures status == 0 <==> NoDifference(textA, textB, stod, show)
  {
    hide SnapshotsAgree, Source.Value;
    var pa := new Parser(textA, stod);
    var pb := new Parser(textB, stod);
    var okA, rootA := pa.Parse();
    if !okA { return 2; }
    var okB, rootB := pb.Parse();
    if !okB { return 2; }
    var a, b := Extract(rootA), Extract(rootB);
    if a.None? || b.None? { return 2; }
    var any := AnyDiff(a.value, b.value, show);
    return if any then 1 else 0;
  }

  // ------------------------------------------------------------ flat snapshots

  /** What the diff can see of a section: shown records, by key in a table. */
  datatype View = NoSection | RecordView(record: map<string, string>) | TableView(rows: map<string, map<string, string>>)

  ghost function ViewOf(v: Option<Json>, table: bool, show: string -> string): View {
    match v
    case None => NoSection
    case Some(x) =>
      if table then TableView(map k | k in IndexOf(x, show) :: Shown(IndexOf(x, show)[k], show))
      else if x.Object? then RecordView(Shown(x.fields, show)) else RecordView(map[])
  }

  ghost predicate FlatSection(v: Option<Json>, table: bool, show: string -> string) {
    v.Some? ==> if table then FlatTable(v.value, show) else v.value.Object? && Flat(v.value.fields)
  }

  ghost predicate FlatSnapshot(a: (Json, Json), show: string -> string) {
    forall i :: 0 <= i < |SECTIONS| ==> FlatSection(Find(a.1, SECTIONS[i].0), SECTIONS[i].1, show)
  }

  lemma FlatSectionAgrees(a: Option<Json>, b: Option<Json>, table: bool, show: string -> string)
    requires FlatSection(a, table, show) && FlatSection(b, table, show)
    ensures SectionAgrees(a, b, table, show) <==> ViewOf(a, table, show) == ViewOf(b, table, show)
  {
    hide Index;
    if a.Some? && b.Some? {
      if table {
        var ia, ib := IndexOf(a.value, show), IndexOf(b.value, show);
        var va, vb := ViewOf(a, table, show).rows, ViewOf(b, table, show).rows;
        assert va.Keys == ia.Keys && vb.Keys == ib.Keys;
        forall k | k in ia && k in ib ensures SameFields(ia[k], ib[k], show) <==> va[k] == vb[k] {
          FlatFieldDiffs(ia[k], ib[k], show);
          FieldDiffsEmpty(ia[k], ib[k], show);
        }
      } else {
        FlatFieldDiffs(a.value.fields, b.value.fields, show);
        FieldDiffsEmpty(a.value.fields, b.value.fields, show);
      }
    }
  }

  /** For flat snapshots the verdict is "no difference" exactly when every section and every
      metadata field is the same up to rendering. */
  lemma FlatVerdict(a: (Json, Json), b: (Json, Json), show: string -> string)
    requires FlatSnapshot(a, show) && FlatSnapshot(b, show)
    ensures SnapshotsAgree(a, b, show) <==>
              && (forall i :: 0 <= i < |SECTIONS| ==>
                    ViewOf(Find(a.1, SECTIONS[i].0), SECTIONS[i].1, show) == ViewOf(Find(b.1, SECTIONS[i].0), SECTIONS[i].1, show))
              && (forall i :: 0 <= i < |META_KEYS| ==> MetaAgrees(Find(a.0, META_KEYS[i]), Find(b.0, META_KEYS[i]), show))
    ensures SnapshotsAgree(a, b, show) <==> SnapshotsAgree(b, a, show)
  {
    hide SectionAgrees, ViewOf;
    forall i | 0 <= i < |SECTIONS|
      ensures SectionAgrees(Find(a.1, SECTIONS[i].0), Find(b.1, SECTIONS[i].0), SECTIONS[i].1, show)
         <==> ViewOf(Find(a.1, SECTIONS[i].0), SECTIONS[i].1, show) == ViewOf(Find(b.1, SECTIONS[i].0), SECTIONS[i].1, show)
      ensures SectionAgrees(Find(a.1, SECTIONS[i].0), Find(b.1, SECTIONS[i].0), SECTIONS[i].1, show)
         <==> SectionAgrees(Find(b.1, SECTIONS[i].0), Find(a.1, SECTIONS[i].0), SECTIONS[i].1, show)
    {
      FlatSectionAgrees(Find(a.1, SECTIONS[i].0), Find(b.1, SECTIONS[i].0), SECTIONS[i].1, show);
      FlatSectionAgrees(Find(b.1, SECTIONS[i].0), Find(a.1, SECTIONS[i].0), SECTIONS[i].1, show);
    }
  }

  // ------------------------------------------------------------ from generator to differ

  lemma {:induction false} RowJsonIsFlat(r: Row)
    ensures Flat(RowJson(r))
  {
    if r != [] {
      RowJsonIsFlat(r[1..]);
    }
  }

  lemma {:induction false} RowJsonsAreFlat(rows: seq<Row>)
    ensures forall x :: x in RowJsons(rows) ==> x.Object? && Flat(x.fields)
  {
    if rows != [] {
      RowJsonIsFlat(rows[0]);
      RowJsonsAreFlat(rows[1..]);
    }
  }

  lemma GeneratedSectionIsFlat(s: Section, show: string -> string)
    ensures FlatSection(Some(SectionJson(s)), s.Table?, show)
  {
    hide Index, Flat, RowJson;
    match s
    case Record(_, row) => RowJsonIsFlat(row);
    case Table(_, rows) =>
      RowJsonsAreFlat(rows);
      IndexFinds(RowJsons(rows), show);
  }

  /** Each section is of the kind the differ expects under its name. */
  ghost predicate KindsMatch(ss: seq<Section>) {
    forall s, i :: s in ss && 0 <= i < |SECTIONS| && SECTIONS[i].0 == s.name ==> SECTIONS[i].1 == s.Table?
  }

  lemma {:induction false} SectionsJsonFinds(ss: seq<Section>)
    ensures forall n :: n in SectionsJson(ss) ==> exists s :: s in ss && s.name == n && SectionsJson(ss)[n] == SectionJson(s)
  {
    hide SectionJson;
    if ss != [] {
      SectionsJsonFinds(ss[1..]);
      assert ss[0] in ss && forall s :: s in ss[1..] ==> s in ss;
    }
  }

  /** Every generated snapshot is flat, so FlatVerdict is the verdict on any two of them. */
  lemma GeneratedIsFlat(meta: Row, ss: seq<Section>, show: string -> string)
    requires KindsMatch(ss)
    ensures FlatSnapshot((Object(RowJson(meta) + map["sections" := Object(SectionsJson(ss))]), Object(SectionsJson(ss))), show)
  {
    hide SectionJson, FlatSection, SectionsJson, RowJson;
    SectionsJsonFinds(ss);
    var secs := Object(SectionsJson(ss));
    forall i | 0 <= i < |SECTIONS| ensures FlatSection(Find(secs, SECTIONS[i].0), SECTIONS[i].1, show) {
      var n := SECTIONS[i].0;
      if n in SectionsJson(ss) {
        var s :| s in ss && s.name == n && SectionsJson(ss)[n] == SectionJson(s);
        GeneratedSectionIsFlat(s, show);
      } else {
        AbsentIsFlat(SECTIONS[i].1, show);
      }
    }
  }

  lemma AbsentIsFlat(table: bool, show: string -> string)
    ensures FlatSection(None, table, show)
  {
  }

  // ------------------------------------------------------------ generator, parser and differ together

  /** A generated file read by the differ: its snapshot is the captured data. */
  lemma GeneratedSnapshot(meta: Row, ss: seq<Section>, stod: string -> bool)
    requires WfRow(meta, stod) && forall i :: 0 <= i < |ss| ==> WfSection(ss[i], stod)
    ensures Snapshot(Text(DocumentCst(meta, ss)) + "\n", stod)
         == Some((Object(RowJson(meta) + map["sections" := Object(SectionsJson(ss))]), Object(SectionsJson(ss))))
  {
    hide Text, DocumentCst, RowJson, SectionsJson, Source.Value;
    SnapshotParses(meta, ss, stod);
  }

  /** What was captured: metadata and sections of the kinds the differ expects, in the shape the
      generator writes. */
  datatype Capture = Capture(meta: Row, sections: seq<Section>) {
    ghost predicate Valid(stod: string -> bool) {
      && WfRow(meta, stod) && (forall i :: 0 <= i < |sections| ==> WfSection(sections[i], stod)) && KindsMatch(sections)
    }

    /** The file that Generate writes. */
    function File(): string { Text(DocumentCst(meta, sections)) + "\n" }

    ghost function Seen(name: string, table: bool, show: string -> string): View {
      ViewOf(Find(Object(SectionsJson(sections)), name), table, show)
    }
  }

  ghost predicate SameSeen(a: Capture, b: Capture, name: string, table: bool, show: string -> string) {
    a.Seen(name, table, show) == b.Seen(name, table, show)
  }

  ghost predicate SameMeta(a: Capture, b: Capture, name: string, show: string -> string) {
    MetaAgrees(Find(Object(RowJson(a.meta)), name), Find(Object(RowJson(b.meta)), name), show)
  }

  /** The exit status for two generated files is 0 exactly when the captured sections look the
      same and the captured metadata is the same up to rendering. */
  lemma GeneratedVerdict(a: Capture, b: Capture, stod: string -> bool, show: string -> string)
    requires a.Valid(stod) && b.Valid(stod)
    ensures NoDifference(a.File(), b.File(), stod, show) <==>
              && SameSeen(a, b, "system", false, show) && SameSeen(a, b, "environment", false, show)
              && SameSeen(a, b, "disks", true, show) && SameSeen(a, b, "processes", true, show)
              && SameSeen(a, b, "connections", true, show) && SameSeen(a, b, "listening_ports", true, show)
              && SameMeta(a, b, "host", show) && SameMeta(a, b, "platform", show) && SameMeta(a, b, "architecture", show)
              && SameMeta(a, b, "user", show) && SameMeta(a, b, "uptime_seconds", show)
  {
    hide Snapshot, Text, DocumentCst, RowJson, SectionsJson, SnapshotsAgree, FlatSnapshot, ViewOf, WfRow, WfSection, KindsMatch, MetaAgrees,
         Find;
    GeneratedSnapshot(a.meta, a.sections, stod);
    GeneratedSnapshot(b.meta, b.sections, stod);
    GeneratedIsFlat(a.meta, a.sections, show);
    GeneratedIsFlat(b.meta, b.sections, show);
    FlatVerdict(Snapshot(a.File(), stod).value, Snapshot(b.File(), stod).value, show);
    assert forall i :: 0 <= i < |SECTIONS| ==>
      (SameSeen(a, b, SECTIONS[i].0, SECTIONS[i].1, show) <==>
         ViewOf(Find(Object(SectionsJson(a.sections)), SECTIONS[i].0), SECTIONS[i].1, show)
         == ViewOf(Find(Object(SectionsJson(b.sections)), SECTIONS[i].0), SECTIONS[i].1, show));
    forall i | 0 <= i < |META_KEYS|
      ensures SameMeta(a, b, META_KEYS[i], show) <==>
        MetaAgrees(Find(Snapshot(a.File(), stod).value.0, META_KEYS[i]), Find(Snapshot(b.File(), stod).value.0, META_KEYS[i]), show)
    {
      FindBeside(RowJson(a.meta), META_KEYS[i], Object(SectionsJson(a.sections)));
      FindBeside(RowJson(b.meta), META_KEYS[i], Object(SectionsJson(b.sections)));
    }
    SectionsByName(a, b, show);
    MetaByName(a, b, show);
  }

  lemma SectionsByName(a: Capture, b: Capture, show: string -> string)
    ensures (forall i :: 0 <= i < |SECTIONS| ==> SameSeen(a, b, SECTIONS[i].0, SECTIONS[i].1, show)) <==>
              && SameSeen(a, b, "system", false, show) && SameSeen(a, b, "environment", false, show)
              && SameSeen(a, b, "disks", true, show) && SameSeen(a, b, "processes", true, show)
              && SameSeen(a, b, "connections", true, show) && SameSeen(a, b, "listening_ports", true, show)
  {
    hide SameSeen;
    assert SECTIONS[0] == ("system", false) && SECTIONS[1] == ("disks", true) && SECTIONS[2] == ("processes", true);
    assert SECTIONS[3] == ("connections", true) && SECTIONS[4] == ("listening_ports", true) && SECTIONS[5] == ("environment", false);
  }

  lemma MetaByName(a: Capture, b: Capture, show: string -> string)
    ensures (forall i :: 0 <= i < |META_KEYS| ==> SameMeta(a, b, META_KEYS[i], show)) <==>
              && SameMeta(a, b, "host", show) && SameMeta(a, b, "platform", show) && SameMeta(a, b, "architecture", show)
              && SameMeta(a, b, "user", show) && SameMeta(a, b, "uptime_seconds", show)
  {
    hide SameMeta;
    assert META_KEYS[0] == "host" && META_KEYS[1] == "platform" && META_KEYS[2] == "architecture" && META_KEYS[3] == "user"
      && META_KEYS[4] == "uptime_seconds";
  }

  lemma FindBeside(m: Fields, n: string, secs: Json)
    requires n != "sections"
    ensures Find(Object(m + map["sections" := secs]), n) == Find(Object(m), n)
  {
  }
}
