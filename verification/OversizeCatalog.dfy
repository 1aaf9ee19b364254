/**
 A catalog that the reader takes and the publisher makes too large.  Its 255 entries name files whose paths hold wide
 characters: four bytes each as they stand, twelve once the publisher has escaped them.
 */
module OversizeCatalog {
  import opened Prelude
  import opened Sorting
  import opened ReportPaths
  import opened Catalog

  const WIDE := 340
  const ENTRIES := 255

  function Wide(n: nat): string { if n == 0 then [] else ['\U{1F600}'] + Wide(n - 1) }

  function WidePath(id: string): string { Wide(WIDE) + id + ".json" }

  lemma {:induction false} WideMeans(n: nat, rest: string)
    ensures |Wide(n)| == n && '/' !in Wide(n) && TextSize(Wide(n) + rest) >= 12 * n
  {
    if n == 0 {
      assert Wide(0) + rest == rest;
    } else {
      WideMeans(n - 1, rest);
      var s := Wide(n) + rest;
      assert s[0] == '\U{1F600}' && s[1..] == Wide(n - 1) + rest;
    }
  }

  lemma PathShape(wide: string, id: string, path: string)
    requires ValidId(id) && |wide| == WIDE && '/' !in wide && path == wide + id + ".json"
    ensures '/' !in path && IsJsonName(path) && |path| <= 505 && |path| > 300
  {
    forall c | c in path ensures c != '/' {
      assert c in wide || c in id || c in ".json";
      if c in id {
        var i :| 0 <= i < |id| && id[i] == c;
      }
    }
    assert path[|path| - 5..] == ".json";
  }

  lemma WidePathResolves(id: string)
    requires ValidId(id)
    ensures Resolve(WidePath(id)) == Some(WidePath(id)) && 300 < |WidePath(id)| <= 505 && TextSize(WidePath(id)) >= 4080
  {
    WideMeans(WIDE, id + ".json");
    PathShape(Wide(WIDE), id, WidePath(id));
    assert WidePath(id) == Wide(WIDE) + (id + ".json");
    ResolvePlain(WidePath(id));
  }

  lemma WidePathInjective(a: string, b: string)
    ensures WidePath(a) == WidePath(b) ==> a == b
  {
    WideMeans(WIDE, "");
    var p, q := WidePath(a), WidePath(b);
    assert a == p[WIDE..|p| - 5] && b == q[WIDE..|q| - 5];
  }

  // ---------- The root ----------

  function EntriesOf(ids: seq<string>): (r: seq<Item>)
    ensures |r| == |ids| && forall i :: 0 <= i < |ids| ==> r[i] == Item(ids[i], WidePath(ids[i]))
  {
    seq(|ids|, i requires 0 <= i < |ids| => Item(ids[i], WidePath(ids[i])))
  }

  function WideFiles(ids: seq<string>): set<string> { set id | id in ids :: WidePath(id) }

  /** As a text that keeps its characters, such a catalog takes less than half a mebibyte. */
  function WideRoot(ids: seq<string>): Root
  {
    (map file | file in WideFiles(ids) :: Blob([]))[CATALOG := Manifest(EntriesOf(ids), 500000)]
  }

  ghost predicate DistinctIds(ids: seq<string>)
  {
    && (forall id :: id in ids ==> ValidId(id))
    && forall i, j :: 0 <= i < j < |ids| ==> ids[i] != ids[j]
  }

  lemma WideEntryOk(ids: seq<string>, item: Item, limits: Limits)
    requires DistinctIds(ids) && item in EntriesOf(ids)
    ensures ItemOk(item) && Present(WideRoot(ids), item, limits)
  {
    var i :| 0 <= i < |ids| && EntriesOf(ids)[i] == item;
    assert ids[i] in ids;
    WidePathResolves(ids[i]);
    ResolvedIsReport(item.report, "");
    assert WidePath(ids[i]) in WideFiles(ids);
  }

  lemma WideEntriesDiffer(ids: seq<string>, i: nat, j: nat)
    requires DistinctIds(ids) && i < j < |ids|
    ensures EntriesOf(ids)[i].caseId != EntriesOf(ids)[j].caseId
    ensures Resolve(EntriesOf(ids)[i].report) != Resolve(EntriesOf(ids)[j].report)
  {
    assert ids[i] in ids && ids[j] in ids;
    WidePathResolves(ids[i]);
    WidePathResolves(ids[j]);
    WidePathInjective(ids[i], ids[j]);
  }

  lemma WideIsReadable(ids: seq<string>, limits: Limits)
    requires DistinctIds(ids) && |ids| <= limits.maxCount
    ensures ReaderOk(WideRoot(ids), limits) && Items(WideRoot(ids)) == EntriesOf(ids)
  {
    var root, items := WideRoot(ids), EntriesOf(ids);
    assert Items(root) == items;
    forall item | item in items ensures ItemOk(item) && Present(root, item, limits) {
      WideEntryOk(ids, item, limits);
    }
    forall i, j | 0 <= i < j < |items|
      ensures items[i].caseId != items[j].caseId && Resolve(items[i].report) != Resolve(items[j].report)
    {
      WideEntriesDiffer(ids, i, j);
    }
  }

  // ---------- Its size once published ----------

  lemma {:induction false} SizeOfConcat(a: seq<Item>, b: seq<Item>)
    ensures CatalogSize(a + b) + 74 == CatalogSize(a) + CatalogSize(b)
  {
    if a == [] {
      assert a + b == b;
    } else {
      assert (a + b)[0] == a[0] && (a + b)[1..] == a[1..] + b;
      SizeOfConcat(a[1..], b);
    }
  }

  lemma {:induction false} SizeOfInsert(x: Item, items: seq<Item>)
    ensures CatalogSize(Insert(ItemLe, x, items)) == 53 + TextSize(x.caseId) + TextSize(x.report) + CatalogSize(items)
  {
    if items != [] {
      if ItemLe(x, items[0]) {
        assert ([x] + items)[1..] == items;
      } else {
        SizeOfInsert(x, items[1..]);
        var r := Insert(ItemLe, x, items);
        assert r[0] == items[0] && r[1..] == Insert(ItemLe, x, items[1..]);
      }
    }
  }

  /** Sorting does not change the size. */
  lemma {:induction false} SizeOfSort(items: seq<Item>)
    ensures CatalogSize(SortBy(ItemLe, items)) == CatalogSize(items)
  {
    if items != [] {
      SizeOfSort(items[1..]);
      SizeOfInsert(items[0], SortBy(ItemLe, items[1..]));
    }
  }

  lemma {:induction false} WideSize(ids: seq<string>, items: seq<Item>)
    requires (forall id :: id in ids ==> ValidId(id)) && items == EntriesOf(ids)
    ensures CatalogSize(items) >= 74 + 4133 * |ids|
  {
    if ids != [] {
      assert ids[0] in ids;
      WidePathResolves(ids[0]);
      assert items[1..] == EntriesOf(ids[1..]);
      WideSize(ids[1..], items[1..]);
    }
  }

  lemma {:induction false} AllKept(items: seq<Item>, caseId: string)
    requires caseId !in CaseIds(items)
    ensures Filter((item: Item) => item.caseId != caseId, items) == items
  {
    if items != [] {
      assert items[0].caseId in CaseIds(items);
      forall id | id in CaseIds(items[1..]) ensures id in CaseIds(items) {
      }
      AllKept(items[1..], caseId);
      assert items == [items[0]] + items[1..];
    }
  }

  lemma ListedSize(items: seq<Item>, caseId: string)
    requires caseId !in CaseIds(items)
    ensures CatalogSize(Listed(items, caseId)) >= CatalogSize(items) && |Listed(items, caseId)| == |items| + 1
  {
    var own := [Item(caseId, ReportName(caseId))];
    AllKept(items, caseId);
    SizeOfSort(items + own);
    SizeOfConcat(items, own);
    assert own[1..] == [];
    assert CatalogSize(own) >= 74;
  }

  /** Publishing any further case onto such a root goes through and makes the reader refuse the catalog. */
  lemma WideCatalogBreaks(ids: seq<string>, caseId: string, limits: Limits)
    requires DistinctIds(ids) && |ids| == ENTRIES < limits.maxCount && ValidId(caseId) && caseId !in ids
    ensures var root := WideRoot(ids);
            && ReaderOk(root, limits) && Clear(Items(root), caseId) && Succeeds(root, caseId, [], limits)
            && !ReaderOk(Published(root, (caseId, []), limits), limits)
  {
    var root, items := WideRoot(ids), EntriesOf(ids);
    WideIsReadable(ids, limits);
    forall item | item in items ensures item.caseId in ids {
      var i :| 0 <= i < |ids| && items[i] == item;
    }
    ListedSize(items, caseId);
    WideSize(ids, items);
    WideIsClear(ids, caseId);
    RoomyPublication(root, caseId, [], limits);
  }

  lemma WideIsClear(ids: seq<string>, caseId: string)
    requires (forall id :: id in ids ==> ValidId(id)) && ValidId(caseId)
    ensures Clear(EntriesOf(ids), caseId)
  {
    WideMeans(WIDE, "");
    forall item | item in EntriesOf(ids) ensures Resolve(item.report) != Some(ReportName(caseId)) {
      var i :| 0 <= i < |ids| && EntriesOf(ids)[i] == item;
      assert ids[i] in ids;
      WidePathResolves(ids[i]);
      ReportNameShape(caseId);
      assert |item.report| > 172;
    }
  }

  // ---------- The input ----------

  function Repeat(c: char, n: nat): (s: string)
    ensures |s| == n && forall i :: 0 <= i < n ==> s[i] == c
  {
    seq(n, _ => c)
  }

  /** a, aa, ..., then b, bb, ...: as many different identifiers as are wanted. */
  function Names(n: nat): (r: seq<string>)
    requires n <= 2 * 160
    ensures |r| == n
    ensures forall i :: 0 <= i < n ==> r[i] == if i < 160 then Repeat('a', i + 1) else Repeat('b', i - 159)
  {
    seq(n, i requires 0 <= i < n => if i < 160 then Repeat('a', i + 1) else Repeat('b', i - 159))
  }

  lemma NamesDiffer(n: nat)
    requires n <= 2 * 160
    ensures DistinctIds(Names(n)) && "c" !in Names(n)
  {
    var r := Names(n);
    forall i | 0 <= i < n ensures ValidId(r[i]) && r[i] != "c" {
      assert r[i][0] in {'a', 'b'};
    }
    forall i, j | 0 <= i < j < n ensures r[i] != r[j] {
      assert |r[i]| != |r[j]| || r[i][0] != r[j][0];
    }
  }

  /** With the default limits: 255 foreign entries are read without an error until case "c" is published. */
  lemma OversizeExample(n: nat)
    requires n == ENTRIES
    ensures var root, limits := WideRoot(Names(n)), Limits(8388608, 256);
            && ReaderOk(root, limits) && Clear(Items(root), "c") && Succeeds(root, "c", [], limits)
            && !ReaderOk(Published(root, ("c", []), limits), limits)
  {
    NamesDiffer(n);
    WideCatalogBreaks(Names(n), "c", Limits(8388608, 256));
  }
}
