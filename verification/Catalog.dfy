/**
 The report catalog: `FilesystemCatalogPublisher` writes it, `FilesystemReportRepository` reads it.

 A root directory is a map from file names to contents; `os.replace` is one atomic map update.  The
 abstract value of a root is the map from case identifiers to the report bytes a reader gets.
 */
module Catalog {
  import opened Prelude
  import opened Sorting
  import opened ReportPaths

  datatype Item = Item(caseId: string, report: string)

  /** `size` is the length of the catalog's text. */
  datatype File = Blob(bytes: Bytes) | Manifest(items: seq<Item>, size: nat)

  type Root = map<string, File>

  datatype Limits = Limits(maxBytes: nat, maxCount: nat)

  const MAX_CATALOG_BYTES := 1024 * 1024
  const MAX_PATH_LENGTH := 512

  predicate ItemLe(a: Item, b: Item) { StrLe(a.caseId, b.caseId) }

  // ---------- What a reader accepts ----------

  function Items(root: Root): seq<Item>
  {
    if CATALOG in root && root[CATALOG].Manifest? then root[CATALOG].items else []
  }

  function CaseIds(items: seq<Item>): set<string>
  {
    set item | item in items :: item.caseId
  }

  ghost predicate UniqueIds(items: seq<Item>)
  {
    forall i, j :: 0 <= i < j < |items| ==> items[i].caseId != items[j].caseId
  }

  /** No two entries name the same file. */
  ghost predicate UniqueFiles(items: seq<Item>)
  {
    forall i, j :: 0 <= i < j < |items| ==> Resolve(items[i].report) != Resolve(items[j].report)
  }

  predicate ItemOk(item: Item)
  {
    ValidId(item.caseId) && |item.report| <= MAX_PATH_LENGTH && Resolve(item.report).Some?
  }

  /** The entry lists the reader accepts. */
  ghost predicate Readable(items: seq<Item>, limits: Limits)
  {
    && |items| <= limits.maxCount
    && (forall item :: item in items ==> ItemOk(item))
    && UniqueIds(items) && UniqueFiles(items)
  }

  predicate CatalogOk(root: Root)
  {
    CATALOG in root ==> root[CATALOG].Manifest? && root[CATALOG].size <= MAX_CATALOG_BYTES
  }

  /** The entry's file is there and within limits. */
  predicate Present(root: Root, item: Item, limits: Limits)
  {
    && Resolve(item.report).Some? && Resolve(item.report).value in root
    && root[Resolve(item.report).value].Blob? && |root[Resolve(item.report).value].bytes| <= limits.maxBytes
  }

  /** A root whose every listed report can be read: exactly those that can be listed without an error. */
  ghost predicate ReaderOk(root: Root, limits: Limits)
  {
    && CatalogOk(root) && Readable(Items(root), limits)
    && forall item :: item in Items(root) ==> Present(root, item, limits)
  }

  // ---------- What a reader sees ----------

  function PathOf(items: seq<Item>, caseId: string): string
  {
    if items == [] then "" else if items[0].caseId == caseId then items[0].report else PathOf(items[1..], caseId)
  }

  function FileBytes(root: Root, path: string): Bytes
  {
    var file := Resolve(path);
    if file.Some? && file.value in root && root[file.value].Blob? then root[file.value].bytes else []
  }

  /** The bytes of every listed case. */
  ghost function View(root: Root): (view: map<string, Bytes>)
    ensures view.Keys == CaseIds(Items(root))
  {
    map id | id in CaseIds(Items(root)) :: FileBytes(root, PathOf(Items(root), id))
  }

  lemma {:induction false} PathOfItem(items: seq<Item>, item: Item)
    requires UniqueIds(items) && item in items
    ensures PathOf(items, item.caseId) == item.report
  {
    if items[0] != item {
      var i :| 0 <= i < |items| && items[i] == item;
      assert items[1..][i - 1] == item;
      PathOfItem(items[1..], item);
    }
  }

  lemma ViewAt(root: Root, item: Item, limits: Limits)
    requires ReaderOk(root, limits) && item in Items(root)
    ensures item.caseId in View(root) && Present(root, item, limits)
    ensures View(root)[item.caseId] == root[Resolve(item.report).value].bytes
  {
    PathOfItem(Items(root), item);
  }

  /** The publication of one report, on abstract values. */
  function Publish(view: map<string, Bytes>, caseId: string, bytes: Bytes, limits: Limits)
    : Option<map<string, Bytes>>
  {
    if !ValidId(caseId) || |bytes| > limits.maxBytes then None
    else if |view[caseId := bytes]| > limits.maxCount then None
    else Some(view[caseId := bytes])
  }

  /** A publication goes through iff identifier, report and catalog are within limits, and sets that one case. */
  lemma PublishMeans(view: map<string, Bytes>, caseId: string, bytes: Bytes, limits: Limits)
    ensures Publish(view, caseId, bytes, limits) ==
            if ValidId(caseId) && |bytes| <= limits.maxBytes && |view.Keys + {caseId}| <= limits.maxCount
            then Some(map id | id in view.Keys + {caseId} :: if id == caseId then bytes else view[id])
            else None
  {
    UpdateKeys(view, caseId, bytes);
    MapsEqual(view[caseId := bytes], map id | id in view.Keys + {caseId} :: if id == caseId then bytes else view[id]);
  }

  // ---------- Single writes ----------

  /** A write that touches neither the catalog nor a listed file is invisible. */
  lemma InvisibleWrite(root: Root, after: Root, limits: Limits)
    requires ReaderOk(root, limits) && CatalogOk(after) && Items(after) == Items(root)
    requires forall item :: item in Items(root) ==>
               Resolve(item.report).value in after
                 && after[Resolve(item.report).value] == root[Resolve(item.report).value]
    ensures ReaderOk(after, limits) && View(after) == View(root)
  {
    forall item | item in Items(after) ensures Present(after, item, limits) {
      assert Present(root, item, limits);
    }
    forall id | id in View(root) ensures View(after)[id] == View(root)[id] {
      var item :| item in Items(root) && item.caseId == id;
      ViewAt(root, item, limits);
      ViewAt(after, item, limits);
    }
    MapsEqual(View(after), View(root));
  }

  /** Temporary files are never listed, so writing or removing one is invisible. */
  lemma TempIsInvisible(root: Root, after: Root, name: string, limits: Limits)
    requires ReaderOk(root, limits)
    requires after - {TempName(name)} == root - {TempName(name)}
    ensures ReaderOk(after, limits) && View(after) == View(root) && Items(after) == Items(root)
  {
    assert TempName(name)[0] == '.';
    KeptOutside(root, after, TempName(name), CATALOG);
    forall item | item in Items(root)
      ensures Resolve(item.report).value in after
              && after[Resolve(item.report).value] == root[Resolve(item.report).value]
    {
      assert Present(root, item, limits);
      ResolvedIsReport(item.report, name);
      KeptOutside(root, after, TempName(name), Resolve(item.report).value);
    }
    InvisibleWrite(root, after, limits);
  }

  lemma KeptOutside(root: Root, after: Root, changed: string, name: string)
    requires after - {changed} == root - {changed} && name != changed
    ensures name in root <==> name in after
    ensures name in root ==> after[name] == root[name]
  {
    assert name in root <==> name in root - {changed};
    assert name in after <==> name in after - {changed};
  }

  /** No entry of another case names the file of `caseId`. */
  ghost predicate Clear(items: seq<Item>, caseId: string)
  {
    forall item :: item in items && item.caseId != caseId ==> Resolve(item.report) != Some(ReportName(caseId))
  }

  /** The cases whose entry names the file of `caseId`. */
  ghost function Sharers(items: seq<Item>, caseId: string): set<string>
  {
    set item | item in items && Resolve(item.report) == Some(ReportName(caseId)) :: item.caseId
  }

  /** `after` is `view` with the cases in `ids` reading as `bytes`. */
  ghost predicate Overwritten(view: map<string, Bytes>, after: map<string, Bytes>, ids: set<string>, bytes: Bytes)
  {
    after.Keys == view.Keys && forall id :: id in view ==> after[id] == if id in ids then bytes else view[id]
  }

  lemma ClearMeans(items: seq<Item>, caseId: string)
    ensures Clear(items, caseId) <==> Sharers(items, caseId) <= {caseId}
  {
    if Sharers(items, caseId) <= {caseId} {
      forall item | item in items && item.caseId != caseId ensures Resolve(item.report) != Some(ReportName(caseId)) {
        assert item.caseId !in Sharers(items, caseId);
      }
    }
  }

  /** Replacing the report file keeps the root readable; the cases that name the file now read as `bytes`. */
  lemma ReplaceReport(root: Root, after: Root, caseId: string, bytes: Bytes, limits: Limits)
    requires ReaderOk(root, limits) && ValidId(caseId) && |bytes| <= limits.maxBytes
    requires after == root[ReportName(caseId) := Blob(bytes)]
    ensures ReaderOk(after, limits) && Items(after) == Items(root)
    ensures Overwritten(View(root), View(after), Sharers(Items(root), caseId), bytes)
  {
    ReportNameFresh(caseId, "");
    forall item | item in Items(root) ensures Present(after, item, limits) {
      assert Present(root, item, limits);
    }
    forall id | id in View(root)
      ensures View(after)[id] == if id in Sharers(Items(root), caseId) then bytes else View(root)[id]
    {
      var item :| item in Items(root) && item.caseId == id;
      SharerIs(Items(root), caseId, item);
      ViewAt(root, item, limits);
      ViewAt(after, item, limits);
    }
  }

  lemma SharerIs(items: seq<Item>, caseId: string, item: Item)
    requires UniqueIds(items) && item in items
    ensures item.caseId in Sharers(items, caseId) <==> Resolve(item.report) == Some(ReportName(caseId))
  {
    if item.caseId in Sharers(items, caseId) {
      var other :| other in items && other.caseId == item.caseId && Resolve(other.report) == Some(ReportName(caseId));
      PathOfItem(items, item);
      PathOfItem(items, other);
    }
  }

  /** Cases that share a file read alike. */
  lemma SharersAlike(root: Root, caseId: string, id: string, limits: Limits)
    requires ReaderOk(root, limits) && id in Sharers(Items(root), caseId)
    ensures id in View(root) && ReportName(caseId) in root && root[ReportName(caseId)] == Blob(View(root)[id])
  {
    var item :| item in Items(root) && item.caseId == id && Resolve(item.report) == Some(ReportName(caseId));
    ViewAt(root, item, limits);
  }

  lemma OverwriteOwn(
    view: map<string, Bytes>, after: map<string, Bytes>, ids: set<string>, caseId: string, bytes: Bytes)
    requires Overwritten(view, after, ids, bytes) && ids <= {caseId}
    ensures after == view || after == view[caseId := bytes]
    ensures after[caseId := bytes] == view[caseId := bytes]
    ensures caseId !in view ==> after == view
  {
    if caseId in view && caseId in ids {
      MapsEqual(after, view[caseId := bytes]);
    } else {
      MapsEqual(after, view);
    }
  }

  lemma OverwriteNothing(view: map<string, Bytes>, after: map<string, Bytes>, ids: set<string>, bytes: Bytes)
    requires Overwritten(view, after, ids, bytes) && ids <= view.Keys
    ensures after == view <==> forall id :: id in ids ==> view[id] == bytes
  {
    if forall id :: id in ids ==> view[id] == bytes {
      MapsEqual(after, view);
    } else {
      var id :| id in ids && view[id] != bytes;
      assert id in view && after[id] == bytes;
    }
  }

  // ---------- The new catalog ----------

  /** The new list of entries: the old one with the entry of `caseId` replaced or added, in order. */
  function Listed(items: seq<Item>, caseId: string): seq<Item>
  {
    SortBy(ItemLe, Filter((item: Item) => item.caseId != caseId, items) + [Item(caseId, ReportName(caseId))])
  }

  lemma ItemOrder()
    ensures TotalPreorder(ItemLe)
  {
    StrLeOrder();
  }

  lemma {:induction false} FilterUnique(items: seq<Item>, caseId: string)
    requires UniqueIds(items)
    ensures UniqueIds(Filter((item: Item) => item.caseId != caseId, items))
  {
    if items != [] {
      var p := (item: Item) => item.caseId != caseId;
      FilterUnique(items[1..], caseId);
      if p(items[0]) {
        var rest := Filter(p, items[1..]);
        forall x | x in rest ensures x.caseId != items[0].caseId {
          var j :| 0 <= j < |items[1..]| && items[1..][j] == x;
          assert items[j + 1] == x;
        }
      }
    }
  }

  lemma {:induction false} InsertUnique(x: Item, items: seq<Item>)
    requires UniqueIds(items) && x.caseId !in CaseIds(items)
    ensures UniqueIds(Insert(ItemLe, x, items))
  {
    forall y | y in items ensures y.caseId != x.caseId {
      assert y.caseId in CaseIds(items);
    }
    if items != [] && !ItemLe(x, items[0]) {
      forall id | id in CaseIds(items[1..]) ensures id in CaseIds(items) {
        var y :| y in items[1..] && y.caseId == id;
        assert y in items;
      }
      InsertUnique(x, items[1..]);
      SameMembers(Insert(ItemLe, x, items[1..]), [x] + items[1..]);
      forall y | y in Insert(ItemLe, x, items[1..]) ensures y.caseId != items[0].caseId {
        assert y == x || y in items[1..];
      }
    }
  }

  lemma {:induction false} SortUnique(items: seq<Item>)
    requires UniqueIds(items)
    ensures UniqueIds(SortBy(ItemLe, items))
  {
    if items != [] {
      SortUnique(items[1..]);
      SortMembers(ItemLe, items[1..]);
      InsertUnique(items[0], SortBy(ItemLe, items[1..]));
    }
  }

  lemma ListedMembers(items: seq<Item>, caseId: string)
    ensures forall item :: item in Listed(items, caseId) <==>
                             || item == Item(caseId, ReportName(caseId))
                             || (item in items && item.caseId != caseId)
  {
    var kept := Filter((item: Item) => item.caseId != caseId, items);
    SortMembers(ItemLe, kept + [Item(caseId, ReportName(caseId))]);
  }

  lemma ListedGood(items: seq<Item>, caseId: string)
    requires UniqueIds(items)
    ensures SortedBy(ItemLe, Listed(items, caseId)) && UniqueIds(Listed(items, caseId))
    ensures CaseIds(Listed(items, caseId)) == CaseIds(items) + {caseId}
  {
    var kept := Filter((item: Item) => item.caseId != caseId, items);
    var all := kept + [Item(caseId, ReportName(caseId))];
    ItemOrder();
    SortSorted(ItemLe, all);
    FilterUnique(items, caseId);
    assert forall i :: 0 <= i < |kept| ==> kept[i] in kept;
    SortUnique(all);
    ListedIds(items, caseId);
  }

  lemma ListedIds(items: seq<Item>, caseId: string)
    ensures CaseIds(Listed(items, caseId)) == CaseIds(items) + {caseId}
  {
    var listed := Listed(items, caseId);
    ListedMembers(items, caseId);
    assert Item(caseId, ReportName(caseId)) in listed;
    forall id | id in CaseIds(items) + {caseId} ensures id in CaseIds(listed) {
      if id != caseId {
        var item :| item in items && item.caseId == id;
        assert item in listed;
      }
    }
  }

  lemma {:induction false} UniqueCount(items: seq<Item>)
    requires UniqueIds(items)
    ensures |CaseIds(items)| == |items|
  {
    if items != [] {
      UniqueCount(items[1..]);
      assert items == [items[0]] + items[1..];
      assert CaseIds(items) == {items[0].caseId} + CaseIds(items[1..]);
      assert items[0].caseId !in CaseIds(items[1..]);
    }
  }

  /** Unique files, said of the entries themselves. */
  ghost predicate OwnFiles(items: seq<Item>)
  {
    forall a, b :: a in items && b in items && a.caseId != b.caseId ==> Resolve(a.report) != Resolve(b.report)
  }

  lemma EntryFiles(items: seq<Item>, a: Item, b: Item)
    requires UniqueFiles(items) && a in items && b in items && a.caseId != b.caseId
    ensures Resolve(a.report) != Resolve(b.report)
  {
    var i :| 0 <= i < |items| && items[i] == a;
    var j :| 0 <= j < |items| && items[j] == b;
    assert i < j || j < i;
  }

  lemma FilesOfEntries(items: seq<Item>)
    requires UniqueIds(items)
    ensures UniqueFiles(items) <==> OwnFiles(items)
  {
    if UniqueFiles(items) {
      forall a, b | a in items && b in items && a.caseId != b.caseId ensures Resolve(a.report) != Resolve(b.report) {
        EntryFiles(items, a, b);
      }
    }
    if OwnFiles(items) {
      forall i, j | 0 <= i < j < |items| ensures Resolve(items[i].report) != Resolve(items[j].report) {
        assert items[i] in items && items[j] in items;
      }
    }
  }

  /** The new list is one the reader accepts exactly when no other case names the file and there is room. */
  lemma ListedReadable(items: seq<Item>, caseId: string, limits: Limits)
    requires Readable(items, limits) && ValidId(caseId)
    ensures Readable(Listed(items, caseId), limits) <==>
            Clear(items, caseId) && |Listed(items, caseId)| <= limits.maxCount
  {
    var listed, own := Listed(items, caseId), Item(caseId, ReportName(caseId));
    ListedGood(items, caseId);
    ListedMembers(items, caseId);
    FilesOfEntries(items);
    FilesOfEntries(listed);
    ResolveReportName(caseId);
    ReportNameShape(caseId);
    assert own in listed;
    if UniqueFiles(listed) {
      forall item | item in items && item.caseId != caseId ensures Resolve(item.report) != Some(ReportName(caseId)) {
        assert item in listed;
      }
    }
  }

  /** The length of the catalog text that the publisher writes. */
  function CatalogSize(items: seq<Item>): nat
  {
    if items == [] then 74 else 53 + TextSize(items[0].caseId) + TextSize(items[0].report) + CatalogSize(items[1..])
  }

  /** One entry of the catalog, indented by two spaces a level, its keys sorted. */
  function EntryText(item: Item): string
  {
    "    {\n      \"case_id\": \"" + JsonText(item.caseId) + "\",\n" +
    "      \"report\": \"" + JsonText(item.report) + "\"\n    }"
  }

  function EntriesText(items: seq<Item>): string
  {
    if items == [] then "" else if |items| == 1 then EntryText(items[0])
    else EntryText(items[0]) + ",\n" + EntriesText(items[1..])
  }

  /** The text of a catalog with at least one entry. */
  function CatalogText(items: seq<Item>): string
  {
    "{\n  \"reports\": [\n" + EntriesText(items) +
    "\n  ],\n  \"schema_version\": \"securemail.report-catalog/v1\"\n}\n"
  }

  lemma EntryTextSize(item: Item)
    ensures |EntryText(item)| == 51 + TextSize(item.caseId) + TextSize(item.report)
  {
    JsonTextSize(item.caseId);
    JsonTextSize(item.report);
  }

  lemma {:induction false} EntriesTextSize(items: seq<Item>)
    requires items != []
    ensures |EntriesText(items)| == CatalogSize(items) - 76
  {
    EntryTextSize(items[0]);
    if |items| > 1 {
      EntriesTextSize(items[1..]);
    } else {
      assert items[1..] == [];
    }
  }

  /** The size is that of the text. */
  lemma CatalogTextSize(items: seq<Item>)
    requires items != []
    ensures |CatalogText(items)| == CatalogSize(items)
  {
    EntriesTextSize(items);
  }

  /** Replacing the catalog by the new list, once the report file is stored. */
  lemma ReplaceCatalog(root: Root, after: Root, caseId: string, bytes: Bytes, limits: Limits)
    requires ReaderOk(root, limits) && ValidId(caseId) && |bytes| <= limits.maxBytes
    requires ReportName(caseId) in root && root[ReportName(caseId)] == Blob(bytes)
    requires var items := Listed(Items(root), caseId); after == root[CATALOG := Manifest(items, CatalogSize(items))]
    ensures ReaderOk(after, limits) <==>
            && Clear(Items(root), caseId) && |Listed(Items(root), caseId)| <= limits.maxCount
            && CatalogSize(Listed(Items(root), caseId)) <= MAX_CATALOG_BYTES
    ensures ReaderOk(after, limits) ==> View(after) == View(root)[caseId := bytes]
  {
    ListedReadable(Items(root), caseId, limits);
    forall item | item in Items(after) ensures Present(after, item, limits) {
      ListedPresent(root, after, caseId, item, limits);
    }
    if ReaderOk(after, limits) {
      NewView(root, after, caseId, bytes, limits);
    }
  }

  lemma ListedPresent(root: Root, after: Root, caseId: string, item: Item, limits: Limits)
    requires ReaderOk(root, limits) && ValidId(caseId) && after - {CATALOG} == root - {CATALOG}
    requires ReportName(caseId) in root && root[ReportName(caseId)].Blob?
    requires |root[ReportName(caseId)].bytes| <= limits.maxBytes && item in Listed(Items(root), caseId)
    ensures Present(after, item, limits)
  {
    ListedMembers(Items(root), caseId);
    ResolveReportName(caseId);
    assert item in Items(root) ==> Present(root, item, limits);
    ResolvedIsReport(item.report, "");
    KeptOutside(root, after, CATALOG, Resolve(item.report).value);
  }

  lemma NewView(root: Root, after: Root, caseId: string, bytes: Bytes, limits: Limits)
    requires ReaderOk(root, limits) && ReaderOk(after, limits) && ValidId(caseId)
    requires ReportName(caseId) in root && root[ReportName(caseId)] == Blob(bytes)
    requires Items(after) == Listed(Items(root), caseId) && after - {CATALOG} == root - {CATALOG}
    ensures View(after) == View(root)[caseId := bytes]
  {
    ListedIds(Items(root), caseId);
    UpdateKeys(View(root), caseId, bytes);
    var expected := View(root)[caseId := bytes];
    forall id | id in View(after) ensures View(after)[id] == expected[id] {
      var item :| item in Items(after) && item.caseId == id;
      NewViewAt(root, after, caseId, bytes, item, limits);
    }
    MapsEqual(View(after), expected);
  }

  lemma NewViewAt(root: Root, after: Root, caseId: string, bytes: Bytes, item: Item, limits: Limits)
    requires ReaderOk(root, limits) && ReaderOk(after, limits) && ValidId(caseId)
    requires ReportName(caseId) in root && root[ReportName(caseId)] == Blob(bytes)
    requires Items(after) == Listed(Items(root), caseId) && after - {CATALOG} == root - {CATALOG}
    requires item in Items(after)
    ensures item.caseId in View(after)
    ensures item.caseId == caseId ==> View(after)[caseId] == bytes
    ensures item.caseId != caseId ==> item.caseId in View(root) && View(after)[item.caseId] == View(root)[item.caseId]
  {
    ListedMembers(Items(root), caseId);
    ResolveReportName(caseId);
    ViewAt(after, item, limits);
    ResolvedIsReport(item.report, "");
    KeptOutside(root, after, CATALOG, Resolve(item.report).value);
    if item.caseId != caseId {
      ViewAt(root, item, limits);
    }
  }

  /** The number of entries the publisher counts is the size of the published map. */
  lemma ListedCount(root: Root, caseId: string, bytes: Bytes, limits: Limits)
    requires ReaderOk(root, limits)
    ensures |Listed(Items(root), caseId)| == |View(root)[caseId := bytes]|
  {
    ListedGood(Items(root), caseId);
    UniqueCount(Listed(Items(root), caseId));
    UpdateKeys(View(root), caseId, bytes);
  }

  /** Only a case that is not listed yet can find the catalog full. */
  lemma FullOnlyForNewCase(root: Root, caseId: string, bytes: Bytes, limits: Limits)
    requires ReaderOk(root, limits) && |View(root)[caseId := bytes]| > limits.maxCount
    ensures caseId !in View(root)
  {
    UniqueCount(Items(root));
    UpdateKeys(View(root), caseId, bytes);
  }

  // ---------- The writes of a publication ----------

  /** The root between and after the two writes that put `file` under `name`. */
  function Aside(root: Root, name: string, file: File): Root { root[TempName(name) := file] }

  function Replaced(root: Root, name: string, file: File): Root { (root - {TempName(name)})[name := file] }

  function NewCatalog(items: seq<Item>): File { Manifest(items, CatalogSize(items)) }

  /** Every root a publication passes through, in order. */
  ghost function Writes(root: Root, caseId: string, bytes: Bytes, limits: Limits): seq<Root>
  {
    if !ValidId(caseId) || |bytes| > limits.maxBytes then [] else
    var mid := Aside(root, ReportName(caseId), Blob(bytes));
    var stored := Replaced(mid, ReportName(caseId), Blob(bytes));
    if CATALOG in stored && !stored[CATALOG].Manifest? then [mid, stored] else
    var items := Listed(Items(stored), caseId);
    if |items| > limits.maxCount then [mid, stored] else
    var mid' := Aside(stored, CATALOG, NewCatalog(items));
    [mid, stored, mid', Replaced(mid', CATALOG, NewCatalog(items))]
  }

  ghost predicate Succeeds(root: Root, caseId: string, bytes: Bytes, limits: Limits)
  {
    |Writes(root, caseId, bytes, limits)| == 4
  }

  ghost function Last(root: Root, writes: seq<Root>): Root
  {
    if writes == [] then root else writes[|writes| - 1]
  }

  /** A reader of `now` finds a valid catalog and gets, for each case, what was there or what is being published. */
  ghost predicate OldOrNew(before: Root, now: Root, caseId: string, bytes: Bytes, limits: Limits)
  {
    && ReaderOk(now, limits)
    && (View(now) == View(before) || View(now) == View(before)[caseId := bytes])
  }

  /** `writes` show a reader only old or new bytes, and the last one shows exactly the outcome `next`. */
  ghost predicate Refines(root: Root, writes: seq<Root>, next: Option<map<string, Bytes>>,
                          caseId: string, bytes: Bytes, limits: Limits)
  {
    && ReaderOk(Last(root, writes), limits)
    && View(Last(root, writes)) == (if next.Some? then next.value else View(root))
    && forall k :: 0 <= k < |writes| ==> OldOrNew(root, writes[k], caseId, bytes, limits)
  }

  /** The two writes that store the report file. */
  lemma ReportStored(root: Root, mid: Root, after: Root, caseId: string, bytes: Bytes, limits: Limits)
    requires ReaderOk(root, limits) && ValidId(caseId) && |bytes| <= limits.maxBytes
    requires mid == Aside(root, ReportName(caseId), Blob(bytes))
             && after == Replaced(mid, ReportName(caseId), Blob(bytes))
    ensures ReaderOk(mid, limits) && View(mid) == View(root)
    ensures ReaderOk(after, limits) && Items(after) == Items(root)
    ensures ReportName(caseId) in after && after[ReportName(caseId)] == Blob(bytes)
    ensures Overwritten(View(root), View(after), Sharers(Items(root), caseId), bytes)
  {
    var name := ReportName(caseId);
    TempIsInvisible(root, mid, name, limits);
    TempIsInvisible(root, mid - {TempName(name)}, name, limits);
    ReplaceReport(mid - {TempName(name)}, after, caseId, bytes, limits);
  }

  /** A publication that finds the catalog full leaves the view alone exactly when it overwrites no other case. */
  lemma FullView(root: Root, stored: Root, caseId: string, bytes: Bytes, limits: Limits)
    requires ReaderOk(root, limits) && caseId !in View(root)
    requires Overwritten(View(root), View(stored), Sharers(Items(root), caseId), bytes)
    ensures View(stored) == View(root) <==>
            Clear(Items(root), caseId) || (ReportName(caseId) in root && root[ReportName(caseId)] == Blob(bytes))
  {
    var ids := Sharers(Items(root), caseId);
    ClearMeans(Items(root), caseId);
    forall id | id in ids
      ensures id in View(root) && ReportName(caseId) in root && root[ReportName(caseId)] == Blob(View(root)[id])
    {
      SharersAlike(root, caseId, id, limits);
    }
    OverwriteNothing(View(root), View(stored), ids, bytes);
    assert caseId !in ids;
  }

  /** The two writes that replace the catalog, once the report file is stored. */
  lemma CatalogReplaced(root: Root, mid: Root, after: Root, caseId: string, bytes: Bytes, limits: Limits)
    requires ReaderOk(root, limits) && ValidId(caseId) && |bytes| <= limits.maxBytes
    requires ReportName(caseId) in root && root[ReportName(caseId)] == Blob(bytes)
    requires var file := NewCatalog(Listed(Items(root), caseId));
             mid == Aside(root, CATALOG, file) && after == Replaced(mid, CATALOG, file)
    ensures ReaderOk(mid, limits) && View(mid) == View(root)
    ensures ReaderOk(after, limits) <==>
            && Clear(Items(root), caseId) && |Listed(Items(root), caseId)| <= limits.maxCount
            && CatalogSize(Listed(Items(root), caseId)) <= MAX_CATALOG_BYTES
    ensures ReaderOk(after, limits) ==> View(after) == View(root)[caseId := bytes]
  {
    TempIsInvisible(root, mid, CATALOG, limits);
    TempIsInvisible(root, mid - {TempName(CATALOG)}, CATALOG, limits);
    ReportNameFresh(caseId, CATALOG);
    ReplaceCatalog(mid - {TempName(CATALOG)}, after, caseId, bytes, limits);
  }

  // ---------- When a publication refines the map update ----------

  /**
   What a caller can look up before publishing.  A publication that stores nothing is harmless.  One that finds the
   catalog full is harmless unless it overwrites another case's file with other bytes.  One that goes through needs the
   file name to itself and a catalog text that the reader still takes.
   */
  ghost predicate Undisturbed(root: Root, caseId: string, bytes: Bytes, limits: Limits)
  {
    var items := Listed(Items(root), caseId);
    if !ValidId(caseId) || |bytes| > limits.maxBytes then true
    else if |items| > limits.maxCount
    then Clear(Items(root), caseId) || (ReportName(caseId) in root && root[ReportName(caseId)] == Blob(bytes))
    else Clear(Items(root), caseId) && CatalogSize(items) <= MAX_CATALOG_BYTES
  }

  lemma TwoWrites(root: Root, mid: Root, stored: Root, caseId: string, bytes: Bytes, limits: Limits)
    requires ReaderOk(mid, limits) && View(mid) == View(root) && ReaderOk(stored, limits)
    ensures Refines(root, [mid, stored], None, caseId, bytes, limits) <==> View(stored) == View(root)
  {
    var writes := [mid, stored];
    assert writes[0] == mid && writes[1] == stored && Last(root, writes) == stored;
  }

  lemma FourWrites(root: Root, a: Root, b: Root, c: Root, d: Root, next: Option<map<string, Bytes>>,
                   caseId: string, bytes: Bytes, limits: Limits)
    requires next == Some(View(root)[caseId := bytes])
    requires ReaderOk(a, limits) && View(a) == View(root)
    ensures Refines(root, [a, b, c, d], next, caseId, bytes, limits) <==>
            && OldOrNew(root, b, caseId, bytes, limits) && OldOrNew(root, c, caseId, bytes, limits)
            && ReaderOk(d, limits) && View(d) == View(root)[caseId := bytes]
  {
    var writes := [a, b, c, d];
    assert writes[0] == a && writes[1] == b && writes[2] == c && writes[3] == d && Last(root, writes) == d;
    if OldOrNew(root, b, caseId, bytes, limits) && OldOrNew(root, c, caseId, bytes, limits) && ReaderOk(d, limits)
      && View(d) == View(root)[caseId := bytes] {
      forall k | 0 <= k < |writes| ensures OldOrNew(root, writes[k], caseId, bytes, limits) {
        assert k == 0 || k == 1 || k == 2 || k == 3;
      }
    }
  }

  lemma FullPublication(root: Root, caseId: string, bytes: Bytes, limits: Limits)
    requires ReaderOk(root, limits) && ValidId(caseId) && |bytes| <= limits.maxBytes
    requires |Listed(Items(root), caseId)| > limits.maxCount
    ensures Publish(View(root), caseId, bytes, limits) == None && !Succeeds(root, caseId, bytes, limits)
    ensures Refines(root, Writes(root, caseId, bytes, limits), None, caseId, bytes, limits) <==>
            Undisturbed(root, caseId, bytes, limits)
  {
    var mid := Aside(root, ReportName(caseId), Blob(bytes));
    var stored := Replaced(mid, ReportName(caseId), Blob(bytes));
    ReportStored(root, mid, stored, caseId, bytes, limits);
    ListedCount(root, caseId, bytes, limits);
    FullOnlyForNewCase(root, caseId, bytes, limits);
    FullView(root, stored, caseId, bytes, limits);
    TwoWrites(root, mid, stored, caseId, bytes, limits);
    assert Writes(root, caseId, bytes, limits) == [mid, stored];
  }

  /** The four writes of a publication with room in the catalog. */
  lemma RoomyWrites(
    root: Root, mid: Root, stored: Root, mid': Root, last: Root, caseId: string, bytes: Bytes, limits: Limits)
    requires ReaderOk(root, limits) && ValidId(caseId) && |bytes| <= limits.maxBytes
    requires |Listed(Items(root), caseId)| <= limits.maxCount
    requires mid == Aside(root, ReportName(caseId), Blob(bytes))
             && stored == Replaced(mid, ReportName(caseId), Blob(bytes))
    requires var file := NewCatalog(Listed(Items(root), caseId));
             mid' == Aside(stored, CATALOG, file) && last == Replaced(mid', CATALOG, file)
    ensures ReaderOk(mid, limits) && View(mid) == View(root) && Items(stored) == Items(root) && CatalogOk(stored)
    ensures Clear(Items(root), caseId) ==>
              OldOrNew(root, stored, caseId, bytes, limits) && OldOrNew(root, mid', caseId, bytes, limits)
    ensures ReaderOk(last, limits) <==> Undisturbed(root, caseId, bytes, limits)
    ensures ReaderOk(last, limits) ==> View(last) == View(root)[caseId := bytes]
    ensures Items(last) == Listed(Items(root), caseId)
  {
    ReportStored(root, mid, stored, caseId, bytes, limits);
    CatalogReplaced(stored, mid', last, caseId, bytes, limits);
    ClearMeans(Items(root), caseId);
    if Clear(Items(root), caseId) {
      OverwriteOwn(View(root), View(stored), Sharers(Items(root), caseId), caseId, bytes);
    }
  }

  lemma RoomyPublication(root: Root, caseId: string, bytes: Bytes, limits: Limits)
    requires ReaderOk(root, limits) && ValidId(caseId) && |bytes| <= limits.maxBytes
    requires |Listed(Items(root), caseId)| <= limits.maxCount
    ensures Publish(View(root), caseId, bytes, limits) == Some(View(root)[caseId := bytes])
    ensures Succeeds(root, caseId, bytes, limits)
    ensures var writes, next := Writes(root, caseId, bytes, limits), Some(View(root)[caseId := bytes]);
            Refines(root, writes, next, caseId, bytes, limits) <==> Undisturbed(root, caseId, bytes, limits)
    ensures var last := Last(root, Writes(root, caseId, bytes, limits));
            && (ReaderOk(last, limits) <==> Undisturbed(root, caseId, bytes, limits))
            && Items(last) == Listed(Items(root), caseId)
  {
    var mid := Aside(root, ReportName(caseId), Blob(bytes));
    var stored := Replaced(mid, ReportName(caseId), Blob(bytes));
    var file := NewCatalog(Listed(Items(root), caseId));
    var mid' := Aside(stored, CATALOG, file);
    var last := Replaced(mid', CATALOG, file);
    RoomyWrites(root, mid, stored, mid', last, caseId, bytes, limits);
    ListedCount(root, caseId, bytes, limits);
    FourWrites(root, mid, stored, mid', last, Some(View(root)[caseId := bytes]), caseId, bytes, limits);
    assert Writes(root, caseId, bytes, limits) == [mid, stored, mid', last];
  }

  /**
   Exactly when a publication on a readable root refines the map update: no write on the way shows a reader an invalid
   catalog or anything but old or new bytes of the target case, and the last write shows the outcome.
   */
  lemma PublicationExact(root: Root, caseId: string, bytes: Bytes, limits: Limits)
    requires ReaderOk(root, limits)
    ensures var next := Publish(View(root), caseId, bytes, limits);
            && (Refines(root, Writes(root, caseId, bytes, limits), next, caseId, bytes, limits) <==>
                Undisturbed(root, caseId, bytes, limits))
            && (Succeeds(root, caseId, bytes, limits) <==> next.Some?)
  {
    if ValidId(caseId) && |bytes| <= limits.maxBytes {
      if |Listed(Items(root), caseId)| > limits.maxCount {
        FullPublication(root, caseId, bytes, limits);
      } else {
        RoomyPublication(root, caseId, bytes, limits);
      }
    }
  }

  /** A successful publication onto a file that another case names leaves a catalog that the reader refuses. */
  lemma SharedFileBreaksCatalog(root: Root, caseId: string, bytes: Bytes, limits: Limits)
    requires ReaderOk(root, limits) && Succeeds(root, caseId, bytes, limits) && !Clear(Items(root), caseId)
    ensures !ReaderOk(Last(root, Writes(root, caseId, bytes, limits)), limits)
  {
    PublicationExact(root, caseId, bytes, limits);
    ListedCount(root, caseId, bytes, limits);
    RoomyPublication(root, caseId, bytes, limits);
  }

  /** Before that, the other case already reads as the bytes published for `caseId`. */
  lemma SharedFileOverwrites(root: Root, caseId: string, bytes: Bytes, other: Item, limits: Limits)
    requires ReaderOk(root, limits) && ValidId(caseId) && |bytes| <= limits.maxBytes
    requires other in Items(root) && Resolve(other.report) == Some(ReportName(caseId))
    ensures var stored := Replaced(Aside(root, ReportName(caseId), Blob(bytes)), ReportName(caseId), Blob(bytes));
            other.caseId in View(stored) && View(stored)[other.caseId] == bytes
  {
    var mid := Aside(root, ReportName(caseId), Blob(bytes));
    ReportStored(root, mid, Replaced(mid, ReportName(caseId), Blob(bytes)), caseId, bytes, limits);
    SharerIs(Items(root), caseId, other);
    ViewAt(root, other, limits);
  }

  /** A root with one entry: case `a` under the file name of case `b`. */
  function BorrowedRoot(a: string, b: string): Root
  {
    map[CATALOG := Manifest([Item(a, ReportName(b))], 100), ReportName(b) := Blob([])]
  }

  lemma BorrowedIsReadable(a: string, b: string, limits: Limits)
    requires ValidId(a) && ValidId(b) && a != b && limits.maxCount >= 2
    ensures ReaderOk(BorrowedRoot(a, b), limits) && Items(BorrowedRoot(a, b)) == [Item(a, ReportName(b))]
    ensures !Clear(Items(BorrowedRoot(a, b)), b)
  {
    var root, item := BorrowedRoot(a, b), Item(a, ReportName(b));
    ReportNameFresh(b, "");
    ResolveReportName(b);
    ReportNameShape(b);
    assert Items(root) == [item] && item in Items(root);
    assert Present(root, item, limits) && ItemOk(item);
  }

  lemma ListedOne(item: Item, caseId: string)
    ensures |Listed([item], caseId)| <= 2
  {
  }

  /** Such roots exist for any two cases: publishing `b` goes through and makes the reader refuse the catalog. */
  lemma BorrowedNameBreaks(a: string, b: string, limits: Limits)
    requires ValidId(a) && ValidId(b) && a != b && limits.maxCount >= 2
    ensures var root := BorrowedRoot(a, b);
            && ReaderOk(root, limits) && Succeeds(root, b, [], limits)
            && !ReaderOk(Last(root, Writes(root, b, [], limits)), limits)
  {
    var root := BorrowedRoot(a, b);
    BorrowedIsReadable(a, b, limits);
    ListedOne(Item(a, ReportName(b)), b);
    RoomyPublication(root, b, [], limits);
    SharedFileBreaksCatalog(root, b, [], limits);
  }

  /** The root of the reader's own tests: "case_one" is listed under the file name of "case". */
  lemma CaseOneBreaks()
    ensures var root, limits := BorrowedRoot("case_one", "case"), Limits(8388608, 256);
            && ReaderOk(root, limits) && Succeeds(root, "case", [], limits)
            && !ReaderOk(Last(root, Writes(root, "case", [], limits)), limits)
  {
    BorrowedNameBreaks("case_one", "case", Limits(8388608, 256));
  }

  // ---------- Roots that only the publisher wrote ----------

  /** Every entry names its own file. */
  predicate Canonical(items: seq<Item>) { forall item :: item in items ==> item.report == ReportName(item.caseId) }

  /** Readable, in order, every case under its own file name: what the publisher makes of an empty root. */
  ghost predicate GoodRoot(root: Root, limits: Limits)
  {
    ReaderOk(root, limits) && SortedBy(ItemLe, Items(root)) && Canonical(Items(root))
  }

  /** Any catalog of valid identifiers within the count fits the reader's bound on the text; 256 is the default. */
  predicate Small(limits: Limits) { 74 + 385 * limits.maxCount <= MAX_CATALOG_BYTES }

  lemma {:induction false} CanonicalSize(items: seq<Item>)
    requires Canonical(items) && forall item :: item in items ==> ValidId(item.caseId)
    ensures CatalogSize(items) <= 74 + 385 * |items|
  {
    if items != [] {
      assert items[0] in items;
      IdSize(items[0].caseId);
      CanonicalSize(items[1..]);
    }
  }

  lemma CanonicalClear(items: seq<Item>, caseId: string)
    requires Canonical(items) && forall item :: item in items ==> ValidId(item.caseId)
    ensures Clear(items, caseId)
  {
    forall item | item in items && item.caseId != caseId ensures Resolve(item.report) != Some(ReportName(caseId)) {
      ResolveReportName(item.caseId);
      ReportNameInjective(item.caseId, caseId);
    }
  }

  /** On such a root no publication disturbs another case, as long as full catalogs are small enough to be read. */
  lemma GoodIsUndisturbed(root: Root, caseId: string, bytes: Bytes, limits: Limits)
    requires GoodRoot(root, limits) && Small(limits)
    ensures Undisturbed(root, caseId, bytes, limits)
  {
    var items := Items(root);
    assert forall item :: item in items ==> ItemOk(item);
    CanonicalClear(items, caseId);
    if ValidId(caseId) && |Listed(items, caseId)| <= limits.maxCount {
      ListedMembers(items, caseId);
      CanonicalSize(Listed(items, caseId));
    }
  }

  /** Every publication on such a root refines the map update and leaves such a root behind. */
  lemma PublicationCorrect(root: Root, caseId: string, bytes: Bytes, limits: Limits)
    requires GoodRoot(root, limits) && Small(limits)
    ensures var next, writes := Publish(View(root), caseId, bytes, limits), Writes(root, caseId, bytes, limits);
            && Refines(root, writes, next, caseId, bytes, limits) && GoodRoot(Last(root, writes), limits)
            && (Succeeds(root, caseId, bytes, limits) <==> next.Some?)
  {
    GoodIsUndisturbed(root, caseId, bytes, limits);
    PublicationExact(root, caseId, bytes, limits);
    if ValidId(caseId) && |bytes| <= limits.maxBytes {
      if |Listed(Items(root), caseId)| > limits.maxCount {
        var mid := Aside(root, ReportName(caseId), Blob(bytes));
        ReportStored(root, mid, Replaced(mid, ReportName(caseId), Blob(bytes)), caseId, bytes, limits);
      } else {
        RoomyPublication(root, caseId, bytes, limits);
        ListedGood(Items(root), caseId);
        ListedMembers(Items(root), caseId);
      }
    }
  }

  /** The writes of the publication refine the map update. */
  ghost predicate AsPublished(root: Root, caseId: string, bytes: Bytes, limits: Limits)
  {
    var next := Publish(View(root), caseId, bytes, limits);
    Refines(root, Writes(root, caseId, bytes, limits), next, caseId, bytes, limits)
  }

  lemma PublicationFacts(root: Root, caseId: string, bytes: Bytes, limits: Limits)
    ensures ReaderOk(root, limits) ==>
              (AsPublished(root, caseId, bytes, limits) <==> Undisturbed(root, caseId, bytes, limits))
    ensures GoodRoot(root, limits) && Small(limits) ==>
              GoodRoot(Last(root, Writes(root, caseId, bytes, limits)), limits)
                && Undisturbed(root, caseId, bytes, limits)
  {
    if ReaderOk(root, limits) {
      PublicationExact(root, caseId, bytes, limits);
    }
    if GoodRoot(root, limits) && Small(limits) {
      PublicationCorrect(root, caseId, bytes, limits);
      GoodIsUndisturbed(root, caseId, bytes, limits);
    }
  }

  // ---------- Any sequence of publications ----------

  type Requests = seq<(string, Bytes)>

  /** The root after one publication, and the view it should have. */
  ghost function Published(root: Root, request: (string, Bytes), limits: Limits): Root
  {
    Last(root, Writes(root, request.0, request.1, limits))
  }

  function Expected(view: map<string, Bytes>, request: (string, Bytes), limits: Limits): map<string, Bytes>
  {
    var next := Publish(view, request.0, request.1, limits);
    if next.Some? then next.value else view
  }

  function Init(requests: Requests): (r: Requests)
    requires requests != []
    ensures |r| < |requests|
  {
    requests[..|requests| - 1]
  }

  function Final(requests: Requests): (string, Bytes)
    requires requests != []
  {
    requests[|requests| - 1]
  }

  ghost function RootAfter(root: Root, requests: Requests, limits: Limits): Root
    decreases |requests|
  {
    if requests == [] then root else Published(RootAfter(root, Init(requests), limits), Final(requests), limits)
  }

  function ViewAfter(view: map<string, Bytes>, requests: Requests, limits: Limits): map<string, Bytes>
    decreases |requests|
  {
    if requests == [] then view else Expected(ViewAfter(view, Init(requests), limits), Final(requests), limits)
  }

  /** Each publication, on the root it finds, refines the map update. */
  ghost predicate AllRefine(root: Root, requests: Requests, limits: Limits)
    decreases |requests|
  {
    requests != [] ==>
      && AllRefine(root, Init(requests), limits)
      && AsPublished(RootAfter(root, Init(requests), limits), Final(requests).0, Final(requests).1, limits)
  }

  ghost predicate AllUndisturbed(root: Root, requests: Requests, limits: Limits)
    decreases |requests|
  {
    requests != [] ==>
      && AllUndisturbed(root, Init(requests), limits)
      && Undisturbed(RootAfter(root, Init(requests), limits), Final(requests).0, Final(requests).1, limits)
  }

  lemma PublishedAsExpected(root: Root, request: (string, Bytes), limits: Limits)
    requires AsPublished(root, request.0, request.1, limits)
    ensures ReaderOk(Published(root, request, limits), limits)
    ensures View(Published(root, request, limits)) == Expected(View(root), request, limits)
  {
  }

  /** Whether a publication goes through depends on the view alone; what it shows, on whether it is undisturbed. */
  lemma PublishedMeans(root: Root, request: (string, Bytes), limits: Limits)
    requires ReaderOk(root, limits)
    ensures Succeeds(root, request.0, request.1, limits) <==> Publish(View(root), request.0, request.1, limits).Some?
    ensures Undisturbed(root, request.0, request.1, limits) ==>
              ReaderOk(Published(root, request, limits), limits) &&
              View(Published(root, request, limits)) == Expected(View(root), request, limits)
  {
    PublicationExact(root, request.0, request.1, limits);
    if Undisturbed(root, request.0, request.1, limits) {
      PublishedAsExpected(root, request, limits);
    }
  }

  /** A sequence of publications refines the fold of map updates at every write exactly when none is disturbed. */
  lemma {:induction false} PublicationsExact(root: Root, requests: Requests, limits: Limits)
    requires ReaderOk(root, limits)
    ensures AllRefine(root, requests, limits) <==> AllUndisturbed(root, requests, limits)
    ensures AllUndisturbed(root, requests, limits) ==>
              ReaderOk(RootAfter(root, requests, limits), limits) &&
              View(RootAfter(root, requests, limits)) == ViewAfter(View(root), requests, limits)
    decreases |requests|
  {
    if requests != [] {
      var before, last := RootAfter(root, Init(requests), limits), Final(requests);
      PublicationsExact(root, Init(requests), limits);
      if AllUndisturbed(root, Init(requests), limits) {
        PublicationFacts(before, last.0, last.1, limits);
        if Undisturbed(before, last.0, last.1, limits) {
          PublishedAsExpected(before, last, limits);
        }
      }
    }
  }

  /** From an empty root, or any the publisher made, every sequence does, and entries stay unique and sorted. */
  lemma {:induction false} PublicationsRefine(root: Root, requests: Requests, limits: Limits)
    requires GoodRoot(root, limits) && Small(limits)
    ensures AllRefine(root, requests, limits) && GoodRoot(RootAfter(root, requests, limits), limits)
    ensures View(RootAfter(root, requests, limits)) == ViewAfter(View(root), requests, limits)
    decreases |requests|
  {
    if requests != [] {
      var before, last := RootAfter(root, Init(requests), limits), Final(requests);
      PublicationsRefine(root, Init(requests), limits);
      PublicationFacts(before, last.0, last.1, limits);
      PublishedAsExpected(before, last, limits);
    }
  }

  // ---------- Publications between listing and reading ----------

  predicate FileOk(root: Root, file: string, limits: Limits)
  {
    file in root && root[file].Blob? && |root[file].bytes| <= limits.maxBytes
  }

  /** `now` still holds the file, as it was or as one of `requests` wrote it. */
  ghost predicate Kept(root: Root, requests: Requests, now: Root, file: string, limits: Limits)
  {
    && FileOk(now, file, limits)
    && ((file in root && now[file] == root[file]) ||
        exists r :: r in requests && ReportName(r.0) == file && now[file] == Blob(r.1))
  }

  /** Putting a file under another name keeps `file` as it is. */
  lemma PutKeeps(root: Root, name: string, content: File, file: string)
    requires file != TempName(name)
    ensures file in Aside(root, name, content) <==> file in root
    ensures file in root ==> Aside(root, name, content)[file] == root[file]
    ensures file != name ==> (file in Replaced(root, name, content) <==> file in root)
    ensures file != name && file in root ==> Replaced(root, name, content)[file] == root[file]
  {
  }

  /** A root in which `file` is as it was, or as `bytes` under the name of `caseId`. */
  predicate OldOrWritten(root: Root, now: Root, caseId: string, bytes: Bytes, file: string)
    requires file in root
  {
    file in now && (now[file] == root[file] || (ReportName(caseId) == file && now[file] == Blob(bytes)))
  }

  lemma FourKeepFile(root: Root, caseId: string, bytes: Bytes, catalog: File, path: string)
    requires Resolve(path).Some? && Resolve(path).value in root
    ensures var file := Resolve(path).value;
            var mid := Aside(root, ReportName(caseId), Blob(bytes));
            var stored := Replaced(mid, ReportName(caseId), Blob(bytes));
            var mid' := Aside(stored, CATALOG, catalog);
            && OldOrWritten(root, mid, caseId, bytes, file) && OldOrWritten(root, stored, caseId, bytes, file)
            && OldOrWritten(root, mid', caseId, bytes, file)
            && OldOrWritten(root, Replaced(mid', CATALOG, catalog), caseId, bytes, file)
  {
    var file := Resolve(path).value;
    var mid := Aside(root, ReportName(caseId), Blob(bytes));
    var stored := Replaced(mid, ReportName(caseId), Blob(bytes));
    ResolvedIsReport(path, ReportName(caseId));
    ResolvedIsReport(path, CATALOG);
    PutKeeps(root, ReportName(caseId), Blob(bytes), file);
    PutKeeps(mid, ReportName(caseId), Blob(bytes), file);
    PutKeeps(stored, CATALOG, catalog, file);
    PutKeeps(Aside(stored, CATALOG, catalog), CATALOG, catalog, file);
  }

  lemma WritesKeepFile(root: Root, request: (string, Bytes), now: Root, path: string, limits: Limits)
    requires Resolve(path).Some? && FileOk(root, Resolve(path).value, limits)
    requires now in Writes(root, request.0, request.1, limits)
    ensures Kept(root, [request], now, Resolve(path).value, limits)
  {
    var (caseId, bytes) := request;
    var mid := Aside(root, ReportName(caseId), Blob(bytes));
    var stored := Replaced(mid, ReportName(caseId), Blob(bytes));
    var catalog := NewCatalog(Listed(Items(stored), caseId));
    FourKeepFile(root, caseId, bytes, catalog, path);
    assert OldOrWritten(root, now, caseId, bytes, Resolve(path).value);
    assert request in [request];
  }

  lemma KeptStep(
    root: Root, requests: Requests, mid: Root, request: (string, Bytes), now: Root, file: string, limits: Limits)
    requires Kept(root, requests, mid, file, limits) && Kept(mid, [request], now, file, limits)
    ensures Kept(root, requests + [request], now, file, limits)
  {
    if now[file] != mid[file] {
      assert request in requests + [request];
    } else if file !in root || mid[file] != root[file] {
      var r :| r in requests && ReportName(r.0) == file && mid[file] == Blob(r.1);
      assert r in requests + [request];
    }
  }

  lemma PublishedKeepsFile(root: Root, request: (string, Bytes), path: string, limits: Limits)
    requires Resolve(path).Some? && FileOk(root, Resolve(path).value, limits)
    ensures Kept(root, [request], Published(root, request, limits), Resolve(path).value, limits)
  {
    var writes := Writes(root, request.0, request.1, limits);
    if writes != [] {
      assert Published(root, request, limits) in writes;
      WritesKeepFile(root, request, Published(root, request, limits), path, limits);
    }
  }

  lemma {:induction false} AfterKeepsFile(root: Root, requests: Requests, path: string, file: string, limits: Limits)
    requires Resolve(path) == Some(file) && FileOk(root, file, limits)
    ensures Kept(root, requests, RootAfter(root, requests, limits), file, limits)
    decreases |requests|
  {
    if requests != [] {
      var mid, last := RootAfter(root, Init(requests), limits), Final(requests);
      AfterKeepsFile(root, Init(requests), path, file, limits);
      PublishedKeepsFile(mid, last, path, limits);
      KeptStep(root, Init(requests), mid, last, Published(mid, last, limits), file, limits);
      TakeNext(requests, |requests| - 1);
    }
  }

  /**
   A path that a reader has looked up stays readable through any publications and any of their single writes; what it
   finds there is what was listed, or what a later request wrote under that very file name.
   */
  lemma StalePathReads(root: Root, requests: Requests, request: (string, Bytes), now: Root, item: Item, limits: Limits)
    requires ReaderOk(root, limits) && item in Items(root)
    requires now == RootAfter(root, requests, limits) ||
             now in Writes(RootAfter(root, requests, limits), request.0, request.1, limits)
    ensures Kept(root, requests + [request], now, Resolve(item.report).value, limits)
  {
    assert Present(root, item, limits);
    var file, mid := Resolve(item.report).value, RootAfter(root, requests, limits);
    AfterKeepsFile(root, requests, item.report, file, limits);
    if now == mid {
      assert Kept(mid, [request], mid, file, limits);
    } else {
      WritesKeepFile(mid, request, now, item.report, limits);
    }
    KeptStep(root, requests, mid, request, now, file, limits);
  }

  /** For a case listed under its own file name that is its old report or a newer one of the same case. */
  lemma StaleReadIsAVersion(
    root: Root, requests: Requests, request: (string, Bytes), now: Root, item: Item, limits: Limits)
    requires ReaderOk(root, limits) && item in Items(root) && Resolve(item.report) == Some(ReportName(item.caseId))
    requires now == RootAfter(root, requests, limits) ||
             now in Writes(RootAfter(root, requests, limits), request.0, request.1, limits)
    ensures var file := ReportName(item.caseId);
            && FileOk(now, file, limits)
            && (now[file].bytes == View(root)[item.caseId] || (item.caseId, now[file].bytes) in requests + [request])
  {
    StalePathReads(root, requests, request, now, item, limits);
    ViewAt(root, item, limits);
    var file := ReportName(item.caseId);
    if now[file] != root[file] {
      var r :| r in requests + [request] && ReportName(r.0) == file && now[file] == Blob(r.1);
      ReportNameInjective(r.0, item.caseId);
    }
  }

  // ---------- The publisher ----------

  class Publisher {
    var root: Root
    const limits: Limits

    constructor (limits: Limits)
      ensures this.limits == limits && root == map[] && GoodRoot(root, limits) && View(root) == map[]
    {
      this.limits := limits;
      root := map[];
    }

    /** Write a temporary file, then rename it over `name`. */
    method WriteAtomically(name: string, file: File) returns (ghost mid: Root)
      modifies this
      ensures mid == Aside(old(root), name, file) && root == Replaced(mid, name, file)
    {
      root := root[TempName(name) := file];
      mid := root;
      root := (root - {TempName(name)})[name := file];
    }

    /** `writes` lists the root after every file-system write. */
    method StoreAndList(caseId: string, bytes: Bytes) returns (ok: bool, ghost writes: seq<Root>)
      modifies this
      ensures writes == Writes(old(root), caseId, bytes, limits) && root == Last(old(root), writes)
      ensures ok <==> Succeeds(old(root), caseId, bytes, limits)
    {
      writes := [];
      if !ValidId(caseId) || |bytes| > limits.maxBytes {
        return false, writes;
      }
      var filename := ReportName(caseId);
      ghost var mid := WriteAtomically(filename, Blob(bytes));
      writes := [mid, root];
      if CATALOG in root && !root[CATALOG].Manifest? {
        return false, writes;
      }
      var items := Filter((item: Item) => item.caseId != caseId, Items(root));
      items := items + [Item(caseId, filename)];
      items := SortBy(ItemLe, items);
      if |items| > limits.maxCount {
        return false, writes;
      }
      mid := WriteAtomically(CATALOG, NewCatalog(items));
      writes := writes + [mid, root];
      ok := true;
    }

    /** The publication, and what it means for a reader of the root it found. */
    method PublishReport(caseId: string, bytes: Bytes) returns (ok: bool, ghost writes: seq<Root>)
      modifies this
      ensures writes == Writes(old(root), caseId, bytes, limits) && root == Last(old(root), writes)
      ensures ok <==> Succeeds(old(root), caseId, bytes, limits)
      ensures old(ReaderOk(root, limits)) ==>
                (AsPublished(old(root), caseId, bytes, limits) <==> Undisturbed(old(root), caseId, bytes, limits))
      ensures old(GoodRoot(root, limits)) && Small(limits) ==>
                GoodRoot(root, limits) && Undisturbed(old(root), caseId, bytes, limits)
    {
      ok, writes := StoreAndList(caseId, bytes);
      PublicationFacts(old(root), caseId, bytes, limits);
    }
  }

  // ---------- The reader ----------

  datatype ReadError = InvalidCatalog | TooManyEntries | InvalidCaseId | DuplicateCase | UnsafePath | SharedReport
                     | Unreadable

  function Files(items: seq<Item>): set<Option<string>>
  {
    set item | item in items :: Resolve(item.report)
  }

  lemma ReadablePrefix(items: seq<Item>, k: nat, limits: Limits)
    requires k < |items| <= limits.maxCount && Readable(items[..k], limits)
    ensures Readable(items[..k + 1], limits) <==>
            ItemOk(items[k]) && items[k].caseId !in CaseIds(items[..k])
              && Resolve(items[k].report) !in Files(items[..k])
    ensures CaseIds(items[..k + 1]) == CaseIds(items[..k]) + {items[k].caseId}
    ensures Files(items[..k + 1]) == Files(items[..k]) + {Resolve(items[k].report)}
  {
    var next := items[..k + 1];
    assert next == items[..k] + [items[k]];
    assert next[k] == items[k];
    forall i | 0 <= i < k ensures next[i] == items[..k][i] && next[i] in items[..k] {
    }
  }

  /** `paths` sends every listed case to the file its entry names, and nothing else anywhere. */
  ghost predicate PathsOf(items: seq<Item>, paths: map<string, string>)
  {
    paths.Keys == CaseIds(items) && forall item :: item in items ==> PathFor(paths, item)
  }

  predicate PathFor(paths: map<string, string>, item: Item)
  {
    item.caseId in paths && Resolve(item.report) == Some(paths[item.caseId])
  }

  lemma PathForKept(paths: map<string, string>, caseId: string, file: string, item: Item)
    requires PathFor(paths, item) && item.caseId != caseId
    ensures PathFor(paths[caseId := file], item)
  {
  }

  lemma CaseIdsAdd(before: seq<Item>, own: Item)
    ensures CaseIds(before + [own]) == CaseIds(before) + {own.caseId}
  {
  }

  lemma PathsOfNext(items: seq<Item>, k: nat, paths: map<string, string>, file: string)
    requires k < |items| && PathsOf(items[..k], paths) && items[k].caseId !in paths
             && Resolve(items[k].report) == Some(file)
    ensures PathsOf(items[..k + 1], paths[items[k].caseId := file])
  {
    TakeNext(items, k);
    PathsOfAdd(items[..k], items[k], paths, file);
  }

  lemma PathsOfAdd(before: seq<Item>, own: Item, paths: map<string, string>, file: string)
    requires PathsOf(before, paths) && own.caseId !in paths && Resolve(own.report) == Some(file)
    ensures PathsOf(before + [own], paths[own.caseId := file])
  {
    UpdateKeys(paths, own.caseId, file);
    CaseIdsAdd(before, own);
    forall item | item in before ensures PathFor(paths[own.caseId := file], item) {
      assert PathFor(paths, item);
      PathForKept(paths, own.caseId, file, item);
    }
  }

  lemma ReadableTake(items: seq<Item>, k: nat, limits: Limits)
    requires k <= |items|
    ensures Readable(items, limits) ==> Readable(items[..k], limits)
  {
  }

  ghost predicate Loads(root: Root, limits: Limits) { CatalogOk(root) && Readable(Items(root), limits) }

  /** A path for a case, and an entry for it. */
  predicate Leads(item: Item, file: string)
  {
    && item.report != "" && item.report[0] != '/' && ".." !in Split(item.report)
    && StaysBelow(file) && EndsInJson(file) && file != "catalog.json"
  }

  lemma EntryLeads(paths: map<string, string>, item: Item)
    requires PathFor(paths, item)
    ensures Leads(item, paths[item.caseId])
  {
    AcceptedPaths(item.report);
    ResolvedStaysBelow(item.report);
  }

  lemma PathsDistinct(items: seq<Item>, paths: map<string, string>, a: string, b: string)
    requires UniqueFiles(items) && PathsOf(items, paths) && a in paths && b in paths && a != b
    ensures paths[a] != paths[b]
  {
    var i :| 0 <= i < |items| && items[i].caseId == a;
    var j :| 0 <= j < |items| && items[j].caseId == b;
    assert PathFor(paths, items[i]) && PathFor(paths, items[j]);
  }

  /** Entries lead nowhere but to JSON files below the root, and no two cases to the same one. */
  lemma LoadedPaths(items: seq<Item>, paths: map<string, string>, limits: Limits)
    requires Readable(items, limits) && PathsOf(items, paths)
    ensures forall item :: item in items ==> item.caseId in paths && Leads(item, paths[item.caseId])
    ensures forall id :: id in paths ==> exists item :: item in items && item.caseId == id
    ensures forall a, b :: a in paths && b in paths && a != b ==> paths[a] != paths[b]
  {
    forall item | item in items ensures item.caseId in paths && Leads(item, paths[item.caseId]) {
      assert PathFor(paths, item);
      EntryLeads(paths, item);
    }
    forall a, b | a in paths && b in paths && a != b ensures paths[a] != paths[b] {
      PathsDistinct(items, paths, a, b);
    }
  }

  method LoadCatalogPaths(root: Root, limits: Limits) returns (r: Result<map<string, string>, ReadError>)
    ensures r.Ok? <==> Loads(root, limits)
    ensures r.Ok? ==> PathsOf(Items(root), r.value)
    ensures r.Ok? ==>
              forall id :: id in r.value ==>
                StaysBelow(r.value[id]) && EndsInJson(r.value[id]) && r.value[id] != "catalog.json"
    ensures r.Ok? ==> forall a, b :: a in r.value && b in r.value && a != b ==> r.value[a] != r.value[b]
    ensures r.Ok? && "catalog.json" in root ==>
              root["catalog.json"].Manifest? && root["catalog.json"].size <= 1048576
    ensures r.Ok? ==>
              forall item :: item in Items(root) ==>
                1 <= |item.report| <= 512 && item.report[0] != '/' && ".." !in Split(item.report)
  {
    if CATALOG !in root {
      return Ok(map[]);
    }
    if !root[CATALOG].Manifest? || root[CATALOG].size > MAX_CATALOG_BYTES {
      return Err(InvalidCatalog);
    }
    var items := root[CATALOG].items;
    if |items| > limits.maxCount {
      return Err(TooManyEntries);
    }
    var paths: map<string, string> := map[];
    var used: set<Option<string>> := {};
    for k := 0 to |items|
      invariant Readable(items[..k], limits)
      invariant PathsOf(items[..k], paths) && used == Files(items[..k])
    {
      var item := items[k];
      ReadablePrefix(items, k, limits);
      ReadableTake(items, k + 1, limits);
      if |item.report| > MAX_PATH_LENGTH {
        return Err(InvalidCatalog);
      }
      if !ValidId(item.caseId) {
        return Err(InvalidCaseId);
      }
      if item.caseId in paths {
        return Err(DuplicateCase);
      }
      var file := Resolve(item.report);
      if file.None? {
        return Err(UnsafePath);
      }
      if file in used {
        return Err(SharedReport);
      }
      PathsOfNext(items, k, paths, file.value);
      paths := paths[item.caseId := file.value];
      used := used + {file};
    }
    assert items[..|items|] == items;
    LoadedPaths(items, paths, limits);
    return Ok(paths);
  }

  /** A catalog whose only entry goes up, or to an absolute path, is refused. */
  method TraversalExample(path: string, limits: Limits) returns (ok: bool)
    requires path == "../outside.json" || path == "/tmp/outside.json"
    ensures !ok
  {
    OutsidePaths(path);
    var item := Item("case_one", path);
    var root := map[CATALOG := Manifest([item], 80)];
    assert item in Items(root);
    var paths := LoadCatalogPaths(root, limits);
    ok := paths.Ok?;
  }

  /** The outcome of a read, in terms of the catalog and the one file it names. */
  method GetReport(root: Root, caseId: string, limits: Limits) returns (r: Result<Option<Bytes>, ReadError>)
    ensures ReaderOk(root, limits) ==> r == Ok(if caseId in View(root) then Some(View(root)[caseId]) else None)
    ensures !Loads(root, limits) ==> r.Err?
    ensures Loads(root, limits) ==> (r == Ok(None) <==> caseId !in CaseIds(Items(root)))
    ensures forall item :: Loads(root, limits) && item in Items(root) && item.caseId == caseId ==>
              r == if Present(root, item, limits) then Ok(Some(root[Resolve(item.report).value].bytes))
                   else Err(Unreadable)
  {
    var paths := LoadCatalogPaths(root, limits);
    if paths.Err? {
      return Err(paths.error);
    }
    if caseId !in paths.value {
      return Ok(None);
    }
    var path := paths.value[caseId];
    if ReaderOk(root, limits) {
      var item :| item in Items(root) && item.caseId == caseId;
      ViewAt(root, item, limits);
    }
    if path !in root || !root[path].Blob? || |root[path].bytes| > limits.maxBytes {
      return Err(Unreadable);
    }
    return Ok(Some(root[path].bytes));
  }

  datatype Entry = Entry(caseId: string, sizeBytes: nat)

  predicate EntryLe(a: Entry, b: Entry) { StrLe(a.caseId, b.caseId) }

  function EntryOf(root: Root, item: Item): Entry { Entry(item.caseId, |FileBytes(root, item.report)|) }

  predicate EntryFits(root: Root, item: Item, entry: Entry, limits: Limits)
  {
    Present(root, item, limits) && entry == EntryOf(root, item)
  }

  method FileEntry(root: Root, item: Item, paths: map<string, string>, limits: Limits) returns (e: Option<Entry>)
    requires PathFor(paths, item)
    ensures if Present(root, item, limits) then e.Some? && EntryFits(root, item, e.value, limits) else e.None?
  {
    var path := paths[item.caseId];
    if path !in root || !root[path].Blob? || |root[path].bytes| > limits.maxBytes {
      return None;
    }
    return Some(Entry(item.caseId, |root[path].bytes|));
  }

  /** The sizes of the listed files, or an error at the first that is missing or too large. */
  method CollectEntries(root: Root, items: seq<Item>, paths: map<string, string>, limits: Limits)
    returns (ok: bool, entries: seq<Entry>)
    requires forall i :: 0 <= i < |items| ==> PathFor(paths, items[i])
    ensures !ok ==> exists i :: 0 <= i < |items| && !Present(root, items[i], limits)
    ensures ok ==>
              |entries| == |items| && forall i :: 0 <= i < |items| ==> EntryFits(root, items[i], entries[i], limits)
  {
    entries := [];
    for i := 0 to |items|
      invariant |entries| == i
      invariant forall j :: 0 <= j < i ==> EntryFits(root, items[j], entries[j], limits)
    {
      var entry := FileEntry(root, items[i], paths, limits);
      if entry.None? {
        return false, entries;
      }
      entries := entries + [entry.value];
    }
    ok := true;
  }

  lemma EntriesPresent(root: Root, entries: seq<Entry>, limits: Limits)
    requires Loads(root, limits) && |entries| == |Items(root)|
    requires forall i :: 0 <= i < |entries| ==> EntryFits(root, Items(root)[i], entries[i], limits)
    ensures ReaderOk(root, limits)
  {
    var items := Items(root);
    forall item | item in items ensures Present(root, item, limits) {
      var i :| 0 <= i < |items| && items[i] == item;
      assert EntryFits(root, items[i], entries[i], limits);
    }
  }

  lemma EntryMeans(root: Root, item: Item, entry: Entry, limits: Limits)
    requires ReaderOk(root, limits) && item in Items(root) && EntryFits(root, item, entry, limits)
    ensures item.caseId in View(root) && entry == Entry(item.caseId, |View(root)[item.caseId]|)
  {
    ViewAt(root, item, limits);
  }

  lemma ViewCount(root: Root, limits: Limits)
    requires ReaderOk(root, limits)
    ensures |View(root)| == |Items(root)|
  {
    UniqueCount(Items(root));
    assert |View(root)| == |View(root).Keys|;
  }

  lemma EntriesMean(root: Root, items: seq<Item>, entries: seq<Entry>, id: string, limits: Limits)
    requires ReaderOk(root, limits) && items == Items(root) && |entries| == |items| && id in View(root)
    requires forall j :: 0 <= j < |entries| ==> EntryFits(root, items[j], entries[j], limits)
    ensures Entry(id, |View(root)[id]|) in entries
  {
    var item :| item in items && item.caseId == id;
    var j :| 0 <= j < |items| && items[j] == item;
    EntryMeans(root, item, entries[j], limits);
  }

  /** Listing succeeds exactly on readable roots, and then gives every case with the size of what it reads as. */
  method ListReports(root: Root, limits: Limits) returns (r: Result<seq<Entry>, ReadError>)
    ensures r.Ok? <==> ReaderOk(root, limits)
    ensures r.Ok? ==> |r.value| == |View(root)| && SortedBy(EntryLe, r.value)
    ensures r.Ok? ==> forall id :: id in View(root) ==> Entry(id, |View(root)[id]|) in r.value
  {
    var paths := LoadCatalogPaths(root, limits);
    if paths.Err? {
      return Err(paths.error);
    }
    var items := Items(root);
    assert forall i :: 0 <= i < |items| ==> items[i] in items;
    var ok, entries := CollectEntries(root, items, paths.value, limits);
    if !ok {
      return Err(Unreadable);
    }
    EntriesPresent(root, entries, limits);
    ViewCount(root, limits);
    forall id | id in View(root) ensures Entry(id, |View(root)[id]|) in entries {
      EntriesMean(root, items, entries, id, limits);
    }
    EntryOrder();
    SortSorted(EntryLe, entries);
    SortMembers(EntryLe, entries);
    return Ok(SortBy(EntryLe, entries));
  }

  lemma EntryOrder()
    ensures TotalPreorder(EntryLe)
  {
    StrLeOrder();
  }
}
