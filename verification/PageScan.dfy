/** `paths::scan`: pairing the files of a `pages/` tree into one entry per directory and method. */
module PageScan {
  import opened Prelude
  import opened Text
  import opened Sorting
  import opened Paths

  /** An `.html` or `.sql` file found by the walk; files of other kinds are ignored. */
  datatype PageFile = PageFile(dir: seq<string>, stem: string, isHtml: bool, path: string)

  datatype Key = Key(dir: seq<string>, stem: Stem)

  datatype Slot = Slot(html: Option<string>, sql: Option<string>)

  /** The directory and method a file belongs to, if its name is allowed there. */
  function KeyOf(f: PageFile): Option<Key> {
    match ParseStem(f.stem, f.dir == [])
    case None => None
    case Some(stem) => Some(Key(f.dir, stem))
  }

  function Put(slot: Slot, f: PageFile): Slot {
    if f.isHtml then slot.(html := Some(f.path)) else slot.(sql := Some(f.path))
  }

  /** The slot of a key: of several files for one side the last counts. */
  function SlotOf(files: seq<PageFile>, key: Key): Slot {
    if files == [] then Slot(None, None)
    else
      var n := |files| - 1;
      if KeyOf(files[n]) == Some(key) then Put(SlotOf(files[..n], key), files[n]) else SlotOf(files[..n], key)
  }

  function KeysOf(files: seq<PageFile>): set<Key> { set f | f in files && KeyOf(f).Some? :: KeyOf(f).value }

  /** The entry a directory and stem stand for. */
  function EntryOf(key: Key, slot: Slot): RouteEntry
    requires IsAccepted(key)
  {
    var segs := ParseSegments(key.dir).value;
    RouteEntry(
      MethodForStem(key.stem), BuildRoute(segs), BuildHandlerName(segs, StemName(key.stem)),
      if slot.html.Some? then Some(BuildTemplatePath(key.dir, StemName(key.stem))) else None,
      slot.html, slot.sql)
  }

  predicate IsAccepted(key: Key) { ParseSegments(key.dir).Ok? }

  predicate EntryLe(a: RouteEntry, b: RouteEntry) {
    if a.method_ == b.method_ then LexLe(a.route, b.route) else LexLe(a.method_, b.method_)
  }

  /** The entry of an accepted key, its files looked up. */
  function ScannedEntry(files: seq<PageFile>, key: Key): RouteEntry
    requires IsAccepted(key)
  {
    EntryOf(key, SlotOf(files, key))
  }

  /** The order of a `BTreeMap` keyed by directory and stem. */
  predicate KeyLe(a: Key, b: Key) {
    if a.dir == b.dir then LexLe(StemName(a.stem), StemName(b.stem)) else DirLe(a.dir, b.dir)
  }

  predicate DirLe(a: seq<string>, b: seq<string>) {
    a == [] || (b != [] && (if a[0] == b[0] then DirLe(a[1..], b[1..]) else LexLe(a[0], b[0])))
  }

  /** The keys are the tree's, each once. */
  ghost predicate ListsKeys(keys: seq<Key>, files: seq<PageFile>) {
    (forall key :: key in keys <==> key in KeysOf(files))
    && forall i, j :: 0 <= i < j < |keys| ==> keys[i] != keys[j]
  }

  /** Entry by entry, what these keys stand for. */
  ghost predicate Describes(entries: seq<RouteEntry>, files: seq<PageFile>, keys: seq<Key>) {
    |entries| == |keys|
    && forall i :: 0 <= i < |keys| ==> IsAccepted(keys[i]) && entries[i] == ScannedEntry(files, keys[i])
  }

  /** One entry per directory and stem, each of them accepted, in order. */
  ghost predicate IsScanOf(entries: seq<RouteEntry>, files: seq<PageFile>) {
    IsSorted(entries, EntryLe)
    && exists keys, unsorted :: ListsKeys(keys, files) && Describes(unsorted, files, keys)
                                && multiset(entries) == multiset(unsorted)
  }

  lemma EntryLeIsTotalPreorder()
    ensures IsTotalPreorder(EntryLe)
  {
    forall a: RouteEntry, b: RouteEntry ensures EntryLe(a, b) || EntryLe(b, a) {
      LexLeTotal(a.route, b.route);
      LexLeTotal(a.method_, b.method_);
    }
    forall a: RouteEntry, b: RouteEntry, c: RouteEntry | EntryLe(a, b) && EntryLe(b, c) ensures EntryLe(a, c) {
      EntryLeTransitive(a, b, c);
    }
  }

  lemma EntryLeTransitive(a: RouteEntry, b: RouteEntry, c: RouteEntry)
    requires EntryLe(a, b) && EntryLe(b, c)
    ensures EntryLe(a, c)
  {
    if a.method_ == b.method_ == c.method_ {
      LexLeTransitive(a.route, b.route, c.route);
    } else {
      if a.method_ == b.method_ || b.method_ == c.method_ {
      } else {
        LexLeTransitive(a.method_, b.method_, c.method_);
        if a.method_ == c.method_ { LexLeAntisymmetric(a.method_, b.method_); }
      }
    }
  }

  lemma NextFile(files: seq<PageFile>, i: nat, key: Key)
    requires i < |files|
    ensures KeysOf(files[..i + 1]) == KeysOf(files[..i]) + (match KeyOf(files[i]) case None => {} case Some(k) => {k})
    ensures SlotOf(files[..i + 1], key)
            == (if KeyOf(files[i]) == Some(key) then Put(SlotOf(files[..i], key), files[i])
                else SlotOf(files[..i], key))
  {
    assert files[..i + 1] == files[..i] + [files[i]];
    assert files[..i + 1][..i] == files[..i];
  }

  lemma {:induction false} UnseenSlotIsEmpty(files: seq<PageFile>, key: Key)
    requires key !in KeysOf(files)
    ensures SlotOf(files, key) == Slot(None, None)
  {
    if files != [] {
      var n := |files| - 1;
      assert files == files[..n] + [files[n]];
      assert KeyOf(files[n]).Some? ==> KeyOf(files[n]).value in KeysOf(files);
      UnseenSlotIsEmpty(files[..n], key);
    }
  }

  lemma {:induction false} InsertedKey(key: Key, keys: seq<Key>)
    requires key !in keys
    requires forall i, j :: 0 <= i < j < |keys| ==> keys[i] != keys[j]
    ensures var r := Insert(key, keys, KeyLe);
            (forall k :: k in r <==> k == key || k in keys) && forall i, j :: 0 <= i < j < |r| ==> r[i] != r[j]
  {
    if !(keys == [] || KeyLe(key, keys[0])) {
      InsertedKey(key, keys[1..]);
      var rest := Insert(key, keys[1..], KeyLe);
      forall j | 0 <= j < |rest| ensures keys[0] != rest[j] {
        assert rest[j] in rest;
      }
      assert keys == [keys[0]] + keys[1..];
    }
  }

  ghost predicate HoldsSlots(slots: map<Key, Slot>, files: seq<PageFile>) {
    slots.Keys == KeysOf(files) && forall key :: key in slots ==> slots[key] == SlotOf(files, key)
  }

  lemma SlotsNext(files: seq<PageFile>, i: nat, key: Key, keys: seq<Key>, slots: map<Key, Slot>)
    requires i < |files| && KeyOf(files[i]) == Some(key)
    requires ListsKeys(keys, files[..i]) && HoldsSlots(slots, files[..i])
    ensures ListsKeys(if key in slots then keys else Insert(key, keys, KeyLe), files[..i + 1])
    ensures HoldsSlots(slots[key := Put(if key in slots then slots[key] else Slot(None, None), files[i])],
                       files[..i + 1])
  {
    NextFile(files, i, key);
    if key !in slots { InsertedKey(key, keys); }
    NextSlots(files, i, key, slots);
  }

  lemma NextSlots(files: seq<PageFile>, i: nat, key: Key, slots: map<Key, Slot>)
    requires i < |files| && KeyOf(files[i]) == Some(key) && HoldsSlots(slots, files[..i])
    ensures HoldsSlots(slots[key := Put(if key in slots then slots[key] else Slot(None, None), files[i])],
                       files[..i + 1])
  {
    NextFile(files, i, key);
    if key !in slots { UnseenSlotIsEmpty(files[..i], key); }
    forall k | k in slots || k == key
      ensures SlotOf(files[..i + 1], k)
              == (if key == k then Put(SlotOf(files[..i], k), files[i]) else SlotOf(files[..i], k))
    {
      NextFile(files, i, k);
    }
  }

  /** What the walk has collected after these files. */
  function Grouped(files: seq<PageFile>): (seq<Key>, map<Key, Slot>) {
    if files == [] then ([], map[])
    else
      var n := |files| - 1;
      match KeyOf(files[n])
      case None => Grouped(files[..n])
      case Some(key) => AddFile(Grouped(files[..n]), key, files[n])
  }

  function AddFile(g: (seq<Key>, map<Key, Slot>), key: Key, f: PageFile): (seq<Key>, map<Key, Slot>) {
    var (keys, slots) := g;
    (if key in slots then keys else Insert(key, keys, KeyLe),
     slots[key := Put(if key in slots then slots[key] else Slot(None, None), f)])
  }

  lemma {:induction false} GroupedMeaning(files: seq<PageFile>)
    ensures ListsKeys(Grouped(files).0, files) && HoldsSlots(Grouped(files).1, files)
  {
    if files != [] {
      var n := |files| - 1;
      GroupedMeaning(files[..n]);
      assert files[..n + 1] == files;
      match KeyOf(files[n])
      case None => forall k { NextFile(files, n, k); }
      case Some(key) => SlotsNext(files, n, key, Grouped(files[..n]).0, Grouped(files[..n]).1);
    }
  }

  method GroupFiles(files: seq<PageFile>) returns (r: Result<(seq<Key>, map<Key, Slot>), ScanError>)
    ensures r.Ok? ==> r.value == Grouped(files) && forall f :: f in files ==> KeyOf(f).Some?
    ensures r.Err? ==> exists f :: f in files && KeyOf(f).None? && r.error == BadStem(f.stem)
  {
    var keys: seq<Key>, slots: map<Key, Slot> := [], map[];
    for i := 0 to |files|
      invariant forall k :: 0 <= k < i ==> KeyOf(files[k]).Some?
      invariant (keys, slots) == Grouped(files[..i])
    {
      var f := files[i];
      var key := KeyOf(f);
      if key.None? {
        return Err(BadStem(f.stem));
      }
      assert files[..i + 1][..i] == files[..i];
      var slot := if key.value in slots then slots[key.value] else Slot(None, None);
      if key.value !in slots {
        keys := Insert(key.value, keys, KeyLe);
      }
      slots := slots[key.value := Put(slot, f)];
    }
    assert files[..|files|] == files;
    return Ok((keys, slots));
  }

  /** Stops at the first malformed directory. */
  method BuildEntries(keys: seq<Key>, slots: map<Key, Slot>, ghost files: seq<PageFile>)
    returns (r: Result<seq<RouteEntry>, ScanError>)
    requires HoldsSlots(slots, files) && forall key :: key in keys ==> key in slots
    ensures r.Ok? ==> Describes(r.value, files, keys)
    ensures r.Err? ==>
              exists key :: key in keys && !IsAccepted(key) && r.error == BadSegment(ParseSegments(key.dir).error)
  {
    var out: seq<RouteEntry> := [];
    for i := 0 to |keys|
      invariant Describes(out, files, keys[..i])
    {
      var segments := ParseSegments(keys[i].dir);
      if segments.Err? {
        assert keys[i] in keys;
        return Err(BadSegment(segments.error));
      }
      DescribesNext(out, files, keys, i);
      out := out + [EntryOf(keys[i], slots[keys[i]])];
    }
    assert keys[..|keys|] == keys;
    return Ok(out);
  }

  lemma DescribesNext(out: seq<RouteEntry>, files: seq<PageFile>, keys: seq<Key>, i: nat)
    requires i < |keys| && Describes(out, files, keys[..i]) && IsAccepted(keys[i])
    ensures Describes(out + [EntryOf(keys[i], SlotOf(files, keys[i]))], files, keys[..i + 1])
  {
    var out' := out + [ScannedEntry(files, keys[i])];
    forall j | 0 <= j < |keys[..i + 1]|
      ensures IsAccepted(keys[..i + 1][j]) && out'[j] == ScannedEntry(files, keys[..i + 1][j])
    {
      if j < i { assert keys[..i + 1][j] == keys[..i][j]; }
    }
  }

  /** A file is called after a method, or it is the root's not-found page. */
  predicate IsAllowed(f: PageFile) {
    f.stem in ["index", "post", "put", "patch", "delete"] || (f.stem == "_404" && f.dir == [])
  }

  /** Sorted by method, then by route. */
  predicate IsBefore(a: RouteEntry, b: RouteEntry) {
    LexLe(a.method_, b.method_) && (a.method_ == b.method_ ==> LexLe(a.route, b.route))
  }

  lemma AllowedIff(files: seq<PageFile>)
    ensures forall f :: f in files ==> (KeyOf(f).Some? <==> IsAllowed(f))
  {
    forall f | f in files ensures KeyOf(f).Some? <==> IsAllowed(f) { StemIsAllowedIff(f.stem, f.dir == []); }
  }

  lemma SortedIsBefore(entries: seq<RouteEntry>)
    requires IsSorted(entries, EntryLe)
    ensures forall i, j :: 0 <= i < j < |entries| ==> IsBefore(entries[i], entries[j])
  {
    forall i, j | 0 <= i < j < |entries| ensures IsBefore(entries[i], entries[j]) {
      assert EntryLe(entries[i], entries[j]);
      LexLeTotal(entries[i].method_, entries[i].method_);
    }
  }

  /** Succeeds, with the tree's entries, iff every file and every directory is well named. */
  method Scan(files: seq<PageFile>) returns (r: Result<seq<RouteEntry>, ScanError>)
    ensures r.Ok? ==> IsScanOf(r.value, files)
    ensures r.Ok? <==> (forall f :: f in files ==> IsAllowed(f))
                       && forall key :: key in KeysOf(files) ==> IsAccepted(key)
    ensures r.Ok? ==> forall i, j :: 0 <= i < j < |r.value| ==> IsBefore(r.value[i], r.value[j])
  {
    AllowedIff(files);
    var grouped := GroupFiles(files);
    if grouped.Err? {
      return Err(grouped.error);
    }
    GroupedMeaning(files);
    var (keys, slots) := grouped.value;
    var out := BuildEntries(keys, slots, files);
    if out.Err? {
      return Err(out.error);
    }
    EntryLeIsTotalPreorder();
    SortSorts(out.value, EntryLe);
    SortedIsBefore(StableSort(out.value, EntryLe));
    SortKeepsElements(out.value, EntryLe);
    AllAccepted(out.value, files, keys);
    return Ok(StableSort(out.value, EntryLe));
  }

  lemma AllAccepted(out: seq<RouteEntry>, files: seq<PageFile>, keys: seq<Key>)
    requires ListsKeys(keys, files) && Describes(out, files, keys)
    ensures forall key :: key in KeysOf(files) ==> IsAccepted(key)
  {
    forall key | key in KeysOf(files) ensures IsAccepted(key) {
      assert key in keys;
      var i :| 0 <= i < |keys| && keys[i] == key;
    }
  }

  /** Every entry of a scan stands for a key of the tree, and every key has its entry. */
  lemma ScanCoversTree(entries: seq<RouteEntry>, files: seq<PageFile>)
    requires IsScanOf(entries, files)
    ensures |entries| == |KeysOf(files)|
    ensures forall key :: key in KeysOf(files) ==> IsAccepted(key) && ScannedEntry(files, key) in entries
    ensures forall e :: e in entries ==> ComesFrom(e, files)
  {
    var keys, unsorted :| ListsKeys(keys, files) && Describes(unsorted, files, keys)
                          && multiset(entries) == multiset(unsorted);
    assert |entries| == |multiset(entries)| == |multiset(unsorted)| == |keys|;
    DistinctCount(keys);
    assert KeysOf(files) == set k | k in keys;
    forall key | key in KeysOf(files) ensures IsAccepted(key) && ScannedEntry(files, key) in entries {
      assert key in keys;
      var i :| 0 <= i < |keys| && keys[i] == key;
      MemberOfPermutation(unsorted, entries, unsorted[i]);
    }
    forall e | e in entries ensures ComesFrom(e, files) {
      MemberOfPermutation(entries, unsorted, e);
      var i :| 0 <= i < |unsorted| && unsorted[i] == e;
      assert keys[i] in keys;
    }
  }

  ghost predicate ComesFrom(e: RouteEntry, files: seq<PageFile>) {
    exists key :: key in KeysOf(files) && IsAccepted(key) && e == ScannedEntry(files, key)
  }

  lemma {:induction false} DistinctCount(keys: seq<Key>)
    requires forall i, j :: 0 <= i < j < |keys| ==> keys[i] != keys[j]
    ensures |set k | k in keys| == |keys|
  {
    if keys != [] {
      DistinctCount(keys[1..]);
      assert (set k | k in keys) == {keys[0]} + set k | k in keys[1..];
    }
  }

  // ---- Which files an entry has ----

  predicate IsFileOf(f: PageFile, key: Key, isHtml: bool) { KeyOf(f) == Some(key) && f.isHtml == isHtml }

  /** The last template, or the last handler file, of this page. */
  predicate IsLastFile(files: seq<PageFile>, key: Key, isHtml: bool, i: int) {
    0 <= i < |files| && IsFileOf(files[i], key, isHtml)
    && forall j :: i < j < |files| ==> !IsFileOf(files[j], key, isHtml)
  }

  function SideOf(files: seq<PageFile>, key: Key, isHtml: bool): Option<string> {
    if isHtml then SlotOf(files, key).html else SlotOf(files, key).sql
  }

  lemma SideNext(files: seq<PageFile>, key: Key, isHtml: bool)
    requires files != []
    ensures var n := |files| - 1;
            SideOf(files, key, isHtml)
            == if IsFileOf(files[n], key, isHtml) then Some(files[n].path) else SideOf(files[..n], key, isHtml)
  {
  }

  lemma {:induction false} SideIsFilled(files: seq<PageFile>, key: Key, isHtml: bool)
    ensures SideOf(files, key, isHtml).Some? <==> exists f :: f in files && IsFileOf(f, key, isHtml)
  {
    if files != [] {
      var n := |files| - 1;
      SideNext(files, key, isHtml);
      SideIsFilled(files[..n], key, isHtml);
      assert files == files[..n] + [files[n]] && files[n] in files;
    }
  }

  lemma {:induction false} SideIsLast(files: seq<PageFile>, key: Key, isHtml: bool, i: int)
    requires IsLastFile(files, key, isHtml, i)
    ensures SideOf(files, key, isHtml) == Some(files[i].path)
  {
    var n := |files| - 1;
    SideNext(files, key, isHtml);
    if i < n {
      assert forall j :: i < j < n ==> files[..n][j] == files[j];
      SideIsLast(files[..n], key, isHtml, i);
    }
  }

  /** An entry has a template iff its page has an HTML file, and reads its template from the last of
      these and its handler from the last SQL file. */
  lemma EntryHasItsFiles(files: seq<PageFile>, key: Key)
    requires IsAccepted(key)
    ensures var e := ScannedEntry(files, key);
            (e.templatePath.Some? <==> e.htmlPath.Some?)
            && (e.htmlPath.Some? <==> exists f :: f in files && IsFileOf(f, key, true))
            && (e.sqlPath.Some? <==> exists f :: f in files && IsFileOf(f, key, false))
            && (forall i :: IsLastFile(files, key, true, i) ==> e.htmlPath == Some(files[i].path))
            && (forall i :: IsLastFile(files, key, false, i) ==> e.sqlPath == Some(files[i].path))
  {
    SideIsFilled(files, key, true);
    SideIsFilled(files, key, false);
    forall isHtml, i | IsLastFile(files, key, isHtml, i)
      ensures SideOf(files, key, isHtml) == Some(files[i].path)
    {
      SideIsLast(files, key, isHtml, i);
    }
  }

  // ---- What scanning a well-named tree gives ----

  /** In a tree whose names follow the discipline, no two pages share a handler function. */
  lemma NoHandlerIsOverwritten(entries: seq<RouteEntry>, files: seq<PageFile>, e: RouteEntry, e': RouteEntry)
    requires IsScanOf(entries, files) && e in entries && e' in entries
    requires forall key :: key in KeysOf(files) && ParseSegments(key.dir).Ok? ==>
               NamesSafely(ParseSegments(key.dir).value)
    requires e.handlerName == e'.handlerName
    ensures e == e'
  {
    ScanCoversTree(entries, files);
    assert ComesFrom(e, files) && ComesFrom(e', files);
    var k :| k in KeysOf(files) && IsAccepted(k) && e == ScannedEntry(files, k);
    var k' :| k' in KeysOf(files) && IsAccepted(k') && e' == ScannedEntry(files, k');
    SameHandlerSameKey(k, k');
  }

  lemma SameHandlerSameKey(k: Key, k': Key)
    requires IsAccepted(k) && IsAccepted(k')
    requires NamesSafely(ParseSegments(k.dir).value) && NamesSafely(ParseSegments(k'.dir).value)
    requires BuildHandlerName(ParseSegments(k.dir).value, StemName(k.stem))
             == BuildHandlerName(ParseSegments(k'.dir).value, StemName(k'.stem))
    ensures k == k'
  {
    ParsedSegmentsSpellTheDirectory(k.dir);
    ParsedSegmentsSpellTheDirectory(k'.dir);
    HandlerNamesAreInjective(ParseSegments(k.dir).value, k.stem, ParseSegments(k'.dir).value, k'.stem);
    assert k.dir == k'.dir;
  }

  /** A template row is one page's: keys never collide. */
  lemma NoTemplateIsOverwritten(entries: seq<RouteEntry>, files: seq<PageFile>, e: RouteEntry, e': RouteEntry)
    requires IsScanOf(entries, files) && e in entries && e' in entries
    requires forall key :: key in KeysOf(files) ==> IsSlashFree(key)
    requires e.templatePath.Some? && e.templatePath == e'.templatePath
    ensures e == e'
  {
    ScanCoversTree(entries, files);
    assert ComesFrom(e, files) && ComesFrom(e', files);
    var k :| k in KeysOf(files) && IsAccepted(k) && e == ScannedEntry(files, k);
    var k' :| k' in KeysOf(files) && IsAccepted(k') && e' == ScannedEntry(files, k');
    SameTemplateSameKey(k, k');
  }

  /** Directory names never contain the separator. */
  predicate IsSlashFree(key: Key) { forall i :: 0 <= i < |key.dir| ==> '/' !in key.dir[i] }

  lemma SameTemplateSameKey(k: Key, k': Key)
    requires IsSlashFree(k) && IsSlashFree(k')
    requires BuildTemplatePath(k.dir, StemName(k.stem)) == BuildTemplatePath(k'.dir, StemName(k'.stem))
    ensures k == k'
  {
    TemplatePathsAreInjective(k.dir, StemName(k.stem), k'.dir, StemName(k'.stem));
    StemNamesDiffer(k.stem, k'.stem);
  }
}
