// db/db.go: mergeMigrationSources, which collects the migration files of every source under their names.
module MigrationMerge {
  import opened Wrappers
  import opened Base64

  type Bytes = seq<Byte>

  datatype Entry = Entry(name: string, isDir: bool)

  // A source's file system as the merge sees it: the listing of its directory, if it can be listed,
  // and the files that can be read, by path.
  datatype Source = Source(dir: string, listing: Option<seq<Entry>>, files: map<string, Bytes>)

  datatype Error = ListingFailed(dir: string) | ReadingFailed(name: string) | Duplicate(name: string)

  function FilePath(dir: string, name: string): string {
    if dir != "." && dir != "" then dir + "/" + name else name
  }

  // ----- what the sources hold, in the order of a walk -----

  datatype Item = Unlisted(dir: string) | Unread(name: string) | File(name: string, data: Bytes)

  function ItemOf(src: Source, name: string): Item {
    var path := FilePath(src.dir, name);
    if path in src.files then File(name, src.files[path]) else Unread(name)
  }

  function EntryItems(src: Source, entries: seq<Entry>): seq<Item> {
    if entries == [] then []
    else (if entries[0].isDir then [] else [ItemOf(src, entries[0].name)]) + EntryItems(src, entries[1..])
  }

  function ItemsOf(src: Source): seq<Item> {
    match src.listing case None => [Unlisted(src.dir)] case Some(entries) => EntryItems(src, entries)
  }

  function Items(sources: seq<Source>): seq<Item> {
    if sources == [] then [] else ItemsOf(sources[0]) + Items(sources[1..])
  }

  // The first obstacle of the walk decides; a file is read before its name is looked up.
  function Outcome(items: seq<Item>, files: map<string, Bytes>): Result<map<string, Bytes>, Error> {
    if items == [] then Ok(files)
    else match items[0]
      case Unlisted(dir) => Err(ListingFailed(dir))
      case Unread(name) => Err(ReadingFailed(name))
      case File(name, data) =>
        if name in files then Err(Duplicate(name)) else Outcome(items[1..], files[name := data])
  }

  lemma NextSource(sources: seq<Source>, i: nat)
    requires i < |sources|
    ensures Items(sources[i..]) == ItemsOf(sources[i]) + Items(sources[i + 1..])
  {
    assert sources[i..][1..] == sources[i + 1..];
  }

  lemma NextEntry(src: Source, entries: seq<Entry>, j: nat, later: seq<Item>)
    requires j < |entries|
    ensures EntryItems(src, entries[j..]) + later ==
            if entries[j].isDir then EntryItems(src, entries[j + 1..]) + later
            else [ItemOf(src, entries[j].name)] + (EntryItems(src, entries[j + 1..]) + later)
  {
    assert entries[j..][1..] == entries[j + 1..];
  }

  method MergeMigrationSources(sources: seq<Source>) returns (r: Result<map<string, Bytes>, Error>)
    ensures r == Outcome(Items(sources), map[])
  {
    ghost var outcome := Outcome(Items(sources), map[]);
    var files: map<string, Bytes> := map[];
    for i := 0 to |sources|
      invariant outcome == Outcome(Items(sources[i..]), files)
    {
      var src := sources[i];
      ghost var later := Items(sources[i + 1..]);
      NextSource(sources, i);
      if src.listing.None? {
        return Err(ListingFailed(src.dir));
      }
      var entries := src.listing.value;
      assert entries[0..] == entries;
      for j := 0 to |entries|
        invariant outcome == Outcome(EntryItems(src, entries[j..]) + later, files)
      {
        NextEntry(src, entries, j, later);
        if entries[j].isDir {
          continue;
        }
        var name := entries[j].name;
        var path := FilePath(src.dir, name);
        if path !in src.files {
          return Err(ReadingFailed(name));
        }
        if name in files {
          return Err(Duplicate(name));
        }
        files := files[name := src.files[path]];
      }
      assert EntryItems(src, entries[|entries|..]) + later == later;
    }
    return Ok(files);
  }

  // ----- a disjoint union -----

  predicate AllFiles(items: seq<Item>) { forall i | 0 <= i < |items| :: items[i].File? }

  predicate NamesDiffer(items: seq<Item>)
    requires AllFiles(items)
  {
    forall i, j | 0 <= i < j < |items| :: items[i].name != items[j].name
  }

  predicate Fresh(items: seq<Item>, files: map<string, Bytes>)
    requires AllFiles(items)
  {
    forall i | 0 <= i < |items| :: items[i].name !in files
  }

  ghost predicate Holds(files: map<string, Bytes>, name: string, data: Bytes) { name in files && files[name] == data }

  lemma {:induction false} OutcomeExactly(items: seq<Item>, files: map<string, Bytes>)
    ensures Outcome(items, files).Ok? <==> AllFiles(items) && NamesDiffer(items) && Fresh(items, files)
    ensures Outcome(items, files).Ok? ==>
      forall name, data ::
        Holds(Outcome(items, files).value, name, data) <==> Holds(files, name, data) || File(name, data) in items
    ensures AllFiles(items) && Outcome(items, files).Err? ==> Outcome(items, files).error.Duplicate?
  {
    if items != [] && items[0].File? && items[0].name !in files {
      var rest := items[1..];
      assert items == [items[0]] + rest;
      OutcomeExactly(rest, files[items[0].name := items[0].data]);
      assert forall i | 0 <= i < |rest| :: rest[i] == items[i + 1];
    }
  }

  // The path of a file in a directory: its name alone in the current one, else the directory, a slash, the name.
  predicate IsPathOf(path: string, dir: string, name: string) {
    if dir == "." || dir == "" then path == name
    else |path| == |dir| + 1 + |name| && path[..|dir|] == dir && path[|dir|] == '/' && path[|dir| + 1..] == name
  }

  lemma PathExactly(path: string, dir: string, name: string)
    ensures IsPathOf(path, dir, name) <==> path == FilePath(dir, name)
  {
    if IsPathOf(path, dir, name) && dir != "." && dir != "" {
      assert path == path[..|dir|] + [path[|dir|]] + path[|dir| + 1..];
    }
  }

  ghost predicate Reads(src: Source, name: string) { exists path :: path in src.files && IsPathOf(path, src.dir, name) }

  ghost predicate ReadsAs(src: Source, name: string, data: Bytes) {
    exists path :: path in src.files && IsPathOf(path, src.dir, name) && src.files[path] == data
  }

  lemma ReadsExactly(src: Source, name: string)
    ensures Reads(src, name) <==> FilePath(src.dir, name) in src.files
    ensures forall data :: ReadsAs(src, name, data) <==> Holds(src.files, FilePath(src.dir, name), data)
  {
    forall path ensures IsPathOf(path, src.dir, name) <==> path == FilePath(src.dir, name) {
      PathExactly(path, src.dir, name);
    }
  }

  // Every directory can be listed and every file it lists can be read.
  ghost predicate Readable(sources: seq<Source>) {
    forall src | src in sources ::
      src.listing.Some? && forall e | e in src.listing.value && !e.isDir :: Reads(src, e.name)
  }

  // `src` lists a file (not a directory) called `name`, and its content there is `data`.
  ghost predicate Offers(src: Source, name: string, data: Bytes) {
    src.listing.Some? && Entry(name, false) in src.listing.value && ReadsAs(src, name, data)
  }

  lemma {:induction false} EntryItemsHold(src: Source, entries: seq<Entry>, item: Item)
    ensures item in EntryItems(src, entries) <==>
            exists e :: e in entries && !e.isDir && item == ItemOf(src, e.name)
  {
    if entries != [] {
      EntryItemsHold(src, entries[1..], item);
      assert entries == [entries[0]] + entries[1..];
    }
  }

  lemma {:induction false} ItemsHold(sources: seq<Source>, item: Item)
    ensures item in Items(sources) <==> exists src :: src in sources && item in ItemsOf(src)
  {
    if sources != [] {
      ItemsHold(sources[1..], item);
      assert sources == [sources[0]] + sources[1..];
    }
  }

  lemma FilesOffered(sources: seq<Source>, name: string, data: Bytes)
    ensures File(name, data) in Items(sources) <==> exists src :: src in sources && Offers(src, name, data)
  {
    var file := File(name, data);
    ItemsHold(sources, file);
    forall src | src in sources ensures file in ItemsOf(src) <==> Offers(src, name, data) {
      ReadsExactly(src, name);
      if src.listing.Some? {
        EntryItemsHold(src, src.listing.value, file);
        if file in ItemsOf(src) {
          var e :| e in src.listing.value && !e.isDir && file == ItemOf(src, e.name);
          assert e == Entry(name, false);
        }
      }
    }
  }

  lemma ReadableExactly(sources: seq<Source>)
    ensures AllFiles(Items(sources)) <==> Readable(sources)
  {
    var items := Items(sources);
    if AllFiles(items) {
      forall src | src in sources
        ensures src.listing.Some?
        ensures forall e | e in src.listing.value && !e.isDir :: Reads(src, e.name)
      {
        if src.listing.None? {
          assert Unlisted(src.dir) in ItemsOf(src);
          ItemsHold(sources, Unlisted(src.dir));
        } else {
          forall e | e in src.listing.value && !e.isDir ensures Reads(src, e.name) {
            ReadsExactly(src, e.name);
            EntryItemsHold(src, src.listing.value, ItemOf(src, e.name));
            ItemsHold(sources, ItemOf(src, e.name));
          }
        }
      }
    }
    forall i | 0 <= i < |items| && Readable(sources) ensures items[i].File? {
      ItemsHold(sources, items[i]);
      var src :| src in sources && items[i] in ItemsOf(src);
      EntryItemsHold(src, src.listing.value, items[i]);
      var e :| e in src.listing.value && !e.isDir && items[i] == ItemOf(src, e.name);
      ReadsExactly(src, e.name);
    }
  }

  // The merge succeeds exactly when every source can be read and no file name occurs twice; it then holds
  // exactly the files the sources offer, contents unchanged. Readable sources fail only for a duplicate.
  lemma MergeIsDisjointUnion(sources: seq<Source>, r: Result<map<string, Bytes>, Error>)
    requires r == Outcome(Items(sources), map[])
    ensures r.Ok? <==> Readable(sources) && AllFiles(Items(sources)) && NamesDiffer(Items(sources))
    ensures Readable(sources) ==> AllFiles(Items(sources))
    ensures Readable(sources) && r.Err? ==> r.error.Duplicate?
    ensures r.Ok? ==>
      forall name, data :: Holds(r.value, name, data) <==> exists src :: src in sources && Offers(src, name, data)
  {
    OutcomeExactly(Items(sources), map[]);
    ReadableExactly(sources);
    if r.Ok? {
      forall name, data
        ensures Holds(r.value, name, data) <==> exists src :: src in sources && Offers(src, name, data)
      {
        FilesOffered(sources, name, data);
      }
    }
  }

  // Item k is where the merge stops: what comes before it are files of different names.
  ghost predicate StopsAt(items: seq<Item>, k: nat, error: Error) {
    && k < |items| && AllFiles(items[..k]) && NamesDiffer(items[..k])
    && match items[k]
       case Unlisted(dir) => error == ListingFailed(dir)
       case Unread(name) => error == ReadingFailed(name)
       case File(name, _) =>
         error == Duplicate(name) && exists i :: 0 <= i < k && items[i].File? && items[i].name == name
  }

  lemma {:induction false} SeenBefore(items: seq<Item>, k: nat, files: map<string, Bytes>)
    requires k <= |items| && AllFiles(items[..k]) && NamesDiffer(items[..k])
    requires files.Keys == set i | 0 <= i < k :: items[i].name
    requires Outcome(items[k..], files).Err?
    ensures exists stop :: StopsAt(items, stop, Outcome(items[k..], files).error)
    decreases |items| - k
  {
    var rest := items[k..];
    assert rest[0] == items[k] && rest[1..] == items[k + 1..];
    if items[k].File? && items[k].name !in files {
      assert items[..k + 1] == items[..k] + [items[k]];
      assert forall i | 0 <= i < k :: items[..k][i] == items[i] && items[i].name in files;
      SeenBefore(items, k + 1, files[items[k].name := items[k].data]);
    } else {
      assert StopsAt(items, k, Outcome(rest, files).error);
    }
  }

  // An error tells the first obstacle of the walk: a directory that cannot be listed, a file that cannot be
  // read, or one that can and has the name of an earlier one.
  lemma ErrorIsFirstObstacle(sources: seq<Source>, r: Result<map<string, Bytes>, Error>)
    requires r == Outcome(Items(sources), map[]) && r.Err?
    ensures exists k :: StopsAt(Items(sources), k, r.error)
  {
    var items := Items(sources);
    assert items[0..] == items;
    SeenBefore(items, 0, map[]);
  }

  // ----- the order of the sources does not matter -----

  lemma Regroup(a: seq<Item>, b: seq<Item>, c: seq<Item>)
    ensures a + (b + c) == a + b + c
  {}

  lemma ItemsCons(x: Source, rest: seq<Source>)
    ensures Items([x] + rest) == ItemsOf(x) + Items(rest)
  {
    assert ([x] + rest)[1..] == rest;
  }

  lemma {:induction false} ItemsAppend(a: seq<Source>, b: seq<Source>)
    ensures Items(a + b) == Items(a) + Items(b)
  {
    if a == [] {
      assert a + b == b;
    } else {
      var x, rest := a[0], a[1..];
      calc {
        Items(a + b);
        { assert a + b == [x] + (rest + b); ItemsCons(x, rest + b); }
        ItemsOf(x) + Items(rest + b);
        { ItemsAppend(rest, b); }
        ItemsOf(x) + (Items(rest) + Items(b));
        { Regroup(ItemsOf(x), Items(rest), Items(b)); }
        ItemsOf(x) + Items(rest) + Items(b);
      }
    }
  }

  lemma MoveToFront(before: seq<Source>, src: Source, after: seq<Source>)
    ensures multiset(Items(before + ([src] + after))) == multiset(ItemsOf(src)) + multiset(Items(before + after))
  {
    ItemsAppend(before, after);
    ItemsAppend(before, [src] + after);
    ItemsCons(src, after);
  }

  lemma SameRest(x: Source, rest: seq<Source>, before: seq<Source>, after: seq<Source>)
    requires multiset([x] + rest) == multiset(before + ([x] + after))
    ensures multiset(rest) == multiset(before + after)
  {
    assert multiset([x] + rest) == multiset{x} + multiset(rest);
    assert multiset(before + ([x] + after)) == multiset{x} + multiset(before + after);
    assert multiset(rest) == multiset([x] + rest) - multiset{x};
  }

  lemma {:induction false} SameSourcesSameItems(a: seq<Source>, b: seq<Source>)
    requires multiset(a) == multiset(b)
    ensures multiset(Items(a)) == multiset(Items(b))
  {
    if a == [] {
      assert |multiset(b)| == 0;
    } else {
      assert a[0] in multiset(b);
      var k :| 0 <= k < |b| && b[k] == a[0];
      var before, after := b[..k], b[k + 1..];
      assert a == [a[0]] + a[1..];
      assert b == before + ([a[0]] + after);
      SameRest(a[0], a[1..], before, after);
      SameSourcesSameItems(a[1..], before + after);
      MoveToFront(before, a[0], after);
    }
  }

  // Whether names differ can be told from the multiset of files alone.
  ghost predicate EachOnce(items: multiset<Item>) {
    && (forall x | x in items :: x.File? && items[x] == 1)
    && (forall x, y | x in items && y in items && x.File? && y.File? && x.name == y.name :: x == y)
  }

  predicate Unlike(x: Item, items: multiset<Item>) {
    x.File? && forall y | y in items :: y.File? ==> y.name != x.name
  }

  lemma EachOnceStep(x: Item, items: multiset<Item>)
    ensures EachOnce(multiset{x} + items) <==> EachOnce(items) && Unlike(x, items)
  {
    var all := multiset{x} + items;
    assert x in all;
    assert forall y :: all[y] == items[y] + if y == x then 1 else 0;
    if EachOnce(all) {
      assert x !in items;
      forall y | y in items ensures y in all && items[y] == 1 {
        assert all[y] == 1;
      }
    }
  }

  lemma DifferDown(items: seq<Item>)
    requires items != [] && AllFiles(items) && NamesDiffer(items)
    ensures AllFiles(items[1..]) && NamesDiffer(items[1..]) && Unlike(items[0], multiset(items[1..]))
  {
    var rest := items[1..];
    forall y: Item | y in multiset(rest) ensures y.File? && y.name != items[0].name {
      assert y in rest;
    }
  }

  lemma DifferUp(items: seq<Item>)
    requires items != []
    requires AllFiles(items[1..]) && NamesDiffer(items[1..]) && Unlike(items[0], multiset(items[1..]))
    ensures AllFiles(items) && NamesDiffer(items)
  {
    var rest := items[1..];
    forall i | 0 <= i < |items| ensures items[i].File? {
      if i > 0 { assert items[i] == rest[i - 1]; }
    }
    forall i, j | 0 <= i < j < |items| ensures items[i].name != items[j].name {
      assert items[j] == rest[j - 1];
      if i > 0 { assert items[i] == rest[i - 1]; } else { assert rest[j - 1] in multiset(rest); }
    }
  }

  lemma {:induction false} DifferExactly(items: seq<Item>)
    ensures AllFiles(items) && NamesDiffer(items) <==> EachOnce(multiset(items))
  {
    if items != [] {
      var x, rest := items[0], items[1..];
      assert items == [x] + rest;
      DifferExactly(rest);
      EachOnceStep(x, multiset(rest));
      if AllFiles(items) && NamesDiffer(items) { DifferDown(items); }
      if EachOnce(multiset(items)) { DifferUp(items); }
    }
  }

  lemma SameFiles(items: seq<Item>, others: seq<Item>, a: map<string, Bytes>, b: map<string, Bytes>)
    requires multiset(items) == multiset(others)
    requires forall name, data :: Holds(a, name, data) <==> Holds(map[], name, data) || File(name, data) in items
    requires forall name, data :: Holds(b, name, data) <==> Holds(map[], name, data) || File(name, data) in others
    ensures a == b
  {
    forall name, data ensures Holds(a, name, data) <==> Holds(b, name, data) {
      assert File(name, data) in items <==> File(name, data) in multiset(items);
      assert File(name, data) in others <==> File(name, data) in multiset(others);
    }
    assert forall name | name in a :: Holds(a, name, a[name]);
    assert forall name | name in b :: Holds(b, name, b[name]);
  }

  lemma SourceOrderDoesNotMatter(a: seq<Source>, b: seq<Source>,
                                 ra: Result<map<string, Bytes>, Error>, rb: Result<map<string, Bytes>, Error>)
    requires multiset(a) == multiset(b)
    requires ra == Outcome(Items(a), map[]) && rb == Outcome(Items(b), map[])
    ensures ra.Ok? <==> rb.Ok?
    ensures ra.Ok? ==> ra == rb
    ensures Readable(a) && ra.Err? ==> ra.error.Duplicate? && rb.error.Duplicate?
  {
    SameSourcesSameItems(a, b);
    DifferExactly(Items(a));
    DifferExactly(Items(b));
    OutcomeExactly(Items(a), map[]);
    OutcomeExactly(Items(b), map[]);
    ReadableExactly(a);
    if ra.Ok? {
      SameFiles(Items(a), Items(b), ra.value, rb.value);
    } else if Readable(a) {
      forall i | 0 <= i < |Items(b)| ensures Items(b)[i].File? {
        assert Items(b)[i] in multiset(Items(b));
        assert Items(b)[i] in Items(a);
      }
    }
  }
}
