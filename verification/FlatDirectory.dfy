// db/db.go: flatFS and flatDir, the merged migration files as one flat directory that is read in pages.
module FlatDirectory {
  import opened Wrappers
  import opened Base64
  import opened Text

  type Bytes = seq<Byte>

  // Go's int of 64 bits; sums wrap around. A slice of 16-byte interface values in a 48-bit address
  // space holds fewer than 2^44 of them.
  type Int = n: int | -MAX_INT64 - 1 <= n <= MAX_INT64
  const MAX_ENTRIES := 0x1000_0000_0000

  function Wrap(n: int): (r: Int) {
    var low := n % 0x1_0000_0000_0000_0000;
    if low > MAX_INT64 then low - 0x1_0000_0000_0000_0000 else low
  }

  // ----- the order of sort.Strings -----

  predicate Less(a: string, b: string) {
    if b == "" then false
    else if a == "" then true
    else a[0] < b[0] || (a[0] == b[0] && Less(a[1..], b[1..]))
  }

  lemma {:induction false} LessIsTotal(a: string, b: string)
    ensures a == b || Less(a, b) || Less(b, a)
    ensures !(Less(a, b) && Less(b, a)) && !Less(a, a)
  {
    if a != "" && b != "" {
      LessIsTotal(a[1..], b[1..]);
      assert a == [a[0]] + a[1..] && b == [b[0]] + b[1..];
    }
    if a != "" { LessIsTotal(a[1..], a[1..]); }
  }

  lemma {:induction false} LessIsTransitive(a: string, b: string, c: string)
    requires Less(a, b) && Less(b, c)
    ensures Less(a, c)
  {
    if a != "" && a[0] == b[0] == c[0] {
      LessIsTransitive(a[1..], b[1..], c[1..]);
    }
  }

  ghost predicate Ascending(names: seq<string>) {
    forall i, j | 0 <= i < j < |names| :: Less(names[i], names[j])
  }

  // Insertion of a new name into an ascending list; sort.Strings on distinct names is the fold of this.
  function Insert(names: seq<string>, name: string): seq<string> {
    if names == [] || Less(name, names[0]) then [name] + names else [names[0]] + Insert(names[1..], name)
  }

  function SortStrings(names: seq<string>): seq<string> {
    if names == [] then [] else Insert(SortStrings(names[1..]), names[0])
  }

  lemma {:induction false} InsertAscends(names: seq<string>, name: string)
    requires Ascending(names) && name !in names
    ensures Ascending(Insert(names, name))
    ensures forall x :: x in Insert(names, name) <==> x == name || x in names
  {
    if names != [] {
      var first, rest := names[0], names[1..];
      assert names == [first] + rest;
      LessIsTotal(name, first);
      if Less(name, first) {
        forall x | x in rest ensures Less(name, x) { LessIsTransitive(name, first, x); }
      } else {
        InsertAscends(rest, name);
        assert forall x | x in Insert(rest, name) :: Less(first, x);
      }
    }
  }

  lemma {:induction false} SortAscends(names: seq<string>)
    requires forall i, j | 0 <= i < j < |names| :: names[i] != names[j]
    ensures Ascending(SortStrings(names))
    ensures forall x :: x in SortStrings(names) <==> x in names
  {
    if names != [] {
      assert names == [names[0]] + names[1..];
      assert names[0] !in names[1..];
      SortAscends(names[1..]);
      InsertAscends(SortStrings(names[1..]), names[0]);
    }
  }

  lemma SmallestFirst(a: seq<string>, b: seq<string>)
    requires Ascending(a) && Ascending(b) && a != [] && forall x :: x in a <==> x in b
    ensures b != [] && a[0] == b[0]
  {
    assert a[0] in b && b[0] in a;
    LessIsTotal(a[0], b[0]);
  }

  // An ascending list is fixed by its members: whatever order the map is walked in, sorting gives the same.
  lemma {:induction false} AscendingIsUnique(a: seq<string>, b: seq<string>)
    requires Ascending(a) && Ascending(b) && forall x :: x in a <==> x in b
    ensures a == b
  {
    if b != [] { assert b[0] in b; }
    if a != [] {
      SmallestFirst(a, b);
      forall x ensures x in a[1..] <==> x in b[1..] {
        LessIsTotal(a[0], a[0]);
        assert x in a <==> x == a[0] || x in a[1..];
        assert x in b <==> x == b[0] || x in b[1..];
      }
      AscendingIsUnique(a[1..], b[1..]);
      assert a == [a[0]] + a[1..] && b == [b[0]] + b[1..];
    }
  }

  // ----- flatFS -----

  datatype DirEntry = DirEntry(name: string, size: nat)

  function NamesOf(entries: seq<DirEntry>): (names: seq<string>)
    ensures |names| == |entries| && forall i | 0 <= i < |names| :: names[i] == entries[i].name
  {
    seq(|entries|, i requires 0 <= i < |entries| => entries[i].name)
  }

  // The listing of a file map: its names, ascending and so each once, with the sizes of their contents.
  ghost predicate IsListing(entries: seq<DirEntry>, files: map<string, Bytes>) {
    && Ascending(NamesOf(entries))
    && (forall x :: x in NamesOf(entries) <==> x in files)
    && (forall e | e in entries :: e.name in files && e.size == |files[e.name]|)
  }

  lemma ListingIsUnique(a: seq<DirEntry>, b: seq<DirEntry>, files: map<string, Bytes>)
    requires IsListing(a, files) && IsListing(b, files)
    ensures a == b
  {
    AscendingIsUnique(NamesOf(a), NamesOf(b));
    forall i | 0 <= i < |a| ensures a[i] == b[i] {
      assert a[i] in a && b[i] in b;
      assert NamesOf(a)[i] == NamesOf(b)[i];
    }
  }

  datatype Page = Page(entries: seq<DirEntry>) | EndOfDirectory | SliceOutOfRange

  // What ReadDir(n) answers at `pos`. The end of the page is a wrapped sum: when it is negative the
  // slice expression panics.
  function PageAt(entries: seq<DirEntry>, pos: nat, n: Int): (r: (Page, nat))
    requires |entries| <= MAX_ENTRIES && pos <= |entries|
    ensures pos <= r.1 <= |entries|
    ensures r.0.Page? ==> r.0.entries == entries[pos..r.1]
    ensures !r.0.Page? ==> r.1 == pos
    ensures r.0.SliceOutOfRange? <==> pos < |entries| && n > MAX_INT64 - pos
    ensures r.0.EndOfDirectory? <==> pos == |entries| && n > 0
    ensures n <= 0 ==> r.0.Page? && r.0.entries == entries[pos..] && r.1 == |entries|
    ensures n > 0 && r.0.Page? ==> |r.0.entries| == if n < |entries| - pos then n else |entries| - pos
  {
    if pos == |entries| then (if n <= 0 then Page([]) else EndOfDirectory, pos)
    else if n <= 0 then (Page(entries[pos..]), |entries|)
    else
      var end := Wrap(pos + n);
      if end < pos then (SliceOutOfRange, pos)
      else if end > |entries| then (Page(entries[pos..]), |entries|)
      else (Page(entries[pos..end]), end)
  }

  class FlatDir {
    const entries: seq<DirEntry>
    var pos: nat

    ghost predicate Valid() reads this { |entries| <= MAX_ENTRIES && pos <= |entries| }

    constructor (entries: seq<DirEntry>)
      requires |entries| <= MAX_ENTRIES
      ensures Valid() && this.entries == entries && pos == 0
    {
      this.entries := entries;
      pos := 0;
    }

    method ReadDir(n: Int) returns (page: Page)
      requires Valid()
      modifies this
      ensures Valid() && (page, pos) == PageAt(entries, old(pos), n)
    {
      if pos >= |entries| {
        if n <= 0 {
          return Page([]);
        }
        return EndOfDirectory;
      }
      if n <= 0 {
        var all := entries[pos..];
        pos := |entries|;
        return Page(all);
      }
      var end := Wrap(pos + n);
      if end > |entries| {
        end := |entries|;
      }
      if end < pos {
        return SliceOutOfRange;
      }
      var result := entries[pos..end];
      pos := end;
      return Page(result);
    }
  }

  datatype Opened = Root(dir: FlatDir) | Regular(name: string, data: Bytes, size: nat)

  class FlatFS {
    const files: map<string, Bytes>

    constructor (files: map<string, Bytes>)
      ensures this.files == files
    {
      this.files := files;
    }

    method OpenRoot() returns (dir: FlatDir)
      requires |files| <= MAX_ENTRIES
      ensures fresh(dir) && dir.Valid() && dir.pos == 0 && IsListing(dir.entries, files)
    {
      var names := [];
      var todo := files.Keys;
      while todo != {}
        invariant |names| + |todo| == |files|
        invariant todo <= files.Keys
        invariant forall x :: x in files <==> x in names || x in todo
        invariant forall x | x in names :: x !in todo
        invariant forall i, j | 0 <= i < j < |names| :: names[i] != names[j]
        decreases todo
      {
        var n :| n in todo;
        names, todo := names + [n], todo - {n};
      }
      SortAscends(names);
      SortKeepsLength(names);
      names := SortStrings(names);
      var entries := [];
      for i := 0 to |names|
        invariant |entries| == i
        invariant forall k | 0 <= k < i :: entries[k] == DirEntry(names[k], |files[names[k]]|)
      {
        entries := entries + [DirEntry(names[i], |files[names[i]]|)];
      }
      assert NamesOf(entries) == names;
      dir := new FlatDir(entries);
    }

    // None is fs.ErrNotExist.
    method Open(name: string) returns (r: Option<Opened>)
      requires |files| <= MAX_ENTRIES
      ensures r.None? <==> name != "." && name !in files
      ensures r.Some? && name == "." ==>
        r.value.Root? && r.value.dir.Valid() && r.value.dir.pos == 0 && IsListing(r.value.dir.entries, files)
      ensures r.Some? && name != "." ==> r.value == Regular(name, files[name], |files[name]|)
    {
      if name == "." {
        var dir := OpenRoot();
        return Some(Root(dir));
      }
      if name !in files {
        return None;
      }
      return Some(Regular(name, files[name], |files[name]|));
    }
  }

  lemma {:induction false} SortKeepsLength(names: seq<string>)
    ensures |SortStrings(names)| == |names|
  {
    if names != [] {
      SortKeepsLength(names[1..]);
      InsertKeepsLength(SortStrings(names[1..]), names[0]);
    }
  }

  lemma {:induction false} InsertKeepsLength(names: seq<string>, name: string)
    ensures |Insert(names, name)| == |names| + 1
  {
    if names != [] { InsertKeepsLength(names[1..], name); }
  }

  // ----- reading in pages -----

  // The concatenated pages of the calls ReadDir(ns[0]), ReadDir(ns[1]), ..., and the position after them.
  function ReadPages(entries: seq<DirEntry>, pos: nat, ns: seq<Int>): (r: (seq<DirEntry>, nat))
    requires |entries| <= MAX_ENTRIES && pos <= |entries|
    ensures pos <= r.1 <= |entries|
    decreases |ns|
  {
    if ns == [] then ([], pos)
    else
      var (page, next) := PageAt(entries, pos, ns[0]);
      var (rest, end) := ReadPages(entries, next, ns[1..]);
      (if page.Page? then page.entries + rest else rest, end)
  }

  lemma {:induction false} PagesAreContiguous(entries: seq<DirEntry>, pos: nat, ns: seq<Int>)
    requires |entries| <= MAX_ENTRIES && pos <= |entries|
    ensures ReadPages(entries, pos, ns).0 == entries[pos..ReadPages(entries, pos, ns).1]
    decreases |ns|
  {
    if ns != [] {
      var (page, next) := PageAt(entries, pos, ns[0]);
      PagesAreContiguous(entries, next, ns[1..]);
    }
  }

  // Any calls on a fresh root, panicking ones included, yield together a prefix of the listing.
  lemma PagesArePrefix(entries: seq<DirEntry>, files: map<string, Bytes>, ns: seq<Int>)
    requires |entries| <= MAX_ENTRIES && IsListing(entries, files)
    ensures ReadPages(entries, 0, ns).0 <= entries
    ensures Ascending(NamesOf(ReadPages(entries, 0, ns).0))
  {
    PagesAreContiguous(entries, 0, ns);
    var read := ReadPages(entries, 0, ns).0;
    forall i, j | 0 <= i < j < |read| ensures Less(NamesOf(read)[i], NamesOf(read)[j]) {
      assert NamesOf(entries)[i] == NamesOf(read)[i] && NamesOf(entries)[j] == NamesOf(read)[j];
    }
  }

  predicate AllPositive(ns: seq<Int>) { forall i | 0 <= i < |ns| :: ns[i] > 0 }

  predicate NeverPanics(entries: seq<DirEntry>, pos: nat, ns: seq<Int>)
    requires |entries| <= MAX_ENTRIES && pos <= |entries|
    decreases |ns|
  {
    ns == [] || (var (page, next) := PageAt(entries, pos, ns[0]);
                 !page.SliceOutOfRange? && NeverPanics(entries, next, ns[1..]))
  }

  lemma {:induction false} EachCallAdvances(entries: seq<DirEntry>, pos: nat, ns: seq<Int>)
    requires |entries| <= MAX_ENTRIES && pos <= |entries| && NeverPanics(entries, pos, ns)
    ensures ReadPages(entries, pos, ns).1 >= if pos + |ns| < |entries| then pos + |ns| else |entries|
    decreases |ns|
  {
    if ns != [] {
      EachCallAdvances(entries, PageAt(entries, pos, ns[0]).1, ns[1..]);
    }
  }

  function Sum(ns: seq<Int>): int {
    if ns == [] then 0 else ns[0] + Sum(ns[1..])
  }

  // While files are left after `read` of them, the next size fits beside the sizes before it; a size that is
  // not positive reads all that are left.
  predicate SizesFit(count: nat, read: nat, ns: seq<Int>)
    decreases |ns|
  {
    ns == [] || read >= count || ns[0] <= 0 || (ns[0] <= MAX_INT64 - read && SizesFit(count, read + ns[0], ns[1..]))
  }

  // For positive sizes, call by call.
  lemma {:induction false} SizesFitExactly(count: nat, read: nat, ns: seq<Int>)
    requires AllPositive(ns)
    ensures SizesFit(count, read, ns) <==>
            forall i | 0 <= i < |ns| && read + Sum(ns[..i]) < count :: ns[i] <= MAX_INT64 - (read + Sum(ns[..i]))
    decreases |ns|
  {
    if ns != [] {
      var rest := ns[1..];
      assert AllPositive(rest) by { assert forall i | 0 <= i < |rest| :: rest[i] == ns[i + 1]; }
      SizesFitExactly(count, read + ns[0], rest);
      forall i | 0 <= i < |rest| ensures Sum(ns[..i + 1]) == ns[0] + Sum(rest[..i]) && Sum(ns[..i + 1]) >= 0 {
        assert ns[..i + 1][1..] == rest[..i];
        SumGrows(ns[..i + 1]);
      }
      assert ns[..0] == [];
      if forall i | 0 <= i < |ns| && read + Sum(ns[..i]) < count :: ns[i] <= MAX_INT64 - (read + Sum(ns[..i])) {
        forall i | 0 <= i < |rest| && read + ns[0] + Sum(rest[..i]) < count
          ensures rest[i] <= MAX_INT64 - (read + ns[0] + Sum(rest[..i]))
        {
          assert read + Sum(ns[..i + 1]) < count;
        }
      }
      if SizesFit(count, read, ns) {
        forall i | 0 <= i < |ns| && read + Sum(ns[..i]) < count ensures ns[i] <= MAX_INT64 - (read + Sum(ns[..i])) {
          SumGrows(ns[..i]);
          if i > 0 { assert Sum(ns[..i]) == ns[0] + Sum(rest[..i - 1]); }
        }
      }
    }
  }

  lemma {:induction false} SumGrows(ns: seq<Int>)
    requires AllPositive(ns)
    ensures Sum(ns) >= 0
  {
    if ns != [] {
      assert AllPositive(ns[1..]) by { assert forall i | 0 <= i < |ns[1..]| :: ns[1..][i] == ns[i + 1]; }
      SumGrows(ns[1..]);
    }
  }

  // Which sizes never panic, from the sizes alone.
  lemma {:induction false} NeverPanicsExactly(entries: seq<DirEntry>, pos: nat, ns: seq<Int>)
    requires |entries| <= MAX_ENTRIES && pos <= |entries|
    ensures NeverPanics(entries, pos, ns) <==> SizesFit(|entries|, pos, ns)
    decreases |ns|
  {
    if ns != [] {
      NeverPanicsExactly(entries, PageAt(entries, pos, ns[0]).1, ns[1..]);
    }
  }

  // Two files are enough to panic: the first read with size 1, the other with the largest int.
  lemma LargestSizePanics(entries: seq<DirEntry>)
    requires 2 <= |entries| <= MAX_ENTRIES
    ensures !NeverPanics(entries, 0, [1, MAX_INT64])
  {
    var ns: seq<Int> := [1, MAX_INT64];
    assert !SizesFit(|entries|, 1, ns[1..]);
    NeverPanicsExactly(entries, 0, ns);
  }

  lemma {:induction false} AllAreRead(entries: seq<DirEntry>, pos: nat, ns: seq<Int>, i: nat)
    requires |entries| <= MAX_ENTRIES && pos <= |entries| && i < |ns| && ns[i] <= 0
    ensures ReadPages(entries, pos, ns).1 == |entries|
    decreases |ns|
  {
    if i > 0 { AllAreRead(entries, PageAt(entries, pos, ns[0]).1, ns[1..], i - 1); }
  }

  // One call on a fresh root whose size is not positive is enough for the whole listing, whatever the others.
  lemma WholeListing(entries: seq<DirEntry>, ns: seq<Int>, i: nat)
    requires |entries| <= MAX_ENTRIES && i < |ns| && ns[i] <= 0
    ensures ReadPages(entries, 0, ns) == (entries, |entries|)
  {
    PagesAreContiguous(entries, 0, ns);
    AllAreRead(entries, 0, ns, i);
    assert entries[0..|entries|] == entries;
  }

  // Reading a fresh root with sizes that fit: the end is reported exactly when every file has been yielded
  // once, and as many calls as there are files always get there.
  lemma ReadToTheEnd(entries: seq<DirEntry>, ns: seq<Int>, read: seq<DirEntry>, pos: nat, n: Int)
    requires |entries| <= MAX_ENTRIES && n > 0
    requires SizesFit(|entries|, 0, ns) && (read, pos) == ReadPages(entries, 0, ns)
    ensures PageAt(entries, pos, n).0.EndOfDirectory? <==> read == entries
    ensures |ns| >= |entries| ==> read == entries
  {
    NeverPanicsExactly(entries, 0, ns);
    PagesAreContiguous(entries, 0, ns);
    EachCallAdvances(entries, 0, ns);
  }

  // Reading with one positive size throughout never panics.
  lemma {:induction false} OneSizeNeverPanics(entries: seq<DirEntry>, pos: nat, ns: seq<Int>, n: Int)
    requires |entries| <= MAX_ENTRIES && pos <= |entries|
    requires n > 0 && (forall i | 0 <= i < |ns| :: ns[i] == n) && (pos == 0 || n <= pos || pos == |entries|)
    ensures NeverPanics(entries, pos, ns)
    decreases |ns|
  {
    if ns != [] {
      assert ns[0] == n;
      OneSizeNeverPanics(entries, PageAt(entries, pos, n).1, ns[1..], n);
    }
  }

  // ----- file name order and version order -----

  lemma {:induction false} LessByLast(a: string, b: string, x: char, y: char)
    requires |a| == |b|
    ensures Less(a + [x], b + [y]) <==> Less(a, b) || (a == b && x < y)
  {
    if a == "" {
      assert a + [x] == [x] && b + [y] == [y];
    } else {
      assert (a + [x])[1..] == a[1..] + [x] && (b + [y])[1..] == b[1..] + [y];
      LessByLast(a[1..], b[1..], x, y);
      assert a == [a[0]] + a[1..] && b == [b[0]] + b[1..];
    }
  }

  lemma {:induction false} DigitOrder(a: string, b: string)
    requires |a| == |b| && AllDigits(a) && AllDigits(b)
    ensures Less(a, b) <==> DecimalValue(a) < DecimalValue(b)
    ensures a == b <==> DecimalValue(a) == DecimalValue(b)
    decreases |a|
  {
    if a != "" {
      var last := |a| - 1;
      DigitOrder(a[..last], b[..last]);
      LessByLast(a[..last], b[..last], a[last], b[last]);
      assert a == a[..last] + [a[last]] && b == b[..last] + [b[last]];
    }
  }

  lemma {:induction false} LessByPrefix(a: string, b: string, w: nat)
    requires w <= |a| && w <= |b| && a[..w] != b[..w]
    ensures Less(a, b) <==> Less(a[..w], b[..w])
  {
    if w > 0 && a[0] == b[0] {
      assert a[..w] == [a[0]] + a[1..][..w - 1] && b[..w] == [b[0]] + b[1..][..w - 1];
      LessByPrefix(a[1..], b[1..], w - 1);
      assert a[..w][1..] == a[1..][..w - 1] && b[..w][1..] == b[1..][..w - 1];
    }
  }

  predicate Versioned(name: string, w: nat) { w <= |name| && AllDigits(name[..w]) }

  function Version(name: string, w: nat): nat
    requires Versioned(name, w)
  {
    DecimalValue(name[..w])
  }

  // Where all names start with a number of the same width, the listing is in the order of those numbers:
  // a file with a smaller version comes before one with a larger, and only equal versions share a rank.
  lemma ListingInVersionOrder(entries: seq<DirEntry>, files: map<string, Bytes>, w: nat, i: nat, j: nat)
    requires IsListing(entries, files) && forall name | name in files :: Versioned(name, w)
    requires i < |entries| && j < |entries|
    ensures entries[i] in entries && entries[j] in entries
    ensures Version(entries[i].name, w) < Version(entries[j].name, w) ==> i < j
    ensures i < j ==> Version(entries[i].name, w) <= Version(entries[j].name, w)
  {
    var names := NamesOf(entries);
    var a, b := names[i], names[j];
    assert a in names && b in names;
    DigitOrder(a[..w], b[..w]);
    DigitOrder(b[..w], a[..w]);
    LessIsTotal(a, b);
    if a[..w] != b[..w] {
      LessByPrefix(a, b, w);
      LessByPrefix(b, a, w);
    }
    if j < i { assert Less(b, a); }
  }
}
