/** What unpacking gives back for a packaged file map: exactly the map, on exactly the right inputs. */
module TarRoundTrip {
  import opened Bytes
  import opened Sorting
  import opened Text
  import opened Tar

  /** No field of the path's header starts with a BOM and no NUL cuts one short. */
  predicate TextSafe(path: Path)
  {
    match SplitTarPath(path)
    case Ok(split) => 0 !in path && !(BOM <= split.name) && !(BOM <= split.prefix)
    case Failed => false
  }

  /** The entries `packageTar` can lay out and whose metadata the reader accepts. */
  predicate Packable(e: Entry)
  {
    Encodable(e) && Utf8(e.path) && SafeOutputPath(e.path) && ValidMode(e.file.mode)
  }

  lemma RereadLength(path: Path)
    requires SplitTarPath(path).Ok?
    requires SafeOutputPath(path)
    ensures TextSafe(path) <==> Reread(path) == path
    ensures |Reread(path)| <= |path|
    ensures !TextSafe(path) ==> |Reread(path)| < |path|
  {
    hide UpToNul, SafePath;
    var split := SplitTarPath(path).value;
    var name, prefix := UpToNul(split.name), UpToNul(split.prefix);
    if |path| > 100 {
      assert split.prefix != [] by { SafeStart(path); }
      assert 0 in path <==> 0 in split.prefix || 0 in split.name;
    }
    assert |StripBom(name)| <= |name| <= |split.name|;
    assert |StripBom(prefix)| <= |prefix| <= |split.prefix|;
  }

  lemma SafeStart(path: Path)
    requires SafeOutputPath(path)
    ensures path != [] && path[0] != SLASH
  {
  }

  // ---------------------------------------------------------------- the reader on a written archive

  /** What the reader collects from consecutive blocks that hold `es`. */
  function Collect(es: seq<Entry>, files: map<Path, File>): (r: Result<map<Path, File>>)
  {
    if es == [] then Ok(files)
    else
      var path := Reread(es[0].path);
      if !SafeOutputPath(path) || path in files then Failed
      else Collect(es[1..], files[path := es[0].file])
  }

  /** One turn of the reader's loop over a written block. */
  lemma UnpackStep(before: Bytes, e: Entry, after: Bytes, files: map<Path, File>)
    requires Packable(e)
    ensures var tar := before + Block(e) + after; var path := Reread(e.path);
      UnpackFrom(tar, |before|, files) ==
        if !SafeOutputPath(path) || path in files then Failed
        else UnpackFrom(tar, |before + Block(e)|, files[path := e.file])
  {
    hide Block, Header, ParseHeader, Reread, SafePath, Encodable, Utf8, Padding, Zeros;
    BlockReads(before, e, after);
    HeaderReads(e);
  }

  /** Reading a written archive from a block boundary on collects the remaining entries. */
  lemma {:induction false} UnpackCollects(before: Bytes, es: seq<Entry>, files: map<Path, File>)
    requires forall e :: e in es ==> Packable(e)
    ensures UnpackFrom(before + Body(es) + Zeros(1024), |before|, files) == Collect(es, files)
    decreases |es|
  {
    hide Block, Packable, Reread, SafePath, UnpackFrom;
    var tar := before + Body(es) + Zeros(1024);
    if es == [] {
      UnpackTrailer(before, files);
      assert before + [] + Zeros(1024) == before + Zeros(1024);
    } else {
      var e := es[0];
      assert e in es && Packable(e);
      var after := Body(es[1..]) + Zeros(1024);
      assert tar == before + Block(e) + after;
      UnpackStep(before, e, after, files);
      var path := Reread(e.path);
      if SafeOutputPath(path) && path !in files {
        UnpackCollects(before + Block(e), es[1..], files[path := e.file]);
        assert (before + Block(e)) + Body(es[1..]) + Zeros(1024) == tar;
      }
    }
  }

  lemma UnpackTrailer(before: Bytes, files: map<Path, File>)
    ensures UnpackFrom(before + Zeros(1024), |before|, files) == Ok(files)
  {
    var tar := before + Zeros(1024);
    assert tar[|before|..|before| + 512] == Zeros(512);
    assert tar[|before| + 512..|before| + 1024] == Zeros(512);
  }

  lemma BlockReads(before: Bytes, e: Entry, after: Bytes)
    requires Encodable(e)
    ensures var tar := before + Block(e) + after; var data := |before| + 512;
      && |tar| >= data + |e.file.data|
      && tar[|before|..data] == Header(e)
      && tar[data..data + |e.file.data|] == e.file.data
      && data + |e.file.data| + Padding(|e.file.data|) == |before + Block(e)|
  {
    hide Header, Encodable;
    var block := Block(e);
    MiddleSlice(before, block, after, 0, 512);
    MiddleSlice(before, block, after, 512, 512 + |e.file.data|);
    assert block[0..512] == Header(e);
    assert block[512..512 + |e.file.data|] == e.file.data;
  }

  lemma UnpackReadsBody(es: seq<Entry>)
    requires forall e :: e in es ==> Packable(e)
    ensures UnpackTar(Body(es) + Zeros(1024)) == Collect(es, map[])
  {
    hide Body, UnpackFrom, Collect, Zeros, Encodable, Utf8, SafePath;
    UnpackCollects([], es, map[]);
    assert [] + Body(es) + Zeros(1024) == Body(es) + Zeros(1024);
  }

  // ---------------------------------------------------------------- when the map comes back

  lemma {:induction false} MapOfAt(es: seq<Entry>, i: nat)
    requires DistinctPaths(es) && i < |es|
    ensures es[i].path in MapOf(es) && MapOf(es)[es[i].path] == es[i].file
  {
    if i < |es| - 1 {
      MapOfAt(es[..|es| - 1], i);
    }
  }

  ghost predicate AllTextSafe(es: seq<Entry>)
  {
    forall e :: e in es ==> TextSafe(e.path)
  }

  lemma {:induction false} CollectSafe(done: seq<Entry>, es: seq<Entry>)
    requires DistinctPaths(done + es)
    requires forall e :: e in es ==> Packable(e) && TextSafe(e.path)
    ensures Collect(es, MapOf(done)) == Ok(MapOf(done + es))
    decreases |es|
  {
    hide OctalText, FindSplit, Utf8, SafePath, Reread, TextSafe;
    if es == [] {
      assert done + es == done;
    } else {
      var e := es[0];
      RereadLength(e.path);
      assert (done + es)[|done|] == e;
      assert forall i :: 0 <= i < |done| ==> (done + es)[i] == done[i];
      assert e.path !in MapOf(done);
      assert (done + [e])[..|done|] == done;
      assert MapOf(done + [e]) == MapOf(done)[e.path := e.file];
      assert (done + [e]) + es[1..] == done + es;
      CollectSafe(done + [e], es[1..]);
    }
  }

  lemma {:induction false} CollectKeys(es: seq<Entry>, files: map<Path, File>)
    requires Collect(es, files).Ok?
    ensures forall p :: p in Collect(es, files).value ==> p in files || exists e :: e in es && Reread(e.path) == p
    decreases |es|
  {
    hide Encodable, SafePath, Reread;
    if es != [] {
      var path := Reread(es[0].path);
      var files' := files[path := es[0].file];
      CollectKeys(es[1..], files');
      forall p | p in Collect(es, files).value
        ensures p in files || exists e :: e in es && Reread(e.path) == p
      {
        if p in files' {
          assert es[0] in es;
        } else {
          var e :| e in es[1..] && Reread(e.path) == p;
          assert e in es;
        }
      }
    }
  }

  /**
   If the reader returned every path, none of them lost text: the entry that came back as an
   unsafe path would itself be unsafe and longer, and header fields bound how long a path is.
   */
  lemma {:induction false} NothingLost(es: seq<Entry>, e: Entry, files: map<Path, File>)
    requires forall x :: x in es ==> Packable(x) && x.path in files
    requires e in es
    requires Collect(es, map[]) == Ok(files)
    ensures TextSafe(e.path)
    decreases 256 - |e.path|
  {
    hide OctalText, Utf8, SafePath, Reread, TextSafe, Collect, FindSplit;
    assert Encodable(e);
    assert |e.path| <= 256;
    RereadLength(e.path);
    if !TextSafe(e.path) {
      CollectKeys(es, map[]);
      var longer :| longer in es && Reread(longer.path) == e.path;
      RereadLength(longer.path);
      NothingLost(es, longer, files);
    }
  }

  /** The reader returns the written map if and only if every path is text safe. */
  lemma CollectExact(es: seq<Entry>)
    requires DistinctPaths(es)
    requires forall e :: e in es ==> Packable(e)
    ensures Collect(es, map[]) == Ok(MapOf(es)) <==> AllTextSafe(es)
  {
    hide Encodable, Utf8, SafePath, TextSafe, Collect, MapOf;
    if AllTextSafe(es) {
      assert [] + es == es;
      assert MapOf([]) == map[];
      CollectSafe([], es);
    }
    if Collect(es, map[]) == Ok(MapOf(es)) {
      assert forall e :: e in es ==> e.path in MapOf(es);
      forall e | e in es ensures TextSafe(e.path) {
        NothingLost(es, e, MapOf(es));
      }
    }
  }

  // ---------------------------------------------------------------- main results

  lemma EntryOrder(es: seq<Entry>)
    requires DistinctPaths(es)
    ensures StrictOrder(EntryLess) && Comparable(EntryLess, es)
  {
    PathOrder();
  }

  lemma SortedEntries(es: seq<Entry>)
    requires DistinctPaths(es)
    ensures var s := Sort(EntryLess, es);
      && Sorted(EntryLess, s) && DistinctPaths(s) && MapOf(s) == MapOf(es)
      && forall e :: e in s <==> e in es
  {
    hide PathLess, MapOf, Sort;
    var s := Sort(EntryLess, es);
    EntryOrder(es);
    SortSorted(EntryLess, es);
    assert forall e :: e in s <==> e in multiset(s);
    assert forall e :: e in es <==> e in multiset(es);
    forall i, j | 0 <= i < |s| && 0 <= j < |s| && i != j ensures s[i].path != s[j].path {
      assert !EntryLess(s[i], s[i]);
      assert EntryLess(s[i], s[j]) || EntryLess(s[j], s[i]);
    }
    SameEntriesSameMap(s, es);
  }

  lemma SameEntriesSameMap(a: seq<Entry>, b: seq<Entry>)
    requires DistinctPaths(a) && DistinctPaths(b)
    requires forall e :: e in a <==> e in b
    ensures MapOf(a) == MapOf(b)
  {
    hide MapOf;
    forall p | p in MapOf(a) ensures p in MapOf(b) && MapOf(a)[p] == MapOf(b)[p] {
      var i :| 0 <= i < |a| && a[i].path == p;
      assert a[i] in b;
      var j :| 0 <= j < |b| && b[j] == a[i];
      MapOfAt(a, i);
      MapOfAt(b, j);
    }
    forall p | p in MapOf(b) ensures p in MapOf(a) {
      var j :| 0 <= j < |b| && b[j].path == p;
      assert b[j] in a;
      var i :| 0 <= i < |a| && a[i] == b[j];
      MapOfAt(a, i);
    }
  }

  lemma SameMapSameEntries(a: seq<Entry>, b: seq<Entry>)
    requires DistinctPaths(a) && DistinctPaths(b)
    requires MapOf(a) == MapOf(b)
    ensures multiset(a) == multiset(b)
  {
    hide MapOf;
    forall e: Entry ensures multiset(a)[e] == multiset(b)[e] {
      OnceAtMost(a, e);
      OnceAtMost(b, e);
      assert e in multiset(a) <==> e in multiset(b) by {
        if e in a {
          var i :| 0 <= i < |a| && a[i] == e;
          MapOfAt(a, i);
          var j :| 0 <= j < |b| && b[j].path == e.path;
          MapOfAt(b, j);
        }
        if e in b {
          var i :| 0 <= i < |b| && b[i] == e;
          MapOfAt(b, i);
          var j :| 0 <= j < |a| && a[j].path == e.path;
          MapOfAt(a, j);
        }
      }
    }
  }

  lemma {:induction false} OnceAtMost(s: seq<Entry>, e: Entry)
    requires DistinctPaths(s)
    ensures multiset(s)[e] <= 1
  {
    if s != [] {
      OnceAtMost(s[1..], e);
      assert s == [s[0]] + s[1..];
      if s[0] == e {
        assert forall i :: 0 <= i < |s[1..]| ==> s[1..][i] == s[i + 1];
        assert e !in s[1..];
        assert e !in multiset(s[1..]);
      }
    }
  }

  /** The archive depends only on the map, not on the order its entries were inserted in. */
  lemma PackageTarCanonical(a: seq<Entry>, b: seq<Entry>)
    requires DistinctPaths(a) && DistinctPaths(b)
    requires MapOf(a) == MapOf(b)
    ensures PackageTar(a) == PackageTar(b)
  {
    SameMapSameEntries(a, b);
    EntryOrder(a);
    EntryOrder(b);
    SortCanonical(EntryLess, a, b);
  }

  /** Unpacking a packaged map returns exactly that map if and only if every path is text safe. */
  lemma TarRoundTripExact(es: seq<Entry>)
    requires DistinctPaths(es)
    requires forall e :: e in es ==> Packable(e)
    requires PackageTar(es).Ok?
    ensures UnpackTar(PackageTar(es).value) == Ok(MapOf(es)) <==> AllTextSafe(es)
  {
    hide Encodable, Utf8, SafePath, TextSafe, Collect, MapOf, Body, UnpackTar, Zeros;
    var s := Sort(EntryLess, es);
    SortedEntries(es);
    UnpackReadsBody(s);
    CollectExact(s);
  }

  lemma BomPathPackable(path: Path)
    requires path == BOM + [0x61]
    ensures Packable(Entry(path, File(MODE_PLAIN, [])))
  {
    assert path[3..] == [0x61] && Utf8([0x61]) && CharLength(path) == 3;
    assert Utf8(path);
    assert path[1..] == [0xBB, 0xBF, 0x61] && path[1..][1..] == [0xBF, 0x61];
    assert [0xBF, 0x61][1..] == [0x61] && [0x61][1..] == [];
    assert Utf16Length([0x61]) == 1 && Utf16Length([0xBF, 0x61]) == 1;
    assert Utf16Length(path) == 2;
    SinglePart(path, SLASH);
    OctalFits(MODE_PLAIN, 7);
    OctalFits(0, 11);
    assert Pow(8, 7) == 2097152 && Pow(8, 11) == 8589934592;
  }

  /** A path that starts with a BOM packages without complaint and comes back shorter. */
  lemma BomPathIsLost()
    ensures var es := [Entry(BOM + [0x61], File(MODE_PLAIN, []))];
      && Packable(es[0]) && PackageTar(es).Ok?
      && UnpackTar(PackageTar(es).value) != Ok(MapOf(es))
  {
    hide Packable, Body, Block, UnpackTar, MapOf, Zeros, Encodable;
    var path: Path := BOM + [0x61];
    var e := Entry(path, File(MODE_PLAIN, []));
    BomPathPackable(path);
    OneBlock(e);
    assert DistinctPaths([e]);
    assert !TextSafe(path);
    TarRoundTripExact([e]);
  }

  lemma OneBlock(e: Entry)
    requires Packable(e) && |e.file.data| <= 512
    ensures PackageTar([e]).Ok?
  {
    hide Encodable, Utf8, SafePath, Header;
    assert Sort(EntryLess, []) == [];
    assert [e][1..] == [] && Sort(EntryLess, [e]) == [e];
    assert Body([e]) == Block(e) + [];
  }
}
