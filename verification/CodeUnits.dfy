/**
 Paths as the compiler has them: JavaScript strings, which are UTF-16 code units and may hold half of a surrogate pair.
 Encoded to UTF-8 such a half becomes the replacement character, and no decoder brings it back.
 */
module CodeUnits {
  import opened Bytes
  import opened Sorting
  import opened Text
  import opened Tar
  import opened TarRoundTrip

  type Unit = n: nat | n < 0x10000
  type Script = seq<Unit>

  predicate High(u: Unit)
  {
    0xD800 <= u <= 0xDBFF
  }

  predicate Low(u: Unit)
  {
    0xDC00 <= u <= 0xDFFF
  }

  /** How many units the character at the front takes, where a lone half counts as one. */
  function Width(s: Script): nat
    requires s != []
  {
    if |s| > 1 && High(s[0]) && Low(s[1]) then 2 else 1
  }

  function Two(p: int): Bytes
    requires 0x80 <= p < 0x800
  {
    [0xC0 + p / 64, 0x80 + p % 64]
  }

  function Three(p: int): Bytes
    requires 0x800 <= p < 0x10000
  {
    var q := p / 64;
    [0xE0 + q / 64, 0x80 + q % 64, 0x80 + p % 64]
  }

  function Four(p: int): Bytes
    requires 0x10000 <= p < 0x110000
  {
    var q := p / 64;
    var r := q / 64;
    [0xF0 + r / 64, 0x80 + r % 64, 0x80 + q % 64, 0x80 + p % 64]
  }

  /** The code point of a surrogate pair, and its halves. */
  function Paired(high: Unit, low: Unit): (p: int)
    requires High(high) && Low(low)
    ensures 0x10000 <= p < 0x110000
  {
    (high as int - 0xD800) * 1024 + (low as int - 0xDC00) + 0x10000
  }

  function Halves(p: int): (s: Script)
    requires 0x10000 <= p < 0x110000
    ensures |s| == 2 && High(s[0]) && Low(s[1])
  {
    var q := p - 0x10000;
    [0xD800 + q / 1024, 0xDC00 + q % 1024]
  }

  /** The UTF-8 bytes of the character at the front. */
  function Front(s: Script): Bytes
    requires s != []
  {
    var u := s[0];
    if u < 0x80 then [u]
    else if u < 0x800 then Two(u)
    else if Width(s) == 2 then Four(Paired(u, s[1]))
    else if High(u) || Low(u) then [0xEF, 0xBF, 0xBD]
    else Three(u)
  }

  /** `new TextEncoder().encode(s)`. */
  function Encode(s: Script): Bytes
  {
    if s == [] then [] else Front(s) + Encode(s[Width(s)..])
  }

  function Low6(b: Byte): int
  {
    b as int - 0x80
  }

  function Point2(b: Bytes): int
    requires |b| >= 2
  {
    (b[0] as int - 0xC0) * 64 + Low6(b[1])
  }

  function Point3(b: Bytes): int
    requires |b| >= 3
  {
    ((b[0] as int - 0xE0) * 64 + Low6(b[1])) * 64 + Low6(b[2])
  }

  function Point4(b: Bytes): int
    requires |b| >= 4
  {
    (((b[0] as int - 0xF0) * 64 + Low6(b[1])) * 64 + Low6(b[2])) * 64 + Low6(b[3])
  }

  /** The units of the character at the front of a text. */
  function FrontUnits(b: Bytes): Script
    requires CharLength(b) > 0
  {
    match CharLength(b)
    case 1 => [b[0]]
    case 2 => [Point2(b)]
    case 3 => [Point3(b)]
    case _ => Halves(Point4(b))
  }

  /** The string that a decoder makes of a text. */
  function Units(b: Bytes): Script
    requires Utf8(b)
  {
    if b == [] then [] else FrontUnits(b) + Units(b[CharLength(b)..])
  }

  /** Every half of a surrogate pair stands next to its other half. */
  predicate WellFormed(s: Script)
  {
    s == [] || ((Width(s) == 2 || !(High(s[0]) || Low(s[0]))) && WellFormed(s[Width(s)..]))
  }

  // ---------------------------------------------------------------- one character

  lemma Sixes(h: int, l: int)
    requires 0 <= l < 64
    ensures (h * 64 + l) / 64 == h && (h * 64 + l) % 64 == l
  {
  }

  lemma TwoIsOne(p: int)
    requires 0x80 <= p < 0x800
    ensures CharLength(Two(p)) == 2 == |Two(p)| && Point2(Two(p)) == p
  {
  }

  lemma ThreeIsOne(p: int)
    requires 0x800 <= p < 0x10000 && !(0xD800 <= p <= 0xDFFF)
    ensures CharLength(Three(p)) == 3 == |Three(p)| && Point3(Three(p)) == p
  {
    var q := p / 64;
    assert p == q * 64 + p % 64 && q == q / 64 * 64 + q % 64;
  }

  lemma FourIsOne(p: int)
    requires 0x10000 <= p < 0x110000
    ensures CharLength(Four(p)) == 4 == |Four(p)| && Point4(Four(p)) == p
  {
    var q := p / 64;
    var r := q / 64;
    assert p == q * 64 + p % 64 && q == r * 64 + q % 64 && r == r / 64 * 64 + r % 64;
  }

  lemma PairedHalves(high: Unit, low: Unit)
    requires High(high) && Low(low)
    ensures Halves(Paired(high, low)) == [high, low]
  {
    var q := Paired(high, low) - 0x10000;
    assert q / 1024 == high as int - 0xD800 && q % 1024 == low as int - 0xDC00;
  }

  lemma HalvesPaired(p: int)
    requires 0x10000 <= p < 0x110000
    ensures Paired(Halves(p)[0], Halves(p)[1]) == p
  {
  }

  lemma FrontIsOne(s: Script)
    requires s != []
    ensures CharLength(Front(s)) == |Front(s)| > 0
  {
    hide Two, Three, Four, Paired;
    var u := s[0];
    if u < 0x80 {
    } else if u < 0x800 {
      TwoIsOne(u);
    } else if Width(s) == 2 {
      FourIsOne(Paired(u, s[1]));
    } else if !(High(u) || Low(u)) {
      ThreeIsOne(u);
    }
  }

  lemma FrontBack(s: Script)
    requires s != [] && (Width(s) == 2 || !(High(s[0]) || Low(s[0])))
    ensures CharLength(Front(s)) == |Front(s)| > 0 && FrontUnits(Front(s)) == s[..Width(s)]
  {
    hide Two, Three, Four, Paired, Halves, Point2, Point3, Point4;
    var u := s[0];
    if u < 0x80 {
    } else if u < 0x800 {
      TwoIsOne(u);
    } else if Width(s) == 2 {
      FourIsOne(Paired(u, s[1]));
      PairedHalves(u, s[1]);
    } else {
      ThreeIsOne(u);
    }
  }

  lemma PointsInRange(b: Bytes)
    ensures CharLength(b) == 2 ==> 0x80 <= Point2(b) < 0x800 && Two(Point2(b)) == b[..2]
    ensures CharLength(b) == 3 ==> 0x800 <= Point3(b) < 0x10000 && !(0xD800 <= Point3(b) <= 0xDFFF)
    ensures CharLength(b) == 4 ==> 0x10000 <= Point4(b) < 0x110000
  {
  }

  lemma ThreeBack(b: Bytes)
    requires CharLength(b) == 3
    ensures 0x800 <= Point3(b) < 0x10000 && Three(Point3(b)) == b[..3]
  {
    var q := (b[0] as int - 0xE0) * 64 + Low6(b[1]);
    Sixes(q, Low6(b[2]));
    Sixes(b[0] as int - 0xE0, Low6(b[1]));
    PointsInRange(b);
  }

  lemma FourBack(b: Bytes)
    requires CharLength(b) == 4
    ensures 0x10000 <= Point4(b) < 0x110000 && Four(Point4(b)) == b[..4]
  {
    var r := (b[0] as int - 0xF0) * 64 + Low6(b[1]);
    var q := r * 64 + Low6(b[2]);
    Sixes(q, Low6(b[3]));
    Sixes(r, Low6(b[2]));
    Sixes(b[0] as int - 0xF0, Low6(b[1]));
    PointsInRange(b);
  }

  /** The units of a character are well formed, also with others behind them, and encode to it. */
  lemma UnitsFront(b: Bytes, rest: Script)
    requires CharLength(b) > 0
    ensures var s := FrontUnits(b) + rest;
      s != [] && Width(s) == |FrontUnits(b)| && (Width(s) == 2 || !(High(s[0]) || Low(s[0]))) && Front(s) == b[..CharLength(b)]
  {
    hide Two, Three, Four, Paired, Halves, Point2, Point3, Point4;
    PointsInRange(b);
    if CharLength(b) == 3 {
      ThreeBack(b);
    } else if CharLength(b) == 4 {
      FourBack(b);
      HalvesPaired(Point4(b));
    }
  }

  lemma FrontUnitsOnly(a: Bytes, b: Bytes)
    requires CharLength(a) == |a| > 0
    ensures CharLength(a + b) == |a| && FrontUnits(a + b) == FrontUnits(a)
  {
    FrontDecides(a, b);
  }

  // ---------------------------------------------------------------- whole strings

  lemma {:induction false} EncodeIsText(s: Script)
    ensures Utf8(Encode(s))
  {
    hide Front, CharLength;
    if s != [] {
      assert 0 < Width(s) <= |s|;
      EncodeIsText(s[Width(s)..]);
      FrontIsOne(s);
      FrontUtf8(Front(s), Encode(s[Width(s)..]));
    }
  }

  /** A well formed string comes back from its UTF-8 bytes. */
  lemma {:induction false} EncodedComesBack(s: Script)
    requires WellFormed(s)
    ensures Utf8(Encode(s)) && Units(Encode(s)) == s
  {
    hide Front, CharLength, FrontUnits;
    EncodeIsText(s);
    if s != [] {
      var n := Width(s);
      EncodedComesBack(s[n..]);
      FrontBack(s);
      FrontIsOne(s);
      FrontUnitsOnly(Front(s), Encode(s[n..]));
      assert Encode(s)[|Front(s)|..] == Encode(s[n..]);
      assert s == s[..n] + s[n..];
    }
  }

  /** What a decoder yields is well formed, and encodes to the bytes it came from. */
  lemma {:induction false} UnitsAreWellFormed(b: Bytes)
    requires Utf8(b)
    ensures WellFormed(Units(b)) && Encode(Units(b)) == b
  {
    hide Front, CharLength, FrontUnits, Width;
    if b != [] {
      var n := CharLength(b);
      UnitsAreWellFormed(b[n..]);
      UnitsFront(b, Units(b[n..]));
      assert Units(b)[|FrontUnits(b)|..] == Units(b[n..]);
      assert b == b[..n] + b[n..];
    }
  }

  // ---------------------------------------------------------------- length and order

  lemma {:induction false} Utf16Concat(a: Bytes, b: Bytes)
    ensures Utf16Length(a + b) == Utf16Length(a) + Utf16Length(b)
  {
    if a == [] {
      assert a + b == b;
    } else {
      assert (a + b)[1..] == a[1..] + b;
      Utf16Concat(a[1..], b);
    }
  }

  lemma FrontLength(b: Bytes)
    requires CharLength(b) == |b| > 0
    ensures Utf16Length(b) == |FrontUnits(b)|
  {
    hide Point2, Point3, Halves;
    assert Utf16Length([]) == 0;
    if |b| == 1 {
      assert b[1..] == [];
    } else if |b| == 2 {
      assert b[1..] == [b[1]] && [b[1]][1..] == [];
    } else if |b| == 3 {
      assert b[1..] == [b[1], b[2]] && [b[1], b[2]][1..] == [b[2]] && [b[2]][1..] == [];
      assert Utf16Length([b[2]]) == 0;
    } else {
      assert b[1..] == [b[1], b[2], b[3]] && [b[1], b[2], b[3]][1..] == [b[2], b[3]];
      assert [b[2], b[3]][1..] == [b[3]] && [b[3]][1..] == [];
      assert Utf16Length([b[3]]) == 0 && Utf16Length([b[2], b[3]]) == 0;
    }
  }

  /** The length that is compared with a limit is the number of code units. */
  lemma {:induction false} LengthIsUnits(b: Bytes)
    requires Utf8(b)
    ensures Utf16Length(b) == |Units(b)|
  {
    hide CharLength, FrontUnits, Utf16Length;
    if b != [] {
      var n := CharLength(b);
      LengthIsUnits(b[n..]);
      FrontOnly(b);
      FrontLength(b[..n]);
      FrontUnitsOnly(b[..n], b[n..]);
      Utf16Concat(b[..n], b[n..]);
      assert b == b[..n] + b[n..];
    } else {
      NoUnits();
    }
  }

  /** What the language standard calls white space and line terminators. */
  predicate BlankUnit(u: Unit)
  {
    9 <= u <= 13 || u == 0x20 || u == 0xA0 || u == 0x1680 || 0x2000 <= u <= 0x200A || 0x2028 <= u <= 0x2029 ||
    u == 0x202F || u == 0x205F || u == 0x3000 || u == 0xFEFF
  }

  /** A trim takes away the characters that the language standard has it take away. */
  lemma WhiteSpaceExactly(c: Bytes)
    requires c != [] && CharLength(c) == |c|
    ensures WhiteSpace(c) <==> |Units(c)| == 1 && BlankUnit(Units(c)[0])
  {
    assert c[|c|..] == [] && Units(c[|c|..]) == [];
    assert Units(c) == FrontUnits(c) + [];
  }

  function UnitValue(u: Unit): int
  {
    u
  }

  /** JavaScript's `<` on strings. */
  predicate ScriptLess(a: Script, b: Script)
  {
    LexLess(UnitValue, a, b)
  }

  /** Two beginnings that differ where both still go on decide the order. */
  predicate Apart<E(==)>(x: seq<E>, y: seq<E>)
  {
    x != [] && y != [] && (x[0] != y[0] || (|x| == |y| && x != y))
  }

  lemma {:induction false} LexFront<E(!new)>(rank: E -> int, x: seq<E>, y: seq<E>, s: seq<E>, t: seq<E>)
    requires Apart(x, y)
    ensures LexLess(rank, x + s, y + t) <==> LexLess(rank, x, y)
  {
    if x[0] == y[0] {
      assert x == [x[0]] + x[1..] && y == [y[0]] + y[1..];
      assert (x + s)[1..] == x[1..] + s && (y + t)[1..] == y[1..] + t;
      assert x[1..] != [] && y[1..] != [];
      LexFront(rank, x[1..], y[1..], s, t);
    }
  }

  lemma {:induction false} LexSameFront<E(!new)>(rank: E -> int, p: seq<E>, s: seq<E>, t: seq<E>)
    ensures LexLess(rank, p + s, p + t) <==> LexLess(rank, s, t)
  {
    if p == [] {
      assert p + s == s && p + t == t;
    } else {
      assert (p + s)[1..] == p[1..] + s && (p + t)[1..] == p[1..] + t;
      LexSameFront(rank, p[1..], s, t);
    }
  }

  lemma {:induction false} LexOne<E(!new)>(rank: E -> int, x: E, y: E)
    ensures LexLess(rank, [x], [y]) <==> rank(x) < rank(y)
  {
    assert [x][1..] == [] && [y][1..] == [];
    assert !LexLess(rank, [], []);
  }

  lemma LexNext<E(!new)>(rank: E -> int, x: seq<E>, y: seq<E>)
    requires x != [] && y != []
    ensures LexLess(rank, x, y) <==> rank(x[0]) < rank(y[0]) || (x[0] == y[0] && LexLess(rank, x[1..], y[1..]))
  {
  }

  /** Characters of two bytes are in the order of their code points. */
  lemma OrderOfTwo(a: Bytes, b: Bytes)
    requires CharLength(a) == |a| == 2 && CharLength(b) == |b| == 2
    ensures LexLess(UnitRank, a, b) <==> Point2(a) < Point2(b)
  {
    hide LexLess;
    LexNext(UnitRank, a, b);
    assert a[1..] == [a[1]] && b[1..] == [b[1]];
    LexOne(UnitRank, a[1], b[1]);
  }

  lemma OrderOfThree(a: Bytes, b: Bytes)
    requires CharLength(a) == |a| == 3 && CharLength(b) == |b| == 3
    ensures LexLess(UnitRank, a, b) <==> Point3(a) < Point3(b)
  {
    hide LexLess;
    LexNext(UnitRank, a, b);
    LexNext(UnitRank, a[1..], b[1..]);
    assert a[1..][1..] == [a[2]] && b[1..][1..] == [b[2]];
    LexOne(UnitRank, a[2], b[2]);
  }

  lemma OrderOfFour(a: Bytes, b: Bytes)
    requires CharLength(a) == |a| == 4 && CharLength(b) == |b| == 4
    ensures LexLess(UnitRank, a, b) <==> Point4(a) < Point4(b)
  {
    hide LexLess;
    LexNext(UnitRank, a, b);
    LexNext(UnitRank, a[1..], b[1..]);
    LexNext(UnitRank, a[1..][1..], b[1..][1..]);
    assert a[1..][1..] == a[2..] && b[1..][1..] == b[2..];
    assert a[2..][1..] == [a[3]] && b[2..][1..] == [b[3]];
    LexOne(UnitRank, a[3], b[3]);
  }

  lemma OrderOfHalves(p: int, q: int)
    requires 0x10000 <= p < 0x110000 && 0x10000 <= q < 0x110000
    ensures ScriptLess(Halves(p), Halves(q)) <==> p < q
  {
    hide LexLess;
    var a, b := Halves(p), Halves(q);
    LexNext(UnitValue, a, b);
    assert a[1..] == [a[1]] && b[1..] == [b[1]];
    LexOne(UnitValue, a[1], b[1]);
    var m, n := p - 0x10000, q - 0x10000;
    assert m == m / 1024 * 1024 + m % 1024 && n == n / 1024 * 1024 + n % 1024;
  }

  /** Characters of different lengths are told apart by their first byte, and by their first unit. */
  lemma OrderAcross(a: Bytes, b: Bytes)
    requires CharLength(a) == |a| > 0 && CharLength(b) == |b| > 0 && |a| != |b|
    ensures a[0] != b[0] && FrontUnits(a)[0] != FrontUnits(b)[0]
    ensures UnitRank(a[0]) < UnitRank(b[0]) <==> FrontUnits(a)[0] < FrontUnits(b)[0]
  {
    PointsInRange(a);
    PointsInRange(b);
    ThreeStarts(a);
    ThreeStarts(b);
  }

  lemma ThreeStarts(a: Bytes)
    ensures CharLength(a) == 3 ==> (a[0] <= 0xED ==> Point3(a) < 0xD800) && (a[0] >= 0xEE ==> Point3(a) >= 0xE000)
  {
  }

  lemma CharsOrdered(a: Bytes, b: Bytes)
    requires CharLength(a) == |a| > 0 && CharLength(b) == |b| > 0 && a != b
    ensures Apart(a, b) && Apart(FrontUnits(a), FrontUnits(b))
    ensures LexLess(UnitRank, a, b) <==> ScriptLess(FrontUnits(a), FrontUnits(b))
  {
    hide LexLess, Point2, Point3, Point4, Halves;
    var x, y := FrontUnits(a), FrontUnits(b);
    if |a| != |b| {
      OrderAcross(a, b);
      LexNext(UnitRank, a, b);
      LexNext(UnitValue, x, y);
    } else {
      UnitsFront(a, []);
      UnitsFront(b, []);
      assert x + [] == x && y + [] == y;
      assert x != y by {
        assert a[..|a|] == a && b[..|b|] == b;
      }
      if |a| == 1 {
        LexOne(UnitRank, a[0], b[0]);
        LexOne(UnitValue, x[0], y[0]);
      } else if |a| == 2 {
        OrderOfTwo(a, b);
        LexOne(UnitValue, x[0], y[0]);
      } else if |a| == 3 {
        OrderOfThree(a, b);
        LexOne(UnitValue, x[0], y[0]);
      } else {
        OrderOfFour(a, b);
        PointsInRange(a);
        PointsInRange(b);
        OrderOfHalves(Point4(a), Point4(b));
      }
    }
  }

  /** The order of paths, which is computed on bytes, is JavaScript's order of the strings. */
  lemma {:induction false} OrderIsOfUnits(a: Bytes, b: Bytes)
    requires Utf8(a) && Utf8(b)
    ensures PathLess(a, b) <==> ScriptLess(Units(a), Units(b))
  {
    hide CharLength, FrontUnits, LexLess, UnitRank;
    if a == [] || b == [] {
      EmptyFirst(a, b);
    } else {
      var m, n := CharLength(a), CharLength(b);
      var ca, cb, ra, rb := a[..m], b[..n], a[m..], b[n..];
      FrontOnly(a);
      FrontOnly(b);
      FrontUnitsOnly(ca, ra);
      FrontUnitsOnly(cb, rb);
      assert a == ca + ra && b == cb + rb;
      if ca == cb {
        OrderIsOfUnits(ra, rb);
        LexSameFront(UnitRank, ca, ra, rb);
        LexSameFront(UnitValue, FrontUnits(ca), Units(ra), Units(rb));
      } else {
        CharsOrdered(ca, cb);
        LexFront(UnitRank, ca, cb, ra, rb);
        LexFront(UnitValue, FrontUnits(ca), FrontUnits(cb), Units(ra), Units(rb));
      }
    }
  }

  lemma EmptyFirst(a: Bytes, b: Bytes)
    requires Utf8(a) && Utf8(b) && (a == [] || b == [])
    ensures PathLess(a, b) <==> ScriptLess(Units(a), Units(b))
  {
    hide CharLength;
    if b != [] {
      UnitsFront(b, []);
    }
  }

  /** The entries of a tar come in JavaScript's order of their paths. */
  lemma TarInOrder(es: seq<Entry>) returns (sorted: seq<Entry>)
    requires DistinctPaths(es) && (forall e :: e in es ==> Utf8(e.path))
    ensures multiset(sorted) == multiset(es)
    ensures forall i, j :: 0 <= i < j < |sorted| ==>
      Utf8(sorted[i].path) && Utf8(sorted[j].path) && ScriptLess(Units(sorted[i].path), Units(sorted[j].path))
    ensures PackageTar(es).Ok? ==> PackageTar(es).value == Body(sorted) + Zeros(1024)
  {
    hide Utf8, Units, LexLess, Sort, Body, Zeros, Encodable;
    sorted := Sort(EntryLess, es);
    SortedEntries(es);
    forall i, j | 0 <= i < j < |sorted|
      ensures Utf8(sorted[i].path) && Utf8(sorted[j].path) && ScriptLess(Units(sorted[i].path), Units(sorted[j].path))
    {
      assert sorted[i] in multiset(es) && sorted[j] in multiset(es);
      assert EntryLess(sorted[i], sorted[j]);
      OrderIsOfUnits(sorted[i].path, sorted[j].path);
    }
  }

  // ---------------------------------------------------------------- packages

  datatype Named = Named(name: Script, file: File)

  function Encoded(fs: seq<Named>): seq<Entry>
  {
    seq(|fs|, i requires 0 <= i < |fs| => Entry(Encode(fs[i].name), fs[i].file))
  }

  ghost predicate DistinctNames(fs: seq<Named>)
  {
    forall i, j :: 0 <= i < j < |fs| ==> fs[i].name != fs[j].name
  }

  ghost predicate AllWellFormed(fs: seq<Named>)
  {
    forall i :: 0 <= i < |fs| ==> WellFormed(fs[i].name)
  }

  /** Under `p` a reader found the given file, by its name as a string. */
  ghost predicate Carries(files: map<Path, File>, p: Path, f: Named)
  {
    p in files && Utf8(p) && Units(p) == f.name && files[p] == f.file
  }

  /** A reader's map, with its paths as strings, is the map of the given files. */
  ghost predicate Returns(files: map<Path, File>, fs: seq<Named>)
  {
    && (forall i :: 0 <= i < |fs| ==> Found(files, fs[i]))
    && (forall p :: p in files ==> Known(files, p, fs))
  }

  ghost predicate Found(files: map<Path, File>, f: Named)
  {
    exists p :: Carries(files, p, f)
  }

  ghost predicate Known(files: map<Path, File>, p: Path, fs: seq<Named>)
  {
    exists i :: 0 <= i < |fs| && Carries(files, p, fs[i])
  }

  lemma HeaderPathIsText(h: Bytes)
    requires |h| == 512 && ParseHeader(h).Ok?
    ensures Utf8(ParseHeader(h).value.path)
  {
    hide Utf8, Decode, ParseTarOctal;
    var name, prefix := TarText(h, 0, 100).value, TarText(h, 345, 155).value;
    TarTextIsText(h, 0, 100);
    TarTextIsText(h, 345, 155);
    AsciiUtf8([SLASH]);
    Utf8Concat(prefix, [SLASH]);
    Utf8Concat(prefix + [SLASH], name);
  }

  lemma TarTextIsText(h: Bytes, offset: nat, length: nat)
    requires offset + length <= |h| && TarText(h, offset, length).Ok?
    ensures Utf8(TarText(h, offset, length).value)
  {
    hide Utf8, Decode, IndexOfNul;
    var end := IndexOfNul(h, offset);
    DecodedUtf8(h[offset..if end == -1 || end > offset + length then offset + length else end]);
  }

  lemma {:induction false} UnpackedPathsAreText(tar: Bytes, offset: nat, files: map<Path, File>)
    requires UnpackFrom(tar, offset, files).Ok? && forall p :: p in files ==> Utf8(p)
    ensures forall p :: p in UnpackFrom(tar, offset, files).value ==> Utf8(p)
    decreases |tar| - offset
  {
    hide Utf8, ParseHeader, SafeOutputPath;
    var h := tar[offset..offset + 512];
    if h != Zeros(512) {
      var p := ParseHeader(h).value;
      var data := offset + 512;
      HeaderPathIsText(h);
      UnpackedPathsAreText(tar, data + p.size + Padding(p.size), files[p.path := File(p.mode, tar[data..data + p.size])]);
    }
  }

  /** Whatever bytes are read, every path that comes out is text. */
  lemma ReadPathsAreText(tar: Bytes)
    requires UnpackTar(tar).Ok?
    ensures forall p :: p in UnpackTar(tar).value ==> Utf8(p)
  {
    hide Utf8, UnpackFrom;
    UnpackedPathsAreText(tar, 0, map[]);
  }

  /** No archive whatever is read back to a path with half of a pair. */
  lemma ReadPathsAreWellFormed(tar: Bytes, fs: seq<Named>)
    requires UnpackTar(tar).Ok? && Returns(UnpackTar(tar).value, fs)
    ensures AllWellFormed(fs)
  {
    hide Utf8, UnpackTar, Units, WellFormed;
    forall i | 0 <= i < |fs| ensures WellFormed(fs[i].name) {
      assert Found(UnpackTar(tar).value, fs[i]);
      var p :| Carries(UnpackTar(tar).value, p, fs[i]);
      UnitsAreWellFormed(p);
    }
  }

  lemma EncodedDistinct(fs: seq<Named>)
    requires DistinctNames(fs) && AllWellFormed(fs)
    ensures DistinctPaths(Encoded(fs))
  {
    hide Encode, WellFormed, Utf8, Units;
    forall i, j | 0 <= i < j < |fs| ensures Encode(fs[i].name) != Encode(fs[j].name) {
      EncodedComesBack(fs[i].name);
      EncodedComesBack(fs[j].name);
    }
  }

  lemma OnePath(files: map<Path, File>, fs: seq<Named>, i: nat, p: Path)
    requires i < |fs| && Carries(files, p, fs[i])
    ensures p in files && p == Encoded(fs)[i].path && files[p] == fs[i].file
  {
    UnitsAreWellFormed(p);
  }

  /** The entry of a name is at its path, and that path is read back as the name. */
  lemma EntryOfName(fs: seq<Named>, i: nat)
    requires AllWellFormed(fs) && DistinctPaths(Encoded(fs)) && i < |fs|
    ensures |Encoded(fs)| == |fs| && Encoded(fs)[i].path in MapOf(Encoded(fs))
    ensures Carries(MapOf(Encoded(fs)), Encoded(fs)[i].path, fs[i])
  {
    hide Encode, WellFormed, Utf8, Units, MapOf;
    EncodedComesBack(fs[i].name);
    MapOfAt(Encoded(fs), i);
  }

  /** The entry behind a path. */
  lemma NameOfPath(fs: seq<Named>, p: Path) returns (i: nat)
    requires AllWellFormed(fs) && DistinctPaths(Encoded(fs)) && p in MapOf(Encoded(fs))
    ensures i < |fs| && Encoded(fs)[i].path == p && Carries(MapOf(Encoded(fs)), p, fs[i])
  {
    hide Encode, WellFormed, Utf8, Units, MapOf, DistinctPaths;
    i :| 0 <= i < |Encoded(fs)| && Encoded(fs)[i].path == p;
    EntryOfName(fs, i);
  }

  lemma ReturnedIsEncoded(files: map<Path, File>, fs: seq<Named>)
    requires AllWellFormed(fs) && DistinctPaths(Encoded(fs)) && Returns(files, fs)
    ensures files == MapOf(Encoded(fs))
  {
    hide MapOf, Encoded, DistinctPaths, AllWellFormed, Carries;
    var m := MapOf(Encoded(fs));
    forall p | p in files ensures p in m {
      assert Known(files, p, fs);
      var i :| 0 <= i < |fs| && Carries(files, p, fs[i]);
      OnePath(files, fs, i, p);
      EntryOfName(fs, i);
    }
    forall p | p in m ensures p in files && files[p] == m[p] {
      var i := NameOfPath(fs, p);
      assert Found(files, fs[i]);
      var q :| Carries(files, q, fs[i]);
      OnePath(files, fs, i, q);
      OnePath(m, fs, i, p);
    }
  }

  lemma EncodedIsReturned(fs: seq<Named>)
    requires AllWellFormed(fs) && DistinctPaths(Encoded(fs))
    ensures Returns(MapOf(Encoded(fs)), fs)
  {
    hide MapOf, Encoded, DistinctPaths, AllWellFormed, Carries, Found, Known;
    var m := MapOf(Encoded(fs));
    forall i | 0 <= i < |fs| ensures Found(m, fs[i]) {
      EntryOfName(fs, i);
      FoundAt(m, Encoded(fs)[i].path, fs[i]);
    }
    forall p | p in m ensures Known(m, p, fs) {
      var i := NameOfPath(fs, p);
      KnownAt(m, p, fs, i);
    }
  }

  lemma FoundAt(files: map<Path, File>, p: Path, f: Named)
    requires Carries(files, p, f)
    ensures Found(files, f)
  {
  }

  lemma KnownAt(files: map<Path, File>, p: Path, fs: seq<Named>, i: nat)
    requires i < |fs| && Carries(files, p, fs[i])
    ensures Known(files, p, fs)
  {
  }

  /**
   Over strings: a packaged map comes back exactly if no path has half of a surrogate pair and every encoded path
   survives decoding.
   */
  lemma StringRoundTripExact(fs: seq<Named>)
    requires DistinctNames(fs) && (forall e :: e in Encoded(fs) ==> Packable(e)) && PackageTar(Encoded(fs)).Ok?
    ensures var r := UnpackTar(PackageTar(Encoded(fs)).value);
      (r.Ok? && Returns(r.value, fs)) <==> AllWellFormed(fs) && AllTextSafe(Encoded(fs))
  {
    hide Encoded, WellFormed, Utf8, MapOf, UnpackTar, PackageTar, Packable, AllTextSafe, Returns, AllWellFormed, DistinctPaths;
    var es := Encoded(fs);
    var r := UnpackTar(PackageTar(es).value);
    if AllWellFormed(fs) {
      EncodedDistinct(fs);
      TarRoundTripExact(es);
      EncodedIsReturned(fs);
      if r.Ok? && Returns(r.value, fs) {
        ReturnedIsEncoded(r.value, fs);
      }
    } else if r.Ok? && Returns(r.value, fs) {
      ReadPathsAreWellFormed(PackageTar(es).value, fs);
    }
  }

  /** A file named by half of a pair is packaged without complaint and does not come back. */
  lemma LoneHalfIsLost()
    ensures var fs := [Named([0xD800], File(MODE_PLAIN, []))];
      && (forall e :: e in Encoded(fs) ==> Packable(e)) && PackageTar(Encoded(fs)).Ok?
      && var r := UnpackTar(PackageTar(Encoded(fs)).value); !(r.Ok? && Returns(r.value, fs))
  {
    hide UnpackTar, PackageTar, Packable, Returns;
    var fs := [Named([0xD800], File(MODE_PLAIN, []))];
    assert Encode([0xD800]) == [0xEF, 0xBF, 0xBD] by {
      assert [0xD800][1..] == [];
      assert Encode([]) == [];
    }
    assert Encoded(fs) == [Entry([0xEF, 0xBF, 0xBD], File(MODE_PLAIN, []))];
    ReplacementPackable();
    assert !WellFormed([0xD800]);
    StringRoundTripExact(fs);
  }

  lemma ReplacementPackable()
    ensures var es := [Entry([0xEF, 0xBF, 0xBD], File(MODE_PLAIN, []))]; Packable(es[0]) && PackageTar(es).Ok?
  {
    hide PackageTar;
    var path: Path := [0xEF, 0xBF, 0xBD];
    assert path[3..] == [] && CharLength(path) == 3;
    assert Utf8(path);
    assert path[1..] == [0xBF, 0xBD] && [0xBF, 0xBD][1..] == [0xBD] && [0xBD][1..] == [];
    assert Utf16Length([0xBD]) == 0 && Utf16Length([0xBF, 0xBD]) == 0 && Utf16Length(path) == 1;
    SinglePart(path, SLASH);
    OctalFits(MODE_PLAIN, 7);
    OctalFits(0, 11);
    assert Pow(8, 7) == 2097152 && Pow(8, 11) == 8589934592;
    OneBlock(Entry(path, File(MODE_PLAIN, [])));
  }
}
