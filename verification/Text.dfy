/**
 Text as the compiler's formats carry it: the UTF-8 bytes of a JavaScript string, what a
 fatal `TextDecoder` gives back for them, and the order in which JavaScript compares paths.
 */
module Text {
  import opened Bytes
  import opened Sorting

  const SLASH: Byte := 0x2F
  const DOT: Byte := 0x2E
  const BACKSLASH: Byte := 0x5C
  const COLON: Byte := 0x3A

  /** The byte order mark, which a `TextDecoder` drops from the front of what it decodes. */
  const BOM: Bytes := [0xEF, 0xBB, 0xBF]

  predicate Continuation(b: Byte)
  {
    0x80 <= b <= 0xBF
  }

  /** Length of the well-formed UTF-8 character at the front of `b`, or 0 if there is none. */
  function CharLength(b: Bytes): (n: nat)
    ensures n <= |b| && n <= 4
    ensures forall i :: 1 <= i < n ==> Continuation(b[i])
  {
    if |b| >= 1 && b[0] < 0x80 then 1
    else if |b| >= 2 && 0xC2 <= b[0] <= 0xDF && Continuation(b[1]) then 2
    else if |b| >= 3 && 0xE0 <= b[0] <= 0xEF && Continuation(b[1]) && Continuation(b[2]) &&
      (b[0] == 0xE0 ==> b[1] >= 0xA0) && (b[0] == 0xED ==> b[1] <= 0x9F) then 3
    else if |b| >= 4 && 0xF0 <= b[0] <= 0xF4 && Continuation(b[1]) && Continuation(b[2]) &&
      Continuation(b[3]) && (b[0] == 0xF0 ==> b[1] >= 0x90) && (b[0] == 0xF4 ==> b[1] <= 0x8F) then 4
    else 0
  }

  predicate Utf8(b: Bytes)
  {
    b == [] || (CharLength(b) > 0 && Utf8(b[CharLength(b)..]))
  }

  function StripBom(b: Bytes): (r: Bytes)
  {
    if BOM <= b then b[3..] else b
  }

  /** `new TextDecoder("utf-8", { fatal: true }).decode(b)`. */
  function Decode(b: Bytes): (r: Result<Bytes>)
  {
    if Utf8(b) then Ok(StripBom(b)) else Failed
  }

  lemma {:induction false} AsciiUtf8(b: Bytes)
    requires forall i :: 0 <= i < |b| ==> b[i] < 0x80
    ensures Utf8(b)
  {
    if b != [] {
      assert CharLength(b) == 1;
      AsciiUtf8(b[1..]);
    }
  }

  /** An ASCII byte never lies inside a longer character, so text may be cut at one. */
  lemma {:induction false} CutAtAscii(a: Bytes, separator: Byte, b: Bytes)
    requires separator < 0x80
    requires Utf8(a + [separator] + b)
    ensures Utf8(a) && Utf8(b)
  {
    var whole := a + [separator] + b;
    var n := CharLength(whole);
    if a == [] {
      assert whole[n..] == b;
    } else {
      assert !Continuation(whole[|a|]);
      assert n <= |a|;
      assert CharLength(a) == n by {
        assert whole[..n] == a[..n];
        assert forall i :: 0 <= i < n ==> whole[i] == a[i];
      }
      assert whole[n..] == a[n..] + [separator] + b;
      CutAtAscii(a[n..], separator, b);
    }
  }

  /** Whether a character stands at the front does not depend on what follows it. */
  lemma FrontDecides(a: Bytes, b: Bytes)
    requires CharLength(a) == |a| > 0
    ensures CharLength(a + b) == |a|
  {
  }

  lemma FrontOnly(s: Bytes)
    requires CharLength(s) > 0
    ensures CharLength(s[..CharLength(s)]) == CharLength(s)
  {
  }

  lemma FrontUtf8(a: Bytes, b: Bytes)
    requires CharLength(a) == |a| > 0 && Utf8(b)
    ensures Utf8(a + b)
  {
    FrontDecides(a, b);
    assert (a + b)[|a|..] == b;
  }

  lemma {:induction false} Utf8Concat(a: Bytes, b: Bytes)
    requires Utf8(a) && Utf8(b)
    ensures Utf8(a + b)
  {
    hide CharLength;
    if a == [] {
      assert a + b == b;
    } else {
      var n := CharLength(a);
      FrontOnly(a);
      Utf8Concat(a[n..], b);
      FrontUtf8(a[..n], a[n..] + b);
      assert a + b == a[..n] + (a[n..] + b);
    }
  }

  /** What a decoder returns is text. */
  lemma DecodedUtf8(b: Bytes)
    requires Decode(b).Ok?
    ensures Utf8(Decode(b).value)
  {
    if BOM <= b {
      assert CharLength(b) == 3;
    }
  }

  /** The text before the first NUL: all that a NUL-terminated field can give back. */
  function UpToNul(b: Bytes): (r: Bytes)
    ensures r <= b
    ensures 0 !in r
    ensures |r| < |b| ==> b[|r|] == 0
    ensures 0 !in b ==> r == b
    ensures 0 in b ==> |r| < |b|
  {
    if b == [] || b[0] == 0 then [] else [b[0]] + UpToNul(b[1..])
  }

  lemma UpToNulUtf8(b: Bytes)
    requires Utf8(b)
    ensures Utf8(UpToNul(b))
  {
    var r := UpToNul(b);
    if |r| < |b| {
      assert b == r + [0] + b[|r| + 1..];
      CutAtAscii(r, 0, b[|r| + 1..]);
    }
  }

  /** UTF-16 code units of a text given by its UTF-8 bytes (`String.length`). */
  function Utf16Length(b: Bytes): (n: nat)
    ensures n <= 2 * |b|
  {
    if b == [] then 0
    else (if Continuation(b[0]) then 0 else if b[0] >= 0xF0 then 2 else 1) + Utf16Length(b[1..])
  }

  /**
   JavaScript compares strings by UTF-16 code units. On UTF-8 bytes that is the lexicographic
   order in which the lead bytes of supplementary characters (surrogates D800 to DFFF) come
   before the lead bytes EE and EF (code units E000 to FFFF).
   */
  function UnitRank(b: Byte): (r: int)
  {
    if b < 0xEE then b else if b < 0xF0 then b + 5 else if b < 0xF5 then b - 2 else b
  }

  /** `comparePath(a, b) < 0`. */
  predicate PathLess(a: Bytes, b: Bytes)
  {
    LexLess(UnitRank, a, b)
  }

  lemma PathOrder()
    ensures StrictOrder(PathLess)
    ensures forall a, b :: a != b ==> PathLess(a, b) || PathLess(b, a)
  {
    forall a: Bytes ensures !PathLess(a, a) {
      LexIrreflexive(UnitRank, a);
    }
    forall a, b, c | PathLess(a, b) && PathLess(b, c) ensures PathLess(a, c) {
      LexTransitive(UnitRank, a, b, c);
    }
    forall a: Bytes, b: Bytes | a != b ensures PathLess(a, b) || PathLess(b, a) {
      LexTotal(UnitRank, a, b);
    }
  }

  /** One more character in front of parts: a separator opens a new first part. */
  function Grow<T(==)>(c: T, separator: T, parts: seq<seq<T>>): (r: seq<seq<T>>)
    requires |parts| >= 1
    ensures |r| >= 1
  {
    if c == separator then [[]] + parts else [[c] + parts[0]] + parts[1..]
  }

  /** Splitting at every separator, as `split` does: always at least one part. */
  function Split<T(==)>(s: seq<T>, separator: T): (parts: seq<seq<T>>)
    ensures |parts| >= 1
  {
    if s == [] then [[]] else Grow(s[0], separator, Split(s[1..], separator))
  }

  /** `path.split("/")`. */
  function Parts(path: Bytes): (parts: seq<Bytes>)
    ensures |parts| >= 1
  {
    Split(path, SLASH)
  }

  lemma {:induction false} SinglePart<T>(s: seq<T>, separator: T)
    requires separator !in s
    ensures Split(s, separator) == [s]
  {
    if s != [] {
      SinglePart(s[1..], separator);
      assert [s[0]] + s[1..] == s;
    }
  }

  lemma GrowAppend<T>(c: T, separator: T, front: seq<seq<T>>, back: seq<seq<T>>)
    requires |front| >= 1
    ensures Grow(c, separator, front + back) == Grow(c, separator, front) + back
  {
    assert (front + back)[1..] == front[1..] + back;
  }

  lemma SplitStep<T>(c: T, s: seq<T>, separator: T)
    ensures Split([], separator) == [[]] && Split([c] + s, separator) == Grow(c, separator, Split(s, separator))
  {
    assert ([c] + s)[1..] == s;
  }

  lemma {:induction false} SplitJoined<T>(a: seq<T>, separator: T, b: seq<T>)
    ensures Split(a + [separator] + b, separator) == Split(a, separator) + Split(b, separator)
  {
    hide Split, Grow;
    if a == [] {
      SplitStep(separator, b, separator);
      assert a + [separator] + b == [separator] + b;
      assert Grow(separator, separator, Split(b, separator)) == [[]] + Split(b, separator) by {
        GrowSeparator(separator, Split(b, separator));
      }
    } else {
      var rest := a[1..] + [separator] + b;
      SplitJoined(a[1..], separator, b);
      SplitStep(a[0], rest, separator);
      SplitStep(a[0], a[1..], separator);
      GrowAppend(a[0], separator, Split(a[1..], separator), Split(b, separator));
      assert a + [separator] + b == [a[0]] + rest && a == [a[0]] + a[1..];
    }
  }

  lemma GrowSeparator<T>(separator: T, parts: seq<seq<T>>)
    requires |parts| >= 1
    ensures Grow(separator, separator, parts) == [[]] + parts
  {
  }

  predicate SafePart(part: Bytes)
  {
    part != [] && part != [DOT] && part != [DOT, DOT]
  }

  predicate AsciiLetter(b: Byte)
  {
    0x41 <= b <= 0x5A || 0x61 <= b <= 0x7A
  }

  /** A relative slash-separated path without empty, `.` or `..` parts, drive or backslash. */
  predicate SafePath(path: Bytes, maximum: nat)
  {
    && 0 < Utf16Length(path) <= maximum
    && BACKSLASH !in path
    && path[0] != SLASH
    && !(|path| >= 2 && AsciiLetter(path[0]) && path[1] == COLON)
    && forall k :: 0 <= k < |Parts(path)| ==> SafePart(Parts(path)[k])
  }

  // ---------------------------------------------------------------- where a path leads

  /** Following a path part by part from a root: nothing and a dot stay, two dots go up, and above the root it fails. */
  function Resolve<T(==)>(parts: seq<seq<T>>, dot: T): (r: Result<seq<seq<T>>>)
    ensures r.Ok? ==> |r.value| <= |parts|
  {
    if parts == [] then Ok([])
    else
      var n := |parts| - 1;
      var front :- Resolve(parts[..n], dot);
      if parts[n] == [] || parts[n] == [dot] then Ok(front)
      else if parts[n] == [dot, dot] then (if front == [] then Failed else Ok(front[..|front| - 1]))
      else Ok(front + [parts[n]])
  }

  /** A path leads exactly where it says if and only if none of its parts is empty or made of dots. */
  lemma {:induction false} ResolvesToItself<T>(parts: seq<seq<T>>, dot: T)
    ensures Resolve(parts, dot) == Ok(parts) <==>
      forall k :: 0 <= k < |parts| ==> parts[k] != [] && parts[k] != [dot] && parts[k] != [dot, dot]
  {
    if parts != [] {
      var n := |parts| - 1;
      ResolvesToItself(parts[..n], dot);
      assert parts == parts[..n] + [parts[n]];
      if Resolve(parts, dot) == Ok(parts) {
        assert Resolve(parts, dot).value[..n] == parts[..n];
      }
    }
  }

  /**
   A safe path is short enough, has no backslash, is not absolute and names no drive, and leads exactly where it says,
   so never out of the directory it is taken from.
   */
  lemma SafePathExactly(path: Bytes, maximum: nat)
    ensures SafePath(path, maximum) <==>
      && 0 < Utf16Length(path) <= maximum
      && 0x5C !in path
      && |path| > 0 && path[0] != 0x2F
      && !(|path| >= 2 && (0x41 <= path[0] <= 0x5A || 0x61 <= path[0] <= 0x7A) && path[1] == 0x3A)
      && Resolve(Split(path, 0x2F), 0x2E) == Ok(Split(path, 0x2F))
  {
    hide Resolve, Split, Utf16Length;
    var parts: seq<Bytes> := Split(path, 0x2F);
    ResolvesToItself(parts, 0x2E);
    assert Parts(path) == parts;
    if path == [] {
      assert Utf16Length(path) == 0 by { NoUnits(); }
    }
    assert (forall k :: 0 <= k < |parts| ==> SafePart(parts[k])) <==>
      forall k :: 0 <= k < |parts| ==> parts[k] != [] && parts[k] != [0x2E] && parts[k] != [0x2E, 0x2E];
  }

  lemma NoUnits()
    ensures Utf16Length([]) == 0
  {
  }
}
