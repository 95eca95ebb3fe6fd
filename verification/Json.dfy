/**
 What JSON makes of a manifest. Go strings are bytes; the encoder writes every byte that is not part of a UTF-8
 character as the replacement character, and the decoder returns that character.
 */
module Json {
  import opened Bytes
  import opened Options
  import opened Layers
  import opened Keys
  import opened Manifests
  import opened Drafts
  import Text

  const REPLACEMENT: string := [0xEF as char, 0xBF as char, 0xBD as char]

  // ---------------------------------------------------------------- strings

  function ByteOf(c: char): Byte
  {
    if c as int < 256 then c as int else 0xFF
  }

  function Raw(s: string): (r: Bytes)
    ensures |r| == |s|
  {
    seq(|s|, i requires 0 <= i < |s| => ByteOf(s[i]))
  }

  predicate IsText(s: string)
  {
    Text.Utf8(Raw(s))
  }

  /** A string after encoding and decoding. */
  function Scrub(s: string): string
  {
    if s == "" then ""
    else
      var n := Text.CharLength(Raw(s));
      if n == 0 then REPLACEMENT + Scrub(s[1..]) else s[..n] + Scrub(s[n..])
  }

  lemma RawParts(a: string, b: string)
    ensures Raw(a + b) == Raw(a) + Raw(b) && Raw(a + b)[|a|..] == Raw(b)
  {
  }

  lemma RawSlice(s: string, n: nat)
    requires n <= |s|
    ensures Raw(s)[n..] == Raw(s[n..]) && Raw(s)[..n] == Raw(s[..n])
  {
  }

  lemma FrontText(a: string, b: string)
    requires Text.CharLength(Raw(a)) == |a| > 0 && IsText(b)
    ensures IsText(a + b)
  {
    RawParts(a, b);
    Text.FrontUtf8(Raw(a), Raw(b));
  }

  /** What is read back is text, whatever was written. */
  lemma {:induction false} ScrubIsText(s: string)
    ensures IsText(Scrub(s))
  {
    hide Text.CharLength;
    if s != "" {
      var n := Text.CharLength(Raw(s));
      if n == 0 {
        ScrubIsText(s[1..]);
        ReplacementIsOne();
        FrontText(REPLACEMENT, Scrub(s[1..]));
      } else {
        ScrubIsText(s[n..]);
        RawSlice(s, n);
        Text.FrontOnly(Raw(s));
        FrontText(s[..n], Scrub(s[n..]));
      }
    }
  }

  lemma ReplacementIsOne()
    ensures Text.CharLength(Raw(REPLACEMENT)) == 3
  {
  }

  /** Text is read back as it was, and nothing else is. */
  lemma ScrubFixed(s: string)
    ensures Scrub(s) == s <==> IsText(s)
  {
    ScrubIsText(s);
    if IsText(s) {
      TextStays(s);
    }
  }

  lemma {:induction false} TextStays(s: string)
    requires IsText(s)
    ensures Scrub(s) == s
  {
    hide Text.CharLength;
    if s != "" {
      var n := Text.CharLength(Raw(s));
      RawSlice(s, n);
      TextStays(s[n..]);
      assert s == s[..n] + s[n..];
    }
  }

  lemma FrontStays(a: Bytes, b: Bytes)
    requires Text.CharLength(a) > 0
    ensures Text.CharLength(a + b) == Text.CharLength(a)
  {
  }

  /** No character goes on from a stray byte into a text. */
  lemma StrayStarts(c: char, b: string)
    requires IsText(b) && c as int >= 0x80
    ensures Text.CharLength(Raw([c] + b)) == 0
  {
    var s := Raw([c] + b);
    assert s[0] >= 0x80;
    if b != "" {
      assert s[1] == Raw(b)[0] && Text.CharLength(Raw(b)) > 0;
      assert !Text.Continuation(s[1]);
    }
  }

  /** A stray byte between texts is read back as U+FFFD, and what is around it as it was. */
  lemma {:induction false} StrayByteIsReplaced(a: string, c: char, b: string)
    requires IsText(a) && IsText(b) && c as int >= 0x80
    ensures Scrub(a + ([c] + b)) == a + ([0xEF as char, 0xBF as char, 0xBD as char] + b)
    decreases |a|
  {
    hide Text.CharLength, Raw;
    var s, t := [c] + b, [0xEF as char, 0xBF as char, 0xBD as char] + b;
    if a == "" {
      assert a + s == s && a + t == t && s[1..] == b;
      StrayStarts(c, b);
      TextStays(b);
    } else {
      var n := Text.CharLength(Raw(a));
      RawParts(a, s);
      RawSlice(a, n);
      FrontStays(Raw(a), Raw(s));
      assert (a + s)[..n] == a[..n] && (a + s)[n..] == a[n..] + s;
      StrayByteIsReplaced(a[n..], c, b);
      assert a[..n] + (a[n..] + t) == a + t;
    }
  }

  lemma TextConcat(a: string, b: string)
    requires IsText(a) && IsText(b)
    ensures IsText(a + b)
  {
    RawParts(a, b);
    Text.Utf8Concat(Raw(a), Raw(b));
  }

  predicate Ascii(s: string)
  {
    forall i :: 0 <= i < |s| ==> s[i] as int < 0x80
  }

  lemma AsciiIsText(s: string)
    requires Ascii(s)
    ensures IsText(s)
  {
    hide Text.Utf8;
    Text.AsciiUtf8(Raw(s));
  }

  // ---------------------------------------------------------------- manifests

  function ScrubPaths(paths: seq<Path>): seq<Path>
  {
    seq(|paths|, i requires 0 <= i < |paths| => Scrub(paths[i]))
  }

  /** The keys and digests of a manifest are text; only its paths are names from a disk. */
  function ScrubBlob(b: Blob): Blob
  {
    b.(paths := ScrubPaths(b.paths))
  }

  function ScrubMaybe(b: Option<Blob>): Option<Blob>
  {
    if b.Some? then Some(ScrubBlob(b.value)) else None
  }

  function ScrubAll(ds: seq<Blob>): seq<Blob>
  {
    seq(|ds|, i requires 0 <= i < |ds| => ScrubBlob(ds[i]))
  }

  /** A manifest after encoding and decoding. */
  function Scrubbed(m: Manifest): Manifest
  {
    m.(content := ScrubMaybe(m.content), config := ScrubMaybe(m.config), world := ScrubAll(m.world))
  }

  predicate TextPaths(paths: seq<Path>)
  {
    forall i :: 0 <= i < |paths| ==> IsText(paths[i])
  }

  predicate TextLists(ds: seq<Blob>)
  {
    forall i :: 0 <= i < |ds| ==> TextPaths(ds[i].paths)
  }

  /** Everything in a manifest but its paths is text: it was decoded from JSON, or printed from what was. */
  predicate PlainBlob(b: Blob)
  {
    IsText(b.key) && IsText(b.sha256)
  }

  predicate PlainManifest(m: Manifest)
  {
    && IsText(m.serviceId) && IsText(m.assignmentId) && IsText(m.manifestHash) && IsText(m.aggregateSha256)
    && forall b :: b in Descriptors(m) ==> PlainBlob(b)
  }

  /** A manifest is plain exactly if JSON returns everything in it but its paths as it was. */
  lemma PlainReadsBack(m: Manifest)
    ensures PlainManifest(m) <==>
      && Scrub(m.serviceId) == m.serviceId && Scrub(m.assignmentId) == m.assignmentId
      && Scrub(m.manifestHash) == m.manifestHash && Scrub(m.aggregateSha256) == m.aggregateSha256
      && (forall b :: b in Descriptors(m) ==> Scrub(b.key) == b.key && Scrub(b.sha256) == b.sha256)
  {
    hide Scrub, IsText, Descriptors;
    ScrubFixed(m.serviceId);
    ScrubFixed(m.assignmentId);
    ScrubFixed(m.manifestHash);
    ScrubFixed(m.aggregateSha256);
    forall b | b in Descriptors(m) ensures PlainBlob(b) <==> Scrub(b.key) == b.key && Scrub(b.sha256) == b.sha256 {
      ScrubFixed(b.key);
      ScrubFixed(b.sha256);
    }
  }

  lemma ScrubPathsFixed(paths: seq<Path>)
    ensures ScrubPaths(paths) == paths <==> TextPaths(paths)
  {
    hide Scrub, IsText;
    forall i | 0 <= i < |paths| ensures Scrub(paths[i]) == paths[i] <==> IsText(paths[i]) {
      ScrubFixed(paths[i]);
    }
    if ScrubPaths(paths) == paths {
      forall i | 0 <= i < |paths| ensures IsText(paths[i]) {
        assert ScrubPaths(paths)[i] == paths[i];
      }
    }
  }

  lemma ScrubBlobFixed(b: Blob)
    ensures ScrubBlob(b) == b <==> TextPaths(b.paths)
  {
    hide ScrubPaths, TextPaths;
    ScrubPathsFixed(b.paths);
  }

  lemma ScrubAllFixed(ds: seq<Blob>)
    ensures ScrubAll(ds) == ds <==> TextLists(ds)
  {
    hide ScrubBlob, TextPaths;
    forall i | 0 <= i < |ds| ensures ScrubBlob(ds[i]) == ds[i] <==> TextPaths(ds[i].paths) {
      ScrubBlobFixed(ds[i]);
    }
    if ScrubAll(ds) == ds {
      forall i | 0 <= i < |ds| ensures TextPaths(ds[i].paths) {
        assert ScrubAll(ds)[i] == ds[i];
      }
    }
  }

  lemma ScrubbedLists(m: Manifest)
    ensures Descriptors(Scrubbed(m)) == ScrubAll(Descriptors(m))
  {
    hide ScrubBlob;
  }

  /** A manifest is read back as it was exactly if every path it lists is text. */
  lemma ScrubbedFixed(m: Manifest)
    ensures Scrubbed(m) == m <==> TextLists(Descriptors(m))
  {
    hide ScrubBlob, ScrubAll, TextPaths;
    ScrubAllFixed(m.world);
    if m.content.Some? {
      ScrubBlobFixed(m.content.value);
    }
    if m.config.Some? {
      ScrubBlobFixed(m.config.value);
    }
    ListedInDescriptors(m);
  }

  lemma ListedInDescriptors(m: Manifest)
    ensures TextLists(Descriptors(m)) <==>
        && (m.content.Some? ==> TextPaths(m.content.value.paths))
        && (m.config.Some? ==> TextPaths(m.config.value.paths))
        && TextLists(m.world)
  {
    hide TextPaths;
    var ds := Descriptors(m);
    var k := |ds| - |m.world|;
    assert forall i :: 0 <= i < |m.world| ==> ds[k + i] == m.world[i];
    assert m.content.Some? ==> ds[0] == m.content.value;
    assert m.config.Some? ==> ds[k - 1] == m.config.value;
  }

  // ---------------------------------------------------------------- what a reader accepts

  /** No digest collision between the descriptors as written and as read. */
  ghost predicate AggregateTells(lib: Library, m: Manifest)
  {
    var ds := Descriptors(m); ScrubAll(ds) != ds ==> lib.aggregate(ScrubAll(ds)) != lib.aggregate(ds)
  }

  /** The digest over the descriptors is taken before they are encoded, so only a manifest of text can be read back. */
  lemma ReadBackAccepted(lib: Library, m: Manifest, c: Command)
    requires m.aggregateSha256 == lib.aggregate(Descriptors(m)) && AggregateTells(lib, m)
    ensures Accepted(lib, Scrubbed(m), c) <==> Accepted(lib, m, c) && TextLists(Descriptors(m))
  {
    hide ScrubAll, TextLists, Listed, Layered, Headed, LogicalSum, CompressedSum, AllPaths, Descriptors, WorkspacePrefix;
    ScrubbedLists(m);
    ScrubbedFixed(m);
    ScrubAllFixed(Descriptors(m));
    SameDigest(m);
  }

  lemma SameDigest(m: Manifest)
    ensures Scrubbed(m).aggregateSha256 == m.aggregateSha256
  {
  }
}
