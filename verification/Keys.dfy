/**
 Object keys of a workspace: how they are printed, what tells layers and revisions apart, and when a key
 contains a given directory.
 */
module Keys {
  import opened Bytes
  import opened Layers
  import opened Text

  // ---------------------------------------------------------------- decimal numbers

  function Digit(d: nat): char
    requires d < 10
  {
    "0123456789"[d]
  }

  /** `%d` of a number that is not negative. */
  function Decimal(n: nat): string
  {
    if n < 10 then [Digit(n)] else Decimal(n / 10) + [Digit(n % 10)]
  }

  /** `%03d`. */
  function Padded(n: nat): string
  {
    (if n < 10 then "00" else if n < 100 then "0" else "") + Decimal(n)
  }

  predicate IsDigit(c: char)
  {
    '0' <= c <= '9'
  }

  predicate AllDigits(s: string)
  {
    forall i :: 0 <= i < |s| ==> IsDigit(s[i])
  }

  function Value(s: string): int
  {
    if s == "" then 0 else 10 * Value(s[..|s| - 1]) + (s[|s| - 1] as int - '0' as int)
  }

  lemma {:induction false} DecimalReads(n: nat)
    ensures Decimal(n) != "" && AllDigits(Decimal(n)) && Value(Decimal(n)) == n
  {
    if n < 10 {
      assert Decimal(n)[..0] == "";
    } else {
      DecimalReads(n / 10);
      var most := Decimal(n / 10);
      assert Decimal(n)[..|most|] == most;
    }
  }

  lemma PaddedReads(n: nat)
    ensures Padded(n) != "" && AllDigits(Padded(n)) && Value(Padded(n)) == n
    ensures |Padded(n)| == if |Decimal(n)| < 3 then 3 else |Decimal(n)|
  {
    hide Value;
    DecimalReads(n);
    if n < 10 {
      assert Padded(n) == ['0', '0', Digit(n)];
      ZeroReads("0" + Decimal(n));
      ZeroReads(Decimal(n));
      assert Padded(n) == "0" + ("0" + Decimal(n));
    } else if n < 100 {
      ZeroReads(Decimal(n));
      assert |Decimal(n / 10)| == 1;
    } else {
      assert Padded(n) == Decimal(n);
      assert |Decimal(n / 10 / 10)| >= 1 && |Decimal(n / 10)| >= 2;
    }
  }

  lemma {:induction false} DecimalLength(n: nat, k: nat)
    requires n < Pow(10, k)
    ensures |Decimal(n)| <= if k == 0 then 1 else k
  {
    if n >= 10 && k > 0 {
      DecimalLength(n / 10, k - 1);
      assert k > 1;
    }
  }

  /** How many shards can be numbered within the 128 characters of a shard name. */
  const SHARD_NUMBERS: nat := Pow(10, 122)

  lemma {:induction false} PowTenGrows(a: nat, b: nat)
    requires a <= b
    ensures Pow(10, a) <= Pow(10, b)
    decreases b
  {
    if a < b {
      PowTenGrows(a, b - 1);
    }
  }

  lemma ManyShardNumbers()
    ensures SHARD_NUMBERS >= 1000
  {
    PowTenGrows(3, 122);
    assert Pow(10, 1) == 10 && Pow(10, 2) == 100 && Pow(10, 3) == 1000;
  }

  lemma {:induction false} ZeroReads(s: string)
    ensures Value("0" + s) == Value(s)
  {
    if s != "" {
      ZeroReads(s[..|s| - 1]);
      assert ("0" + s)[..|s|] == "0" + s[..|s| - 1];
    } else {
      assert "0" + s == "0" && "0"[..0] == "";
    }
  }

  // ---------------------------------------------------------------- parts and substrings

  predicate OccursAt(s: string, sub: string, i: nat)
  {
    i + |sub| <= |s| && s[i..i + |sub|] == sub
  }

  /** `strings.Contains`. */
  predicate Contains(s: string, sub: string)
  {
    exists i: nat :: i <= |s| && OccursAt(s, sub, i)
  }

  lemma ContainsExtends(s: string, sub: string, more: string)
    requires Contains(s, sub)
    ensures Contains(s + more, sub)
  {
    var i: nat :| i <= |s| && OccursAt(s, sub, i);
    assert (s + more)[i..i + |sub|] == s[i..i + |sub|];
    assert OccursAt(s + more, sub, i);
  }

  /** Where the k-th part of a string begins. */
  lemma {:induction false} PartStarts(s: string, k: nat) returns (i: nat)
    requires k < |Split(s, '/')|
    ensures var part := Split(s, '/')[k];
      && OccursAt(s, part, i)
      && (k == 0 ==> i == 0)
      && (k > 0 ==> i > 0 && s[i - 1] == '/')
      && (k < |Split(s, '/')| - 1 ==> i + |part| < |s| && s[i + |part|] == '/')
      && (k == |Split(s, '/')| - 1 ==> i + |part| == |s|)
  {
    if s == "" || (s[0] == '/' && k == 0) {
      i := 0;
    } else if s[0] == '/' {
      var j := PartStarts(s[1..], k - 1);
      i := j + 1;
    } else {
      var j := PartStarts(s[1..], k);
      var rest := Split(s[1..], '/');
      if k == 0 {
        i := 0;
        assert s == [s[0]] + s[1..];
        assert s[..1 + |rest[0]|] == [s[0]] + s[1..][..|rest[0]|];
      } else {
        i := j + 1;
        assert Split(s, '/')[k] == rest[k];
      }
    }
  }

  /** A part strictly between the first and the last one. */
  ghost predicate HasInnerPart(s: string, part: string)
  {
    exists k :: 0 < k < |Split(s, '/')| - 1 && Split(s, '/')[k] == part
  }

  lemma ContainedIsInner(s: string, part: string, i: nat)
    requires '/' !in part && OccursAt(s, "/" + part + "/", i)
    ensures HasInnerPart(s, part)
  {
    hide Split;
    var sub := "/" + part + "/";
    var a, b := s[..i], s[i + |sub|..];
    assert s == a + "/" + (part + "/" + b) by {
      assert s == a + s[i..i + |sub|] + b;
    }
    SplitJoined(a, '/', part + "/" + b);
    SplitJoined(part, '/', b);
    SinglePart(part, '/');
    var front, back := Split(a, '/'), Split(b, '/');
    assert Split(s, '/') == front + ([part] + back);
    assert Split(s, '/')[|front|] == part;
  }

  lemma InnerIsContained(s: string, part: string)
    requires HasInnerPart(s, part)
    ensures Contains(s, "/" + part + "/")
  {
    hide Split;
    var sub := "/" + part + "/";
    var k :| 0 < k < |Split(s, '/')| - 1 && Split(s, '/')[k] == part;
    var i := PartStarts(s, k);
    assert s[i - 1..i - 1 + |sub|] == [s[i - 1]] + s[i..i + |part|] + [s[i + |part|]];
    assert OccursAt(s, sub, i - 1);
  }

  /** A string contains a name between two slashes exactly if one of its inner parts is that name. */
  lemma ContainsByParts(s: string, part: string)
    requires '/' !in part
    ensures Contains(s, "/" + part + "/") <==> HasInnerPart(s, part)
  {
    hide HasInnerPart, OccursAt;
    if Contains(s, "/" + part + "/") {
      var i: nat :| i <= |s| && OccursAt(s, "/" + part + "/", i);
      ContainedIsInner(s, part, i);
    }
    if HasInnerPart(s, part) {
      InnerIsContained(s, part);
    }
  }

  // ---------------------------------------------------------------- keys

  const ARCHIVE_SUFFIX := ".tar.zst"
  const WORLD_MARK := "/world/"
  const COMPILER_MARK := "/compiler-content/"
  const CONFIG_NAME := "config.tar.zst"

  function ContentKey(prefix: string, sha: string): string
  {
    prefix + "/content/" + sha + ARCHIVE_SUFFIX
  }

  function RevisionRoot(prefix: string): string
  {
    prefix + "/revisions/"
  }

  function ConfigKey(prefix: string, revision: nat): string
  {
    RevisionRoot(prefix) + (Decimal(revision) + "/" + CONFIG_NAME)
  }

  function ShardName(index: nat): string
  {
    "world-" + Padded(index)
  }

  function WorldKey(prefix: string, revision: nat, index: nat): string
  {
    RevisionRoot(prefix) + (Decimal(revision) + "/" + (WORLD + "/" + (ShardName(index) + ARCHIVE_SUFFIX)))
  }

  /** The parts of a key after the revision root; `strings.TrimPrefix` leaves any other key whole. */
  function Below(prefix: string, key: string): seq<string>
  {
    var root := RevisionRoot(prefix);
    Split(if root <= key then key[|root|..] else key, '/')
  }

  predicate RevisionLayerKey(prefix: string, key: string, name: string)
  {
    var parts := Below(prefix, key);
    && RevisionRoot(prefix) <= key
    && |parts| == 2
    && parts[0] != "" && AllDigits(parts[0])
    && parts[1] == name
  }

  predicate ShardCharacter(c: char)
  {
    'a' <= c <= 'z' || 'A' <= c <= 'Z' || IsDigit(c) || c == '.' || c == '_' || c == '-'
  }

  predicate HasSuffix(s: string, suffix: string)
  {
    |suffix| <= |s| && s[|s| - |suffix|..] == suffix
  }

  predicate ValidShardName(shard: string)
  {
    shard != "" && |shard| <= 128 && forall i :: 0 <= i < |shard| ==> ShardCharacter(shard[i])
  }

  predicate WorldLayerKey(prefix: string, key: string)
  {
    var parts := Below(prefix, key);
    && RevisionRoot(prefix) <= key
    && |parts| == 3
    && parts[0] != "" && AllDigits(parts[0])
    && parts[1] == WORLD
    && HasSuffix(parts[2], ARCHIVE_SUFFIX)
    && ValidShardName(parts[2][..|parts[2]| - |ARCHIVE_SUFFIX|])
  }

  /** The revision a key was written for. */
  function RevisionOf(prefix: string, key: string): int
  {
    Value(Below(prefix, key)[0])
  }

  lemma NoSlashInDigits(s: string)
    requires AllDigits(s)
    ensures '/' !in s
  {
    assert !IsDigit('/');
  }

  lemma BelowRoot(prefix: string, rest: string)
    ensures Below(prefix, RevisionRoot(prefix) + rest) == Split(rest, '/')
    ensures RevisionRoot(prefix) <= RevisionRoot(prefix) + rest
  {
    var root := RevisionRoot(prefix);
    assert (root + rest)[|root|..] == rest;
  }

  lemma ConfigKeyParts(prefix: string, revision: nat)
    ensures Below(prefix, ConfigKey(prefix, revision)) == [Decimal(revision), CONFIG_NAME]
  {
    hide Split;
    DecimalReads(revision);
    NoSlashInDigits(Decimal(revision));
    BelowRoot(prefix, Decimal(revision) + "/" + CONFIG_NAME);
    SplitJoined(Decimal(revision), '/', CONFIG_NAME);
    SinglePart(Decimal(revision), '/');
    SinglePart(CONFIG_NAME, '/');
  }

  lemma ShardNameValid(index: nat)
    ensures '/' !in ShardName(index)
    ensures index < SHARD_NUMBERS ==> ValidShardName(ShardName(index))
  {
    hide Pow;
    if index < SHARD_NUMBERS {
      DecimalLength(index, 122);
    }
    PaddedReads(index);
    NoSlashInDigits(Padded(index));
    var name := ShardName(index);
    assert forall i :: 0 <= i < 6 ==> name[i] == "world-"[i];
    assert forall i :: 6 <= i < |name| ==> name[i] == Padded(index)[i - 6];
  }

  lemma WorldKeyParts(prefix: string, revision: nat, index: nat)
    ensures Below(prefix, WorldKey(prefix, revision, index)) == [Decimal(revision), WORLD, ShardName(index) + ARCHIVE_SUFFIX]
  {
    hide Split, Decimal, ShardName, Padded;
    var last := ShardName(index) + ARCHIVE_SUFFIX;
    DecimalReads(revision);
    NoSlashInDigits(Decimal(revision));
    ShardNameValid(index);
    BelowRoot(prefix, Decimal(revision) + "/" + (WORLD + "/" + last));
    SplitJoined(Decimal(revision), '/', WORLD + "/" + last);
    SplitJoined(WORLD, '/', last);
    SinglePart(Decimal(revision), '/');
    SinglePart(WORLD, '/');
    SinglePart(last, '/');
  }

  /** The keys that are printed are of the form that is checked, and give the revision back. */
  lemma PrintedKeysPass(prefix: string, revision: nat, index: nat)
    ensures RevisionLayerKey(prefix, ConfigKey(prefix, revision), CONFIG_NAME)
    ensures index < SHARD_NUMBERS ==> WorldLayerKey(prefix, WorldKey(prefix, revision, index))
    ensures RevisionOf(prefix, ConfigKey(prefix, revision)) == revision
    ensures RevisionOf(prefix, WorldKey(prefix, revision, index)) == revision
  {
    hide Below, Decimal, Value, ShardName, AllDigits, ValidShardName;
    ConfigKeyParts(prefix, revision);
    WorldKeyParts(prefix, revision, index);
    DecimalReads(revision);
    ShardNameValid(index);
    BelowRoot(prefix, "");
    var last := ShardName(index) + ARCHIVE_SUFFIX;
    assert last[..|last| - |ARCHIVE_SUFFIX|] == ShardName(index);
    assert last[|last| - |ARCHIVE_SUFFIX|..] == ARCHIVE_SUFFIX;
  }

  /** Shards of one revision have keys of their own. */
  lemma WorldKeysDiffer(prefix: string, revision: nat, i: nat, j: nat)
    requires WorldKey(prefix, revision, i) == WorldKey(prefix, revision, j)
    ensures i == j
  {
    hide Below, Decimal, Padded, Value;
    WorldKeyParts(prefix, revision, i);
    WorldKeyParts(prefix, revision, j);
    PaddedReads(i);
    PaddedReads(j);
    var a, b := ShardName(i) + ARCHIVE_SUFFIX, ShardName(j) + ARCHIVE_SUFFIX;
    assert a == b by {
      assert [Decimal(revision), WORLD, a][2] == [Decimal(revision), WORLD, b][2];
    }
    assert a[6..|a| - |ARCHIVE_SUFFIX|] == Padded(i) && b[6..|b| - |ARCHIVE_SUFFIX|] == Padded(j);
  }

  /** How the keys of a service look. */
  lemma KeysSpelled(prefix: string, sha: string, revision: nat, index: nat)
    ensures ContentKey(prefix, sha) == prefix + "/content/" + sha + ".tar.zst"
    ensures ConfigKey(prefix, revision) == prefix + "/revisions/" + Decimal(revision) + "/config.tar.zst"
    ensures WorldKey(prefix, revision, index) ==
      prefix + "/revisions/" + Decimal(revision) + "/world/world-" + Padded(index) + ".tar.zst"
  {
    hide Decimal, Padded;
    var root, r := prefix + "/revisions/", Decimal(revision);
    assert root + (r + "/" + CONFIG_NAME) == root + r + "/config.tar.zst";
    assert root + (r + "/" + (WORLD + "/" + ("world-" + Padded(index) + ARCHIVE_SUFFIX))) ==
      root + r + "/world/world-" + Padded(index) + ".tar.zst";
  }

  /** Latin letters, digits, a dot, a line below or a dash, by their codes. */
  predicate NameCode(c: int)
  {
    97 <= c <= 122 || 65 <= c <= 90 || 48 <= c <= 57 || c == 46 || c == 95 || c == 45
  }

  lemma ShardCharacters(c: char)
    ensures ShardCharacter(c) <==> NameCode(c as int)
    ensures IsDigit(c) <==> 48 <= c as int <= 57
  {
  }

  /** A key that is accepted for a shard, taken apart. */
  ghost predicate ShardKeyOf(prefix: string, key: string, revision: string, name: string)
  {
    && key == prefix + "/revisions/" + revision + "/world/" + name + ".tar.zst"
    && revision != "" && (forall i :: 0 <= i < |revision| ==> 48 <= revision[i] as int <= 57)
    && 0 < |name| <= 128 && (forall i :: 0 <= i < |name| ==> NameCode(name[i] as int))
  }

  /** The keys that are accepted for shards are exactly those with a number and a plain name in these places. */
  lemma WorldLayerKeyExactly(prefix: string, key: string)
    ensures WorldLayerKey(prefix, key) <==> exists revision, name :: ShardKeyOf(prefix, key, revision, name)
  {
    hide WorldLayerKey, ShardKeyOf;
    if WorldLayerKey(prefix, key) {
      WorldKeyApart(prefix, key);
    }
    if revision, name :| ShardKeyOf(prefix, key, revision, name) {
      WorldKeyTogether(prefix, key, revision, name);
    }
  }

  lemma JoinThree(s: string, a: string, b: string, c: string)
    requires Split(s, '/') == [a, b, c]
    ensures s == a + "/" + b + "/" + c
  {
    hide Split;
    JoinParts(s);
    assert [a, b, c][1..] == [b, c] && [b, c][1..] == [c];
    assert JoinedBySlash([c]) == c;
    assert JoinedBySlash([b, c]) == b + "/" + c;
    assert JoinedBySlash([a, b, c]) == a + "/" + (b + "/" + c);
  }

  function JoinedBySlash(parts: seq<string>): string
  {
    if |parts| == 0 then "" else if |parts| == 1 then parts[0] else parts[0] + "/" + JoinedBySlash(parts[1..])
  }

  lemma {:induction false} JoinParts(s: string)
    ensures JoinedBySlash(Split(s, '/')) == s
  {
    if s != "" {
      JoinParts(s[1..]);
      var rest := Split(s[1..], '/');
      if s[0] == '/' {
        assert Split(s, '/') == [""] + rest && Split(s, '/')[1..] == rest;
      } else {
        assert Split(s, '/') == [[s[0]] + rest[0]] + rest[1..];
        assert Split(s, '/')[1..] == rest[1..];
      }
      assert s == [s[0]] + s[1..];
    }
  }

  lemma WorldKeyApart(prefix: string, key: string)
    requires WorldLayerKey(prefix, key)
    ensures exists revision, name :: ShardKeyOf(prefix, key, revision, name)
  {
    hide Split;
    var parts := Below(prefix, key);
    var root := RevisionRoot(prefix);
    var rest := key[|root|..];
    JoinThree(rest, parts[0], parts[1], parts[2]);
    var name := parts[2][..|parts[2]| - |ARCHIVE_SUFFIX|];
    assert parts[2] == name + ".tar.zst";
    assert key == root + rest;
    KeyTogether(prefix, parts[0], name);
    assert ShardKeyOf(prefix, key, parts[0], name);
  }

  lemma KeyTogether(prefix: string, revision: string, name: string)
    ensures RevisionRoot(prefix) + (revision + "/" + WORLD + "/" + (name + ".tar.zst")) ==
      prefix + "/revisions/" + revision + "/world/" + name + ".tar.zst"
  {
    assert "/" + WORLD + "/" == "/world/";
    assert revision + "/" + WORLD + "/" == revision + "/world/";
  }

  lemma WorldKeyTogether(prefix: string, key: string, revision: string, name: string)
    requires ShardKeyOf(prefix, key, revision, name)
    ensures WorldLayerKey(prefix, key)
  {
    hide Split, NameCode;
    var last := name + ".tar.zst";
    var rest := revision + "/" + WORLD + "/" + last;
    KeyTogether(prefix, revision, name);
    assert key == RevisionRoot(prefix) + rest;
    BelowRoot(prefix, rest);
    assert '/' !in revision;
    assert '/' !in last by { NoSlashInName(name); }
    SplitJoined(revision, '/', WORLD + "/" + last);
    assert rest == revision + "/" + (WORLD + "/" + last);
    SplitJoined(WORLD, '/', last);
    SinglePart(revision, '/');
    SinglePart(WORLD, '/');
    SinglePart(last, '/');
    assert last[..|last| - |ARCHIVE_SUFFIX|] == name;
    assert last[|last| - |ARCHIVE_SUFFIX|..] == ARCHIVE_SUFFIX;
    forall i | 0 <= i < |name| ensures ShardCharacter(name[i]) {
      ShardCharacters(name[i]);
    }
  }

  lemma NoSlashInName(name: string)
    requires forall i :: 0 <= i < |name| ==> NameCode(name[i] as int)
    ensures '/' !in name + ".tar.zst"
  {
    assert '/' !in ".tar.zst";
  }

  // ---------------------------------------------------------------- which keys contain a mark

  /** A key below a prefix contains a mark that is not in its own parts exactly if the prefix does. */
  lemma MarkInPrefix(prefix: string, rest: string, part: string)
    requires '/' !in part
    requires forall k :: 0 <= k < |Split(rest, '/')| - 1 ==> Split(rest, '/')[k] != part
    ensures Contains(prefix + "/" + rest, "/" + part + "/") <==> Contains(prefix + "/", "/" + part + "/")
  {
    hide Split, Contains;
    var key, base := prefix + "/" + rest, prefix + "/";
    ContainsByParts(key, part);
    ContainsByParts(base, part);
    SplitJoined(prefix, '/', rest);
    SplitJoined(prefix, '/', "");
    assert prefix + "/" + "" == base;
    SinglePart("", '/');
    var front, parts := Split(prefix, '/'), Split(key, '/');
    assert Split(base, '/') == front + [""];
    assert forall j :: 0 <= j < |Split(rest, '/')| ==> parts[|front| + j] == Split(rest, '/')[j];
    if HasInnerPart(key, part) {
      var k :| 0 < k < |parts| - 1 && parts[k] == part;
      assert k < |front| by {
        assert Split(rest, '/') == parts[|front|..];
      }
      assert Split(base, '/')[k] == part;
    }
    if HasInnerPart(base, part) {
      var k :| 0 < k < |Split(base, '/')| - 1 && Split(base, '/')[k] == part;
      assert parts[k] == part;
    }
  }
}
