/** Workspace manifests, what makes one acceptable, and the loops that check it. */
module Manifests {
  import opened Bytes
  import opened Options
  import opened Layers
  import opened Keys
  import opened Text

  const GIB: int := 1024 * 1024 * 1024
  const MAX_WORKSPACE_BYTES: int := 64 * GIB
  const MAX_BLOB_BYTES: int := 4 * GIB
  const MAX_ARCHIVE_ENTRIES: int := 100_000
  const MAX_DESCRIPTORS: int := 130

  datatype Blob = Blob(key: string, sha256: string, compressedSize: int, logicalSize: int, paths: seq<Path>)

  datatype Manifest = Manifest(
    schemaVersion: int, serviceId: string, assignmentId: string, revision: int, logicalSize: int,
    manifestHash: string, aggregateSha256: string, content: Option<Blob>, config: Option<Blob>, world: seq<Blob>)

  datatype Command = Command(
    accountId: string, serviceId: string, assignmentId: string, objectPrefix: string, revision: int,
    workspaceGiB: int, runtimeContent: Option<Blob>)

  /** What an archive is packed into and read from, its SHA-256, and the digest over a list of descriptors. */
  datatype Library = Library(
    encode: seq<File> -> Bytes, decode: Bytes -> Option<seq<File>>, sha256: Bytes -> string,
    aggregate: seq<Blob> -> string)

  // ---------------------------------------------------------------- single values

  predicate HexDigit(c: char)
  {
    IsDigit(c) || 'a' <= c <= 'f'
  }

  predicate ValidSha256(s: string)
  {
    |s| == 64 && forall i :: 0 <= i < |s| ==> HexDigit(s[i])
  }

  /** A digest is written in 64 lower-case hexadecimal digits. */
  lemma DigestExactly(s: string)
    ensures ValidSha256(s) <==> |s| == 64 && forall c :: c in s ==> c in "0123456789abcdef"
  {
    forall c ensures HexDigit(c) <==> c in "0123456789abcdef" {
      HexDigitExactly(c);
    }
    if forall c :: c in s ==> c in "0123456789abcdef" {
      forall i | 0 <= i < |s| ensures HexDigit(s[i]) {
        assert s[i] in s;
      }
    }
  }

  lemma HexDigitExactly(c: char)
    ensures HexDigit(c) <==> c in "0123456789abcdef"
  {
    var all := "0123456789abcdef";
    if '0' <= c <= '9' {
      assert all[c as int - '0' as int] == c;
    } else if 'a' <= c <= 'f' {
      assert all[c as int - 'a' as int + 10] == c;
    }
  }

  predicate ValidPart(part: string)
  {
    part != "" && part != "." && part != ".."
  }

  predicate ValidWorkspacePath(path: Path)
  {
    && path != "" && |path| <= 1024
    && path[0] != '/'
    && '\\' !in path
    && forall i :: 0 <= i < |Split(path, '/')| ==> ValidPart(Split(path, '/')[i])
  }

  /** A valid path is short, relative and without a backslash, and leads exactly where it says. */
  lemma ValidPathExactly(path: Path)
    ensures ValidWorkspacePath(path) <==>
      && 0 < |path| <= 1024 && path[0] != '/' && '\\' !in path
      && Resolve(Split(path, '/'), '.') == Ok(Split(path, '/'))
  {
    ResolvesToItself(Split(path, '/'), '.');
  }

  function TrimSlash(s: string): string
  {
    if HasSuffix(s, "/") then s[..|s| - 1] else s
  }

  function WorkspacePrefix(c: Command): Result<string>
  {
    var prefix := TrimSlash(c.objectPrefix);
    if prefix != "shared-hosting/" + c.accountId + "/" + c.serviceId || c.accountId == "" || c.serviceId == "" then Failed
    else Ok(prefix)
  }

  function WorkspaceLimit(c: Command): int
  {
    c.workspaceGiB * GIB
  }

  predicate ValidDescriptor(b: Blob)
  {
    && b.key != "" && ValidSha256(b.sha256)
    && 0 < b.compressedSize <= MAX_BLOB_BYTES
    && 0 <= b.logicalSize <= MAX_WORKSPACE_BYTES
    && |b.paths| <= MAX_ARCHIVE_ENTRIES
  }

  const RUNTIME_FILE := ".xmcl/runtime.json"
  const LAUNCH_FILE := ".xmcl/launch.sh"

  predicate RuntimeContent(prefix: string, b: Blob)
  {
    && ValidDescriptor(b)
    && prefix + COMPILER_MARK <= b.key
    && HasSuffix(b.key, ARCHIVE_SUFFIX)
    && (forall i :: 0 <= i < |b.paths| ==> !IsWorldPath(b.paths[i]))
    && RUNTIME_FILE in b.paths && LAUNCH_FILE in b.paths
  }

  predicate IsCompilerContent(b: Blob)
  {
    Contains(b.key, COMPILER_MARK) && HasSuffix(b.key, ARCHIVE_SUFFIX)
  }

  // ---------------------------------------------------------------- lists of descriptors

  function Descriptors(m: Manifest): seq<Blob>
  {
    (if m.content.Some? then [m.content.value] else []) + (if m.config.Some? then [m.config.value] else []) + m.world
  }

  function LogicalSum(ds: seq<Blob>): int
  {
    if ds == [] then 0 else LogicalSum(ds[..|ds| - 1]) + ds[|ds| - 1].logicalSize
  }

  function CompressedSum(ds: seq<Blob>): int
  {
    if ds == [] then 0 else CompressedSum(ds[..|ds| - 1]) + ds[|ds| - 1].compressedSize
  }

  function PathSet(paths: seq<Path>): set<Path>
  {
    set p | p in paths
  }

  function AllPaths(ds: seq<Blob>): set<Path>
  {
    if ds == [] then {} else AllPaths(ds[..|ds| - 1]) + PathSet(ds[|ds| - 1].paths)
  }

  predicate ValidPaths(paths: seq<Path>)
  {
    && (forall i :: 0 <= i < |paths| ==> ValidWorkspacePath(paths[i]))
    && (forall i, j :: 0 <= i < j < |paths| ==> paths[i] != paths[j])
  }

  /** The one kind of path that may be in two archives: a config file over the same file of the content. */
  predicate Overlays(m: Manifest, b: Blob, path: Path)
  {
    && m.config.Some? && b.key == m.config.value.key
    && IsConfigPath(path)
    && m.content.Some? && path in m.content.value.paths
  }

  ghost predicate KeysDiffer(ds: seq<Blob>)
  {
    forall i, j :: 0 <= i < j < |ds| ==> ds[i].key != ds[j].key
  }

  ghost predicate Meet(a: Blob, b: Blob, path: Path)
  {
    path in a.paths && path in b.paths
  }

  ghost predicate PathsMeetOnlyInOverlay(m: Manifest, ds: seq<Blob>)
  {
    forall i, j, path :: 0 <= i < j < |ds| && Meet(ds[i], ds[j], path) ==> Overlays(m, ds[j], path)
  }

  ghost predicate EachValid(ds: seq<Blob>)
  {
    forall i :: 0 <= i < |ds| ==> ValidDescriptor(ds[i]) && ValidPaths(ds[i].paths)
  }

  ghost predicate Listed(m: Manifest, ds: seq<Blob>)
  {
    EachValid(ds) && KeysDiffer(ds) && PathsMeetOnlyInOverlay(m, ds)
  }

  // ---------------------------------------------------------------- what is accepted

  predicate Headed(m: Manifest, c: Command)
  {
    && m.schemaVersion == 2 && m.serviceId == c.serviceId && m.revision == c.revision && m.assignmentId != ""
    && ValidSha256(m.manifestHash) && ValidSha256(m.aggregateSha256) && m.manifestHash == m.aggregateSha256
    && m.content.Some?
    && 0 <= m.logicalSize <= WorkspaceLimit(c)
  }

  predicate AllIn(paths: seq<Path>, layer: Path -> bool)
  {
    forall i :: 0 <= i < |paths| ==> layer(paths[i])
  }

  predicate ContentLayer(prefix: string, b: Blob)
  {
    if b.key == ContentKey(prefix, b.sha256) then AllIn(b.paths, IsContentPath) else RuntimeContent(prefix, b)
  }

  predicate ConfigLayer(prefix: string, b: Blob)
  {
    RevisionLayerKey(prefix, b.key, CONFIG_NAME) && AllIn(b.paths, IsConfigPath)
  }

  predicate WorldLayer(prefix: string, b: Blob)
  {
    WorldLayerKey(prefix, b.key) && AllIn(b.paths, IsWorldPath)
  }

  predicate Layered(prefix: string, m: Manifest)
  {
    && m.content.Some? && ContentLayer(prefix, m.content.value)
    && (m.config.Some? ==> ConfigLayer(prefix, m.config.value))
    && (forall i :: 0 <= i < |m.world| ==> WorldLayer(prefix, m.world[i]))
  }

  ghost predicate Accepted(lib: Library, m: Manifest, c: Command)
  {
    var ds := Descriptors(m);
    && Headed(m, c)
    && WorkspacePrefix(c).Ok?
    && 0 < |ds| <= MAX_DESCRIPTORS && lib.aggregate(ds) == m.aggregateSha256
    && Listed(m, ds)
    && LogicalSum(ds) == m.logicalSize && CompressedSum(ds) <= MAX_WORKSPACE_BYTES && |AllPaths(ds)| <= MAX_ARCHIVE_ENTRIES
    && Layered(WorkspacePrefix(c).value, m)
  }

  // ---------------------------------------------------------------- the loops of `validateManifest`

  ghost predicate MayJoin(m: Manifest, b: Blob, paths: set<Path>)
  {
    forall path :: path in b.paths && path in paths ==> Overlays(m, b, path)
  }

  lemma {:induction false} AllPathsHold(ds: seq<Blob>, path: Path)
    ensures path in AllPaths(ds) <==> exists i :: 0 <= i < |ds| && path in ds[i].paths
  {
    if ds != [] {
      var most, last := ds[..|ds| - 1], ds[|ds| - 1];
      AllPathsHold(most, path);
      if path in AllPaths(most) {
        var i :| 0 <= i < |most| && path in most[i].paths;
        assert path in ds[i].paths;
      }
      if i :| 0 <= i < |ds| && path in ds[i].paths {
        assert i < |most| ==> path in most[i].paths;
      }
    }
  }

  /** One descriptor more. */
  lemma ListedStep(m: Manifest, ds: seq<Blob>, k: nat)
    requires k < |ds|
    ensures Listed(m, ds[..k + 1]) <==>
        && Listed(m, ds[..k])
        && ValidDescriptor(ds[k]) && ValidPaths(ds[k].paths)
        && (forall i :: 0 <= i < k ==> ds[i].key != ds[k].key)
        && MayJoin(m, ds[k], AllPaths(ds[..k]))
  {
    hide ValidDescriptor, ValidPaths, Overlays;
    var now, was := ds[..k + 1], ds[..k];
    forall path ensures path in AllPaths(was) <==> exists i :: 0 <= i < k && path in was[i].paths {
      AllPathsHold(was, path);
    }
    assert forall i :: 0 <= i < k ==> now[i] == was[i];
    if Listed(m, now) {
      assert MayJoin(m, ds[k], AllPaths(was)) by {
        forall path | path in ds[k].paths && path in AllPaths(was) ensures Overlays(m, ds[k], path) {
          var i :| 0 <= i < k && path in was[i].paths;
          assert Meet(now[i], now[k], path);
        }
      }
      assert EachValid(was) && KeysDiffer(was) && PathsMeetOnlyInOverlay(m, was);
      assert now[k] == ds[k];
    }
    if Listed(m, was) && MayJoin(m, ds[k], AllPaths(was)) {
      forall i, j, path | 0 <= i < j < |now| && Meet(now[i], now[j], path) ensures Overlays(m, now[j], path) {
        if j == k {
          assert path in was[i].paths;
        } else {
          assert Meet(was[i], was[j], path);
        }
      }
    }
  }

  lemma {:induction false} ListedPrefix(m: Manifest, ds: seq<Blob>, k: nat)
    requires k <= |ds| && Listed(m, ds)
    ensures Listed(m, ds[..k])
  {
    assert forall i :: 0 <= i < k ==> ds[..k][i] == ds[i];
  }

  /** The inner loop: every path of one descriptor against itself and against the paths before it. */
  method CheckPaths(m: Manifest, b: Blob, before: set<Path>) returns (ok: bool, paths: set<Path>)
    ensures ok <==> ValidPaths(b.paths) && MayJoin(m, b, before)
    ensures ok ==> paths == before + PathSet(b.paths)
  {
    hide ValidWorkspacePath, IsConfigPath;
    paths := before;
    var own: set<Path> := {};
    for k := 0 to |b.paths|
      invariant ValidPaths(b.paths[..k])
      invariant forall i :: 0 <= i < k && b.paths[i] in before ==> Overlays(m, b, b.paths[i])
      invariant own == PathSet(b.paths[..k]) && paths == before + own
    {
      var path := b.paths[k];
      if !ValidWorkspacePath(path) {
        return false, paths;
      }
      if path in own {
        assert exists i :: 0 <= i < k && b.paths[i] == path;
        return false, paths;
      }
      own := own + {path};
      var duplicate := path in paths;
      var overlay := duplicate && m.config.Some? && b.key == m.config.value.key && IsConfigPath(path) &&
        m.content.Some? && path in m.content.value.paths;
      if duplicate && !overlay {
        assert path in before;
        return false, paths;
      }
      paths := paths + {path};
      assert b.paths[..k + 1] == b.paths[..k] + [path];
    }
    assert b.paths[..|b.paths|] == b.paths;
    ok := true;
  }

  ghost predicate Checked(
    m: Manifest, ds: seq<Blob>, keys: set<string>, paths: set<Path>, logical: int, compressed: int)
  {
    && Listed(m, ds)
    && (forall key :: key in keys <==> exists i :: 0 <= i < |ds| && ds[i].key == key)
    && paths == AllPaths(ds) && logical == LogicalSum(ds) && compressed == CompressedSum(ds)
  }

  lemma CheckedStep(
    m: Manifest, ds: seq<Blob>, k: nat, keys: set<string>, paths: set<Path>, logical: int, compressed: int)
    requires k < |ds| && Checked(m, ds[..k], keys, paths, logical, compressed)
    requires ValidDescriptor(ds[k]) && ds[k].key !in keys && ValidPaths(ds[k].paths) && MayJoin(m, ds[k], paths)
    ensures Checked(m, ds[..k + 1], keys + {ds[k].key}, paths + PathSet(ds[k].paths),
                    logical + ds[k].logicalSize, compressed + ds[k].compressedSize)
  {
    hide ValidDescriptor, ValidPaths, MayJoin;
    var now, was := ds[..k + 1], ds[..k];
    assert now[..k] == was && now[k] == ds[k];
    assert forall i :: 0 <= i < k ==> ds[i].key == was[i].key && was[i].key in keys;
    ListedStep(m, ds, k);
    forall key ensures key in keys + {ds[k].key} <==> exists i :: 0 <= i < |now| && now[i].key == key {
      if key in keys {
        var i :| 0 <= i < |was| && was[i].key == key;
        assert now[i].key == key;
      }
      if i :| 0 <= i < |now| && now[i].key == key {
        assert i < k ==> was[i].key == key;
      }
    }
  }

  lemma CheckedRefuses(
    m: Manifest, ds: seq<Blob>, k: nat, keys: set<string>, paths: set<Path>, logical: int, compressed: int)
    requires k < |ds| && Checked(m, ds[..k], keys, paths, logical, compressed)
    requires !ValidDescriptor(ds[k]) || ds[k].key in keys || !ValidPaths(ds[k].paths) || !MayJoin(m, ds[k], paths)
    ensures !Listed(m, ds)
  {
    hide ValidDescriptor, ValidPaths, MayJoin, Listed;
    ListedStep(m, ds, k);
    if ds[k].key in keys {
      var i :| 0 <= i < |ds[..k]| && ds[..k][i].key == ds[k].key;
      assert ds[i].key == ds[k].key;
    }
    if Listed(m, ds) {
      ListedPrefix(m, ds, k + 1);
    }
  }

  method CheckDescriptors(
    m: Manifest, ds: seq<Blob>) returns (ok: bool, paths: set<Path>, logical: int, compressed: int)
    ensures ok <==> Listed(m, ds)
    ensures ok ==> paths == AllPaths(ds) && logical == LogicalSum(ds) && compressed == CompressedSum(ds)
  {
    hide ValidPaths, MayJoin, Listed, AllPaths, LogicalSum, CompressedSum, ValidSha256;
    var keys: set<string> := {};
    paths, logical, compressed := {}, 0, 0;
    NothingChecked(m, ds);
    for k := 0 to |ds|
      invariant Checked(m, ds[..k], keys, paths, logical, compressed)
    {
      var b := ds[k];
      if b.key == "" || !ValidSha256(b.sha256) || b.compressedSize <= 0 || b.compressedSize > 4294967296 ||
         b.logicalSize < 0 || b.logicalSize > 68719476736 || |b.paths| > 100000 || b.key in keys {
        CheckedRefuses(m, ds, k, keys, paths, logical, compressed);
        return false, paths, logical, compressed;
      }
      var fine, more := CheckPaths(m, b, paths);
      if !fine {
        CheckedRefuses(m, ds, k, keys, paths, logical, compressed);
        return false, paths, logical, compressed;
      }
      CheckedStep(m, ds, k, keys, paths, logical, compressed);
      keys := keys + {b.key};
      paths, logical, compressed := more, logical + b.logicalSize, compressed + b.compressedSize;
    }
    assert ds[..|ds|] == ds;
    ok := true;
  }

  lemma NothingChecked(m: Manifest, ds: seq<Blob>)
    ensures Checked(m, ds[..0], {}, {}, 0, 0)
  {
  }

  method CheckAllPaths(paths: seq<Path>, layer: Path -> bool) returns (ok: bool)
    ensures ok <==> AllIn(paths, layer)
  {
    for k := 0 to |paths|
      invariant AllIn(paths[..k], layer)
    {
      if !layer(paths[k]) {
        return false;
      }
      assert paths[..k + 1] == paths[..k] + [paths[k]];
    }
    assert paths[..|paths|] == paths;
    return true;
  }

  /** `validateRuntimeContent`. */
  method CheckRuntimeContent(prefix: string, b: Blob) returns (ok: bool)
    ensures ok <==> RuntimeContent(prefix, b)
  {
    hide ValidSha256, IsWorldPath, HasSuffix;
    if b.key == "" || !ValidSha256(b.sha256) || b.compressedSize <= 0 || b.compressedSize > 4294967296 ||
       b.logicalSize < 0 || b.logicalSize > 68719476736 || |b.paths| > 100000 {
      return false;
    }
    var apart := CheckAllPaths(b.paths, (path: Path) => !IsWorldPath(path));
    return prefix + "/compiler-content/" <= b.key && HasSuffix(b.key, ".tar.zst") && apart &&
      ".xmcl/runtime.json" in b.paths && ".xmcl/launch.sh" in b.paths;
  }

  /** The last part of `validateManifest`: each archive lies, and holds paths, in its own layer. */
  method CheckLayers(prefix: string, m: Manifest) returns (ok: bool)
    requires m.content.Some?
    ensures ok <==> Layered(prefix, m)
  {
    hide RuntimeContent, AllIn, RevisionLayerKey, WorldLayerKey;
    var content := m.content.value;
    if content.key == prefix + "/content/" + content.sha256 + ".tar.zst" {
      ok := CheckAllPaths(content.paths, (path: Path) => !IsWorldPath(path) && !IsConfigPath(path));
      SameLayer(content.paths);
    } else {
      ok := CheckRuntimeContent(prefix, content);
    }
    if !ok {
      return false;
    }
    if m.config.Some? {
      ok := CheckAllPaths(m.config.value.paths, IsConfigPath);
      if !ok || !RevisionLayerKey(prefix, m.config.value.key, "config.tar.zst") {
        return false;
      }
    }
    for k := 0 to |m.world|
      invariant forall i :: 0 <= i < k ==> WorldLayer(prefix, m.world[i])
    {
      ok := CheckAllPaths(m.world[k].paths, IsWorldPath);
      if !ok || !WorldLayerKey(prefix, m.world[k].key) {
        return false;
      }
    }
    return true;
  }

  lemma SameLayer(paths: seq<Path>)
    ensures AllIn(paths, (path: Path) => !IsWorldPath(path) && !IsConfigPath(path)) <==> AllIn(paths, IsContentPath)
  {
    hide IsWorldPath, IsConfigPath;
  }

  method ValidateManifest(lib: Library, m: Manifest, c: Command) returns (ok: bool)
    ensures ok <==> Accepted(lib, m, c)
  {
    hide ValidSha256, Listed, Layered, AllPaths, LogicalSum, CompressedSum;
    if m.schemaVersion != 2 || m.serviceId != c.serviceId || m.revision != c.revision || m.assignmentId == "" ||
       !ValidSha256(m.manifestHash) || !ValidSha256(m.aggregateSha256) || m.manifestHash != m.aggregateSha256 ||
       m.content.None? || m.logicalSize < 0 || m.logicalSize > c.workspaceGiB * 1073741824 {
      return false;
    }
    var prefix := if HasSuffix(c.objectPrefix, "/") then c.objectPrefix[..|c.objectPrefix| - 1] else c.objectPrefix;
    if prefix != "shared-hosting/" + c.accountId + "/" + c.serviceId || c.accountId == "" || c.serviceId == "" {
      return false;
    }
    var ds := [m.content.value] + (if m.config.Some? then [m.config.value] else []) + m.world;
    if |ds| > 130 || lib.aggregate(ds) != m.aggregateSha256 {
      return false;
    }
    var listed, paths, logical, compressed := CheckDescriptors(m, ds);
    if !listed {
      return false;
    }
    if logical != m.logicalSize || compressed > 68719476736 || |paths| > 100000 {
      return false;
    }
    ok := CheckLayers(prefix, m);
  }
}
