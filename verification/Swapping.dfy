/**
 What a node files after it has put the selected runtime in place of the restored content, and after a first start from
 the compiler's content alone: the process that starts next has to take both up again.
 */
module Swapping {
  import opened Bytes
  import opened Options
  import opened Layers
  import opened Keys
  import opened Manifests
  import opened Drafts
  import opened Acceptance
  import opened History

  /** A first start leaves a manifest that the next process takes up. */
  lemma FirstStartReloads(lib: Library, prefix: string, c: Command, runtime: Blob)
    requires WorkspacePrefix(c) == Ok(prefix) && c.assignmentId != ""
    requires RuntimeContent(prefix, runtime)
    ensures var m := FirstManifest(lib, c, runtime);
      RestoredValid(lib, m, c) && Descriptors(m) == [runtime] && m.revision == 0 && m.logicalSize == runtime.logicalSize
  {
    hide ValidDescriptor, Contains, HasSuffix, IsWorldPath, Accepted;
    CompilerMarkFound(prefix, runtime.key);
    assert Descriptors(FirstManifest(lib, c, runtime)) == [runtime];
  }

  /** Everything but the content is listed as before, or the config has gone. */
  lemma SwapKeeps(lib: Library, m: Manifest, runtime: Blob, i: nat)
    requires m.content.Some?
    ensures var ds, ds' := Descriptors(m), Descriptors(WithRuntime(lib, m, Some(runtime)));
      && 0 < |ds'| <= |ds| && ds'[0] == runtime
      && (0 < i < |ds'| ==> ds'[i] == ds[|ds| - |ds'| + i])
      && (1 < i < |ds'| ==> ds'[i] in m.world)
      && (i == 1 < |ds'| ==> ds'[1] in m.world || (m.config == Some(ds'[1]) == WithRuntime(lib, m, Some(runtime)).config))
  {
    hide SameArchive, LogicalSum;
    var n := WithRuntime(lib, m, Some(runtime));
    var ds' := Descriptors(n);
    var k := |ds'| - |m.world|;
    assert i >= k && i < |ds'| ==> ds'[i] == m.world[i - k];
  }

  /** Whatever lies below the revisions is not the compiler's. */
  lemma SwapKeysApart(prefix: string, runtime: Blob, b: Blob)
    requires RuntimeContent(prefix, runtime) && RevisionRoot(prefix) <= b.key
    ensures runtime.key != b.key
  {
    hide ValidDescriptor, HasSuffix, IsWorldPath;
    var mark, root := prefix + COMPILER_MARK, RevisionRoot(prefix);
    assert mark[|prefix| + 1] == 'c' && root[|prefix| + 1] == 'r';
    assert runtime.key[|prefix| + 1] == mark[|prefix| + 1] && b.key[|prefix| + 1] == root[|prefix| + 1];
  }

  /** The layer of a descriptor after the first. */
  lemma LayerOf(lib: Library, prefix: string, m: Manifest, runtime: Blob, i: nat)
    requires Layered(prefix, m)
    requires 0 < i < |Descriptors(WithRuntime(lib, m, Some(runtime)))|
    ensures var b := Descriptors(WithRuntime(lib, m, Some(runtime)))[i];
      && RevisionRoot(prefix) <= b.key
      && (WorldLayer(prefix, b) || (i == 1 && ConfigLayer(prefix, b) && WithRuntime(lib, m, Some(runtime)).config == Some(b)))
  {
    hide ContentLayer, AllIn, WithRuntime, Descriptors, Below;
    SwapKeeps(lib, m, runtime, i);
  }

  /** Config and shards share no path. */
  lemma OthersApart(m: Manifest, i: nat, j: nat, path: Path)
    requires m.content.Some? && Listed(m, Descriptors(m)) && 0 < i < j < |Descriptors(m)|
    ensures !Meet(Descriptors(m)[i], Descriptors(m)[j], path)
  {
    hide Descriptors, ValidDescriptor, ValidPaths, IsConfigPath, Meet;
    var ds := Descriptors(m);
    if m.config.Some? {
      ConfigIsSecond(m);
      assert ds[1].key != ds[j].key;
    }
    assert !Overlays(m, ds[j], path);
    assert PathsMeetOnlyInOverlay(m, ds);
  }

  lemma SwapMeets(lib: Library, prefix: string, m: Manifest, runtime: Blob, i: nat, j: nat, path: Path)
    requires Layered(prefix, m) && Listed(m, Descriptors(m)) && RuntimeContent(prefix, runtime)
    requires i < j < |Descriptors(WithRuntime(lib, m, Some(runtime)))|
    requires Meet(Descriptors(WithRuntime(lib, m, Some(runtime)))[i], Descriptors(WithRuntime(lib, m, Some(runtime)))[j], path)
    ensures Overlays(WithRuntime(lib, m, Some(runtime)), Descriptors(WithRuntime(lib, m, Some(runtime)))[j], path)
  {
    hide WithRuntime, Descriptors, RevisionLayerKey, WorldLayerKey, IsWorldPath, IsConfigPath, ContentLayer, ValidDescriptor, ValidPaths;
    var n := WithRuntime(lib, m, Some(runtime));
    var ds, ds' := Descriptors(m), Descriptors(n);
    SwapKeeps(lib, m, runtime, i);
    SwapKeeps(lib, m, runtime, j);
    LayerOf(lib, prefix, m, runtime, j);
    if i == 0 {
      RuntimeKept(lib, m, runtime);
    } else {
      var d := |ds| - |ds'|;
      OthersApart(m, d + i, d + j, path);
      assert false;
    }
  }

  lemma RuntimeKept(lib: Library, m: Manifest, runtime: Blob)
    ensures WithRuntime(lib, m, Some(runtime)).content == Some(runtime)
  {
  }

  lemma ConfigIsSecond(m: Manifest)
    requires m.content.Some? && m.config.Some?
    ensures |Descriptors(m)| > 1 && Descriptors(m)[1] == m.config.value
  {
  }

  lemma SwapListed(lib: Library, prefix: string, m: Manifest, runtime: Blob)
    requires Layered(prefix, m) && Listed(m, Descriptors(m))
    requires RuntimeContent(prefix, runtime) && ValidPaths(runtime.paths)
    ensures var n := WithRuntime(lib, m, Some(runtime)); Listed(n, Descriptors(n))
  {
    hide WithRuntime, Descriptors, Layered, ValidPaths, ValidDescriptor, Overlays, Meet;
    var n := WithRuntime(lib, m, Some(runtime));
    var ds, ds' := Descriptors(m), Descriptors(n);
    LayeredHas(prefix, m);
    forall i | 0 <= i < |ds'| ensures ValidDescriptor(ds'[i]) && ValidPaths(ds'[i].paths) {
      SwapKeeps(lib, m, runtime, i);
    }
    forall i, j | 0 <= i < j < |ds'| ensures ds'[i].key != ds'[j].key {
      SwapKeeps(lib, m, runtime, i);
      SwapKeeps(lib, m, runtime, j);
      LayerOf(lib, prefix, m, runtime, j);
      if i == 0 {
        SwapKeysApart(prefix, runtime, ds'[j]);
      }
    }
    forall i, j, path | 0 <= i < j < |ds'| && Meet(ds'[i], ds'[j], path) ensures Overlays(n, ds'[j], path) {
      SwapMeets(lib, prefix, m, runtime, i, j, path);
    }
  }

  lemma LayeredHas(prefix: string, m: Manifest)
    requires Layered(prefix, m)
    ensures m.content.Some?
  {
  }

  lemma SwapLayered(lib: Library, prefix: string, m: Manifest, runtime: Blob)
    requires Layered(prefix, m) && RuntimeContent(prefix, runtime)
    ensures Layered(prefix, WithRuntime(lib, m, Some(runtime)))
  {
    hide RuntimeContent, ConfigLayer, WorldLayer, SameArchive, AllIn, LogicalSum, Descriptors;
    RuntimeKeyApart(prefix, runtime);
  }

  lemma RuntimeKeyApart(prefix: string, runtime: Blob)
    requires RuntimeContent(prefix, runtime)
    ensures runtime.key != ContentKey(prefix, runtime.sha256)
  {
    hide ValidDescriptor, HasSuffix, IsWorldPath;
    var mark, key := prefix + COMPILER_MARK, prefix + "/content/" + runtime.sha256 + ARCHIVE_SUFFIX;
    assert mark[|prefix| + 3] == 'm' && runtime.key[|prefix| + 3] == mark[|prefix| + 3];
    assert key[|prefix| + 3] == "/content/"[3];
  }

  /**
   What a restore files after it has put the selected runtime in place is accepted by the next process if and only if the
   three limits still hold; no key and no path of the runtime can spoil it.
   */
  lemma SwapAcceptedExactly(lib: Library, prefix: string, m: Manifest, c: Command, runtime: Blob)
    requires Digests(lib) && WorkspacePrefix(c) == Ok(prefix)
    requires Accepted(lib, m, c.(revision := m.revision))
    requires RuntimeContent(prefix, runtime) && ValidPaths(runtime.paths)
    ensures var n := WithRuntime(lib, m, Some(runtime)); var ds := Descriptors(n);
      Accepted(lib, n, c.(revision := m.revision)) <==>
        LogicalSum(ds) <= c.workspaceGiB * 1073741824 && CompressedSum(ds) <= 68719476736 && |AllPaths(ds)| <= 100000
  {
    hide Descriptors, Listed, Layered, ValidPaths, RuntimeContent, AllPaths, LogicalSum, CompressedSum, ValidSha256;
    var n := WithRuntime(lib, m, Some(runtime));
    SwapKeeps(lib, m, runtime, 0);
    SwapListed(lib, prefix, m, runtime);
    SwapLayered(lib, prefix, m, runtime);
    assert EachValid(Descriptors(n)) by { ListedEach(n, Descriptors(n)); }
    LogicalSumNotNegative(Descriptors(n));
    SwapHead(lib, m, runtime);
  }

  lemma ListedEach(m: Manifest, ds: seq<Blob>)
    requires Listed(m, ds)
    ensures EachValid(ds)
  {
  }

  /**
   The swapped manifest describes itself and keeps its name and its world. The config stays over the content it was made
   for, that is, over one of the same digest, sizes and paths, and goes with any other.
   */
  lemma SwapHead(lib: Library, m: Manifest, runtime: Blob)
    ensures var n := WithRuntime(lib, m, Some(runtime)); var ds := Descriptors(n);
      && n.logicalSize == LogicalSum(ds) && n.aggregateSha256 == lib.aggregate(ds) == n.manifestHash
      && n.schemaVersion == m.schemaVersion && n.serviceId == m.serviceId && n.assignmentId == m.assignmentId
      && n.revision == m.revision && n.world == m.world && n.content == Some(runtime)
      && n.config == if m.content.Some? && m.content.value.sha256 == runtime.sha256 &&
                        m.content.value.compressedSize == runtime.compressedSize &&
                        m.content.value.logicalSize == runtime.logicalSize && Joined(m.content.value.paths) == Joined(runtime.paths)
                     then m.config else None
  {
    hide Joined, LogicalSum;
    var bare := m.(content := Some(runtime), config := WithRuntime(lib, m, Some(runtime)).config);
    assert Descriptors(WithRuntime(lib, m, Some(runtime))) == Descriptors(bare);
  }
}
