/** A draft and what is read back once it is published: the same manifest exactly if every path in it is text. */
module Rereading {
  import opened Bytes
  import opened Options
  import opened Layers
  import opened Keys
  import opened Manifests
  import opened Drafts
  import opened Acceptance
  import opened WorkspaceRoundTrip
  import opened Json

  // ---------------------------------------------------------------- paths

  /** The names a sync lists are text: those of the files it archives, and those of a content it takes over. */
  ghost predicate TextInputs(c: Command, previous: Manifest, files: seq<File>)
  {
    var kept := TakenOver(c, previous);
    && (kept.Some? ==> TextPaths(kept.value.paths))
    && forall f :: f in files && (kept.Some? ==> !IsContentPath(f.path)) ==> IsText(f.path)
  }

  lemma TextFiles(files: seq<File>)
    ensures TextPaths(PathsOf(files)) <==> forall f :: f in files ==> IsText(f.path)
  {
    hide IsText;
    if TextPaths(PathsOf(files)) {
      forall f | f in files ensures IsText(f.path) {
        var i :| 0 <= i < |files| && files[i] == f;
        assert PathsOf(files)[i] == f.path;
      }
    }
  }

  lemma {:induction false} TextShards(shards: seq<seq<File>>)
    ensures (forall i :: 0 <= i < |shards| ==> TextPaths(PathsOf(shards[i]))) <==> forall f :: f in Flat(shards) ==> IsText(f.path)
  {
    hide IsText, TextPaths, PathsOf;
    if shards != [] {
      var n := |shards| - 1;
      TextShards(shards[..n]);
      TextFiles(shards[n]);
      assert forall i :: 0 <= i < n ==> shards[..n][i] == shards[i];
      assert forall f :: f in Flat(shards) <==> f in Flat(shards[..n]) || f in shards[n];
      if forall f :: f in Flat(shards) ==> IsText(f.path) {
        assert forall i :: 0 <= i < n ==> TextPaths(PathsOf(shards[..n][i]));
      }
    }
  }

  /** What the archives of a draft list. */
  lemma ArchivesListText(
    lib: Library, prefix: string, c: Command, revision: nat, files: seq<File>, previous: Manifest,
    content: Archive, config: seq<Archive>, world: seq<Archive>)
    requires Syncs(lib, prefix, c, revision, files, previous)
    requires BuildContent(lib, prefix, c, Classified(files).content, previous) == Ok(content)
    requires BuildConfig(lib, prefix, revision, Classified(files).config, previous) == Ok(config)
    requires BuildWorld(lib, prefix, revision, Classified(files).world, previous) == Ok(world)
    ensures TextLists(DescriptorsOf([content] + config + world)) <==>
        && TextPaths(content.descriptor.paths)
        && TextPaths(PathsOf(Classified(files).config))
        && (forall i :: 0 <= i < |Classified(files).world| ==> TextPaths(PathsOf(Classified(files).world[i])))
  {
    hide Syncs, Classified, BuildContent, BuildConfig, BuildWorld, TextPaths, PathsOf, Size;
    var l, archives := Classified(files), [content] + config + world;
    var ds := DescriptorsOf(archives);
    ConfigDescribes(lib, prefix, c, revision, files, previous, config);
    WorldAt(lib, prefix, revision, l.world, previous, 0);
    var k := 1 + |config|;
    assert ds[0] == content.descriptor;
    if config == [] {
      NoNames();
    } else {
      assert ds[1] == config[0].descriptor;
    }
    forall i | 0 <= i < |world| ensures ds[k + i].paths == PathsOf(l.world[i]) {
      ShardDescribes(lib, prefix, c, revision, files, previous, world, i);
      assert archives[k + i] == world[i];
    }
    assert |world| == |l.world|;
    if TextLists(ds) {
      forall i | 0 <= i < |l.world| ensures TextPaths(PathsOf(l.world[i])) {
        assert TextPaths(ds[k + i].paths);
      }
    } else {
      var i :| 0 <= i < |ds| && !TextPaths(ds[i].paths);
      if i >= k {
        assert ds[i].paths == PathsOf(l.world[i - k]) by { assert ds[k + (i - k)].paths == PathsOf(l.world[i - k]); }
      }
    }
  }

  lemma NoNames()
    ensures TextPaths(PathsOf([]))
  {
  }

  lemma ContentListsText(
    lib: Library, prefix: string, c: Command, revision: nat, files: seq<File>, previous: Manifest, content: Archive)
    requires Syncs(lib, prefix, c, revision, files, previous)
    requires BuildContent(lib, prefix, c, Classified(files).content, previous) == Ok(content)
    ensures var kept := TakenOver(c, previous);
      content.descriptor.paths == if kept.Some? then kept.value.paths else PathsOf(Classified(files).content)
  {
    hide Syncs, Classified, BuildArchive, Reuse, ContentKey, IsCompilerContent, Size;
    if TakenOver(c, previous).None? {
      assert content.staged.Some? by { OwnIsStaged(lib, Classified(files).content); }
      ContentDescribes(lib, prefix, c, revision, files, previous, content);
    }
  }

  lemma OwnIsStaged(lib: Library, files: seq<File>)
    ensures BuildArchive(lib, files).Ok? ==> BuildArchive(lib, files).value.staged.Some?
  {
  }

  /** The manifest lists only text exactly if its inputs are text. */
  lemma DraftListsText(
    lib: Library, prefix: string, c: Command, revision: nat, files: seq<File>, previous: Manifest, draft: Draft)
    requires Syncs(lib, prefix, c, revision, files, previous) && Unmarked(prefix, c, previous)
    requires BuildManifest(lib, prefix, c, revision, files, previous) == Ok(draft)
    ensures TextLists(Descriptors(draft.manifest)) <==> TextInputs(c, previous, files)
  {
    hide Syncs, Classified, BuildContent, BuildConfig, BuildWorld, BuildManifest, TextPaths, PathsOf, Unmarked, ManifestOf, Descriptors,
         TextLists, DescriptorsOf, SoundContent, WorldBuilt, IsText, TakenOver, IsContentPath, IsConfigPath, IsWorldPath;
    var l := Classified(files);
    var content, config, world := DraftParts(lib, prefix, c, revision, files, previous, draft);
    DraftLists(lib, prefix, c, revision, files, previous, draft, content, config, world);
    ArchivesListText(lib, prefix, c, revision, files, previous, content, config, world);
    ContentListsText(lib, prefix, c, revision, files, previous, content);
    TextFiles(l.content);
    TextFiles(l.config);
    TextShards(l.world);
    forall f: File
      ensures f in l.content <==> f in files && IsContentPath(f.path)
      ensures f in l.config <==> f in files && IsConfigPath(f.path)
      ensures f in Flat(l.world) <==> f in files && IsWorldPath(f.path)
      ensures IsContentPath(f.path) || IsConfigPath(f.path) || IsWorldPath(f.path)
      ensures !(IsContentPath(f.path) && (IsConfigPath(f.path) || IsWorldPath(f.path)))
    {
      ClassifiedByPath(files, f);
      LayersAgree(f.path);
    }
  }

  lemma OwnAggregate(
    lib: Library, prefix: string, c: Command, revision: nat, files: seq<File>, previous: Manifest, draft: Draft)
    requires BuildManifest(lib, prefix, c, revision, files, previous) == Ok(draft)
    ensures draft.manifest.aggregateSha256 == lib.aggregate(Descriptors(draft.manifest))
  {
    hide BuildManifest, Classified, ManifestOf, Descriptors, BuildContent, BuildConfig, BuildWorld;
    var content, config, world := DraftParts(lib, prefix, c, revision, files, previous, draft);
    HeadOf(lib, c, revision, content, config, world);
  }

  /**
   A later restore reads a manifest that it accepts exactly if the draft is within the limits, has no world mark, no
   new shard gets the key of a reused one, and every name it lists is text.
   */
  lemma PublishedAcceptedExactly(
    lib: Library, prefix: string, c: Command, revision: nat, files: seq<File>, previous: Manifest, draft: Draft)
    requires Syncs(lib, prefix, c, revision, files, previous)
    requires BuildManifest(lib, prefix, c, revision, files, previous) == Ok(draft) && AggregateTells(lib, draft.manifest)
    ensures Accepted(lib, Scrubbed(draft.manifest), c.(revision := revision)) <==>
        && FitsLimits(c, DescriptorsOf(draft.archives))
        && Unmarked(prefix, c, previous)
        && !Collides(lib, prefix, revision, files, previous)
        && TextInputs(c, previous, files)
  {
    hide Syncs, BuildManifest, Accepted, FitsLimits, Unmarked, Collides, TextInputs, AggregateTells, Scrubbed, Descriptors, DescriptorsOf;
    OwnAggregate(lib, prefix, c, revision, files, previous, draft);
    ReadBackAccepted(lib, draft.manifest, c.(revision := revision));
    DraftAcceptedExactly(lib, prefix, c, revision, files, previous, draft);
    if Unmarked(prefix, c, previous) {
      DraftListsText(lib, prefix, c, revision, files, previous, draft);
    }
  }

  // ---------------------------------------------------------------- everything else

  /** The command was decoded from JSON, and so was whatever the previous manifest was made from. */
  ghost predicate PlainInputs(prefix: string, c: Command, previous: Manifest)
  {
    && IsText(prefix) && IsText(c.serviceId) && IsText(c.assignmentId)
    && (c.runtimeContent.Some? ==> PlainBlob(c.runtimeContent.value))
    && forall b :: b in Descriptors(previous) ==> PlainBlob(b)
  }

  ghost predicate AllPlain(archives: seq<Archive>)
  {
    forall i :: 0 <= i < |archives| ==> PlainBlob(archives[i].descriptor)
  }

  lemma ShaText(s: string)
    requires ValidSha256(s)
    ensures IsText(s)
  {
    AsciiIsText(s);
  }

  lemma {:induction false} DecimalAscii(n: nat)
    ensures Ascii(Decimal(n))
  {
    if n >= 10 {
      DecimalAscii(n / 10);
    }
  }

  lemma PaddedAscii(n: nat)
    ensures Ascii(Padded(n))
  {
    DecimalAscii(n);
  }

  lemma KeysAreText(prefix: string, sha: string, revision: nat, index: nat)
    requires IsText(prefix)
    ensures ValidSha256(sha) ==> IsText(ContentKey(prefix, sha))
    ensures IsText(ConfigKey(prefix, revision)) && IsText(WorldKey(prefix, revision, index))
  {
    hide IsText, Decimal, Padded;
    DecimalAscii(revision);
    PaddedAscii(index);
    var content := "/content/" + sha + ARCHIVE_SUFFIX;
    if ValidSha256(sha) {
      assert Ascii(content);
      AsciiIsText(content);
      TextConcat(prefix, content);
      assert ContentKey(prefix, sha) == prefix + content;
    }
    var config := "/revisions/" + (Decimal(revision) + "/" + CONFIG_NAME);
    AsciiIsText(config);
    TextConcat(prefix, config);
    assert ConfigKey(prefix, revision) == prefix + config;
    var world := "/revisions/" + (Decimal(revision) + "/" + (WORLD + "/" + (ShardName(index) + ARCHIVE_SUFFIX)));
    AsciiIsText(world);
    TextConcat(prefix, world);
    assert WorldKey(prefix, revision, index) == prefix + world;
  }

  lemma ArchivePlain(lib: Library, files: seq<File>, key: string)
    requires Digests(lib) && BuildArchive(lib, files).Ok? && IsText(key)
    ensures PlainBlob(BuildArchive(lib, files).value.descriptor.(key := key))
  {
    hide IsText, ValidSha256;
    ShaText(lib.sha256(lib.encode(files)));
  }

  lemma PartsPlain(
    lib: Library, prefix: string, c: Command, revision: nat, layers: Layering, previous: Manifest, content: Archive, config: seq<Archive>)
    requires Digests(lib) && PlainInputs(prefix, c, previous)
    requires BuildContent(lib, prefix, c, layers.content, previous) == Ok(content)
    requires BuildConfig(lib, prefix, revision, layers.config, previous) == Ok(config)
    ensures PlainBlob(content.descriptor) && AllPlain(config) && |config| <= 1
  {
    hide IsText, ValidSha256, BuildArchive, ContentKey, ConfigKey, SameArchive, Digests, IsCompilerContent;
    if BuildArchive(lib, layers.content).Ok? {
      var sha := BuildArchive(lib, layers.content).value.descriptor.sha256;
      assert ValidSha256(sha) by { ArchiveSha(lib, layers.content); }
      KeysAreText(prefix, sha, revision, 0);
      ArchivePlain(lib, layers.content, ContentKey(prefix, sha));
    }
    if BuildArchive(lib, layers.config).Ok? {
      KeysAreText(prefix, "", revision, 0);
      ArchivePlain(lib, layers.config, ConfigKey(prefix, revision));
    }
  }

  lemma ArchiveSha(lib: Library, files: seq<File>)
    requires Digests(lib) && BuildArchive(lib, files).Ok?
    ensures ValidSha256(BuildArchive(lib, files).value.descriptor.sha256)
  {
  }

  lemma {:induction false} WorldPlain(
    lib: Library, prefix: string, c: Command, revision: nat, shards: seq<seq<File>>, previous: Manifest, world: seq<Archive>)
    requires Digests(lib) && PlainInputs(prefix, c, previous)
    requires BuildWorld(lib, prefix, revision, shards, previous) == Ok(world)
    ensures AllPlain(world)
  {
    hide IsText, BuildArchive, WorldKey, ReuseAny, Digests;
    if shards != [] {
      var n := |shards| - 1;
      var most := BuildWorld(lib, prefix, revision, shards[..n], previous).value;
      WorldPlain(lib, prefix, c, revision, shards[..n], previous, most);
      KeysAreText(prefix, "", revision, n);
      ArchivePlain(lib, shards[n], WorldKey(prefix, revision, n));
      var b := BuildArchive(lib, shards[n]).value.descriptor.(key := WorldKey(prefix, revision, n));
      var i := ReusedFrom(previous.world, b);
      assert PlainBlob(ReuseAny(previous.world, b));
    }
  }

  /** Keys, digests and names of a draft are text, so a reader finds them as they were written. */
  lemma DraftIsPlain(
    lib: Library, prefix: string, c: Command, revision: nat, files: seq<File>, previous: Manifest, draft: Draft)
    requires Digests(lib) && PlainInputs(prefix, c, previous)
    requires BuildManifest(lib, prefix, c, revision, files, previous) == Ok(draft)
    ensures PlainManifest(draft.manifest)
    ensures var m := draft.manifest;
      && IsText(m.serviceId) && IsText(m.assignmentId) && IsText(m.manifestHash) && IsText(m.aggregateSha256)
      && (forall b :: b in Descriptors(m) ==> IsText(b.key) && IsText(b.sha256))
  {
    hide IsText, BuildManifest, BuildContent, BuildConfig, BuildWorld, Classified, ManifestOf, ValidSha256, Descriptors, DescriptorsOf;
    var content, config, world := DraftParts(lib, prefix, c, revision, files, previous, draft);
    PartsPlain(lib, prefix, c, revision, Classified(files), previous, content, config);
    WorldPlain(lib, prefix, c, revision, Classified(files).world, previous, world);
    HeadOf(lib, c, revision, content, config, world);
    ShaText(draft.manifest.aggregateSha256);
    forall b | b in Descriptors(draft.manifest) ensures PlainBlob(b) {
      ListsArchives(lib, c, revision, content, config, world, b);
      var i :| 0 <= i < |DescriptorsOf(draft.archives)| && DescriptorsOf(draft.archives)[i] == b;
      DescriptorAt(draft.archives, i);
    }
  }

  lemma DescriptorAt(archives: seq<Archive>, i: nat)
    requires i < |DescriptorsOf(archives)|
    ensures i < |archives| && DescriptorsOf(archives)[i] == archives[i].descriptor
  {
  }

  lemma {:induction false} MarkedAreArchives(archives: seq<Archive>, b: Blob)
    requires b in Marked(archives)
    ensures b in DescriptorsOf(archives)
  {
    hide Contains;
    var n := |archives| - 1;
    if b in Marked(archives[..n]) {
      MarkedAreArchives(archives[..n], b);
      var i :| 0 <= i < n && DescriptorsOf(archives[..n])[i] == b;
      assert DescriptorsOf(archives)[i] == b;
    } else {
      assert DescriptorsOf(archives)[n] == b;
    }
  }

  lemma ListsArchives(
    lib: Library, c: Command, revision: nat, content: Archive, config: seq<Archive>, world: seq<Archive>, b: Blob)
    requires b in Descriptors(ManifestOf(lib, c, revision, content, config, world))
    ensures b in DescriptorsOf([content] + config + world)
  {
    hide Marked, LogicalSum;
    var archives := [content] + config + world;
    var ds := DescriptorsOf(archives);
    if b in Marked(archives) {
      MarkedAreArchives(archives, b);
    } else {
      assert ds[0] == content.descriptor;
      assert config != [] ==> ds[1] == config[0].descriptor;
    }
  }
}
