/** Staging a MiSeq run for QIIME 2: the folder layout, the links to each
    sample's reads, the dummy-barcode renaming and the order in which
    `project_setup` and the `project_setup.py` entry point run them. */
module Staging {
  import opened Wrappers
  import opened Strings
  import opened Paths
  import opened SampleIds
  import opened Vfs

  // ---------------------------------------------------------------------
  // get_sample_dictionary

  /** `get_sample_dictionary(directory)`: glob the folder, collect the
      sample ids and pair each of them; files is the order glob reported. */
  method GetSampleDictionary(fs: FileSystem, directory: string)
    returns (r: Result<SampleDictionary>, ghost files: seq<string>)
    requires fs.Valid()
    ensures IsListing(files, fs.tree, fs.cwd, directory)
    ensures SampleDictionaryOf(r, files, fs.cwd)
  {
    var listing := fs.Glob(directory);
    files := listing;
    var ids := RetrieveUniqueSampleIds(listing);
    if ids.Err? {
      return Err(ids.error), files;
    }
    r := PopulateSampleDictionary(ids.value, listing, fs.cwd);
    PopulatedSpec(ids.value, listing, fs.cwd);
  }

  // ---------------------------------------------------------------------
  // create_symlink and symlink_dictionary

  /** The link path create_symlink passes to os.symlink for target:
      `join(folder, basename(target))`. */
  function LinkArg(folder: string, target: string): string {
    Join(folder, Basename(target))
  }

  /** The entry that link path names, resolved against cwd. */
  function LinkPath(cwd: string, folder: string, target: string): string {
    AbsPath(cwd, LinkArg(folder, target))
  }

  /** The os.symlink call create_symlink makes. */
  function LinkAt(t: Tree, cwd: string, folder: string, target: string): (Outcome, Tree) {
    OsSymlink(t, cwd, target, LinkArg(folder, target))
  }

  /** Linking succeeds exactly when the link path is not empty, its entry
      is free and sits in a directory; it then adds that one link, and
      otherwise changes nothing. */
  lemma LinkAtSpec(t: Tree, cwd: string, folder: string, target: string)
    ensures var (o, t') := LinkAt(t, cwd, folder, target);
      var l := LinkPath(cwd, folder, target);
      && (o.Pass? <==> LinkArg(folder, target) != "" && l !in t && IsDirIn(t, Dirname(l)))
      && t' == if o.Pass? then t[l := Symlink(target)] else t
  {
    CreateSpec(t, LinkPath(cwd, folder, target), Symlink(target));
  }

  /** Linking keeps every entry, and adds at most the link itself. */
  lemma LinkAtFrame(t: Tree, cwd: string, folder: string, target: string)
    ensures var t', l := LinkAt(t, cwd, folder, target).1, LinkPath(cwd, folder, target);
      && (forall q :: q in t ==> q in t' && t'[q] == t[q])
      && (forall q :: q in t' && q !in t ==> q == l && t'[q] == Symlink(target))
  {
    LinkAtSpec(t, cwd, folder, target);
  }

  /** `create_symlink(target, destination_folder)`. */
  method CreateSymlink(fs: FileSystem, target: string, folder: string) returns (o: Outcome)
    requires fs.Valid()
    modifies fs
    ensures fs.Valid()
    ensures (o, fs.tree) == LinkAt(old(fs.tree), fs.cwd, folder, target)
  {
    o := fs.Symlink(target, LinkArg(folder, target));
  }

  /** One iteration of symlink_dictionary: link the forward read, then the
      reverse read. Whatever is raised (TypeError on a None value, an
      OSError from os.symlink) is swallowed, and a forward link made before
      the reverse one failed stays. */
  function StageSample(t: Tree, cwd: string, folder: string, value: Option<ReadPair>): Tree {
    match value
    case None => t
    case Some(pair) =>
      var (o, t1) := LinkAt(t, cwd, folder, pair.forward);
      if o.Fail? then t1 else LinkAt(t1, cwd, folder, pair.reverse).1
  }

  /** symlink_dictionary over the values in dictionary order. */
  function StageAll(t: Tree, cwd: string, folder: string, values: seq<Option<ReadPair>>): Tree
    decreases |values|
  {
    if values == [] then t
    else StageAll(StageSample(t, cwd, folder, values[0]), cwd, folder, values[1..])
  }

  /** `symlink_dictionary(sample_dictionary, destination_folder)`. */
  method SymlinkDictionary(fs: FileSystem, d: SampleDictionary, folder: string)
    requires fs.Valid() && d.Valid()
    modifies fs
    ensures fs.Valid()
    ensures fs.tree == StageAll(old(fs.tree), fs.cwd, folder, d.Values())
  {
    ghost var values := d.Values();
    for i := 0 to |d.order|
      invariant fs.Valid()
      invariant StageAll(old(fs.tree), fs.cwd, folder, values) == StageAll(fs.tree, fs.cwd, folder, values[i..])
    {
      var value := d.pairs[d.order[i]];
      assert values[i] == value;
      StageAllFrom(fs.tree, fs.cwd, folder, values, i);
      LinkReadPair(fs, value, folder);
    }
  }

  /** The try block of symlink_dictionary for one value. */
  method LinkReadPair(fs: FileSystem, value: Option<ReadPair>, folder: string)
    requires fs.Valid()
    modifies fs
    ensures fs.Valid()
    ensures fs.tree == StageSample(old(fs.tree), fs.cwd, folder, value)
  {
    if value.Some? {
      var pair := value.value;
      ghost var t0 := fs.tree;
      var o := CreateSymlink(fs, pair.forward, folder);
      ghost var o1, t1 := o, fs.tree;
      if o.Pass? {
        o := CreateSymlink(fs, pair.reverse, folder);
      }
      StageSampleSteps(t0, fs.cwd, folder, pair, o1, t1, fs.tree);
    }
  }

  /** StageSample as the two os.symlink steps of the try block. */
  lemma StageSampleSteps(t: Tree, cwd: string, folder: string, pair: ReadPair, o1: Outcome, t1: Tree, t2: Tree)
    requires (o1, t1) == LinkAt(t, cwd, folder, pair.forward)
    requires o1.Pass? ==> t2 == LinkAt(t1, cwd, folder, pair.reverse).1
    requires o1.Fail? ==> t2 == t1
    ensures StageSample(t, cwd, folder, Some(pair)) == t2
  {
  }

  /** One step of StageAll from position i. */
  lemma StageAllFrom(t: Tree, cwd: string, folder: string, values: seq<Option<ReadPair>>, i: nat)
    requires i < |values|
    ensures StageAll(t, cwd, folder, values[i..]) == StageAll(StageSample(t, cwd, folder, values[i]), cwd, folder, values[i + 1..])
  {
    assert values[i..][0] == values[i] && values[i..][1..] == values[i + 1..];
  }

  /** The entries a value would be linked as. */
  function LinksOf(cwd: string, folder: string, value: Option<ReadPair>): set<string> {
    match value
    case None => {}
    case Some(pair) => {LinkPath(cwd, folder, pair.forward), LinkPath(cwd, folder, pair.reverse)}
  }

  /** Staging one sample never alters or removes an existing entry: a
      colliding link is left as it was. */
  lemma StageSampleKeeps(t: Tree, cwd: string, folder: string, value: Option<ReadPair>)
    ensures var t' := StageSample(t, cwd, folder, value);
      forall q :: q in t ==> q in t' && t'[q] == t[q]
  {
    if value.Some? {
      var pair := value.value;
      LinkAtFrame(t, cwd, folder, pair.forward);
      LinkAtFrame(LinkAt(t, cwd, folder, pair.forward).1, cwd, folder, pair.reverse);
    }
  }

  /** Staging a sample adds nothing but its own links, each pointing at
      its read. */
  lemma StageSampleAdds(t: Tree, cwd: string, folder: string, pair: ReadPair)
    ensures var t', l1, l2 := StageSample(t, cwd, folder, Some(pair)), LinkPath(cwd, folder, pair.forward), LinkPath(cwd, folder, pair.reverse);
      forall q :: q in t' && q !in t ==>
        (q == l1 && t'[q] == Symlink(pair.forward)) || (q == l2 && q != l1 && t'[q] == Symlink(pair.reverse))
  {
    LinkAtFrame(t, cwd, folder, pair.forward);
    LinkAtFrame(LinkAt(t, cwd, folder, pair.forward).1, cwd, folder, pair.reverse);
  }

  /** The links a staged sample may add. */
  lemma StageSampleAddsLinks(t: Tree, cwd: string, folder: string, value: Option<ReadPair>)
    ensures var t' := StageSample(t, cwd, folder, value);
      forall q :: q in t' && q !in t ==> q in LinksOf(cwd, folder, value)
  {
    if value.Some? {
      StageSampleAdds(t, cwd, folder, value.value);
    }
  }

  lemma LinkInFolder(cwd: string, folder: string, target: string)
    requires IsAbsolute(cwd) && Normal(cwd) && Normal(folder) && Basename(target) != ""
    ensures Dirname(LinkPath(cwd, folder, target)) == AbsPath(cwd, folder)
    ensures Basename(LinkPath(cwd, folder, target)) == Basename(target)
    ensures LinkArg(folder, target) != ""
  {
    AbsPathOfJoin(cwd, folder, Basename(target));
    AbsPathNormal(cwd, folder);
    JoinThenSplit(AbsPath(cwd, folder), Basename(target));
  }

  /** A sample whose two link names are distinct and still free in an
      existing destination folder gets both links. */
  lemma StageSampleCreates(t: Tree, cwd: string, folder: string, pair: ReadPair)
    requires IsAbsolute(cwd) && Normal(cwd) && Normal(folder)
    requires Basename(pair.forward) != "" && Basename(pair.reverse) != ""
    requires IsDirIn(t, AbsPath(cwd, folder))
    requires LinkPath(cwd, folder, pair.forward) !in t && LinkPath(cwd, folder, pair.reverse) !in t
    requires LinkPath(cwd, folder, pair.forward) != LinkPath(cwd, folder, pair.reverse)
    ensures var t', l1, l2 := StageSample(t, cwd, folder, Some(pair)), LinkPath(cwd, folder, pair.forward), LinkPath(cwd, folder, pair.reverse);
      && l1 in t' && t'[l1] == Symlink(pair.forward)
      && l2 in t' && t'[l2] == Symlink(pair.reverse)
  {
    var l1 := LinkPath(cwd, folder, pair.forward);
    LinkAtCreates(t, cwd, folder, pair.forward);
    var t1 := t[l1 := Symlink(pair.forward)];
    LinkAtCreates(t1, cwd, folder, pair.reverse);
  }

  /** A free link name in an existing destination folder gets its link. */
  lemma LinkAtCreates(t: Tree, cwd: string, folder: string, target: string)
    requires IsAbsolute(cwd) && Normal(cwd) && Normal(folder) && Basename(target) != ""
    requires IsDirIn(t, AbsPath(cwd, folder)) && LinkPath(cwd, folder, target) !in t
    ensures LinkAt(t, cwd, folder, target) == (Pass, t[LinkPath(cwd, folder, target) := Symlink(target)])
  {
    LinkInFolder(cwd, folder, target);
    LinkAtSpec(t, cwd, folder, target);
  }

  /** When the forward link can be made but the reverse link name is
      already taken, the forward link is kept: nothing is rolled back. */
  lemma StageSampleKeepsPartial(t: Tree, cwd: string, folder: string, pair: ReadPair)
    requires IsAbsolute(cwd) && Normal(cwd) && Normal(folder) && Basename(pair.forward) != ""
    requires IsDirIn(t, AbsPath(cwd, folder))
    requires LinkPath(cwd, folder, pair.forward) !in t && LinkPath(cwd, folder, pair.reverse) in t
    ensures StageSample(t, cwd, folder, Some(pair)) == t[LinkPath(cwd, folder, pair.forward) := Symlink(pair.forward)]
  {
    var l1 := LinkPath(cwd, folder, pair.forward);
    LinkAtCreates(t, cwd, folder, pair.forward);
    var t1 := t[l1 := Symlink(pair.forward)];
    LinkAtSpec(t1, cwd, folder, pair.reverse);
  }

  /** symlink_dictionary never alters or removes an existing entry, and
      every entry it adds is a link of one of the values. */
  lemma {:induction false} StageAllFrame(t: Tree, cwd: string, folder: string, values: seq<Option<ReadPair>>)
    ensures var t' := StageAll(t, cwd, folder, values);
      && (forall q :: q in t ==> q in t' && t'[q] == t[q])
      && (forall q :: q in t' && q !in t ==> exists j :: 0 <= j < |values| && q in LinksOf(cwd, folder, values[j]))
    decreases |values|
  {
    if values != [] {
      var t1 := StageSample(t, cwd, folder, values[0]);
      StageSampleKeeps(t, cwd, folder, values[0]);
      StageSampleAddsLinks(t, cwd, folder, values[0]);
      StageAllFrame(t1, cwd, folder, values[1..]);
      var t' := StageAll(t, cwd, folder, values);
      forall q | q in t' && q !in t
        ensures exists j :: 0 <= j < |values| && q in LinksOf(cwd, folder, values[j])
      {
        if q in t1 {
          assert q in LinksOf(cwd, folder, values[0]);
        } else {
          var j :| 0 <= j < |values[1..]| && q in LinksOf(cwd, folder, values[1..][j]);
          assert values[1..][j] == values[j + 1];
        }
      }
    }
  }

  /** A collision costs only the colliding sample: every sample whose link
      names are distinct, still free, and not shared with any other sample
      gets both links, whatever happens to the others. */
  lemma {:induction false} StageAllCreates(t: Tree, cwd: string, folder: string, values: seq<Option<ReadPair>>, i: nat)
    requires IsAbsolute(cwd) && Normal(cwd) && Normal(folder)
    requires i < |values| && values[i].Some?
    requires var pair := values[i].value;
      && Basename(pair.forward) != "" && Basename(pair.reverse) != ""
      && LinkPath(cwd, folder, pair.forward) != LinkPath(cwd, folder, pair.reverse)
      && LinkPath(cwd, folder, pair.forward) !in t && LinkPath(cwd, folder, pair.reverse) !in t
    requires forall j :: 0 <= j < |values| && j != i ==> LinksOf(cwd, folder, values[j]) !! LinksOf(cwd, folder, values[i])
    requires IsDirIn(t, AbsPath(cwd, folder))
    ensures var t', pair := StageAll(t, cwd, folder, values), values[i].value;
      && LinkPath(cwd, folder, pair.forward) in t' && t'[LinkPath(cwd, folder, pair.forward)] == Symlink(pair.forward)
      && LinkPath(cwd, folder, pair.reverse) in t' && t'[LinkPath(cwd, folder, pair.reverse)] == Symlink(pair.reverse)
    decreases |values|
  {
    var pair := values[i].value;
    var t1 := StageSample(t, cwd, folder, values[0]);
    StageSampleKeeps(t, cwd, folder, values[0]);
    StageSampleAddsLinks(t, cwd, folder, values[0]);
    StageAllFrame(t1, cwd, folder, values[1..]);
    assert StageAll(t, cwd, folder, values) == StageAll(t1, cwd, folder, values[1..]);
    if i == 0 {
      assert values[0] == Some(pair);
      StageSampleCreates(t, cwd, folder, pair);
    } else {
      assert LinksOf(cwd, folder, values[0]) !! LinksOf(cwd, folder, values[i]);
      assert values[1..][i - 1] == values[i];
      forall j | 0 <= j < |values[1..]| && j != i - 1
        ensures LinksOf(cwd, folder, values[1..][j]) !! LinksOf(cwd, folder, values[1..][i - 1])
      {
        assert values[1..][j] == values[j + 1];
      }
      StageAllCreates(t1, cwd, folder, values[1..], i - 1);
    }
  }

  // ---------------------------------------------------------------------
  // append_dummy_barcodes

  /** The dummy barcode rename: every "_S" of the absolute path becomes
      "_00_S", folders included. */
  function Barcoded(p: string): string {
    ReplaceAll(p, "_S", "_00_S")
  }

  /** One iteration of append_dummy_barcodes: a file that passes
      valid_olc_id is renamed from its absolute path to the barcoded one;
      an IndexError from valid_olc_id or an OSError from os.rename ends the
      run. */
  function RenameOne(t: Tree, cwd: string, file: string): (Outcome, Tree) {
    match ValidOlcId(file)
    case Err(e) => (Fail(e), t)
    case Ok(valid) =>
      if !valid then (Pass, t)
      else
        var src := AbsPath(cwd, file);
        RenameAt(t, src, Barcoded(src))
  }

  /** append_dummy_barcodes over the files in the order glob reported them. */
  function RenameAll(t: Tree, cwd: string, files: seq<string>): (Outcome, Tree)
    decreases |files|
  {
    if files == [] then (Pass, t)
    else
      var (o, t1) := RenameOne(t, cwd, files[0]);
      if o.Fail? then (o, t1) else RenameAll(t1, cwd, files[1..])
  }

  lemma BarcodedIsAbsolute(p: string)
    requires IsAbsolute(p)
    ensures IsAbsolute(Barcoded(p))
  {
    assert p == "/" + p[1..];
    ReplaceKeepsPrefix("/", p[1..], "_S", "_00_S");
  }

  /** The rename keeps a path free of a trailing '/'. */
  lemma BarcodedIsNormal(p: string)
    requires IsAbsolute(p) && Normal(p)
    ensures Normal(Barcoded(p))
  {
    if p == "/" {
      ReplaceNoMatch(p, "_S", "_00_S");
    } else {
      var r := Barcoded(p);
      ReplaceSplitsAtSlash(p, "_S", "_00_S");
      ReplaceLength(Basename(p), "_S", "_00_S");
      assert Basename(p) != "";
      assert Basename(r) != "";
    }
  }

  /** `append_dummy_barcodes(path)`; files is the order glob reported. */
  method AppendDummyBarcodes(fs: FileSystem, path: string) returns (o: Outcome, ghost files: seq<string>)
    requires fs.Valid()
    modifies fs
    ensures fs.Valid()
    ensures IsListing(files, old(fs.tree), fs.cwd, path)
    ensures (o, fs.tree) == RenameAll(old(fs.tree), fs.cwd, files)
  {
    var listing := fs.Glob(path);
    files := listing;
    for i := 0 to |listing|
      invariant fs.Valid()
      invariant RenameAll(old(fs.tree), fs.cwd, listing) == RenameAll(fs.tree, fs.cwd, listing[i..])
    {
      assert listing[i..][0] == listing[i] && listing[i..][1..] == listing[i + 1..];
      var valid := ValidOlcId(listing[i]);
      if valid.Err? {
        return Fail(valid.error), files;
      }
      if valid.value {
        var src := AbsPath(fs.cwd, listing[i]);
        AbsPathIdempotent(fs.cwd, listing[i]);
        BarcodedIsAbsolute(src);
        AbsPathNormal(fs.cwd, listing[i]);
        BarcodedIsNormal(src);
        TrimOfNormal(src);
        TrimOfNormal(Barcoded(src));
        o := fs.Rename(src, Barcoded(src));
        if o.Fail? {
          return o, files;
        }
      }
    }
    return Pass, files;
  }

  /** Renaming keeps the sample id when the id holds no '_': the
      barcoded name is the barcoded basename, it has the same 13-character
      prefix, and valid_olc_id judges it the same way. */
  lemma BarcodedKeepsSampleId(p: string)
    requires '_' !in OlcPrefix(p)
    ensures Basename(Barcoded(p)) == Barcoded(Basename(p))
    ensures OlcPrefix(Barcoded(p)) == OlcPrefix(p)
    ensures ValidOlcId(Barcoded(p)) == ValidOlcId(p)
  {
    ReplaceSplitsAtSlash(p, "_S", "_00_S");
    BarcodedNameKeepsPrefix(Basename(p));
    SamePrefixSameVerdict(Barcoded(p), p);
  }

  /** Barcoding a name whose first 13 characters hold no '_' keeps them. */
  lemma BarcodedNameKeepsPrefix(name: string)
    requires '_' !in Take(name, OlcIdLength)
    ensures Take(Barcoded(name), OlcIdLength) == Take(name, OlcIdLength)
  {
    if |name| <= OlcIdLength {
      ReplaceNoMatch(name, "_S", "_00_S");
    } else {
      var head, tail := name[..OlcIdLength], name[OlcIdLength..];
      assert name == head + tail;
      ReplaceKeepsPrefix(head, tail, "_S", "_00_S");
      assert (head + ReplaceAll(tail, "_S", "_00_S"))[..OlcIdLength] == head;
    }
  }

  /** valid_olc_id looks only at the 13-character candidate id. */
  lemma SamePrefixSameVerdict(p: string, q: string)
    requires OlcPrefix(p) == OlcPrefix(q)
    ensures ValidOlcId(p) == ValidOlcId(q)
  {
  }

  /** A folder path without '_' is left alone: the file is renamed inside
      its own folder. */
  lemma BarcodedStaysInFolder(p: string)
    requires '_' !in Dirname(p)
    ensures Dirname(Barcoded(p)) == Dirname(p)
  {
    ReplaceSplitsAtSlash(p, "_S", "_00_S");
    ReplaceNoMatch(Dirname(p), "_S", "_00_S");
  }

  /** As written, the rename also rewrites the folders: a folder path
      holding "_S" sends the file to a different folder, so the rename
      raises unless that folder happens to exist. */
  lemma BarcodedLeavesFolder(t: Tree, p: string)
    requires WellFormed(t)
    requires Contains(Dirname(p), "_S")
    requires p in t && !t[p].Directory?
    requires Dirname(Barcoded(p)) !in t
    ensures Dirname(Barcoded(p)) != Dirname(p)
    ensures RenameAt(t, p, Barcoded(p)) == (Fail(FileNotFoundError(Barcoded(p))), t)
  {
    ReplaceSplitsAtSlash(p, "_S", "_00_S");
    ReplaceLength(Dirname(p), "_S", "_00_S");
    assert Barcoded(p) !in t;
  }

  /** Only valid files are moved: an entry that is neither the absolute
      path of a listed valid file nor the barcoded form of one keeps its
      name and content. */
  lemma {:induction false} RenameAllFrame(t: Tree, cwd: string, files: seq<string>, q: string)
    requires q in t
    requires forall f :: f in files && ValidOlcId(f) == Ok(true) ==>
      q != AbsPath(cwd, f) && q != Barcoded(AbsPath(cwd, f))
    ensures var t' := RenameAll(t, cwd, files).1;
      q in t' && t'[q] == t[q]
    decreases |files|
  {
    if files != [] {
      var f := files[0];
      if ValidOlcId(f) == Ok(true) {
        RenameSpec(t, AbsPath(cwd, f), Barcoded(AbsPath(cwd, f)));
      }
      var t1 := RenameOne(t, cwd, f).1;
      assert q in t1 && t1[q] == t[q];
      if RenameOne(t, cwd, f).0.Pass? {
        forall g | g in files[1..] && ValidOlcId(g) == Ok(true)
          ensures q != AbsPath(cwd, g) && q != Barcoded(AbsPath(cwd, g))
        {
          assert g in files;
        }
        RenameAllFrame(t1, cwd, files[1..], q);
      }
    }
  }

  /** Renaming a folder's listing when the folder path holds no '_' keeps
      every file in that folder, so entries elsewhere are untouched. */
  lemma RenameAllStaysInFolder(t: Tree, cwd: string, folder: string, files: seq<string>, q: string)
    requires IsAbsolute(cwd) && Normal(cwd) && Normal(folder)
    requires '_' !in AbsPath(cwd, folder)
    requires IsListing(files, t, cwd, folder)
    requires q in t && Dirname(q) != AbsPath(cwd, folder)
    ensures var t' := RenameAll(t, cwd, files).1;
      q in t' && t'[q] == t[q]
  {
    forall f | f in files && ValidOlcId(f) == Ok(true)
      ensures q != AbsPath(cwd, f) && q != Barcoded(AbsPath(cwd, f))
    {
      GlobMatchIsEntry(t, cwd, folder, f);
      BarcodedStaysInFolder(AbsPath(cwd, f));
    }
    RenameAllFrame(t, cwd, files, q);
  }

  // ---------------------------------------------------------------------
  // project_setup

  function DataDir(outdir: string): string {
    Join(outdir, "data")
  }

  function QiimeDir(outdir: string): string {
    Join(outdir, "qiime2")
  }

  /** What create_sampledata_artifact returns, whatever the import printed. */
  function ArtifactPath(outdir: string): string {
    Join(QiimeDir(outdir), "paired-sample-data.qza")
  }

  /** The folder layout: outdir, then outdir/data, then outdir/qiime2; the
      first os.mkdir that raises ends the run. */
  function FoldersAt(t: Tree, cwd: string, outdir: string): (Outcome, Tree) {
    var (o1, t1) := OsMkdir(t, cwd, outdir);
    if o1.Fail? then (o1, t1)
    else
      var (o2, t2) := OsMkdir(t1, cwd, DataDir(outdir));
      if o2.Fail? then (o2, t2)
      else OsMkdir(t2, cwd, QiimeDir(outdir))
  }

  /** An empty or existing outdir makes the first os.mkdir raise with
      nothing created; a new outdir in an existing folder always gets the
      three directories and nothing else. */
  lemma FoldersSpec(t: Tree, cwd: string, outdir: string)
    requires WellFormed(t) && IsAbsolute(cwd) && Normal(cwd) && Normal(outdir)
    ensures outdir == "" ==> FoldersAt(t, cwd, outdir) == (Fail(FileNotFoundError("")), t)
    ensures outdir != "" && AbsPath(cwd, outdir) in t ==>
      FoldersAt(t, cwd, outdir) == (Fail(FileExistsError(AbsPath(cwd, outdir))), t)
    ensures outdir != "" && AbsPath(cwd, outdir) !in t && IsDirIn(t, Dirname(AbsPath(cwd, outdir))) ==>
      FoldersAt(t, cwd, outdir) ==
        (Pass, t[AbsPath(cwd, outdir) := Directory][AbsPath(cwd, DataDir(outdir)) := Directory][AbsPath(cwd, QiimeDir(outdir)) := Directory])
  {
    var out := AbsPath(cwd, outdir);
    if outdir != "" {
      if out in t {
        assert OsMkdir(t, cwd, outdir) == (Fail(FileExistsError(out)), t);
      } else if IsDirIn(t, Dirname(out)) {
        FoldersCreated(t, cwd, outdir);
      }
    }
  }

  /** The case of FoldersSpec where outdir is new and its folder exists. */
  lemma FoldersCreated(t: Tree, cwd: string, outdir: string)
    requires WellFormed(t) && IsAbsolute(cwd) && Normal(cwd) && Normal(outdir) && outdir != ""
    requires AbsPath(cwd, outdir) !in t && IsDirIn(t, Dirname(AbsPath(cwd, outdir)))
    ensures FoldersAt(t, cwd, outdir) ==
      (Pass, t[AbsPath(cwd, outdir) := Directory][AbsPath(cwd, DataDir(outdir)) := Directory][AbsPath(cwd, QiimeDir(outdir)) := Directory])
  {
    var out := AbsPath(cwd, outdir);
    AbsPathNormal(cwd, outdir);
    AbsPathOfJoin(cwd, outdir, "data");
    AbsPathOfJoin(cwd, outdir, "qiime2");
    AbsPathIdempotent(cwd, outdir);
    SubfoldersAreNew(t, out);
    var data, qiime := Join(out, "data"), Join(out, "qiime2");
    var t1 := t[out := Directory];
    var t2 := t1[data := Directory];
    MkdirNew(t, cwd, outdir, out);
    MkdirNew(t1, cwd, DataDir(outdir), data);
    MkdirNew(t2, cwd, QiimeDir(outdir), qiime);
  }

  /** os.mkdir of a free path in an existing directory makes just that
      directory. */
  lemma MkdirNew(t: Tree, cwd: string, path: string, p: string)
    requires path != "" && AbsPath(cwd, path) == p && p !in t && IsDirIn(t, Dirname(p))
    ensures OsMkdir(t, cwd, path) == (Pass, t[p := Directory])
  {
  }

  /** A trailing '/' on outdir changes nothing: `os.mkdir("out/")` makes
      out, and the subfolders are "out/data" and "out/qiime2" either way. */
  lemma FoldersIgnoreTrailingSlash(t: Tree, cwd: string, outdir: string)
    requires IsAbsolute(cwd) && Normal(cwd) && outdir != "" && outdir != "/" && Normal(outdir)
    ensures FoldersAt(t, cwd, outdir + "/") == FoldersAt(t, cwd, outdir)
  {
    AbsPathDropsTrailingSlash(cwd, outdir);
    assert DataDir(outdir + "/") == DataDir(outdir);
    assert QiimeDir(outdir + "/") == QiimeDir(outdir);
    SameFolders(t, cwd, outdir + "/", outdir);
  }

  /** FoldersAt depends on outdir only through the first mkdir's entry and
      the two subfolder paths. */
  lemma SameFolders(t: Tree, cwd: string, a: string, b: string)
    requires a != "" && b != "" && AbsPath(cwd, a) == AbsPath(cwd, b)
    requires DataDir(a) == DataDir(b) && QiimeDir(a) == QiimeDir(b)
    ensures FoldersAt(t, cwd, a) == FoldersAt(t, cwd, b)
  {
    assert OsMkdir(t, cwd, a) == OsMkdir(t, cwd, b);
  }

  /** The subfolders of a new folder are new, distinct, and sit in it. */
  lemma SubfoldersAreNew(t: Tree, out: string)
    requires WellFormed(t) && IsAbsolute(out) && Normal(out) && out !in t
    ensures Join(out, "data") !in t && Join(out, "qiime2") !in t
    ensures Join(out, "data") != Join(out, "qiime2")
    ensures Join(out, "data") != out && Join(out, "qiime2") != out
    ensures Dirname(Join(out, "data")) == out && Dirname(Join(out, "qiime2")) == out
  {
    JoinThenSplit(out, "data");
    JoinThenSplit(out, "qiime2");
    LastSlashUnique("/", 0);
    assert Basename("/") == "";
    assert out != "/";
  }

  /** The three os.mkdir calls that open project_setup and main. */
  method CreateFolders(fs: FileSystem, outdir: string) returns (o: Outcome)
    requires fs.Valid()
    modifies fs
    ensures fs.Valid()
    ensures (o, fs.tree) == FoldersAt(old(fs.tree), fs.cwd, outdir)
  {
    o := fs.Mkdir(outdir);
    if o.Fail? {
      return;
    }
    o := fs.Mkdir(DataDir(outdir));
    if o.Fail? {
      return;
    }
    o := fs.Mkdir(QiimeDir(outdir));
  }

  /** How the steps after the folder layout transform the tree t into t'
      with result r: dictionary from inputdir (listed as inputFiles), links
      in outdir/data in dictionary order, then the renaming of what glob
      lists there (as dataFiles); the QIIME 2 import only contributes the
      artifact path. */
  ghost predicate StagedAsScripted(t: Tree, t': Tree, r: Result<string>, cwd: string, outdir: string, inputdir: string,
                                   inputFiles: seq<string>, dict: Result<SampleDictionary>, dataFiles: seq<string>)
  {
    && IsListing(inputFiles, t, cwd, inputdir)
    && SampleDictionaryOf(dict, inputFiles, cwd)
    && (dict.Err? ==> r == Err(dict.error) && t' == t)
    && (dict.Ok? ==>
          var staged := StageAll(t, cwd, DataDir(outdir), dict.value.Values());
          && IsListing(dataFiles, staged, cwd, DataDir(outdir))
          && var (o, renamed) := RenameAll(staged, cwd, dataFiles);
          && t' == renamed
          && r == if o.Pass? then Ok(ArtifactPath(outdir)) else Err(o.error))
  }

  /** The part of project_setup after the folder layout. */
  method PrepareSamples(fs: FileSystem, outdir: string, inputdir: string)
    returns (r: Result<string>, ghost inputFiles: seq<string>, ghost dict: Result<SampleDictionary>, ghost dataFiles: seq<string>)
    requires fs.Valid()
    modifies fs
    ensures fs.Valid()
    ensures StagedAsScripted(old(fs.tree), fs.tree, r, fs.cwd, outdir, inputdir, inputFiles, dict, dataFiles)
  {
    var d;
    d, inputFiles := GetSampleDictionary(fs, inputdir);
    dict := d;
    if d.Err? {
      return Err(d.error), inputFiles, dict, [];
    }
    SymlinkDictionary(fs, d.value, DataDir(outdir));
    var o;
    o, dataFiles := AppendDummyBarcodes(fs, DataDir(outdir));
    if o.Fail? {
      return Err(o.error), inputFiles, dict, dataFiles;
    }
    r := Ok(ArtifactPath(outdir));
  }

  /** `project_setup(outdir, inputdir)`: the folders first, then the
      dictionary, the links, the renaming and the import. */
  method ProjectSetup(fs: FileSystem, outdir: string, inputdir: string)
    returns (r: Result<string>, ghost inputFiles: seq<string>, ghost dict: Result<SampleDictionary>, ghost dataFiles: seq<string>)
    requires fs.Valid()
    modifies fs
    ensures fs.Valid()
    ensures var (o, t1) := FoldersAt(old(fs.tree), fs.cwd, outdir);
      && (o.Fail? ==> r == Err(o.error) && fs.tree == t1)
      && (o.Pass? ==> StagedAsScripted(t1, fs.tree, r, fs.cwd, outdir, inputdir, inputFiles, dict, dataFiles))
  {
    var o := CreateFolders(fs, outdir);
    if o.Fail? {
      return Err(o.error), [], Err(o.error), [];
    }
    r, inputFiles, dict, dataFiles := PrepareSamples(fs, outdir, inputdir);
  }

  // ---------------------------------------------------------------------
  // project_setup.py main

  /** How the entry point ends: quit() after logging, an uncaught
      exception, or running to the end. */
  datatype Exit = Quit | Raised(error: PyError) | Finished

  /** `main(inputdir, outdir)` of project_setup.py: quits only when both
      options are missing (the condition joins them with `and`); a missing outdir makes
      os.path.isdir raise TypeError; an existing outdir quits before
      anything is created; a missing inputdir raises TypeError once the
      folders exist. */
  method SetupMain(fs: FileSystem, inputdir: Option<string>, outdir: Option<string>)
    returns (exit: Exit, ghost r: Result<string>, ghost inputFiles: seq<string>, ghost dict: Result<SampleDictionary>, ghost dataFiles: seq<string>)
    requires fs.Valid()
    modifies fs
    ensures fs.Valid()
    ensures inputdir.None? && outdir.None? ==> exit == Quit && fs.tree == old(fs.tree)
    ensures inputdir.Some? && outdir.None? ==> exit == Raised(TypeError) && fs.tree == old(fs.tree)
    ensures outdir.Some? && OsIsDir(old(fs.tree), fs.cwd, outdir.value) ==>
      exit == Quit && fs.tree == old(fs.tree)
    ensures outdir.Some? && !OsIsDir(old(fs.tree), fs.cwd, outdir.value) ==>
      var (o, t1) := FoldersAt(old(fs.tree), fs.cwd, outdir.value);
      && (o.Fail? ==> exit == Raised(o.error) && fs.tree == t1)
      && (o.Pass? && inputdir.None? ==> exit == Raised(TypeError) && fs.tree == t1)
      && (o.Pass? && inputdir.Some? ==>
            && StagedAsScripted(t1, fs.tree, r, fs.cwd, outdir.value, inputdir.value, inputFiles, dict, dataFiles)
            && exit == if r.Ok? then Finished else Raised(r.error))
  {
    r, inputFiles, dict, dataFiles := Err(TypeError), [], Err(TypeError), [];
    if inputdir.None? && outdir.None? {
      return Quit, r, inputFiles, dict, dataFiles;
    }
    if outdir.None? {
      return Raised(TypeError), r, inputFiles, dict, dataFiles;
    }
    if fs.IsDir(outdir.value) {
      return Quit, r, inputFiles, dict, dataFiles;
    }
    var o := CreateFolders(fs, outdir.value);
    if o.Fail? {
      return Raised(o.error), r, inputFiles, dict, dataFiles;
    }
    if inputdir.None? {
      return Raised(TypeError), r, inputFiles, dict, dataFiles;
    }
    var result;
    result, inputFiles, dict, dataFiles := PrepareSamples(fs, outdir.value, inputdir.value);
    r := result;
    exit := if result.Ok? then Finished else Raised(result.error);
  }
}
