/** Inspection: the detailed report `inspect_package` gives about one installed
    package — its statistics, git checkout, important files, executable and the
    descriptor keys beyond the standard ones. */
module Inspector {
  import opened Common
  import opened JsonData
  import opened Shell
  import opened FileSystem
  import opened PackageStore
  import opened Git
  import opened Listing

  // ---------------------------------------------------------------------------
  // get_package_statistics
  // ---------------------------------------------------------------------------

  /** The `stats` dictionary. */
  datatype Stats = Stats(size: nat, fileCount: nat, installDate: string)

  /** The statistics of a package directory: every byte and every file the walk
      reaches, and the directory's creation time. */
  ghost function StatsOf(dir: PackageDir): Stats
  {
    Stats(TreeBytes(dir.tree), TreeFileCount(dir.tree), dir.created)
  }

  /** `get_package_statistics(package_path)` for the directory the path names. */
  method GetPackageStatistics(dir: PackageDir) returns (s: Stats)
    ensures s == StatsOf(dir)
  {
    var size := GetDirectorySize(Some(dir.tree));
    var count := GetFileCount(Some(dir.tree));
    s := Stats(size, count, dir.created);
  }

  /** An inspection reports the same size as the listing does for the package. */
  lemma StatsAgreeWithListing(d: Disk, name: string)
    requires Listed(d, name)
    ensures StatsOf(d.entries[name].dir).size == RecordOf(name, d.entries[name].dir).size
    ensures StatsOf(d.entries[name].dir).installDate == RecordOf(name, d.entries[name].dir).installDate
  {
  }

  // ---------------------------------------------------------------------------
  // get_package_contents
  // ---------------------------------------------------------------------------

  /** The files looked for, in the order they are reported. */
  const ImportantFiles: seq<string> := [DescriptorName, "README.md", "main.py", "setup.py", "requirements.txt"]

  /** One entry of `contents`. */
  datatype ContentEntry = ContentEntry(name: string, size: SizeLabel)

  /** The first file of the list with that name. */
  function FirstNamed(files: seq<FileInfo>, name: string): (r: Option<FileInfo>)
    ensures r.Some? <==> HasFile(files, name)
    ensures r.Some? ==> r.value.name == name && r.value in files
  {
    if files == [] then None
    else if files[0].name == name then Some(files[0])
    else
      assert forall i :: 1 <= i < |files| ==> files[i] == files[1..][i - 1];
      FirstNamed(files[1..], name)
  }

  /** The regular file `PACKAGES_DIR/pkg/item`, when there is one. */
  function FileAt(d: Disk, pkg: string, item: string): (r: Option<FileInfo>)
    ensures r.Some? <==> FileExists(d, InChild(pkg, item))
    ensures r.Some? ==> r.value.name == item
  {
    if IsDirectory(d, pkg) then FirstNamed(d.entries[pkg].dir.tree.files, item) else None
  }

  /** The contents report over `names`: every name that is a regular file in the
      package directory, in order, with its size; `os.path.getsize` raising on
      one of them raises out of the whole report. */
  ghost function ContentsOf(d: Disk, pkg: string, names: seq<string>): Attempt<seq<ContentEntry>>
    decreases |names|
  {
    if names == [] then Done([])
    else
      var n := |names| - 1;
      match ContentsOf(d, pkg, names[..n])
      case Raises => Raises
      case Done(found) =>
        match FileAt(d, pkg, names[n])
        case None => Done(found)
        case Some(f) =>
          if f.size.None? then Raises else Done(found + [ContentEntry(names[n], SizeLabelOf(f.size.value))])
  }

  /** Once a prefix of the names raises, the whole report does. */
  lemma {:induction false} RaisesPersists(d: Disk, pkg: string, names: seq<string>, k: nat)
    requires k <= |names| && ContentsOf(d, pkg, names[..k]).Raises?
    ensures ContentsOf(d, pkg, names).Raises?
    decreases |names|
  {
    if k < |names| {
      var n := |names| - 1;
      assert names[..n][..k] == names[..k];
      RaisesPersists(d, pkg, names[..n], k);
    } else {
      assert names[..k] == names;
    }
  }

  /** `get_package_contents(package_path)` for the package `pkg`. */
  method GetPackageContents(d: Disk, pkg: string) returns (r: Attempt<seq<ContentEntry>>)
    ensures r == ContentsOf(d, pkg, ImportantFiles)
  {
    var found: seq<ContentEntry> := [];
    for i := 0 to |ImportantFiles|
      invariant ContentsOf(d, pkg, ImportantFiles[..i]) == Done(found)
    {
      var file := ImportantFiles[i];
      assert ImportantFiles[..i + 1][..i] == ImportantFiles[..i];
      var entry := FileAt(d, pkg, file);
      if entry.Some? {
        if entry.value.size.None? {
          RaisesPersists(d, pkg, ImportantFiles, i + 1);
          return Raises;
        }
        var size := FormatSize(entry.value.size.value);
        found := found + [ContentEntry(file, size)];
      }
    }
    assert ImportantFiles[..|ImportantFiles|] == ImportantFiles;
    return Done(found);
  }

  /** The report raises iff one of the names is a regular file whose size
      cannot be read. */
  lemma {:induction false} ContentsRaises(d: Disk, pkg: string, names: seq<string>)
    ensures ContentsOf(d, pkg, names).Raises? <==>
              exists i :: 0 <= i < |names| && FileAt(d, pkg, names[i]).Some? && FileAt(d, pkg, names[i]).value.size.None?
    decreases |names|
  {
    if names != [] {
      var n := |names| - 1;
      ContentsRaises(d, pkg, names[..n]);
      assert forall i :: 0 <= i < n ==> names[..n][i] == names[i];
    }
  }

  /** One step of the report: the report over all names but the last, then
      the last name's entry if it is a regular file. */
  lemma ContentsStep(d: Disk, pkg: string, names: seq<string>)
    requires names != [] && ContentsOf(d, pkg, names).Done?
    ensures var n := |names| - 1;
      var file := FileAt(d, pkg, names[n]);
      && ContentsOf(d, pkg, names[..n]).Done?
      && (file.None? ==> ContentsOf(d, pkg, names).value == ContentsOf(d, pkg, names[..n]).value)
      && (file.Some? ==>
            && file.value.size.Some?
            && ContentsOf(d, pkg, names).value
               == ContentsOf(d, pkg, names[..n]).value + [ContentEntry(names[n], SizeLabelOf(file.value.size.value))])
  {
  }

  /** The names are the names before the last one and the last one. */
  lemma InLastOrBefore(names: seq<string>, x: string)
    requires names != []
    ensures x in names <==> x in names[..|names| - 1] || x == names[|names| - 1]
  {
    var n := |names| - 1;
    assert names == names[..n] + [names[n]];
  }

  /** Every entry names one of `names` that is a regular file with a readable
      size, and shows that size. */
  ghost predicate EntriesAreFiles(d: Disk, pkg: string, names: seq<string>, cs: seq<ContentEntry>)
  {
    forall i :: 0 <= i < |cs| ==>
      && cs[i].name in names && FileAt(d, pkg, cs[i].name).Some?
      && FileAt(d, pkg, cs[i].name).value.size.Some?
      && cs[i].size == SizeLabelOf(FileAt(d, pkg, cs[i].name).value.size.value)
  }

  /** Every one of `names` that is a regular file has an entry. */
  ghost predicate EntriesCoverFiles(d: Disk, pkg: string, names: seq<string>, cs: seq<ContentEntry>)
  {
    forall f :: f in names && FileAt(d, pkg, f).Some? ==> exists i :: 0 <= i < |cs| && cs[i].name == f
  }

  /** Each entry of a report that does not raise is a regular file among the
      names, with its formatted size; there are no more entries than names. */
  lemma {:induction false} ContentsAreFiles(d: Disk, pkg: string, names: seq<string>)
    ensures ContentsOf(d, pkg, names).Done? ==>
              && |ContentsOf(d, pkg, names).value| <= |names|
              && EntriesAreFiles(d, pkg, names, ContentsOf(d, pkg, names).value)
    decreases |names|
  {
    if names != [] && ContentsOf(d, pkg, names).Done? {
      var n := |names| - 1;
      ContentsStep(d, pkg, names);
      ContentsAreFiles(d, pkg, names[..n]);
      var cs := ContentsOf(d, pkg, names).value;
      var before := ContentsOf(d, pkg, names[..n]).value;
      forall i | 0 <= i < |cs|
        ensures && cs[i].name in names && FileAt(d, pkg, cs[i].name).Some?
                && FileAt(d, pkg, cs[i].name).value.size.Some?
                && cs[i].size == SizeLabelOf(FileAt(d, pkg, cs[i].name).value.size.value)
      {
        InLastOrBefore(names, cs[i].name);
        if i < |before| {
          assert cs[i] == before[i];
        }
      }
    }
  }

  /** Every name that is a regular file has an entry in a report that does not
      raise. */
  lemma {:induction false} ContentsCoverFiles(d: Disk, pkg: string, names: seq<string>)
    ensures ContentsOf(d, pkg, names).Done? ==>
              EntriesCoverFiles(d, pkg, names, ContentsOf(d, pkg, names).value)
    decreases |names|
  {
    if names != [] && ContentsOf(d, pkg, names).Done? {
      var n := |names| - 1;
      ContentsStep(d, pkg, names);
      ContentsCoverFiles(d, pkg, names[..n]);
      var cs := ContentsOf(d, pkg, names).value;
      var before := ContentsOf(d, pkg, names[..n]).value;
      forall f | f in names && FileAt(d, pkg, f).Some?
        ensures exists i :: 0 <= i < |cs| && cs[i].name == f
      {
        InLastOrBefore(names, f);
        if f == names[n] {
          assert cs[|cs| - 1].name == f;
        } else {
          var i :| 0 <= i < |before| && before[i].name == f;
          assert cs[i] == before[i];
        }
      }
    }
  }

  /** A report that does not raise holds exactly the names that are regular
      files, each with its formatted size. */
  lemma ContentsMembers(d: Disk, pkg: string, names: seq<string>)
    ensures ContentsOf(d, pkg, names).Done? ==>
              var cs := ContentsOf(d, pkg, names).value;
              && |cs| <= |names|
              && EntriesAreFiles(d, pkg, names, cs)
              && EntriesCoverFiles(d, pkg, names, cs)
  {
    ContentsAreFiles(d, pkg, names);
    ContentsCoverFiles(d, pkg, names);
  }

  /** The index of the first occurrence of `x`. */
  function Position(names: seq<string>, x: string): (i: nat)
    requires x in names
    ensures i < |names| && names[i] == x
    ensures forall j :: 0 <= j < i ==> names[j] != x
  {
    if names[0] == x then 0
    else
      assert x in names[1..];
      1 + Position(names[1..], x)
  }

  /** The first occurrence in a prefix is the first occurrence in the whole. */
  lemma PositionPrefix(names: seq<string>, k: nat, x: string)
    requires k <= |names| && x in names[..k]
    ensures x in names && Position(names, x) == Position(names[..k], x)
  {
    var p := Position(names[..k], x);
    assert names[p] == x;
  }

  ghost predicate NoDuplicates(names: seq<string>)
  {
    forall i, j :: 0 <= i < j < |names| ==> names[i] != names[j]
  }

  /** The entries come in the order of their names in `names`. */
  ghost predicate InNamesOrder(names: seq<string>, cs: seq<ContentEntry>)
  {
    forall i, j :: 0 <= i < j < |cs| ==>
      cs[i].name in names && cs[j].name in names && Position(names, cs[i].name) < Position(names, cs[j].name)
  }

  /** The report keeps the order of the names it looks for. */
  lemma {:induction false} ContentsOrder(d: Disk, pkg: string, names: seq<string>)
    requires NoDuplicates(names)
    ensures ContentsOf(d, pkg, names).Done? ==> InNamesOrder(names, ContentsOf(d, pkg, names).value)
    decreases |names|
  {
    if names != [] && ContentsOf(d, pkg, names).Done? {
      var n := |names| - 1;
      var cs := ContentsOf(d, pkg, names).value;
      var before := ContentsOf(d, pkg, names[..n]).value;
      ContentsStep(d, pkg, names);
      assert NoDuplicates(names[..n]);
      ContentsOrder(d, pkg, names[..n]);
      ContentsAreFiles(d, pkg, names[..n]);
      forall i, j | 0 <= i < j < |cs|
        ensures cs[i].name in names && cs[j].name in names
        ensures Position(names, cs[i].name) < Position(names, cs[j].name)
      {
        assert cs[i] == before[i];
        PositionPrefix(names, n, cs[i].name);
        if j < |before| {
          assert cs[j] == before[j];
          PositionPrefix(names, n, cs[j].name);
        } else {
          assert cs[j].name == names[n];
          assert Position(names, cs[i].name) < n;
        }
      }
    }
  }

  /** In an installed package's report the descriptor always comes first. */
  lemma DescriptorFirst(d: Disk, pkg: string)
    requires ValidDisk(d) && Listed(d, pkg)
    ensures ContentsOf(d, pkg, ImportantFiles).Done? ==>
              var cs := ContentsOf(d, pkg, ImportantFiles).value;
              cs != [] && cs[0].name == DescriptorName
  {
    if ContentsOf(d, pkg, ImportantFiles).Done? {
      var cs := ContentsOf(d, pkg, ImportantFiles).value;
      assert ImportantFiles[0] == DescriptorName;
      assert FileAt(d, pkg, DescriptorName).Some?;
      ContentsCoverFiles(d, pkg, ImportantFiles);
      var k :| 0 <= k < |cs| && cs[k].name == DescriptorName;
      ImportantFilesDistinct();
      ContentsOrder(d, pkg, ImportantFiles);
      FirstNameLeads(ImportantFiles, cs, k);
    }
  }

  /** In entries that follow the order of `names`, an entry for the first name
      can only stand at the front. */
  lemma FirstNameLeads(names: seq<string>, cs: seq<ContentEntry>, k: nat)
    requires names != [] && InNamesOrder(names, cs)
    requires k < |cs| && cs[k].name == names[0]
    ensures k == 0
  {
    var first := cs[0];
    assert Position(names, names[0]) == 0;
  }

  /** The important files all differ: their first characters already do. */
  lemma ImportantFilesDistinct()
    ensures NoDuplicates(ImportantFiles)
  {
    var f := ImportantFiles;
    assert f[0][0] == '.' && f[1][0] == 'R' && f[2][0] == 'm' && f[3][0] == 's' && f[4][0] == 'r';
    forall i, j | 0 <= i < j < |f| ensures f[i] != f[j] {
      assert f[i][0] != f[j][0];
    }
  }

  // ---------------------------------------------------------------------------
  // inspect_package
  // ---------------------------------------------------------------------------

  /** The keys every descriptor may hold; the report lists the others apart. */
  const StandardFields: set<string> := {"installType", "entryPoint", "installExecutablePath", "uninstallCommands"}

  /** `additional_metadata`: the descriptor without its standard keys. */
  function AdditionalMetadata(m: map<string, Json>): (r: map<string, Json>)
    ensures r.Keys == m.Keys - StandardFields
    ensures forall k :: k in r ==> r[k] == m[k]
  {
    map k | k in m && k !in StandardFields :: m[k]
  }

  /** Filtering twice is filtering once, a descriptor without standard keys is
      kept whole, and the filtered keys and the standard ones make up the
      descriptor again. */
  lemma AdditionalMetadataFilter(m: map<string, Json>)
    ensures AdditionalMetadata(AdditionalMetadata(m)) == AdditionalMetadata(m)
    ensures m.Keys !! StandardFields ==> AdditionalMetadata(m) == m
    ensures AdditionalMetadata(m).Keys + (m.Keys * StandardFields) == m.Keys
    ensures AdditionalMetadata(m).Keys !! StandardFields
  {
    var r := AdditionalMetadata(m);
    assert r.Keys == AdditionalMetadata(r).Keys;
    if m.Keys !! StandardFields {
      assert r.Keys == m.Keys;
    }
  }

  /** The `data` dictionary of a completed inspection. */
  datatype Inspection = Inspection(
    name: string,
    path: string,
    installType: Json,
    stats: Stats,
    metadata: map<string, Json>,
    gitInfo: Option<GitInfo>,
    contents: seq<ContentEntry>,
    executableStatus: Option<ExecutableInfo>,
    additionalMetadata: map<string, Json>)

  /** The triple `(success, message, data)`. */
  datatype InspectResult = InspectResult(success: bool, message: string, data: Option<Inspection>)

  const InspectedMessage := "Package inspection completed"

  /** The message of the handler around the inspection; the exception's text is
      not modelled. */
  const InspectErrorMessage := "Unexpected error during inspection"

  /** `inspect_package(name)` on disk `d` started after history `h`: the git
      processes started and the result. The git queries run before the contents
      and the executable are looked at, so they are started even when one of
      those raises. */
  ghost function InspectSpec(o: Oracle, h: seq<Process>, d: Disk, name: string): (seq<Process>, InspectResult)
  {
    if !Listed(d, name) then ([], InspectResult(false, NotInstalledMessage(name), None))
    else
      var dir := d.entries[name].dir;
      var record := RecordOf(name, dir);
      if record.metadata.None? || record.metadata.value == map[] then
        ([], InspectResult(false, NoMetadataMessage(name), None))
      else
        var m := record.metadata.value;
        var git := GitInfoSpec(o, h, record.path, IsGitRepository(d, name));
        var contents := ContentsOf(d, name, ImportantFiles);
        var executable := ExecutableInfoOf(d, m);
        if contents.Raises? || executable.Raises? then (git.0, InspectResult(false, InspectErrorMessage, None))
        else
          (git.0, InspectResult(true, InspectedMessage,
            Some(Inspection(name, record.path, Get(m, "installType", Str("Unknown")), StatsOf(dir), m, git.1,
                            contents.value, executable.value, AdditionalMetadata(m)))))
  }

  /** An inspection succeeds iff the package is listed with a non-empty
      descriptor object, its important files can be measured and its executable
      path can be looked up. A successful report names the package, echoes its
      descriptor, defaults the type to `"Unknown"`, has an executable status iff
      the descriptor declares an executable with a path, lists the descriptor
      first among the files and keeps exactly the non-standard keys apart. */
  lemma InspectOutcome(o: Oracle, h: seq<Process>, d: Disk, name: string)
    requires ValidDisk(d)
    ensures var (started, r) := InspectSpec(o, h, d, name);
      && (!Listed(d, name) ==> started == [] && r == InspectResult(false, NotInstalledMessage(name), None))
      && (r.success <==>
            && Listed(d, name)
            && RecordOf(name, d.entries[name].dir).metadata.Some?
            && RecordOf(name, d.entries[name].dir).metadata.value != map[]
            && ContentsOf(d, name, ImportantFiles).Done?
            && ExecutableInfoOf(d, RecordOf(name, d.entries[name].dir).metadata.value).Done?)
      && (r.data.Some? <==> r.success)
      && (r.success ==>
            var m := RecordOf(name, d.entries[name].dir).metadata.value;
            var data := r.data.value;
            && r.message == InspectedMessage
            && data.name == name && data.path == PackagePath(name) && data.metadata == m
            && data.installType == Get(m, "installType", Str("Unknown"))
            && data.stats.size == RecordOf(name, d.entries[name].dir).size
            && (data.executableStatus.Some? <==>
                  Get(m, "installType", Null) == Str("executable") && "installExecutablePath" in m)
            && (data.executableStatus.Some? ==> m["installExecutablePath"] == Str(data.executableStatus.value.path))
            && data.contents != [] && data.contents[0].name == DescriptorName
            && data.additionalMetadata.Keys == m.Keys - StandardFields
            && started == GitInfoSpec(o, h, PackagePath(name), IsGitRepository(d, name)).0)
  {
    if Listed(d, name) {
      DescriptorFirst(d, name);
    }
  }

  /** `inspect_package(package_name)`. */
  method InspectPackage(sh: Runner, d: Disk, name: string) returns (r: InspectResult)
    requires ValidDisk(d)
    modifies sh
    ensures var spec := InspectSpec(sh.oracle, old(sh.history), d, name);
      sh.history == old(sh.history) + spec.0 && r == spec.1
  {
    var package := GetPackageByName(d, name);
    if package.None? {
      return InspectResult(false, NotInstalledMessage(name), None);
    }
    var path := package.value.path;
    var metadata := package.value.metadata;
    if metadata.None? || metadata.value == map[] {
      return InspectResult(false, NoMetadataMessage(name), None);
    }
    var m := metadata.value;
    var stats := GetPackageStatistics(d.entries[name].dir);
    var gitInfo := GetGitInfo(sh, d, name);
    var contents := GetPackageContents(d, name);
    if contents.Raises? {
      return InspectResult(false, InspectErrorMessage, None);
    }
    var executable := ExecutableInfoOf(d, m);
    if executable.Raises? {
      return InspectResult(false, InspectErrorMessage, None);
    }
    var data := Inspection(name, path, Get(m, "installType", Str("Unknown")), stats, m, gitInfo,
                           contents.value, executable.value, AdditionalMetadata(m));
    return InspectResult(true, InspectedMessage, Some(data));
  }
}
