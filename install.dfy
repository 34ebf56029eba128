/** Installation from a git repository: derive the package id from the URL,
    make sure the packages root exists, clear the destination, clone, validate
    the descriptor, run its `entryPoint` commands in the package directory and,
    for an executable, make its installed path executable. Every failure after
    the clone removes the cloned directory again. */
module Installer {
  import opened Common
  import opened JsonData
  import opened Shell
  import opened FileSystem
  import opened PackageStore
  import opened Git

  /** A repository URL and the path component `urlparse` finds in it. */
  datatype RepoUrl = RepoUrl(text: string, path: string)

  /** The triple `(success, message, package_name)`. */
  datatype InstallResult = InstallResult(success: bool, message: string, packageId: Option<string>)

  function Failure(message: string): InstallResult
  {
    InstallResult(false, message, None)
  }

  // ---------------------------------------------------------------------------
  // install_package_from_metadata
  // ---------------------------------------------------------------------------

  /** The descriptor fields `install_package_from_metadata` indexes. */
  predicate Installable(m: map<string, Json>)
  {
    "installType" in m && "entryPoint" in m && m["entryPoint"].Arr?
  }

  /** The shell line that makes an installed executable executable; it runs in
      the caller's working directory. */
  function ChmodLine(m: map<string, Json>): Process
    requires "installExecutablePath" in m
  {
    ShellLine(Str("sudo chmod +x " + Show(m["installExecutablePath"])), None)
  }

  /** `install_package_from_metadata` started after history `h`: the processes
      started and the verdict. */
  ghost function InstallFromMetadataSpec(o: Oracle, h: seq<Process>, dest: string, m: map<string, Json>)
    : (r: (seq<Process>, bool))
    requires Installable(m)
  {
    var entry := FailFast(o, h, m["entryPoint"].items, Some(dest));
    if !entry.1 then entry
    else if m["installType"] == Str("executable") && "installExecutablePath" in m then
      (entry.0 + [ChmodLine(m)], Succeeded(o(h + entry.0, ChmodLine(m))))
    else entry
  }

  /** The entry commands run in order in the package directory and the install
      succeeds iff all of them succeed and, for an executable with an install
      path, the `chmod` line that follows them succeeds too. */
  lemma InstallFromMetadataOutcome(o: Oracle, h: seq<Process>, dest: string, m: map<string, Json>)
    requires Installable(m)
    ensures var entry := FailFast(o, h, m["entryPoint"].items, Some(dest));
      var r := InstallFromMetadataSpec(o, h, dest, m);
      var chmod := m["installType"] == Str("executable") && "installExecutablePath" in m;
      && |entry.0| <= |m["entryPoint"].items|
      && entry.0 == Lines(m["entryPoint"].items[..|entry.0|], Some(dest))
      && r.0[..|entry.0|] == entry.0
      && (r.1 <==>
            && |entry.0| == |m["entryPoint"].items|
            && AllSucceeded(o, h, entry.0)
            && (chmod ==> Succeeded(o(h + entry.0, ChmodLine(m)))))
      && (|r.0| > |entry.0| <==> entry.1 && chmod)
  {
    var cmds := m["entryPoint"].items;
    FailFastRunsInOrder(o, h, cmds, Some(dest));
    FailFastVerdict(o, h, cmds, Some(dest));
    var entry := FailFast(o, h, cmds, Some(dest));
    var r := InstallFromMetadataSpec(o, h, dest, m);
    if entry.1 && m["installType"] == Str("executable") && "installExecutablePath" in m {
      assert r.0 == entry.0 + [ChmodLine(m)];
      assert r.0[..|entry.0|] == entry.0;
    }
  }

  /** `install_package_from_metadata(package_dir, metadata)`. */
  method InstallPackageFromMetadata(sh: Runner, dest: string, m: map<string, Json>) returns (ok: bool)
    requires Installable(m)
    modifies sh
    ensures var spec := InstallFromMetadataSpec(sh.oracle, old(sh.history), dest, m);
      sh.history == old(sh.history) + spec.0 && ok == spec.1
  {
    ghost var h := sh.history;
    ok := RunFailFast(sh, m["entryPoint"].items, Some(dest));
    if !ok {
      return;
    }
    if m["installType"] == Str("executable") && "installExecutablePath" in m {
      var command := Str("sudo chmod +x " + Show(m["installExecutablePath"]));
      ok := RunSilentCommand(sh, command, None);
      AppendAssoc(h, FailFast(sh.oracle, h, m["entryPoint"].items, Some(dest)).0, [ChmodLine(m)]);
    }
  }

  // ---------------------------------------------------------------------------
  // install_package_from_git, as corrected
  // ---------------------------------------------------------------------------

  /** What an installation does: the new filesystem, the processes started and
      the result. */
  datatype Installation = Installation(disk: Disk, started: seq<Process>, result: InstallResult)

  const InvalidIdMessage := "Invalid package id"
  const RootFailureMessage := "Failed to create packages directory. Check permissions."
  const ClearFailureMessage := "Failed to remove existing package installation"
  const DownloadFailureMessage := "Failed to download package: "
  const InstallFailureMessage := "Package installation failed"

  function SuccessMessage(id: string): string
  {
    "Package '" + id + "' installed successfully"
  }

  /** Steps 59-62: remove whatever exists at the destination. */
  function ClearDestination(d: Disk, perms: Permissions, id: string): (r: (Disk, bool))
    ensures r.1 ==> id !in r.0.entries
    ensures forall n :: n in d.entries && n != id ==> n in r.0.entries && r.0.entries[n] == d.entries[n]
    ensures r.0.rootExists == d.rootExists && r.0.external == d.external
    ensures !r.1 ==> r.0 == d
  {
    if PathExists(d, Child(id)) then RemoveDirectory(d, perms, id) else (d, true)
  }

  /** `install_package_from_git` started on disk `d` after history `h`, where a
      successful `git clone` leaves the directory `fetched`. The package id must
      name a child of the packages root; the source does not check this (see
      `JoinRoot`). */
  ghost function InstallSpec(o: Oracle, h: seq<Process>, d: Disk, perms: Permissions, url: RepoUrl, fetched: PackageDir)
    : (r: Installation)
    requires WellFormedDir(fetched)
  {
    var id := ExtractPackageId(url.path);
    if !ChildName(id) then Installation(d, [], Failure(InvalidIdMessage))
    else
      var root := CreateRoot(d, perms);
      if !root.1 then Installation(root.0, [], Failure(RootFailureMessage))
      else
        var cleared := ClearDestination(root.0, perms, id);
        if !cleared.1 then Installation(cleared.0, [], Failure(ClearFailureMessage))
        else CloneSpec(o, h, cleared.0, perms, url.text, id, fetched)
  }

  /** From the clone on (lines 65-94), on a disk whose destination is clear. */
  ghost function CloneSpec(o: Oracle, h: seq<Process>, d: Disk, perms: Permissions, text: string, id: string, fetched: PackageDir)
    : (r: Installation)
    requires WellFormedDir(fetched)
  {
    var clone := GitClone(text, PackagePath(id));
    if !Succeeded(o(h, clone)) then Installation(d, [clone], Failure(DownloadFailureMessage))
    else
      var rest := SetUpSpec(o, h + [clone], d.(entries := d.entries[id := Directory(fetched)]), perms, id, fetched);
      Installation(rest.disk, [clone] + rest.started, rest.result)
  }

  /** From the validation on (lines 71-94), with the clone placed under `id`. */
  ghost function SetUpSpec(o: Oracle, h: seq<Process>, placed: Disk, perms: Permissions, id: string, fetched: PackageDir)
    : (r: Installation)
    requires WellFormedDir(fetched)
  {
    var check := ValidateMetadataFile(fetched.descriptor);
    if check.Fail? then
      Installation(RemoveDirectory(placed, perms, id).0, [],
                   Failure("Invalid package metadata: " + Message(check.error)))
    else
      var m := fetched.descriptor.value.json.fields;
      var run := InstallFromMetadataSpec(o, h, PackagePath(id), m);
      if !run.1 then Installation(RemoveDirectory(placed, perms, id).0, run.0, Failure(InstallFailureMessage))
      else Installation(placed, run.0, InstallResult(true, SuccessMessage(id), Some(id)))
  }

  /** Between two disks only the entry `id` of the root may differ, and no
      file outside the root. */
  ghost predicate OnlyIdChanged(before: Disk, after: Disk, id: string)
  {
    && after.external == before.external
    && (forall n :: n in before.entries && n != id ==> n in after.entries && after.entries[n] == before.entries[n])
    && (forall n :: n in after.entries && n != id ==> n in before.entries)
  }

  /** From the clone on, only the package's own directory changes. */
  lemma CloneKeepsOthers(o: Oracle, h: seq<Process>, d: Disk, perms: Permissions, text: string, id: string, fetched: PackageDir)
    requires WellFormedDir(fetched)
    ensures CloneSpec(o, h, d, perms, text, id, fetched).disk.rootExists == d.rootExists
    ensures OnlyIdChanged(d, CloneSpec(o, h, d, perms, text, id, fetched).disk, id)
  {
    var clone := GitClone(text, PackagePath(id));
    if Succeeded(o(h, clone)) {
      var placed := d.(entries := d.entries[id := Directory(fetched)]);
      var rest := SetUpSpec(o, h + [clone], placed, perms, id, fetched);
      assert CloneSpec(o, h, d, perms, text, id, fetched).disk == rest.disk;
      assert rest.disk == placed || rest.disk == RemoveDirectory(placed, perms, id).0;
    }
  }

  /** What the installation from the clone on does, on a root that exists and
      holds nothing under `id`. */
  lemma CloneSpecFacts(o: Oracle, h: seq<Process>, d: Disk, perms: Permissions, text: string, id: string, fetched: PackageDir)
    requires WellFormedDir(fetched) && d.rootExists && id !in d.entries
    ensures var r := CloneSpec(o, h, d, perms, text, id, fetched);
      var clone := GitClone(text, PackagePath(id));
      && |r.started| > 0 && r.started[0] == clone
      && (|r.started| > 1 ==> ValidateMetadataFile(fetched.descriptor).Pass? && Succeeded(o(h, clone)))
      && (!r.result.success ==> r.result.packageId.None? && (id !in r.disk.entries || id in perms.pinned))
      && (r.result.success ==>
            && r.result == InstallResult(true, SuccessMessage(id), Some(id))
            && id in r.disk.entries && r.disk.entries[id] == Directory(fetched)
            && ValidateMetadataFile(fetched.descriptor).Pass?
            && Succeeded(o(h, clone))
            && AllSucceeded(o, h + [clone],
                            FailFast(o, h + [clone], fetched.descriptor.value.json.fields["entryPoint"].items,
                                     Some(PackagePath(id))).0))
  {
    var clone := GitClone(text, PackagePath(id));
    if Succeeded(o(h, clone)) {
      var placed := d.(entries := d.entries[id := Directory(fetched)]);
      var check := ValidateMetadataFile(fetched.descriptor);
      if check.Pass? {
        var m := fetched.descriptor.value.json.fields;
        InstallFromMetadataOutcome(o, h + [clone], PackagePath(id), m);
        var run := InstallFromMetadataSpec(o, h + [clone], PackagePath(id), m);
        if !run.1 {
          assert RemoveDirectory(placed, perms, id).0.entries == d.entries || id in perms.pinned;
        }
      } else {
        assert RemoveDirectory(placed, perms, id).0.entries == d.entries || id in perms.pinned;
      }
    }
  }

  /** An installation changes no other package, no file outside the root, and
      never removes the root; an invalid id changes nothing and starts nothing. */
  lemma InstallKeepsOtherPackages(o: Oracle, h: seq<Process>, d: Disk, perms: Permissions, url: RepoUrl, fetched: PackageDir)
    requires WellFormedDir(fetched)
    ensures var id := ExtractPackageId(url.path);
      var r := InstallSpec(o, h, d, perms, url, fetched);
      && OnlyIdChanged(d, r.disk, id)
      && (d.rootExists ==> r.disk.rootExists)
      && (!ChildName(id) ==> r.disk == d && r.started == [])
  {
    var id := ExtractPackageId(url.path);
    if ChildName(id) {
      var root := CreateRoot(d, perms);
      if root.1 {
        var cleared := ClearDestination(root.0, perms, id);
        if cleared.1 {
          CloneKeepsOthers(o, h, cleared.0, perms, url.text, id, fetched);
        }
      }
    }
  }

  /** A successful installation leaves the validated package under its id, where
      the store lists it with its descriptor, after the clone and every entry
      command succeeded; it reports that id. */
  lemma InstallSuccess(o: Oracle, h: seq<Process>, d: Disk, perms: Permissions, url: RepoUrl, fetched: PackageDir)
    requires WellFormedDir(fetched)
    ensures var id := ExtractPackageId(url.path);
      var r := InstallSpec(o, h, d, perms, url, fetched);
      var clone := GitClone(url.text, PackagePath(id));
      r.result.success ==>
        && ChildName(id)
        && r.result == InstallResult(true, SuccessMessage(id), Some(id))
        && r.disk.rootExists
        && Listed(r.disk, id) && r.disk.entries[id] == Directory(fetched)
        && ValidateMetadataFile(fetched.descriptor).Pass?
        && r.started[0] == clone && Succeeded(o(h, clone))
        && AllSucceeded(o, h + [clone],
                        FailFast(o, h + [clone], fetched.descriptor.value.json.fields["entryPoint"].items,
                                 Some(PackagePath(id))).0)
  {
    var id := ExtractPackageId(url.path);
    if ChildName(id) {
      var root := CreateRoot(d, perms);
      if root.1 {
        var cleared := ClearDestination(root.0, perms, id);
        if cleared.1 {
          CloneSpecFacts(o, h, cleared.0, perms, url.text, id, fetched);
          CloneKeepsOthers(o, h, cleared.0, perms, url.text, id, fetched);
        }
      }
    }
  }

  /** A failed installation reports no id, and it either left every entry of the
      root as it was or left nothing under the package's id, unless the
      package directory could not be removed. A package that was installed and
      may be removed is gone after a failed reinstall: the old directory goes
      before the clone, the new one after the failure. Without a root that may
      be created nothing starts and nothing changes. */
  lemma InstallFailureLeavesNoPackage(o: Oracle, h: seq<Process>, d: Disk, perms: Permissions, url: RepoUrl, fetched: PackageDir)
    requires WellFormedDir(fetched) && ValidDisk(d)
    ensures var id := ExtractPackageId(url.path);
      var r := InstallSpec(o, h, d, perms, url, fetched);
      !r.result.success ==>
        && r.result.packageId.None?
        && (r.disk.entries == d.entries || id !in r.disk.entries || id in perms.pinned)
        && (IsDirectory(d, id) && id !in perms.pinned ==> id !in r.disk.entries)
    ensures var id := ExtractPackageId(url.path);
      ChildName(id) && !d.rootExists && !perms.canCreateRoot ==>
        InstallSpec(o, h, d, perms, url, fetched) == Installation(d, [], Failure(RootFailureMessage))
  {
    var id := ExtractPackageId(url.path);
    if ChildName(id) {
      var root := CreateRoot(d, perms);
      if root.1 {
        var cleared := ClearDestination(root.0, perms, id);
        if cleared.1 {
          CloneSpecFacts(o, h, cleared.0, perms, url.text, id, fetched);
        }
      }
    }
  }

  /** Nothing runs before the clone, and no command of the descriptor runs
      unless the clone succeeded and the descriptor validated. */
  lemma InstallRunsCommandsOnlyAfterValidation(o: Oracle, h: seq<Process>, d: Disk, perms: Permissions, url: RepoUrl, fetched: PackageDir)
    requires WellFormedDir(fetched)
    ensures var id := ExtractPackageId(url.path);
      var r := InstallSpec(o, h, d, perms, url, fetched);
      && (|r.started| > 0 ==> r.started[0] == GitClone(url.text, PackagePath(id)))
      && (|r.started| > 1 ==> ValidateMetadataFile(fetched.descriptor).Pass? && Succeeded(o(h, r.started[0])))
  {
    var id := ExtractPackageId(url.path);
    if ChildName(id) {
      var root := CreateRoot(d, perms);
      if root.1 {
        var cleared := ClearDestination(root.0, perms, id);
        if cleared.1 {
          CloneSpecFacts(o, h, cleared.0, perms, url.text, id, fetched);
        }
      }
    }
  }

  /** `install_package_from_git(repo_url)`, with the package id checked first. */
  method InstallPackageFromGit(fs: Volume, sh: Runner, url: RepoUrl, fetched: PackageDir) returns (r: InstallResult)
    requires fs.Valid() && WellFormedDir(fetched)
    modifies fs, sh
    ensures fs.Valid()
    ensures var spec := InstallSpec(sh.oracle, old(sh.history), old(fs.State()), fs.perms, url, fetched);
      fs.State() == spec.disk && sh.history == old(sh.history) + spec.started && r == spec.result
  {
    var id := ExtractPackageId(url.path);
    if !ChildName(id) {
      return Failure(InvalidIdMessage);
    }
    var created := fs.SafeCreateDirectory();
    if !created {
      return Failure(RootFailureMessage);
    }
    var cleared := true;
    if PathExists(fs.State(), Child(id)) {
      cleared := fs.SafeRemoveDirectory(id);
    }
    if !cleared {
      return Failure(ClearFailureMessage);
    }
    r := CloneAndSetUp(fs, sh, url.text, id, fetched);
  }

  /** Lines 65-94 of the installer. */
  method CloneAndSetUp(fs: Volume, sh: Runner, text: string, id: string, fetched: PackageDir) returns (r: InstallResult)
    requires fs.Valid() && fs.State().rootExists && ChildName(id) && WellFormedDir(fetched)
    modifies fs, sh
    ensures fs.Valid()
    ensures var spec := CloneSpec(sh.oracle, old(sh.history), old(fs.State()), fs.perms, text, id, fetched);
      fs.State() == spec.disk && sh.history == old(sh.history) + spec.started && r == spec.result
  {
    ghost var h := sh.history;
    var clone := GitClone(text, PackagePath(id));
    var e := sh.Spawn(clone);
    if !Succeeded(e) {
      return Failure(DownloadFailureMessage);
    }
    fs.PlaceClone(id, fetched);
    ghost var rest := SetUpSpec(sh.oracle, h + [clone], fs.State(), fs.perms, id, fetched);
    r := SetUp(fs, sh, id, fetched);
    AppendAssoc(h, [clone], rest.started);
  }

  /** Lines 71-94 of the installer. */
  method SetUp(fs: Volume, sh: Runner, id: string, fetched: PackageDir) returns (r: InstallResult)
    requires fs.Valid() && WellFormedDir(fetched) && IsDirectory(fs.State(), id)
    requires fs.entries[id] == Directory(fetched)
    modifies fs, sh
    ensures fs.Valid()
    ensures var spec := SetUpSpec(sh.oracle, old(sh.history), old(fs.State()), fs.perms, id, fetched);
      fs.State() == spec.disk && sh.history == old(sh.history) + spec.started && r == spec.result
  {
    var check := ValidateMetadataFile(fetched.descriptor);
    if check.Fail? {
      var _ := fs.SafeRemoveDirectory(id);
      return Failure("Invalid package metadata: " + Message(check.error));
    }
    // The descriptor was just validated, so loading it gives that object.
    ValidatedLoads(fs.State(), id);
    var metadata := LoadPackageMetadata(fs.State(), id);
    var m := metadata.value.fields;
    var ok := InstallPackageFromMetadata(sh, PackagePath(id), m);
    if !ok {
      var _ := fs.SafeRemoveDirectory(id);
      return Failure(InstallFailureMessage);
    }
    return InstallResult(true, SuccessMessage(id), Some(id));
  }

  // ---------------------------------------------------------------------------
  // The destination as the source computes it
  // ---------------------------------------------------------------------------

  /** Steps 59-62 as written: `os.path.exists(package_dest)` then `rmtree`. With
      the root as destination, every package goes (the root is rebuilt by the
      clone only); an entry whose removal raises stops `rmtree`, and the model
      then keeps the disk as it was. For the id `.` the destination is
      `PACKAGES_DIR/.`: `rmtree` empties the root, then fails to remove a path
      whose last component is `.`, so the root stays, empty, and clearing
      reports failure. For the id `..` the destination is `PACKAGES_DIR/..`,
      which is `/opt` and exists whenever the root does: `rmtree` deletes the
      root with every package and every file under `/opt`, then fails to remove
      a path that no longer resolves, so clearing reports failure. */
  ghost function ClearDestinationAsWritten(d: Disk, perms: Permissions, id: string): (r: (Disk, bool))
    requires '/' !in id
  {
    match JoinRoot(id)
    case Child(n) => ClearDestination(d, perms, n)
    case RootDir =>
      if !d.rootExists then (d, true)
      else if d.entries.Keys * perms.pinned != {} then (d, false)
      else if id == "." then (d.(entries := map[]), false)
      else (d.(rootExists := false, entries := map[]), true)
    case Elsewhere(_) =>
      if !d.rootExists then (d, true)
      else if d.entries.Keys * perms.pinned != {} || ParentPinned(d, perms) then (d, false)
      else (Disk(false, map[], set p | p in d.external && !UnderParent(p)), false)
  }

  /** A path lying under `/opt`, the parent of the packages root. */
  predicate UnderParent(path: string)
  {
    ParentDir + "/" <= path
  }

  /** Some file under `/opt` may not be removed, so `rmtree` of `/opt` raises. */
  predicate ParentPinned(d: Disk, perms: Permissions)
  {
    exists p :: p in d.external && p in perms.pinnedFiles && UnderParent(p)
  }

  /** A URL whose path is `/..` gives the id `..`, and the source then deletes
      the packages root, every installed package and every file under `/opt`
      before it stops with a failure. */
  lemma DotDotIdWipesParentAsWritten(d: Disk, perms: Permissions, path: string)
    requires d.rootExists && d.entries.Keys * perms.pinned == {} && !ParentPinned(d, perms)
    ensures ExtractPackageId("/..") == ".." && JoinRoot("..") == Elsewhere(ParentDir)
    ensures !ClearDestinationAsWritten(d, perms, ExtractPackageId("/..")).1
    ensures !ClearDestinationAsWritten(d, perms, ExtractPackageId("/..")).0.rootExists
    ensures ClearDestinationAsWritten(d, perms, ExtractPackageId("/..")).0.entries == map[]
    ensures path in ClearDestinationAsWritten(d, perms, ExtractPackageId("/..")).0.external
      <==> path in d.external && !UnderParent(path)
  {
    DotDotId();
  }

  /** With the id checked first, the URL path `/..` is refused as well and
      neither the packages root nor `/opt` is touched. */
  lemma DotDotIdRefused(o: Oracle, h: seq<Process>, d: Disk, perms: Permissions, text: string, fetched: PackageDir)
    requires WellFormedDir(fetched)
    ensures InstallSpec(o, h, d, perms, RepoUrl(text, "/.."), fetched) == Installation(d, [], Failure(InvalidIdMessage))
  {
    DotDotId();
  }

  lemma DotDotId()
    ensures ExtractPackageId("/..") == ".."
  {
    StripSlashDotDot();
    LastPieceDotDot();
  }

  lemma StripSlashDotDot()
    ensures Strip("/..", {'/'}) == ".."
  {
    StripExact("/", "..", "", {'/'});
    assert "/" + ".." + "" == "/..";
  }

  lemma LastPieceDotDot()
    ensures LastPiece("..", '/') == ".."
  {
    assert ".."[1..] == "." && "."[1..] == "" && Split("", '/') == [""];
    assert Split(".", '/') == [['.'] + ""];
    assert ['.'] + "" == "." && ['.'] + "." == "..";
    assert Split("..", '/') == [['.'] + Split(".", '/')[0]] + Split(".", '/')[1..];
  }

  /** A URL whose path is `/.` gives the id `.`, and the source then empties
      the packages root before it stops with a failure. */
  lemma DotIdEmptiesRootAsWritten(d: Disk, perms: Permissions)
    requires d.rootExists && d.entries.Keys * perms.pinned == {}
    ensures ExtractPackageId("/.") == "."
    ensures ClearDestinationAsWritten(d, perms, ExtractPackageId("/.")) == (d.(entries := map[]), false)
  {
    DotId();
  }

  /** With the id checked first, the URL path `/.` is refused as well and the
      packages root is left as it is. */
  lemma DotIdRefused(o: Oracle, h: seq<Process>, d: Disk, perms: Permissions, text: string, fetched: PackageDir)
    requires WellFormedDir(fetched)
    ensures InstallSpec(o, h, d, perms, RepoUrl(text, "/."), fetched) == Installation(d, [], Failure(InvalidIdMessage))
  {
    DotId();
  }

  lemma DotId()
    ensures ExtractPackageId("/.") == "."
  {
    StripSlashDot();
    LastPieceDot();
  }

  lemma StripSlashDot()
    ensures Strip("/.", {'/'}) == "."
  {
    StripExact("/", ".", "", {'/'});
    assert "/" + "." + "" == "/.";
  }

  lemma LastPieceDot()
    ensures LastPiece(".", '/') == "."
  {
    assert "."[1..] == "" && Split("", '/') == [""];
    assert Split(".", '/') == [['.'] + ""];
  }

  /** A URL whose path is `/` (or `/.git`) gives the empty id, and the source
      then removes the whole packages root with every installed package. */
  lemma EmptyIdWipesRootAsWritten(d: Disk, perms: Permissions)
    requires d.rootExists && d.entries.Keys * perms.pinned == {}
    ensures ExtractPackageId("/") == "" && ExtractPackageId("/.git") == ""
    ensures ClearDestinationAsWritten(d, perms, ExtractPackageId("/")) == (d.(rootExists := false, entries := map[]), true)
  {
    EmptyIds();
  }

  lemma EmptyIds()
    ensures ExtractPackageId("/") == "" && ExtractPackageId("/.git") == ""
  {
    assert Strip("/", {'/'}) == "" by {
      assert "/" == "/" + "" && LStrip("/", {'/'}) == LStrip("", {'/'});
    }
    assert Split("", '/') == [""];
    assert Strip("/.git", {'/'}) == ".git" by {
      StripExact("/", ".git", "", {'/'});
      assert "/" + ".git" + "" == "/.git";
    }
    assert EndsWith(".git", ".git");
    assert ".git"[..0] == "";
  }

  /** With the id checked first, a URL with an empty id is refused and the
      packages root is left as it is. */
  lemma EmptyIdRefused(o: Oracle, h: seq<Process>, d: Disk, perms: Permissions, text: string, fetched: PackageDir)
    requires WellFormedDir(fetched)
    ensures InstallSpec(o, h, d, perms, RepoUrl(text, "/"), fetched) == Installation(d, [], Failure(InvalidIdMessage))
  {
    EmptyIds();
  }
}
