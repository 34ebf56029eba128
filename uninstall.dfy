/** Uninstallation: look the package up in the store, run its
    `uninstallCommands` in the package directory, remove its installed
    executable, then remove the package directory. The first two steps are best
    effort: only the removal of the directory decides the outcome. */
module Uninstaller {
  import opened Common
  import opened JsonData
  import opened Shell
  import opened FileSystem
  import opened PackageStore

  /** The pair `(success, message)`. */
  datatype UninstallResult = UninstallResult(success: bool, message: string)

  // ---------------------------------------------------------------------------
  // remove_executable
  // ---------------------------------------------------------------------------

  /** The descriptor says it installed an executable: `installType` is
      `executable` and `installExecutablePath` is present. */
  predicate DeclaresExecutable(m: map<string, Json>)
  {
    Get(m, "installType", Null) == Str("executable") && "installExecutablePath" in m
  }

  /** `os.path.exists(executable_path)` raises on a path that is not a string. */
  predicate ExecutableRaises(m: map<string, Json>)
  {
    DeclaresExecutable(m) && !m["installExecutablePath"].Str?
  }

  /** The installed executable of a descriptor: its `installExecutablePath` when
      the descriptor declares an executable and the path is a string. */
  function ExecutablePath(m: map<string, Json>): (p: Option<string>)
    ensures p.Some? <==> DeclaresExecutable(m) && !ExecutableRaises(m)
    ensures p.Some? ==> m["installExecutablePath"] == Str(p.value)
  {
    if DeclaresExecutable(m) && m["installExecutablePath"].Str?
    then Some(m["installExecutablePath"].s)
    else None
  }

  /** `remove_executable`: remove the installed executable if it exists; false
      when removing it raises. The existence test itself raises on a path that
      is not a string, and that exception leaves the function. */
  function RemoveExecutableSpec(d: Disk, perms: Permissions, m: map<string, Json>): (r: Attempt<(Disk, bool)>)
    ensures r.Raises? <==> ExecutableRaises(m)
    ensures r.Done? ==> r.value.0.entries == d.entries && r.value.0.rootExists == d.rootExists
    ensures r.Done? ==> r.value.0.external <= d.external
    ensures r.Done? ==> (r.value.1 <==> ExecutablePath(m).None? || ExecutablePath(m).value !in d.external
                                        || ExecutablePath(m).value !in perms.pinnedFiles)
    ensures r.Done? && r.value.1 ==> forall p :: p in r.value.0.external ==> p in d.external && Some(p) != ExecutablePath(m)
    ensures r.Done? ==> d.external - r.value.0.external <= (if ExecutablePath(m).Some? then {ExecutablePath(m).value} else {})
  {
    if !DeclaresExecutable(m) then Done((d, true))
    else
      match m["installExecutablePath"]
      case Str(path) =>
        if PathExists(d, Elsewhere(path)) then Done(RemoveFile(d, perms, path)) else Done((d, true))
      case _ => Raises
  }

  /** `remove_executable(metadata)`. */
  method RemoveExecutable(fs: Volume, m: map<string, Json>) returns (r: Attempt<bool>)
    requires fs.Valid()
    modifies fs
    ensures fs.Valid()
    ensures var spec := RemoveExecutableSpec(old(fs.State()), fs.perms, m);
      if spec.Raises? then r.Raises? && fs.State() == old(fs.State())
      else r == Done(spec.value.1) && fs.State() == spec.value.0
  {
    if Get(m, "installType", Null) == Str("executable") && "installExecutablePath" in m {
      var path := m["installExecutablePath"];
      if !path.Str? {
        return Raises;
      }
      if PathExists(fs.State(), Elsewhere(path.s)) {
        var ok := fs.Remove(path.s);
        return Done(ok);
      }
    }
    return Done(true);
  }

  // ---------------------------------------------------------------------------
  // run_uninstall_commands
  // ---------------------------------------------------------------------------

  /** `run_uninstall_commands` started after history `h`: fail-fast over the
      `uninstallCommands` list, nothing when the key is absent or not a list. */
  ghost function UninstallCommandsSpec(o: Oracle, h: seq<Process>, dir: string, m: map<string, Json>)
    : (r: (seq<Process>, bool))
  {
    if "uninstallCommands" in m && m["uninstallCommands"].Arr?
    then FailFast(o, h, m["uninstallCommands"].items, Some(dir))
    else ([], true)
  }

  /** The listed commands run in order in the package directory; the verdict is
      true iff every one ran and succeeded. */
  lemma UninstallCommandsOutcome(o: Oracle, h: seq<Process>, dir: string, m: map<string, Json>)
    ensures var r := UninstallCommandsSpec(o, h, dir, m);
      var cmds := if "uninstallCommands" in m && m["uninstallCommands"].Arr? then m["uninstallCommands"].items else [];
      && |r.0| <= |cmds|
      && r.0 == Lines(cmds[..|r.0|], Some(dir))
      && (r.1 <==> |r.0| == |cmds| && AllSucceeded(o, h, r.0))
  {
    if "uninstallCommands" in m && m["uninstallCommands"].Arr? {
      FailFastRunsInOrder(o, h, m["uninstallCommands"].items, Some(dir));
      FailFastVerdict(o, h, m["uninstallCommands"].items, Some(dir));
    }
  }

  /** `run_uninstall_commands(package_dir, metadata)`. */
  method RunUninstallCommands(sh: Runner, dir: string, m: map<string, Json>) returns (ok: bool)
    modifies sh
    ensures var spec := UninstallCommandsSpec(sh.oracle, old(sh.history), dir, m);
      sh.history == old(sh.history) + spec.0 && ok == spec.1
  {
    if "uninstallCommands" !in m {
      return true;
    }
    var commands := m["uninstallCommands"];
    if !commands.Arr? {
      return true;
    }
    ok := RunFailFast(sh, commands.items, Some(dir));
  }

  // ---------------------------------------------------------------------------
  // uninstall_package
  // ---------------------------------------------------------------------------

  /** What an uninstallation does: the new filesystem, the processes started and
      the result. */
  datatype Uninstallation = Uninstallation(disk: Disk, started: seq<Process>, result: UninstallResult)

  const RemoveFailureMessage := "Failed to remove package files. Check permissions."

  function UninstalledMessage(name: string): string
  {
    "Package '" + name + "' uninstalled successfully"
  }

  /** The descriptor of a listed package, when the store read one. */
  ghost function StoredMetadata(d: Disk, name: string): Option<map<string, Json>>
    requires Listed(d, name)
  {
    RecordOf(name, d.entries[name].dir).metadata
  }

  /** The message of the handler around the uninstallation; the exception's
      text is not modelled. */
  const UninstallErrorMessage := "Unexpected error during uninstallation: "

  /** `uninstall_package(name)` started on disk `d` after history `h`. A record
      whose metadata is absent or an empty object (`not metadata`) is refused;
      an executable path that makes `remove_executable` raise ends in the
      handler, after the uninstall commands and before any removal. */
  ghost function UninstallSpec(o: Oracle, h: seq<Process>, d: Disk, perms: Permissions, name: string)
    : (r: Uninstallation)
  {
    if !Listed(d, name) then Uninstallation(d, [], UninstallResult(false, NotInstalledMessage(name)))
    else
      var metadata := StoredMetadata(d, name);
      if metadata.None? || metadata.value == map[] then
        Uninstallation(d, [], UninstallResult(false, NoMetadataMessage(name)))
      else
        var m := metadata.value;
        var commands := UninstallCommandsSpec(o, h, PackagePath(name), m);
        match RemoveExecutableSpec(d, perms, m)
        case Raises => Uninstallation(d, commands.0, UninstallResult(false, UninstallErrorMessage))
        case Done(afterExecutable) =>
          var removal := RemoveDirectory(afterExecutable.0, perms, name);
          Uninstallation(removal.0, commands.0,
            if removal.1 then UninstallResult(true, UninstalledMessage(name))
            else UninstallResult(false, RemoveFailureMessage))
  }

  /** An uninstallation succeeds iff the package is listed with a non-empty
      descriptor object whose executable path does not raise, and its directory
      may be removed; it then is no longer listed. A package without a
      descriptor is refused before anything starts; a raising executable path
      gives the handler's result with the disk untouched. Other packages are
      never touched, and outside the root at most the package's own executable
      goes. */
  lemma UninstallOutcome(o: Oracle, h: seq<Process>, d: Disk, perms: Permissions, name: string)
    ensures var r := UninstallSpec(o, h, d, perms, name);
      && (r.result.success <==>
            Listed(d, name) && StoredMetadata(d, name).Some? && StoredMetadata(d, name).value != map[]
            && !ExecutableRaises(StoredMetadata(d, name).value)
            && name !in perms.pinned)
      && (r.result.success ==> !Listed(r.disk, name) && name !in r.disk.entries)
      && (!Listed(d, name) ==> r == Uninstallation(d, [], UninstallResult(false, NotInstalledMessage(name))))
      && (Listed(d, name) && (StoredMetadata(d, name).None? || StoredMetadata(d, name).value == map[]) ==>
            r == Uninstallation(d, [], UninstallResult(false, NoMetadataMessage(name))))
      && (Listed(d, name) && StoredMetadata(d, name).Some? && StoredMetadata(d, name).value != map[]
          && ExecutableRaises(StoredMetadata(d, name).value) ==>
            r.disk == d && r.result == UninstallResult(false, UninstallErrorMessage))
      && (forall n :: n != name ==> (n in r.disk.entries <==> n in d.entries))
      && (forall n :: n in r.disk.entries ==> r.disk.entries[n] == d.entries[n])
      && r.disk.external <= d.external
      && (|d.external - r.disk.external| > 0 ==>
            Listed(d, name) && StoredMetadata(d, name).Some?
            && ExecutablePath(StoredMetadata(d, name).value).Some?
            && d.external - r.disk.external == {ExecutablePath(StoredMetadata(d, name).value).value})
  {
    if Listed(d, name) && StoredMetadata(d, name).Some? && StoredMetadata(d, name).value != map[] {
      var m := StoredMetadata(d, name).value;
      var after := RemoveExecutableSpec(d, perms, m);
      if after.Done? {
        RemovalOutcome(d, perms, name, m, after.value.0);
      }
    }
  }

  /** The last step of an uninstallation: the directory goes after the
      executable did. */
  lemma RemovalOutcome(d: Disk, perms: Permissions, name: string, m: map<string, Json>, after: Disk)
    requires Listed(d, name)
    requires RemoveExecutableSpec(d, perms, m).Done? && RemoveExecutableSpec(d, perms, m).value.0 == after
    ensures var removal := RemoveDirectory(after, perms, name);
      && (removal.1 <==> name !in perms.pinned)
      && (removal.1 ==> !Listed(removal.0, name) && name !in removal.0.entries)
      && (forall n :: n != name ==> (n in removal.0.entries <==> n in d.entries))
      && (forall n :: n in removal.0.entries ==> removal.0.entries[n] == d.entries[n])
      && removal.0.external <= d.external
      && (|d.external - removal.0.external| > 0 ==>
            ExecutablePath(m).Some? && d.external - removal.0.external == {ExecutablePath(m).value})
  {
    var removal := RemoveDirectory(after, perms, name);
    assert removal.0.external == after.external;
    if |d.external - removal.0.external| > 0 {
      var p :| p in d.external - removal.0.external;
      assert ExecutablePath(m).Some?;
    }
  }

  /** The outcome does not depend on how the uninstall commands end: the
      filesystem and the result are the same whatever the commands do. */
  lemma UninstallIgnoresCommandFailures(o1: Oracle, o2: Oracle, h: seq<Process>, d: Disk, perms: Permissions, name: string)
    ensures UninstallSpec(o1, h, d, perms, name).disk == UninstallSpec(o2, h, d, perms, name).disk
    ensures UninstallSpec(o1, h, d, perms, name).result == UninstallSpec(o2, h, d, perms, name).result
  {
  }

  /** `uninstall_package(package_name)`. */
  method UninstallPackage(fs: Volume, sh: Runner, name: string) returns (r: UninstallResult)
    requires fs.Valid()
    modifies fs, sh
    ensures fs.Valid()
    ensures var spec := UninstallSpec(sh.oracle, old(sh.history), old(fs.State()), fs.perms, name);
      fs.State() == spec.disk && sh.history == old(sh.history) + spec.started && r == spec.result
  {
    var package := GetPackageByName(fs.State(), name);
    if package.None? {
      return UninstallResult(false, NotInstalledMessage(name));
    }
    var metadata := package.value.metadata;
    if metadata.None? || metadata.value == map[] {
      return UninstallResult(false, NoMetadataMessage(name));
    }
    var m := metadata.value;
    // Both steps are best effort: their verdicts are not used.
    var _ := RunUninstallCommands(sh, package.value.path, m);
    var executable := RemoveExecutable(fs, m);
    if executable.Raises? {
      return UninstallResult(false, UninstallErrorMessage);
    }
    var removed := fs.SafeRemoveDirectory(name);
    if !removed {
      return UninstallResult(false, RemoveFailureMessage);
    }
    return UninstallResult(true, UninstalledMessage(name));
  }
}
