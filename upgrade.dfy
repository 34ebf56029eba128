/** Upgrades: check every installed package for new commits, summarise what an
    upgrade would download, and upgrade packages one after the other by pulling
    and then running their `updateCommands`. The filesystem is read, not
    changed: a pull changes the files of a checkout, which the model does not
    follow. */
module Upgrader {
  import opened Common
  import opened JsonData
  import opened Shell
  import opened FileSystem
  import opened PackageStore
  import opened Git

  // ---------------------------------------------------------------------------
  // check_package_updates
  // ---------------------------------------------------------------------------

  /** A package with pending commits and what the check found. */
  datatype Upgradeable = Upgradeable(package: PackageRecord, updateInfo: UpdateCheck)

  /** `check_for_updates(package["path"])` for one listed package, after history `h`. */
  ghost function CheckStep(o: Oracle, d: Disk): (seq<Process>, PackageRecord) -> (seq<Process>, UpdateCheck)
  {
    (h: seq<Process>, p: PackageRecord) => CheckForUpdatesSpec(o, h, PackagePath(p.name), IsGitRepository(d, p.name))
  }

  /** The sorting of `check_package_updates`: packages whose check found updates
      are upgradeable, names whose check could not decide are errors, both in
      listing order; packages that are up to date are dropped. */
  function Partition(pkgs: seq<PackageRecord>, infos: seq<UpdateCheck>): (r: (seq<Upgradeable>, seq<string>))
    requires |infos| == |pkgs|
    ensures |r.0| + |r.1| <= |pkgs|
  {
    if pkgs == [] then ([], [])
    else
      var n := |pkgs| - 1;
      var r := Partition(pkgs[..n], infos[..n]);
      if infos[n].CannotDetermine? then (r.0, r.1 + [pkgs[n].name])
      else if infos[n].UpdatesAvailable? then (r.0 + [Upgradeable(pkgs[n], infos[n])], r.1)
      else r
  }

  /** Sorting one more package. */
  lemma PartitionAppend(pkgs: seq<PackageRecord>, infos: seq<UpdateCheck>, p: PackageRecord, info: UpdateCheck)
    requires |infos| == |pkgs|
    ensures var r := Partition(pkgs, infos);
      Partition(pkgs + [p], infos + [info]) ==
        if info.CannotDetermine? then (r.0, r.1 + [p.name])
        else if info.UpdatesAvailable? then (r.0 + [Upgradeable(p, info)], r.1)
        else r
  {
    assert (pkgs + [p])[..|pkgs|] == pkgs && (infos + [info])[..|pkgs|] == infos;
  }

  /** A package is upgradeable iff its check found updates (and it carries what
      the check found); a name is an error iff the check of its package could
      not decide. */
  lemma {:induction false} PartitionMembers(pkgs: seq<PackageRecord>, infos: seq<UpdateCheck>)
    requires |infos| == |pkgs|
    ensures forall u :: u in Partition(pkgs, infos).0 <==>
              exists k :: 0 <= k < |pkgs| && infos[k].UpdatesAvailable? && u == Upgradeable(pkgs[k], infos[k])
    ensures forall e :: e in Partition(pkgs, infos).1 <==>
              exists k :: 0 <= k < |pkgs| && infos[k].CannotDetermine? && e == pkgs[k].name
  {
    if pkgs != [] {
      var n := |pkgs| - 1;
      PartitionMembers(pkgs[..n], infos[..n]);
      forall u ensures u in Partition(pkgs, infos).0 <==>
              exists k :: 0 <= k < |pkgs| && infos[k].UpdatesAvailable? && u == Upgradeable(pkgs[k], infos[k])
      {
        if exists k :: 0 <= k < |pkgs| && infos[k].UpdatesAvailable? && u == Upgradeable(pkgs[k], infos[k]) {
          var k :| 0 <= k < |pkgs| && infos[k].UpdatesAvailable? && u == Upgradeable(pkgs[k], infos[k]);
          if k < n {
            assert pkgs[..n][k] == pkgs[k] && infos[..n][k] == infos[k];
          }
        }
        if u in Partition(pkgs[..n], infos[..n]).0 {
          var k :| 0 <= k < n && infos[..n][k].UpdatesAvailable? && u == Upgradeable(pkgs[..n][k], infos[..n][k]);
          assert pkgs[..n][k] == pkgs[k] && infos[..n][k] == infos[k];
        }
      }
      forall e ensures e in Partition(pkgs, infos).1 <==>
              exists k :: 0 <= k < |pkgs| && infos[k].CannotDetermine? && e == pkgs[k].name
      {
        if exists k :: 0 <= k < |pkgs| && infos[k].CannotDetermine? && e == pkgs[k].name {
          var k :| 0 <= k < |pkgs| && infos[k].CannotDetermine? && e == pkgs[k].name;
          if k < n {
            assert pkgs[..n][k] == pkgs[k] && infos[..n][k] == infos[k];
          }
        }
        if e in Partition(pkgs[..n], infos[..n]).1 {
          var k :| 0 <= k < n && infos[..n][k].CannotDetermine? && e == pkgs[..n][k].name;
          assert pkgs[..n][k] == pkgs[k] && infos[..n][k] == infos[k];
        }
      }
    }
  }

  /** With distinct names, no package is both upgradeable and in error. */
  lemma PartitionDisjoint(pkgs: seq<PackageRecord>, infos: seq<UpdateCheck>)
    requires |infos| == |pkgs| && DistinctNames(pkgs)
    ensures forall u, e :: u in Partition(pkgs, infos).0 && e in Partition(pkgs, infos).1 ==> u.package.name != e
  {
    PartitionMembers(pkgs, infos);
    forall u, e | u in Partition(pkgs, infos).0 && e in Partition(pkgs, infos).1 ensures u.package.name != e {
      var i :| 0 <= i < |pkgs| && infos[i].UpdatesAvailable? && u == Upgradeable(pkgs[i], infos[i]);
      var j :| 0 <= j < |pkgs| && infos[j].CannotDetermine? && e == pkgs[j].name;
      assert i != j;
    }
  }

  /** `check_for_updates(package["path"])` for the next package of a listing
      checked in turn so far. */
  method CheckNext(sh: Runner, d: Disk, pkgs: seq<PackageRecord>, i: nat, ghost h0: seq<Process>,
                   ghost runs: seq<seq<Process>>, ghost infos: seq<UpdateCheck>)
    returns (info: UpdateCheck, ghost run: seq<Process>)
    requires i < |pkgs|
    requires InTurn(CheckStep(sh.oracle, d), h0, pkgs[..i], runs, infos)
    requires sh.history == h0 + Flatten(runs)
    modifies sh
    ensures InTurn(CheckStep(sh.oracle, d), h0, pkgs[..i] + [pkgs[i]], runs + [run], infos + [info])
    ensures sh.history == h0 + Flatten(runs + [run])
  {
    ghost var before := sh.history;
    info := CheckForUpdates(sh, d, pkgs[i].name);
    run := CheckStep(sh.oracle, d)(before, pkgs[i]).0;
    InTurnExtend(CheckStep(sh.oracle, d), h0, pkgs[..i], runs, infos, pkgs[i], run, info);
  }

  /** The loop of `check_package_updates` over a listing: the packages are
      checked in turn and sorted by what their check found. */
  method ClassifyUpdates(sh: Runner, d: Disk, pkgs: seq<PackageRecord>)
    returns (upgradeable: seq<Upgradeable>, errors: seq<string>, ghost runs: seq<seq<Process>>, ghost infos: seq<UpdateCheck>)
    modifies sh
    ensures InTurn(CheckStep(sh.oracle, d), old(sh.history), pkgs, runs, infos)
    ensures sh.history == old(sh.history) + Flatten(runs)
    ensures (upgradeable, errors) == Partition(pkgs, infos)
  {
    ghost var h0 := sh.history;
    runs, infos := [], [];
    upgradeable, errors := [], [];
    for i := 0 to |pkgs|
      invariant InTurn(CheckStep(sh.oracle, d), h0, pkgs[..i], runs, infos)
      invariant sh.history == h0 + Flatten(runs)
      invariant (upgradeable, errors) == Partition(pkgs[..i], infos)
    {
      var info;
      ghost var run;
      info, run := CheckNext(sh, d, pkgs, i, h0, runs, infos);
      assert pkgs[..i + 1] == pkgs[..i] + [pkgs[i]];
      PartitionAppend(pkgs[..i], infos, pkgs[i], info);
      if info.CannotDetermine? {
        errors := errors + [pkgs[i].name];
      } else if info.UpdatesAvailable? {
        upgradeable := upgradeable + [Upgradeable(pkgs[i], info)];
      }
      runs, infos := runs + [run], infos + [info];
    }
    assert pkgs[..|pkgs|] == pkgs;
  }

  /** `check_package_updates`: the listing's packages are checked in turn; the
      ones with updates and the names whose check could not decide. */
  method CheckPackageUpdates(sh: Runner, d: Disk)
    returns (upgradeable: seq<Upgradeable>, errors: seq<string>,
             ghost listing: seq<PackageRecord>, ghost runs: seq<seq<Process>>, ghost infos: seq<UpdateCheck>)
    requires ValidDisk(d)
    modifies sh
    ensures IsListing(d, listing)
    ensures InTurn(CheckStep(sh.oracle, d), old(sh.history), listing, runs, infos)
    ensures sh.history == old(sh.history) + Flatten(runs)
    ensures (upgradeable, errors) == Partition(listing, infos)
  {
    var packages := GetInstalledPackages(d);
    listing := packages;
    upgradeable, errors, runs, infos := ClassifyUpdates(sh, d, packages);
  }

  // ---------------------------------------------------------------------------
  // get_upgrade_summary
  // ---------------------------------------------------------------------------

  /** What `get_upgrade_summary` reports; `availableSpace` is what `statvfs`
      gave, `None` when it raised. */
  datatype UpgradeSummary = UpgradeSummary(totalPackages: nat, totalSize: nat, availableSpace: Option<nat>, spaceWarning: bool)

  /** The tree `os.walk` sees at a package's path: nothing unless it is a directory. */
  ghost function TreeAt(d: Disk, name: string): Option<DirTree>
  {
    if IsDirectory(d, name) then Some(d.entries[name].dir.tree) else None
  }

  /** The bytes of the packages' directories. */
  ghost function SizeOf(d: Disk, ups: seq<Upgradeable>): nat
  {
    if ups == [] then 0
    else
      var t := TreeAt(d, ups[0].package.name);
      (if t.Some? then TreeBytes(t.value) else 0) + SizeOf(d, ups[1..])
  }

  lemma {:induction false} SizeOfAppend(d: Disk, a: seq<Upgradeable>, b: seq<Upgradeable>)
    ensures SizeOf(d, a + b) == SizeOf(d, a) + SizeOf(d, b)
  {
    if a != [] {
      assert (a + b)[0] == a[0] && (a + b)[1..] == a[1..] + b;
      SizeOfAppend(d, a[1..], b);
    } else {
      assert a + b == b;
    }
  }

  /** `get_upgrade_summary`: the warning is raised when the space is known,
      non-zero, and less than twice the packages' size. */
  method GetUpgradeSummary(d: Disk, ups: seq<Upgradeable>, availableSpace: Option<nat>) returns (s: UpgradeSummary)
    ensures s.totalPackages == |ups|
    ensures s.totalSize == SizeOf(d, ups)
    ensures s.availableSpace == availableSpace
    ensures s.spaceWarning <==>
            availableSpace.Some? && availableSpace.value != 0 && availableSpace.value < 2 * SizeOf(d, ups)
  {
    var total := 0;
    for i := 0 to |ups|
      invariant total == SizeOf(d, ups[..i])
    {
      var name := ups[i].package.name;
      var tree := if IsDirectory(d, name) then Some(d.entries[name].dir.tree) else None;
      var size := GetDirectorySize(tree);
      SizeOfAppend(d, ups[..i], [ups[i]]);
      assert ups[..i + 1] == ups[..i] + [ups[i]];
      total := total + size;
    }
    assert ups[..|ups|] == ups;
    var warning := availableSpace.Some? && availableSpace.value != 0 && availableSpace.value < total * 2;
    s := UpgradeSummary(|ups|, total, availableSpace, warning);
  }

  // ---------------------------------------------------------------------------
  // upgrade_single_package
  // ---------------------------------------------------------------------------

  /** The `updateCommands` list of a record, if its metadata is truthy and has one. */
  function UpdateCommands(p: PackageRecord): (cmds: seq<Json>)
    ensures cmds != [] ==> p.metadata.Some? && "updateCommands" in p.metadata.value
  {
    if p.metadata.Some? && p.metadata.value != map[] && "updateCommands" in p.metadata.value
       && p.metadata.value["updateCommands"].Arr?
    then p.metadata.value["updateCommands"].items
    else []
  }

  /** `upgrade_single_package` started after history `h`: pull, then the update
      commands fail-fast in the package directory. */
  ghost function UpgradeSingleSpec(o: Oracle, h: seq<Process>, d: Disk, p: PackageRecord): (r: (seq<Process>, bool))
  {
    var pull := UpgradeGitSpec(o, h, PackagePath(p.name), IsGitRepository(d, p.name));
    if !pull.1 then pull
    else
      var update := FailFast(o, h + pull.0, UpdateCommands(p), Some(PackagePath(p.name)));
      (pull.0 + update.0, update.1)
  }

  /** A package is upgraded iff it is a checkout, its `git pull origin`
      succeeded, and then every update command ran and succeeded, in order, in
      the package directory. A failed pull starts nothing more. */
  lemma UpgradeSingleOutcome(o: Oracle, h: seq<Process>, d: Disk, p: PackageRecord)
    ensures var r := UpgradeSingleSpec(o, h, d, p);
      var repo := PackagePath(p.name);
      var pull := GitQuery(["pull", "origin"], repo);
      && (IsGitRepository(d, p.name) <==> |r.0| > 0)
      && (|r.0| > 0 ==> r.0[0] == pull)
      && (!IsGitRepository(d, p.name) ==> r == ([], false))
      && (IsGitRepository(d, p.name) && !Succeeded(o(h, pull)) ==> r == ([pull], false))
      && (r.1 <==>
            && IsGitRepository(d, p.name)
            && Succeeded(o(h, pull))
            && |r.0| == 1 + |UpdateCommands(p)|
            && r.0[1..] == Lines(UpdateCommands(p), Some(repo))
            && AllSucceeded(o, h + [pull], r.0[1..]))
  {
    var repo := PackagePath(p.name);
    var pull := GitQuery(["pull", "origin"], repo);
    if IsGitRepository(d, p.name) && Succeeded(o(h, pull)) {
      var cmds := UpdateCommands(p);
      FailFastRunsInOrder(o, h + [pull], cmds, Some(repo));
      FailFastVerdict(o, h + [pull], cmds, Some(repo));
      var update := FailFast(o, h + [pull], cmds, Some(repo));
      assert ([pull] + update.0)[1..] == update.0;
      assert cmds[..|cmds|] == cmds;
    }
  }

  /** `upgrade_single_package(package, update_info)`. */
  method UpgradeSinglePackage(sh: Runner, d: Disk, p: PackageRecord) returns (ok: bool)
    modifies sh
    ensures var spec := UpgradeSingleSpec(sh.oracle, old(sh.history), d, p);
      sh.history == old(sh.history) + spec.0 && ok == spec.1
  {
    ghost var h := sh.history;
    ok := UpgradeGitPackage(sh, d, p.name);
    if !ok {
      return;
    }
    ghost var afterPull := sh.history;
    if p.metadata.Some? && p.metadata.value != map[] && "updateCommands" in p.metadata.value {
      var commands := p.metadata.value["updateCommands"];
      if commands.Arr? {
        // A listed record's path is the package directory.
        ok := RunFailFast(sh, commands.items, Some(PackagePath(p.name)));
      }
    }
    assert sh.history == afterPull + FailFast(sh.oracle, afterPull, UpdateCommands(p), Some(PackagePath(p.name))).0;
  }

  // ---------------------------------------------------------------------------
  // upgrade_packages
  // ---------------------------------------------------------------------------

  /** The `results` dictionary. */
  datatype UpgradeResults = UpgradeResults(upgradeable: seq<string>, errors: seq<string>, successful: seq<string>, failed: seq<string>)

  datatype UpgradeOutcome = UpgradeOutcome(success: bool, message: string, results: UpgradeResults)

  /** `upgrade_single_package` for one upgradeable package, after history `h`. */
  ghost function UpgradeStep(o: Oracle, d: Disk): (seq<Process>, Upgradeable) -> (seq<Process>, bool)
  {
    (h: seq<Process>, u: Upgradeable) => UpgradeSingleSpec(o, h, d, u.package)
  }

  function Names(ups: seq<Upgradeable>): (names: seq<string>)
    ensures |names| == |ups|
  {
    seq(|ups|, i requires 0 <= i < |ups| => ups[i].package.name)
  }

  /** The bookkeeping of the upgrade loop: each name goes to `successful` or
      `failed` by its verdict, in order. */
  function Tally(ups: seq<Upgradeable>, oks: seq<bool>): (r: (seq<string>, seq<string>))
    requires |oks| == |ups|
  {
    if ups == [] then ([], [])
    else
      var n := |ups| - 1;
      var r := Tally(ups[..n], oks[..n]);
      if oks[n] then (r.0 + [ups[n].package.name], r.1) else (r.0, r.1 + [ups[n].package.name])
  }

  /** Every attempted package ends in exactly one list: together they hold the
      attempted names, each as often as it was attempted. */
  lemma {:induction false} TallyPartition(ups: seq<Upgradeable>, oks: seq<bool>)
    requires |oks| == |ups|
    ensures multiset(Tally(ups, oks).0) + multiset(Tally(ups, oks).1) == multiset(Names(ups))
  {
    if ups != [] {
      var n := |ups| - 1;
      TallyPartition(ups[..n], oks[..n]);
      var name := ups[n].package.name;
      assert Names(ups) == Names(ups[..n]) + [name];
      var r := Tally(ups[..n], oks[..n]);
      if oks[n] {
        assert multiset(r.0 + [name]) == multiset(r.0) + multiset{name};
      } else {
        assert multiset(r.1 + [name]) == multiset(r.1) + multiset{name};
      }
    }
  }

  /** No package failed iff every verdict was true, and then all of them are
      reported upgraded, in order. */
  lemma {:induction false} TallyNoFailure(ups: seq<Upgradeable>, oks: seq<bool>)
    requires |oks| == |ups|
    ensures Tally(ups, oks).1 == [] <==> forall k :: 0 <= k < |oks| ==> oks[k]
    ensures Tally(ups, oks).1 == [] ==> Tally(ups, oks).0 == Names(ups)
  {
    if ups != [] {
      var n := |ups| - 1;
      TallyNoFailure(ups[..n], oks[..n]);
      assert Names(ups) == Names(ups[..n]) + [ups[n].package.name];
      if forall k :: 0 <= k < n ==> oks[..n][k] {
        assert forall k :: 0 <= k < n ==> oks[k];
      } else {
        var k :| 0 <= k < n && !oks[..n][k];
        assert !oks[k];
      }
    }
  }

  /** Recording one more verdict. */
  lemma TallyAppend(ups: seq<Upgradeable>, oks: seq<bool>, u: Upgradeable, ok: bool)
    requires |oks| == |ups|
    ensures var r := Tally(ups, oks);
      Tally(ups + [u], oks + [ok]) ==
        if ok then (r.0 + [u.package.name], r.1) else (r.0, r.1 + [u.package.name])
  {
    assert (ups + [u])[..|ups|] == ups && (oks + [ok])[..|ups|] == oks;
  }

  /** `upgrade_single_package` for the next package of a list upgraded in turn so far. */
  method UpgradeNext(sh: Runner, d: Disk, ups: seq<Upgradeable>, i: nat, ghost h0: seq<Process>,
                     ghost runs: seq<seq<Process>>, ghost oks: seq<bool>)
    returns (ok: bool, ghost run: seq<Process>)
    requires i < |ups|
    requires InTurn(UpgradeStep(sh.oracle, d), h0, ups[..i], runs, oks)
    requires sh.history == h0 + Flatten(runs)
    modifies sh
    ensures InTurn(UpgradeStep(sh.oracle, d), h0, ups[..i] + [ups[i]], runs + [run], oks + [ok])
    ensures sh.history == h0 + Flatten(runs + [run])
  {
    ghost var before := sh.history;
    ok := UpgradeSinglePackage(sh, d, ups[i].package);
    run := UpgradeStep(sh.oracle, d)(before, ups[i]).0;
    InTurnExtend(UpgradeStep(sh.oracle, d), h0, ups[..i], runs, oks, ups[i], run, ok);
  }

  /** The upgrade loop of `upgrade_packages`: the packages are upgraded in turn. */
  method UpgradeEach(sh: Runner, d: Disk, ups: seq<Upgradeable>)
    returns (successful: seq<string>, failed: seq<string>, ghost runs: seq<seq<Process>>, ghost oks: seq<bool>)
    modifies sh
    ensures InTurn(UpgradeStep(sh.oracle, d), old(sh.history), ups, runs, oks)
    ensures sh.history == old(sh.history) + Flatten(runs)
    ensures (successful, failed) == Tally(ups, oks)
  {
    ghost var h0 := sh.history;
    runs, oks := [], [];
    successful, failed := [], [];
    for i := 0 to |ups|
      invariant InTurn(UpgradeStep(sh.oracle, d), h0, ups[..i], runs, oks)
      invariant sh.history == h0 + Flatten(runs)
      invariant (successful, failed) == Tally(ups[..i], oks)
    {
      var ok;
      ghost var run;
      ok, run := UpgradeNext(sh, d, ups, i, h0, runs, oks);
      assert ups[..i + 1] == ups[..i] + [ups[i]];
      TallyAppend(ups[..i], oks, ups[i], ok);
      if ok {
        successful := successful + [ups[i].package.name];
      } else {
        failed := failed + [ups[i].package.name];
      }
      runs, oks := runs + [run], oks + [ok];
    }
    assert ups[..|ups|] == ups;
  }

  /** The packages `upgrade_packages` attempts: all upgradeable ones, or, when
      names are given (a non-empty list), those among them. */
  function Selected(ups: seq<Upgradeable>, names: Option<seq<string>>): (r: seq<Upgradeable>)
    ensures forall u :: u in r <==> u in ups && (names.None? || names.value == [] || u.package.name in names.value)
  {
    if names.None? || names.value == [] then ups
    else if ups == [] then []
    else (if ups[0].package.name in names.value then [ups[0]] else []) + Selected(ups[1..], names)
  }

  /** The summary line of `upgrade_packages`. */
  function UpgradeMessage(successful: seq<string>, failed: seq<string>): string
  {
    if failed == [] && successful != [] then "Successfully upgraded " + NatToString(|successful|) + " package(s)"
    else if failed != [] then "Failed to upgrade " + NatToString(|failed|) + " package(s)"
    else "No packages were upgraded"
  }

  const NothingToUpgradeMessage := "No packages need upgrading"

  /** What `upgrade_packages` returns once the chosen packages were attempted
      with verdicts `oks`. */
  function Summarize(chosen: seq<Upgradeable>, errors: seq<string>, oks: seq<bool>): (r: UpgradeOutcome)
    requires |oks| == |chosen|
    ensures r.results.upgradeable == Names(chosen) && r.results.errors == errors
  {
    var t := Tally(chosen, oks);
    UpgradeOutcome(|t.1| == 0, UpgradeMessage(t.0, t.1), UpgradeResults(Names(chosen), errors, t.0, t.1))
  }

  /** The upgrade succeeds iff every attempted package was upgraded; every
      attempted package is reported as upgraded or failed, none twice; the
      message counts the upgraded packages when all succeeded, else the
      failures, and says none was upgraded when nothing was attempted. */
  lemma SummarizeOutcome(chosen: seq<Upgradeable>, errors: seq<string>, oks: seq<bool>)
    requires |oks| == |chosen|
    ensures var r := Summarize(chosen, errors, oks);
      && multiset(r.results.successful) + multiset(r.results.failed) == multiset(Names(chosen))
      && (r.success <==> forall k :: 0 <= k < |oks| ==> oks[k])
      && (r.success ==> r.results.successful == Names(chosen) && r.results.failed == [])
      && (r.success && chosen != [] ==>
            r.message == "Successfully upgraded " + NatToString(|chosen|) + " package(s)")
      && (r.success && chosen == [] ==> r.message == "No packages were upgraded")
      && (!r.success ==> r.message == "Failed to upgrade " + NatToString(|r.results.failed|) + " package(s)")
  {
    TallyPartition(chosen, oks);
    TallyNoFailure(chosen, oks);
  }

  /** `upgrade_packages(package_names)`; `names` is `None` for all packages.
      The packages are checked in turn; when none has updates, nothing else
      runs; otherwise the chosen ones are upgraded in turn, after the checks. */
  method UpgradePackages(sh: Runner, d: Disk, names: Option<seq<string>>)
    returns (r: UpgradeOutcome, ghost listing: seq<PackageRecord>, ghost checkRuns: seq<seq<Process>>,
             ghost infos: seq<UpdateCheck>, ghost upgradeRuns: seq<seq<Process>>, ghost oks: seq<bool>)
    requires ValidDisk(d)
    modifies sh
    ensures IsListing(d, listing)
    ensures InTurn(CheckStep(sh.oracle, d), old(sh.history), listing, checkRuns, infos)
    ensures var found := Partition(listing, infos);
      && (found.0 == [] ==>
            && sh.history == old(sh.history) + Flatten(checkRuns)
            && r == UpgradeOutcome(true, NothingToUpgradeMessage, UpgradeResults([], found.1, [], [])))
      && (found.0 != [] ==>
            && InTurn(UpgradeStep(sh.oracle, d), old(sh.history) + Flatten(checkRuns), Selected(found.0, names), upgradeRuns, oks)
            && sh.history == old(sh.history) + Flatten(checkRuns) + Flatten(upgradeRuns)
            && r == Summarize(Selected(found.0, names), found.1, oks))
  {
    var upgradeable, errors;
    upgradeable, errors, listing, checkRuns, infos := CheckPackageUpdates(sh, d);
    if upgradeable == [] {
      r := UpgradeOutcome(true, NothingToUpgradeMessage, UpgradeResults([], errors, [], []));
      upgradeRuns, oks := [], [];
      return;
    }
    var chosen := Selected(upgradeable, names);
    var successful, failed;
    successful, failed, upgradeRuns, oks := UpgradeEach(sh, d, chosen);
    var success := |failed| == 0;
    r := UpgradeOutcome(success, UpgradeMessage(successful, failed),
                        UpgradeResults(Names(chosen), errors, successful, failed));
  }
}
