/** The git side of the package manager: the package id of a repository URL,
    whether a package directory is a git checkout, the repository summary shown
    by `inspect`, the update check that compares the checkout with its remote,
    and the pull that upgrades it. Every git command is a `GitQuery` process
    run in the package directory. */
module Git {
  import opened Common
  import opened Shell
  import opened FileSystem

  // ---------------------------------------------------------------------------
  // Package id of a repository URL
  // ---------------------------------------------------------------------------

  /** `extract_package_id_from_url` on the path component of the URL: strip the
      slashes around it, drop one trailing `.git`, keep the last segment. */
  function ExtractPackageId(urlPath: string): (id: string)
    ensures '/' !in id
  {
    var path := Strip(urlPath, {'/'});
    var bare := if EndsWith(path, ".git") then path[..|path| - 4] else path;
    LastPiece(bare, '/')
  }

  /** The id of `/<owner>/.../<name>[.git]` is `<name>`. */
  lemma ExtractPackageIdOfRepoPath(parts: seq<string>, suffix: string)
    requires |parts| >= 1
    requires forall i :: 0 <= i < |parts| ==> |parts[i]| > 0 && '/' !in parts[i]
    requires suffix == ".git" || (suffix == "" && !EndsWith(Join(parts, '/'), ".git"))
    ensures ExtractPackageId("/" + Join(parts, '/') + suffix) == parts[|parts| - 1]
  {
    var joined := Join(parts, '/');
    JoinFirst(parts, '/');
    JoinLast(parts, '/');
    var last := parts[|parts| - 1];
    assert last[|last| - 1] in last;
    SplitJoin(parts, '/');
    ExtractPackageIdOfPath(joined, suffix, last);
  }

  /** The id of `/<path>[.git]`, for a path without slashes at its ends, is its
      last segment. */
  lemma ExtractPackageIdOfPath(joined: string, suffix: string, last: string)
    requires |joined| > 0 && joined[0] != '/' && joined[|joined| - 1] != '/'
    requires suffix == ".git" || (suffix == "" && !EndsWith(joined, ".git"))
    requires LastPiece(joined, '/') == last
    ensures ExtractPackageId("/" + joined + suffix) == last
  {
    StripRepoPath(joined, suffix);
    DropGitSuffix(joined, suffix);
  }

  lemma StripRepoPath(joined: string, suffix: string)
    requires |joined| > 0 && joined[0] != '/' && joined[|joined| - 1] != '/'
    requires suffix == ".git" || suffix == ""
    ensures Strip("/" + joined + suffix, {'/'}) == joined + suffix
  {
    var s := joined + suffix;
    assert s[0] == joined[0];
    assert s[|s| - 1] != '/';
    assert "/" + s + "" == "/" + joined + suffix;
    StripExact("/", s, "", {'/'});
  }

  lemma DropGitSuffix(joined: string, suffix: string)
    requires suffix == ".git" || (suffix == "" && !EndsWith(joined, ".git"))
    ensures var path := joined + suffix;
      (if EndsWith(path, ".git") then path[..|path| - 4] else path) == joined
  {
    var path := joined + suffix;
    if suffix == ".git" {
      assert path[|path| - 4..] == ".git";
      assert path[..|path| - 4] == joined;
    } else {
      assert path == joined;
    }
  }

  // ---------------------------------------------------------------------------
  // Checkouts
  // ---------------------------------------------------------------------------

  /** `is_git_repository`: the package directory holds a `.git` directory. */
  predicate IsGitRepository(d: Disk, name: string)
  {
    DirectoryExists(d, InChild(name, ".git"))
  }

  /** The stripped standard output of a git command that exited with status 0. */
  function StrippedOutput(e: Exit): (r: Option<string>)
    ensures r.Some? <==> Succeeded(e)
  {
    if Succeeded(e) then Some(Strip(e.stdout, Whitespace)) else None
  }

  // ---------------------------------------------------------------------------
  // Repository summary
  // ---------------------------------------------------------------------------

  datatype Commit = Commit(hash: string, message: string, author: string, date: string)

  /** The keys of the `git_info` dictionary, each absent when its command failed. */
  datatype GitInfo = GitInfo(origin: Option<string>, branch: Option<string>, lastCommit: Option<Commit>)

  /** The `--format=%H|%s|%an|%ad` line of `git log -1`: exactly four `|`-separated
      fields, the hash cut to eight characters. */
  function ParseLastCommit(stdout: string): (r: Option<Commit>)
    ensures r.Some? ==> |r.value.hash| <= 8 && '|' !in r.value.message
  {
    var fields := Split(Strip(stdout, Whitespace), '|');
    if |fields| == 4 then Some(Commit(Take(fields[0], 8), fields[1], fields[2], fields[3])) else None
  }

  /** The fields of a `|`-joined line, possibly followed by whitespace, are
      recovered by the parse's strip and split. */
  lemma {:induction false} FieldsOfLine(parts: seq<string>, trailing: string)
    requires |parts| >= 1
    requires forall i :: 0 <= i < |parts| ==> '|' !in parts[i]
    requires |parts[0]| > 0 && parts[0][0] !in Whitespace
    requires |parts[|parts| - 1]| > 0 && parts[|parts| - 1][|parts[|parts| - 1]| - 1] !in Whitespace
    requires forall i :: 0 <= i < |trailing| ==> trailing[i] in Whitespace
    ensures Split(Strip(Join(parts, '|') + trailing, Whitespace), '|') == parts
  {
    var line := Join(parts, '|');
    JoinFirst(parts, '|');
    JoinLast(parts, '|');
    assert "" + line + trailing == line + trailing;
    StripExact("", line, trailing, Whitespace);
    SplitJoin(parts, '|');
  }

  /** A log line made of four fields without `|`, followed by the newline git
      prints, parses back into those fields. */
  lemma ParseLastCommitRoundTrip(hash: string, message: string, author: string, date: string, trailing: string)
    requires '|' !in hash && '|' !in message && '|' !in author && '|' !in date
    requires |hash| > 0 && hash[0] !in Whitespace
    requires |date| > 0 && date[|date| - 1] !in Whitespace
    requires forall i :: 0 <= i < |trailing| ==> trailing[i] in Whitespace
    ensures ParseLastCommit(Join([hash, message, author, date], '|') + trailing)
            == Some(Commit(Take(hash, 8), message, author, date))
  {
    FieldsOfLine([hash, message, author, date], trailing);
  }

  /** Joining around a part that holds the separator is joining its pieces. */
  lemma JoinAroundSeparator(hash: string, before: string, after: string, author: string, date: string)
    ensures Join([hash, before + "|" + after, author, date], '|') == Join([hash, before, after, author, date], '|')
  {
    var five := [hash, before, after, author, date];
    var four := [hash, before + "|" + after, author, date];
    assert five[3..] == four[2..];
    assert five[2..][1..] == five[3..];
    assert Join(five[2..], '|') == after + "|" + Join(five[3..], '|');
    assert Join(five[1..], '|') == before + "|" + Join(five[2..], '|');
    assert Join(four[1..], '|') == before + "|" + after + "|" + Join(four[2..], '|');
  }

  /** A commit subject holding a `|` makes five fields, and the last commit is
      then left out of the summary. */
  lemma PipeInSubjectDropsCommit(hash: string, before: string, after: string, author: string, date: string)
    requires '|' !in hash && '|' !in before && '|' !in after && '|' !in author && '|' !in date
    requires |hash| > 0 && hash[0] !in Whitespace
    requires |date| > 0 && date[|date| - 1] !in Whitespace
    ensures ParseLastCommit(Join([hash, before + "|" + after, author, date], '|')) == None
  {
    JoinAroundSeparator(hash, before, after, author, date);
    FieldsOfLine([hash, before, after, author, date], "");
    assert Join([hash, before, after, author, date], '|') + "" == Join([hash, before, after, author, date], '|');
  }

  const OriginQuery: seq<string> := ["config", "--get", "remote.origin.url"]
  const BranchQuery: seq<string> := ["branch", "--show-current"]
  const LastCommitQuery: seq<string> := ["log", "-1", "--format=%H|%s|%an|%ad", "--date=short"]

  /** `get_git_info` started after history `h`: the processes started and the
      summary, `None` when the directory is no checkout or no key was set. A
      command that raised leaves its key out, as one that failed does. */
  ghost function GitInfoSpec(o: Oracle, h: seq<Process>, repo: string, isRepo: bool)
    : (r: (seq<Process>, Option<GitInfo>))
    ensures !isRepo ==> r == ([], None)
    ensures r.1.Some? ==> r.1.value != GitInfo(None, None, None)
  {
    if !isRepo then ([], None)
    else
      var p0 := GitQuery(OriginQuery, repo);
      var p1 := GitQuery(BranchQuery, repo);
      var p2 := GitQuery(LastCommitQuery, repo);
      var e0 := o(h, p0);
      var e1 := o(h + [p0], p1);
      var e2 := o(h + [p0, p1], p2);
      var info := GitInfo(StrippedOutput(e0), StrippedOutput(e1),
                          if Succeeded(e2) then ParseLastCommit(e2.stdout) else None);
      ([p0, p1, p2], if info == GitInfo(None, None, None) then None else Some(info))
  }

  /** `get_git_info(package_path)` for the package `name`. */
  method GetGitInfo(sh: Runner, d: Disk, name: string) returns (info: Option<GitInfo>)
    modifies sh
    ensures var spec := GitInfoSpec(sh.oracle, old(sh.history), PackagePath(name), IsGitRepository(d, name));
      sh.history == old(sh.history) + spec.0 && info == spec.1
  {
    var repo := PackagePath(name);
    if !IsGitRepository(d, name) {
      return None;
    }
    ghost var h := sh.history;
    var p0, p1, p2 := GitQuery(OriginQuery, repo), GitQuery(BranchQuery, repo), GitQuery(LastCommitQuery, repo);
    var e := sh.Spawn(p0);
    var origin := StrippedOutput(e);
    e := sh.Spawn(p1);
    var branch := StrippedOutput(e);
    AppendAssoc(h, [p0], [p1]);
    assert [p0] + [p1] == [p0, p1];
    e := sh.Spawn(p2);
    AppendAssoc(h, [p0, p1], [p2]);
    assert [p0, p1] + [p2] == [p0, p1, p2];
    var last := if Succeeded(e) then ParseLastCommit(e.stdout) else None;
    var gathered := GitInfo(origin, branch, last);
    info := if gathered == GitInfo(None, None, None) then None else Some(gathered);
  }

  // ---------------------------------------------------------------------------
  // Update check
  // ---------------------------------------------------------------------------

  /** The result of `check_for_updates`: `None`, `False`, or the dictionary of
      shortened commits and pending commit lines. */
  datatype UpdateCheck =
    | CannotDetermine
    | UpToDate
    | UpdatesAvailable(currentCommit: string, remoteCommit: string, commitMessages: seq<string>)

  /** The remote refs tried in turn for the remote commit. */
  const RemoteRefs: seq<string> := ["origin/HEAD", "origin/main", "origin/master"]

  function RevParse(reference: string, repo: string): Process
  {
    GitQuery(["rev-parse", reference], repo)
  }

  /** The non-blank lines of a command's stripped output: the list comprehension
      over `stdout.strip().split("\n")`. */
  function NonBlankLines(stdout: string): (lines: seq<string>)
    ensures forall l :: l in lines <==> l in Split(Strip(stdout, Whitespace), '\n') && NotBlank(l)
  {
    KeepNotBlank(Split(Strip(stdout, Whitespace), '\n'))
  }

  function KeepNotBlank(lines: seq<string>): (kept: seq<string>)
    ensures forall l :: l in kept <==> l in lines && NotBlank(l)
  {
    if lines == [] then []
    else if NotBlank(lines[0]) then [lines[0]] + KeepNotBlank(lines[1..])
    else KeepNotBlank(lines[1..])
  }

  /** The filter works line by line: a single line is kept iff it is not blank,
      and the filter of a concatenation is the concatenation of the filters.
      So the kept lines are the non-blank ones in their order, repeats
      included. */
  lemma {:induction false} KeepNotBlankAppend(a: seq<string>, b: seq<string>)
    ensures KeepNotBlank([]) == []
    ensures forall l :: KeepNotBlank([l]) == if NotBlank(l) then [l] else []
    ensures KeepNotBlank(a + b) == KeepNotBlank(a) + KeepNotBlank(b)
    decreases |a|
  {
    forall l ensures KeepNotBlank([l]) == if NotBlank(l) then [l] else [] {
      assert [l][1..] == [];
    }
    if a == [] {
      assert a + b == b;
    } else {
      assert (a + b)[0] == a[0] && (a + b)[1..] == a[1..] + b;
      KeepNotBlankAppend(a[1..], b);
      if NotBlank(a[0]) {
        AppendAssoc([a[0]], KeepNotBlank(a[1..]), KeepNotBlank(b));
      }
    }
  }

  /** The number of times a line is kept is the number of times it occurs, for
      a non-blank line, and zero for a blank one. */
  lemma {:induction false} KeepNotBlankCounts(lines: seq<string>, l: string)
    ensures multiset(KeepNotBlank(lines))[l] == if NotBlank(l) then multiset(lines)[l] else 0
    decreases |lines|
  {
    if lines != [] {
      assert lines == [lines[0]] + lines[1..];
      KeepNotBlankCounts(lines[1..], l);
    }
  }

  /** A process that exited with a non-zero status. */
  predicate FailedExit(e: Exit)
  {
    e.Exited? && !e.success
  }

  /** The fallback chain for the remote commit: query each ref in turn until one
      exits successfully; a raise, or a failure of the last ref, gives `None`. */
  ghost function RemoteCommit(o: Oracle, h: seq<Process>, repo: string, refs: seq<string>)
    : (r: (seq<Process>, Option<string>))
    requires |refs| >= 1
    decreases |refs|
  {
    var p := RevParse(refs[0], repo);
    var e := o(h, p);
    if FailedExit(e) && |refs| > 1 then
      var rest := RemoteCommit(o, h + [p], repo, refs[1..]);
      ([p] + rest.0, rest.1)
    else ([p], StrippedOutput(e))
  }

  /** The refs are queried in order. */
  lemma {:induction false} RemoteCommitQueries(o: Oracle, h: seq<Process>, repo: string, refs: seq<string>)
    requires |refs| >= 1
    ensures 1 <= |RemoteCommit(o, h, repo, refs).0| <= |refs|
    ensures forall k :: 0 <= k < |RemoteCommit(o, h, repo, refs).0| ==>
      RemoteCommit(o, h, repo, refs).0[k] == RevParse(refs[k], repo)
    decreases |refs|
  {
    var p := RevParse(refs[0], repo);
    var e := o(h, p);
    if FailedExit(e) && |refs| > 1 {
      var rest := RemoteCommit(o, h + [p], repo, refs[1..]);
      RemoteCommitQueries(o, h + [p], repo, refs[1..]);
      assert RemoteCommit(o, h, repo, refs).0 == [p] + rest.0;
    }
  }

  /** The history before the `k`-th query of a chain that began with `p`. */
  lemma HistoryAfterFirst(h: seq<Process>, p: Process, rest: seq<Process>, k: nat)
    requires 0 < k <= |rest|
    ensures h + ([p] + rest)[..k] == (h + [p]) + rest[..k - 1]
  {
    assert ([p] + rest)[..k] == [p] + rest[..k - 1];
    AppendAssoc(h, [p], rest[..k - 1]);
  }

  /** Every ref queried before the last one exited with a failure status. */
  lemma {:induction false} RemoteCommitEarlierFailed(o: Oracle, h: seq<Process>, repo: string, refs: seq<string>)
    requires |refs| >= 1
    ensures forall k :: 0 <= k < |RemoteCommit(o, h, repo, refs).0| - 1 ==>
      FailedExit(o(h + RemoteCommit(o, h, repo, refs).0[..k], RemoteCommit(o, h, repo, refs).0[k]))
    decreases |refs|
  {
    var p := RevParse(refs[0], repo);
    var e := o(h, p);
    if FailedExit(e) && |refs| > 1 {
      var r := RemoteCommit(o, h, repo, refs);
      var rest := RemoteCommit(o, h + [p], repo, refs[1..]);
      RemoteCommitEarlierFailed(o, h + [p], repo, refs[1..]);
      assert r.0 == [p] + rest.0;
      forall k | 0 <= k < |r.0| - 1 ensures FailedExit(o(h + r.0[..k], r.0[k])) {
        if k == 0 {
          assert h + r.0[..0] == h && r.0[0] == p;
        } else {
          HistoryAfterFirst(h, p, rest.0, k);
          assert r.0[k] == rest.0[k - 1];
        }
      }
    }
  }

  /** The outcome of the chain is the stripped output of its last query. */
  lemma {:induction false} RemoteCommitLastDecides(o: Oracle, h: seq<Process>, repo: string, refs: seq<string>)
    requires |refs| >= 1
    ensures |RemoteCommit(o, h, repo, refs).0| >= 1
    ensures var r := RemoteCommit(o, h, repo, refs);
      r.1 == StrippedOutput(o(h + r.0[..|r.0| - 1], r.0[|r.0| - 1]))
    decreases |refs|
  {
    var p := RevParse(refs[0], repo);
    var e := o(h, p);
    var r := RemoteCommit(o, h, repo, refs);
    if !(FailedExit(e) && |refs| > 1) {
      assert h + r.0[..0] == h;
    } else {
      var rest := RemoteCommit(o, h + [p], repo, refs[1..]);
      RemoteCommitLastDecides(o, h + [p], repo, refs[1..]);
      var n := |rest.0|;
      assert r == ([p] + rest.0, rest.1);
      HistoryAfterFirst(h, p, rest.0, n);
      assert h + r.0[..n] == (h + [p]) + rest.0[..n - 1];
      assert r.0[n] == rest.0[n - 1];
    }
  }

  /** A ref is queried only after every earlier one exited with a failure
      status; the remote commit is found iff the last query succeeded, and it is
      that query's stripped output. */
  lemma RemoteCommitFallsBack(o: Oracle, h: seq<Process>, repo: string, refs: seq<string>)
    requires |refs| >= 1
    ensures var r := RemoteCommit(o, h, repo, refs);
      var n := |r.0|;
      && n >= 1
      && (forall k :: 0 <= k < n - 1 ==> FailedExit(o(h + r.0[..k], r.0[k])))
      && r.1 == StrippedOutput(o(h + r.0[..n - 1], r.0[n - 1]))
  {
    RemoteCommitEarlierFailed(o, h, repo, refs);
    RemoteCommitLastDecides(o, h, repo, refs);
  }

  /** The chain over the three refs the source tries, unrolled: each query is
      made only when the one before exited with a failure status. */
  lemma RemoteRefsInTurn(o: Oracle, h: seq<Process>, repo: string)
    ensures var p0, p1, p2 := RevParse("origin/HEAD", repo), RevParse("origin/main", repo),
                              RevParse("origin/master", repo);
      var e0, e1 := o(h, p0), o(h + [p0], p1);
      RemoteCommit(o, h, repo, RemoteRefs)
      == if !FailedExit(e0) then ([p0], StrippedOutput(e0))
         else if !FailedExit(e1) then ([p0, p1], StrippedOutput(e1))
         else ([p0, p1, p2], StrippedOutput(o(h + [p0, p1], p2)))
  {
    var p0, p1, p2 := RevParse("origin/HEAD", repo), RevParse("origin/main", repo),
                      RevParse("origin/master", repo);
    assert RemoteRefs[1..] == ["origin/main", "origin/master"];
    assert RemoteRefs[1..][1..] == ["origin/master"];
    AppendAssoc(h, [p0], [p1]);
    assert [p0] + [p1] == [p0, p1];
    var r2 := RemoteCommit(o, h + [p0] + [p1], repo, RemoteRefs[1..][1..]);
    assert r2 == ([p2], StrippedOutput(o(h + [p0, p1], p2)));
    var r1 := RemoteCommit(o, h + [p0], repo, RemoteRefs[1..]);
    assert r1 == if FailedExit(o(h + [p0], p1)) then ([p1] + r2.0, r2.1)
                 else ([p1], StrippedOutput(o(h + [p0], p1)));
    assert [p0] + ([p1] + [p2]) == [p0, p1, p2];
  }

  /** The second half of `check_for_updates`, once the current commit is
      known: find the remote commit, compare, and list the pending commits. */
  ghost function CompareSpec(o: Oracle, h: seq<Process>, repo: string, current: string)
    : (r: (seq<Process>, UpdateCheck))
  {
    var remote := RemoteCommit(o, h, repo, RemoteRefs);
    if remote.1.None? then (remote.0, CannotDetermine)
    else if current == remote.1.value then (remote.0, UpToDate)
    else
      var log := GitQuery(["log", "--oneline", current + ".." + remote.1.value], repo);
      var l := o(h + remote.0, log);
      (remote.0 + [log],
       if l.Raised? then CannotDetermine
       else UpdatesAvailable(Take(current, 8), Take(remote.1.value, 8),
                             if l.success then NonBlankLines(l.stdout) else []))
  }

  /** `check_for_updates` started after history `h`. The exit status of the
      fetch is ignored, but a fetch that raises (its 30-second timeout) ends
      the check; any raise gives `CannotDetermine`. */
  ghost function CheckForUpdatesSpec(o: Oracle, h: seq<Process>, repo: string, isRepo: bool)
    : (r: (seq<Process>, UpdateCheck))
  {
    if !isRepo then ([], CannotDetermine)
    else
      var fetch := GitQuery(["fetch", "origin"], repo);
      if o(h, fetch).Raised? then ([fetch], CannotDetermine)
      else
        var head := RevParse("HEAD", repo);
        var e := o(h + [fetch], head);
        if !Succeeded(e) then ([fetch, head], CannotDetermine)
        else
          var rest := CompareSpec(o, h + [fetch, head], repo, Strip(e.stdout, Whitespace));
          ([fetch, head] + rest.0, rest.1)
  }

  /** Every process is a git command run in `repo`. */
  ghost predicate GitIn(ps: seq<Process>, repo: string)
  {
    forall k :: 0 <= k < |ps| ==> ps[k].GitQuery? && ps[k].repo == repo
  }

  /** Updates carry hashes of at most eight characters and non-blank lines. */
  predicate ShortAndNotBlank(u: UpdateCheck)
  {
    u.UpdatesAvailable? ==>
      && |u.currentCommit| <= 8 && |u.remoteCommit| <= 8
      && (forall m :: m in u.commitMessages ==> NotBlank(m))
  }

  /** The comparison starts between one and four git commands in the package
      directory; it is up to date iff the remote commit equals the current
      one, and updates are reported only when they differ, with both hashes
      cut to eight characters and only non-blank commit lines. */
  lemma CompareShape(o: Oracle, h: seq<Process>, repo: string, current: string)
    ensures var r := CompareSpec(o, h, repo, current);
      var remote := RemoteCommit(o, h, repo, RemoteRefs).1;
      && 1 <= |r.0| <= 4
      && GitIn(r.0, repo)
      && (r.1.UpToDate? <==> remote == Some(current))
      && (r.1.UpdatesAvailable? ==>
            && remote.Some? && remote.value != current
            && r.1.currentCommit == Take(current, 8)
            && r.1.remoteCommit == Take(remote.value, 8))
      && ShortAndNotBlank(r.1)
  {
    var remote := RemoteCommit(o, h, repo, RemoteRefs);
    var r := CompareSpec(o, h, repo, current);
    RemoteCommitQueries(o, h, repo, RemoteRefs);
    if remote.1.Some? && current != remote.1.value {
      var log := GitQuery(["log", "--oneline", current + ".." + remote.1.value], repo);
      assert r.0 == remote.0 + [log];
      assert r.0[|remote.0|] == log;
    }
  }

  /** Every process the check starts is a git command in the package directory,
      the first is the fetch, and there are at most six; a check that concludes
      anything ran `git rev-parse HEAD` second, and reports updates only with
      hashes of at most eight characters and non-blank commit lines. */
  lemma CheckForUpdatesShape(o: Oracle, h: seq<Process>, repo: string, isRepo: bool)
    ensures var r := CheckForUpdatesSpec(o, h, repo, isRepo);
      && |r.0| <= 6
      && GitIn(r.0, repo)
      && (isRepo <==> |r.0| > 0)
      && (isRepo ==> r.0[0] == GitQuery(["fetch", "origin"], repo))
      && (!r.1.CannotDetermine? ==> |r.0| >= 3 && r.0[1] == RevParse("HEAD", repo))
      && ShortAndNotBlank(r.1)
  {
    var r := CheckForUpdatesSpec(o, h, repo, isRepo);
    if isRepo {
      var fetch := GitQuery(["fetch", "origin"], repo);
      var head := RevParse("HEAD", repo);
      var e := o(h + [fetch], head);
      if o(h, fetch).Raised? {
        assert r == ([fetch], CannotDetermine);
      } else if !Succeeded(e) {
        assert r == ([fetch, head], CannotDetermine);
      } else {
        var current := Strip(e.stdout, Whitespace);
        var rest := CompareSpec(o, h + [fetch, head], repo, current);
        CompareShape(o, h + [fetch, head], repo, current);
        assert r == ([fetch, head] + rest.0, rest.1);
        forall k | 2 <= k < |r.0| ensures r.0[k] == rest.0[k - 2] {
        }
      }
    }
  }

  /** The remote half of the check, as the source writes it: `origin/HEAD`, then
      `origin/main` when it fails, then `origin/master` when that fails too. */
  method CompareWithRemote(sh: Runner, repo: string, current: string) returns (r: UpdateCheck)
    modifies sh
    ensures var spec := CompareSpec(sh.oracle, old(sh.history), repo, current);
      sh.history == old(sh.history) + spec.0 && r == spec.1
  {
    ghost var h, o := sh.history, sh.oracle;
    ghost var remote := RemoteCommit(o, h, repo, RemoteRefs);
    var p0, p1, p2 := RevParse("origin/HEAD", repo), RevParse("origin/main", repo), RevParse("origin/master", repo);
    RemoteRefsInTurn(o, h, repo);
    var e := sh.Spawn(p0);
    if FailedExit(e) {
      e := sh.Spawn(p1);
      AppendAssoc(h, [p0], [p1]);
      assert [p0] + [p1] == [p0, p1];
      if FailedExit(e) {
        e := sh.Spawn(p2);
        AppendAssoc(h, [p0, p1], [p2]);
        assert [p0, p1] + [p2] == [p0, p1, p2];
      }
    }
    assert sh.history == h + remote.0;
    if !Succeeded(e) {
      return CannotDetermine;
    }
    var remoteCommit := Strip(e.stdout, Whitespace);
    if current == remoteCommit {
      return UpToDate;
    }
    var log := GitQuery(["log", "--oneline", current + ".." + remoteCommit], repo);
    e := sh.Spawn(log);
    AppendAssoc(h, remote.0, [log]);
    if e.Raised? {
      return CannotDetermine;
    }
    var messages := if e.success then NonBlankLines(e.stdout) else [];
    return UpdatesAvailable(Take(current, 8), Take(remoteCommit, 8), messages);
  }

  /** `check_for_updates(package_path)` for the package `name`. */
  method CheckForUpdates(sh: Runner, d: Disk, name: string) returns (r: UpdateCheck)
    modifies sh
    ensures var spec := CheckForUpdatesSpec(sh.oracle, old(sh.history), PackagePath(name), IsGitRepository(d, name));
      sh.history == old(sh.history) + spec.0 && r == spec.1
  {
    var repo := PackagePath(name);
    ghost var o := sh.oracle;
    ghost var h := sh.history;
    if !IsGitRepository(d, name) {
      return CannotDetermine;
    }
    ghost var spec := CheckForUpdatesSpec(o, h, repo, true);
    var fetch := GitQuery(["fetch", "origin"], repo);
    var e := sh.Spawn(fetch);
    if e.Raised? {
      assert spec == ([fetch], CannotDetermine);
      return CannotDetermine;
    }
    var head := RevParse("HEAD", repo);
    e := sh.Spawn(head);
    if !Succeeded(e) {
      assert spec == ([fetch, head], CannotDetermine);
      return CannotDetermine;
    }
    var current := Strip(e.stdout, Whitespace);
    AppendAssoc(h, [fetch], [head]);
    assert [fetch] + [head] == [fetch, head];
    ghost var rest := CompareSpec(o, h + [fetch, head], repo, current);
    assert spec == ([fetch, head] + rest.0, rest.1);
    r := CompareWithRemote(sh, repo, current);
    AppendAssoc(h, [fetch, head], rest.0);
  }

  // ---------------------------------------------------------------------------
  // Upgrade by pull
  // ---------------------------------------------------------------------------

  /** `upgrade_git_package` started after history `h`: one `git pull origin`,
      successful iff it exited with status 0; nothing for a non-checkout. */
  ghost function UpgradeGitSpec(o: Oracle, h: seq<Process>, repo: string, isRepo: bool): (r: (seq<Process>, bool))
    ensures r.1 ==> isRepo
  {
    if !isRepo then ([], false)
    else
      var pull := GitQuery(["pull", "origin"], repo);
      ([pull], Succeeded(o(h, pull)))
  }

  /** `upgrade_git_package(package_path)` for the package `name`. */
  method UpgradeGitPackage(sh: Runner, d: Disk, name: string) returns (ok: bool)
    modifies sh
    ensures var spec := UpgradeGitSpec(sh.oracle, old(sh.history), PackagePath(name), IsGitRepository(d, name));
      sh.history == old(sh.history) + spec.0 && ok == spec.1
  {
    if !IsGitRepository(d, name) {
      return false;
    }
    var e := sh.Spawn(GitQuery(["pull", "origin"], PackagePath(name)));
    ok := Succeeded(e);
  }
}
