/** The processes the package manager starts (shell command lines, git queries,
    `git clone`), seen as an oracle, and the fail-fast command-list loop that the
    installer, the uninstaller and the upgrader each run over a descriptor list. */
module Shell {
  import opened Common
  import opened JsonData

  /** A process the package manager starts. */
  datatype Process =
      /** `run_silent_command(command, ..., cwd)`: a descriptor command handed to the shell as is. */
    | ShellLine(command: Json, cwd: Option<string>)
      /** `subprocess.run(["git"] + args, cwd=repo)`. */
    | GitQuery(args: seq<string>, repo: string)
      /** `download_package(url, dest)`: `git clone url dest`. */
    | GitClone(url: string, dest: string)

  /** How a process ended: it exited, successfully iff its exit status is 0, with
      its standard output; or starting or waiting for it raised (a timeout, a
      missing executable). */
  datatype Exit = Exited(success: bool, stdout: string) | Raised

  /** The outside world: what a process does, given every process started before it. */
  type Oracle = (seq<Process>, Process) -> Exit

  predicate Succeeded(e: Exit)
  {
    e.Exited? && e.success
  }

  /** The process runner: the oracle and the history of every process started. */
  class Runner {
    const oracle: Oracle
    var history: seq<Process>

    method Spawn(p: Process) returns (e: Exit)
      modifies this
      ensures history == old(history) + [p]
      ensures e == oracle(old(history), p)
    {
      e := oracle(history, p);
      history := history + [p];
    }
  }

  /** The shell processes for a list of descriptor commands run in `cwd`. */
  function Lines(cmds: seq<Json>, cwd: Option<string>): (ps: seq<Process>)
    ensures |ps| == |cmds|
  {
    seq(|cmds|, i requires 0 <= i < |cmds| => ShellLine(cmds[i], cwd))
  }

  /** Every process of `ps` succeeded, each started after `h` and the ones before it. */
  ghost predicate AllSucceeded(o: Oracle, h: seq<Process>, ps: seq<Process>)
    decreases ps
  {
    ps == [] || (Succeeded(o(h, ps[0])) && AllSucceeded(o, h + [ps[0]], ps[1..]))
  }

  /** `ps` is non-empty, every process but the last succeeded and the last one failed. */
  ghost predicate StoppedAtFailure(o: Oracle, h: seq<Process>, ps: seq<Process>)
  {
    && |ps| > 0
    && AllSucceeded(o, h, ps[..|ps| - 1])
    && !Succeeded(o(h + ps[..|ps| - 1], ps[|ps| - 1]))
  }

  /** A fail-fast command list started after history `h`: the processes started,
      and whether the list succeeded. */
  ghost function FailFast(o: Oracle, h: seq<Process>, cmds: seq<Json>, cwd: Option<string>)
    : (r: (seq<Process>, bool))
    decreases cmds
  {
    if cmds == [] then ([], true)
    else
      var p := ShellLine(cmds[0], cwd);
      if !Succeeded(o(h, p)) then ([p], false)
      else
        var rest := FailFast(o, h + [p], cmds[1..], cwd);
        ([p] + rest.0, rest.1)
  }

  /** The commands run in list order, in `cwd`, and a list that fails has started
      at least one command. */
  lemma {:induction false} FailFastRunsInOrder(o: Oracle, h: seq<Process>, cmds: seq<Json>, cwd: Option<string>)
    ensures var r := FailFast(o, h, cmds, cwd);
      |r.0| <= |cmds| && r.0 == Lines(cmds[..|r.0|], cwd) && (!r.1 ==> |r.0| > 0)
    decreases cmds
  {
    if cmds != [] {
      var p := ShellLine(cmds[0], cwd);
      if Succeeded(o(h, p)) {
        FailFastRunsInOrder(o, h + [p], cmds[1..], cwd);
        var rest := FailFast(o, h + [p], cmds[1..], cwd);
        assert cmds[..|rest.0| + 1] == [cmds[0]] + cmds[1..][..|rest.0|];
      }
    }
  }

  /** The list succeeds iff every command ran and succeeded; when it fails, the
      last command started is the first one that failed. */
  lemma {:induction false} FailFastVerdict(o: Oracle, h: seq<Process>, cmds: seq<Json>, cwd: Option<string>)
    ensures var r := FailFast(o, h, cmds, cwd);
      && (r.1 <==> |r.0| == |cmds| && AllSucceeded(o, h, r.0))
      && (!r.1 ==> StoppedAtFailure(o, h, r.0))
    decreases cmds
  {
    if cmds != [] {
      var p := ShellLine(cmds[0], cwd);
      if Succeeded(o(h, p)) {
        FailFastVerdict(o, h + [p], cmds[1..], cwd);
        var rest := FailFast(o, h + [p], cmds[1..], cwd);
        var ps := [p] + rest.0;
        assert ps[1..] == rest.0;
        if !rest.1 {
          var init := rest.0[..|rest.0| - 1];
          assert ps[..|ps| - 1] == [p] + init;
          assert ps[..|ps| - 1][1..] == init;
          AppendAssoc(h, [p], init);
        }
      } else {
        assert [p][..0] == [];
        assert h + [p][..0] == h;
      }
    }
  }

  lemma FailFastStep(o: Oracle, h: seq<Process>, cmds: seq<Json>, cwd: Option<string>)
    requires cmds != []
    ensures var p := ShellLine(cmds[0], cwd);
      FailFast(o, h, cmds, cwd) ==
        if !Succeeded(o(h, p)) then ([p], false)
        else ([p] + FailFast(o, h + [p], cmds[1..], cwd).0, FailFast(o, h + [p], cmds[1..], cwd).1)
  {
  }

  /** `run_silent_command`: true iff the command exited with status 0. */
  method RunSilentCommand(sh: Runner, command: Json, cwd: Option<string>) returns (ok: bool)
    modifies sh
    ensures sh.history == old(sh.history) + [ShellLine(command, cwd)]
    ensures ok == Succeeded(sh.oracle(old(sh.history), ShellLine(command, cwd)))
  {
    var e := sh.Spawn(ShellLine(command, cwd));
    ok := Succeeded(e);
  }

  /** The loop `for command in commands: if not run_silent_command(...): return False`,
      followed by `return True`. */
  method RunFailFast(sh: Runner, cmds: seq<Json>, cwd: Option<string>) returns (ok: bool)
    modifies sh
    ensures sh.history == old(sh.history) + FailFast(sh.oracle, old(sh.history), cmds, cwd).0
    ensures ok == FailFast(sh.oracle, old(sh.history), cmds, cwd).1
  {
    ghost var o, h0 := sh.oracle, sh.history;
    ghost var whole := FailFast(o, h0, cmds, cwd);
    ghost var tail := whole;
    var rest := cmds;
    while rest != []
      invariant tail == FailFast(o, sh.history, rest, cwd)
      invariant h0 + whole.0 == sh.history + tail.0 && whole.1 == tail.1
    {
      ghost var h, p := sh.history, ShellLine(rest[0], cwd);
      FailFastStep(o, h, rest, cwd);
      ok := RunSilentCommand(sh, rest[0], cwd);
      if !ok {
        return;
      }
      tail := FailFast(o, h + [p], rest[1..], cwd);
      AppendAssoc(h, [p], tail.0);
      rest := rest[1..];
    }
    ok := true;
  }

  // ---------------------------------------------------------------------------
  // Work done item after item
  // ---------------------------------------------------------------------------

  /** The processes of several runs, one run after the other. */
  function Flatten(runs: seq<seq<Process>>): seq<Process>
  {
    if runs == [] then [] else Flatten(runs[..|runs| - 1]) + runs[|runs| - 1]
  }

  /** The items were handled one after the other, starting after history `h`:
      item `k` started the processes `runs[k]` and gave `results[k]`, once every
      item before it was done. */
  ghost predicate InTurn<T, R>(step: (seq<Process>, T) -> (seq<Process>, R), h: seq<Process>,
                               items: seq<T>, runs: seq<seq<Process>>, results: seq<R>)
  {
    && |runs| == |items| && |results| == |items|
    && forall k {:trigger items[k]} :: 0 <= k < |items| ==> step(h + Flatten(runs[..k]), items[k]) == (runs[k], results[k])
  }

  /** Handling one more item, after all the others, extends the record. */
  lemma InTurnExtend<T, R>(step: (seq<Process>, T) -> (seq<Process>, R), h: seq<Process>,
                           items: seq<T>, runs: seq<seq<Process>>, results: seq<R>, x: T, run: seq<Process>, result: R)
    requires InTurn(step, h, items, runs, results)
    requires step(h + Flatten(runs), x) == (run, result)
    ensures InTurn(step, h, items + [x], runs + [run], results + [result])
    ensures Flatten(runs + [run]) == Flatten(runs) + run
    ensures h + Flatten(runs + [run]) == h + Flatten(runs) + run
  {
    assert (runs + [run])[..|runs|] == runs;
    forall k | 0 <= k < |items| + 1
      ensures step(h + Flatten((runs + [run])[..k]), (items + [x])[k]) == ((runs + [run])[k], (results + [result])[k])
    {
      if k < |items| {
        assert (runs + [run])[..k] == runs[..k];
      }
    }
  }

  /** The record of items handled in turn is determined by the items and the
      step: there is only one. */
  lemma InTurnUnique<T, R>(step: (seq<Process>, T) -> (seq<Process>, R), h: seq<Process>, items: seq<T>,
                           runs1: seq<seq<Process>>, results1: seq<R>, runs2: seq<seq<Process>>, results2: seq<R>)
    requires InTurn(step, h, items, runs1, results1)
    requires InTurn(step, h, items, runs2, results2)
    ensures runs1 == runs2 && results1 == results2
  {
    var k := 0;
    while k < |items|
      invariant 0 <= k <= |items|
      invariant runs1[..k] == runs2[..k] && results1[..k] == results2[..k]
    {
      InTurnSameNext(step, h, items, runs1, results1, runs2, results2, k);
      k := k + 1;
    }
    assert runs1 == runs1[..k] && runs2 == runs2[..k];
    assert results1 == results1[..k] && results2 == results2[..k];
  }

  lemma InTurnSameNext<T, R>(step: (seq<Process>, T) -> (seq<Process>, R), h: seq<Process>, items: seq<T>,
                             runs1: seq<seq<Process>>, results1: seq<R>, runs2: seq<seq<Process>>, results2: seq<R>, k: nat)
    requires InTurn(step, h, items, runs1, results1)
    requires InTurn(step, h, items, runs2, results2)
    requires k < |items| && runs1[..k] == runs2[..k] && results1[..k] == results2[..k]
    ensures runs1[..k + 1] == runs2[..k + 1] && results1[..k + 1] == results2[..k + 1]
  {
    assert step(h + Flatten(runs1[..k]), items[k]) == (runs1[k], results1[k]);
    assert step(h + Flatten(runs2[..k]), items[k]) == (runs2[k], results2[k]);
    assert runs1[..k + 1] == runs1[..k] + [runs1[k]] && runs2[..k + 1] == runs2[..k] + [runs2[k]];
    assert results1[..k + 1] == results1[..k] + [results1[k]] && results2[..k + 1] == results2[..k] + [results2[k]];
  }
}
