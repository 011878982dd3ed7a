/** The reuse of evidence tried from both sides: an untampered receipt is accepted under every
    policy, and any single thing wrong with it makes it worthless. */
module EvidenceAudit {
  import opened J = Json
  import opened EvidenceReuse
  import opened Hashing

  // ----- commit ids -----

  /** Commit ids are forty lower-case hexadecimal digits, nothing before them or after. */
  lemma ShaExactly(s: string)
    ensures IsSha(s) <==> |s| == 40 && forall c :: c in s ==> c in "0123456789abcdef"
  {
    forall c: char ensures c in "0123456789abcdef" <==> '0' <= c <= '9' || 'a' <= c <= 'f' {
      HexDigit(c);
    }
    assert IsSha(s) ==> forall c :: c in s ==> '0' <= c <= '9' || 'a' <= c <= 'f';
    assert (forall c :: c in s ==> '0' <= c <= '9' || 'a' <= c <= 'f') ==> forall i :: 0 <= i < |s| ==> s[i] in s;
  }

  // ----- an untampered receipt -----

  const PASSED := Some("success")

  function PassedRun(name: string, id: int, head: string): Run {
    Run(Some(id), Some(name), Some(head), Some("pull_request"), Some("completed"), PASSED)
  }

  /** One successful run for each required workflow. */
  function PassedRuns(names: seq<string>, head: string): (r: seq<Run>)
    ensures |r| == |names| && forall i :: 0 <= i < |r| ==> r[i] == PassedRun(names[i], i + 1, head)
  {
    seq(|names|, i requires 0 <= i < |names| => PassedRun(names[i], i + 1, head))
  }

  function PassedSteps(names: seq<string>): (r: seq<JobStep>)
    ensures |r| == |names| && forall i :: 0 <= i < |r| ==> r[i] == JobStep(Some(names[i]), PASSED)
  {
    seq(|names|, i requires 0 <= i < |names| => JobStep(Some(names[i]), PASSED))
  }

  /** One successful job for each name, in which every critical step succeeded. */
  function PassedJobs(names: seq<string>, steps: map<string, seq<string>>): (r: seq<Job>)
    requires forall name :: name in names ==> name in steps
    ensures |r| == |names|
    ensures forall i :: 0 <= i < |r| ==> r[i] == Job(Some(names[i]), Some("completed"), PASSED, PassedSteps(steps[names[i]]))
  {
    seq(|names|, i requires 0 <= i < |names| => Job(Some(names[i]), Some("completed"), PASSED, PassedSteps(steps[names[i]])))
  }

  ghost predicate Enumerates(names: seq<string>, all: set<string>) {
    && (forall i, j :: 0 <= i < j < |names| ==> names[i] != names[j])
    && forall name :: name in names <==> name in all
  }

  lemma RunsPassed(p: Policy, names: seq<string>, head: string)
    requires Enumerates(names, p.required) && |names| <= 100
    ensures WorkflowsPassed(p, History(Some(|names|), Some(PassedRuns(names, head))), head)
    ensures forall k :: 0 <= k < |names| ==> Latest(PassedRuns(names, head), head, names[k], k)
  {
    var runs := PassedRuns(names, head);
    forall k | 0 <= k < |names| ensures Latest(runs, head, names[k], k) && Successful(runs[k]) {
    }
    forall name | name in p.required ensures exists i :: Latest(runs, head, name, i) && Successful(runs[i]) {
      var k :| 0 <= k < |names| && names[k] == name;
      assert Latest(runs, head, name, k);
    }
  }

  lemma {:induction false} LastNamed(names: seq<string>, name: string) returns (k: nat)
    requires name in names
    ensures k < |names| && names[k] == name && forall m :: k < m < |names| ==> names[m] != name
  {
    var n := |names| - 1;
    if names[n] == name {
      k := n;
    } else {
      assert name in names[..n];
      k := LastNamed(names[..n], name);
    }
  }

  lemma StepsPassed(names: seq<string>, step: string)
    requires step in names
    ensures StepRan(PassedSteps(names), step)
  {
    var k := LastNamed(names, step);
    assert LastStep(PassedSteps(names), step, k);
  }

  lemma JobsPassed(p: Policy, gate: string, names: seq<string>)
    requires gate in p.critical && Enumerates(names, p.critical[gate].Keys) && |names| <= 100
    ensures JobsRan(p, JobList(Some(|names|), Some(PassedJobs(names, p.critical[gate]))), gate)
  {
    var jobs := PassedJobs(names, p.critical[gate]);
    forall name | name in p.critical[gate] ensures JobRan(jobs, name, p.critical[gate][name]) {
      var k :| 0 <= k < |names| && names[k] == name;
      assert LastJob(jobs, name, k);
      forall step | step in p.critical[gate][name] ensures StepRan(jobs[k].steps, step) {
        StepsPassed(p.critical[gate][name], step);
      }
    }
  }

  /** The receipt of a squash merge, as the host answers it. */
  datatype Receipt = Receipt(main: string, base: string, head: string, tree: string)

  ghost function Fixture(p: Policy, gate: string, r: Receipt, workflows: seq<string>, jobs: seq<string>): Api
    requires gate in p.critical && Enumerates(jobs, p.critical[gate].Keys)
  {
    Api(
      sha =>
        if sha == r.main then Got(Commit(Some(r.main), [Some(Some(r.base))], Some(Some(r.tree))))
        else Got(Commit(Some(r.head), [], Some(Some(r.tree)))),
      _ => Got([PullRequest(Some("closed"), Some("2026-10-31T00:00:00Z"), Some(r.main),
                            Branch(Some(r.base), Some("main"), Some(REPOSITORY)),
                            Branch(Some(r.head), None, Some(REPOSITORY)))]),
      head => Got(History(Some(|workflows|), Some(PassedRuns(workflows, head)))),
      _ => Got(JobList(Some(|jobs|), Some(PassedJobs(jobs, p.critical[gate])))))
  }

  lemma FixtureMerged(p: Policy, gate: string, r: Receipt, workflows: seq<string>, jobs: seq<string>)
    requires gate in p.critical && Enumerates(jobs, p.critical[gate].Keys)
    requires IsSha(r.main) && IsSha(r.head) && r.main != r.head
    ensures ExactMerge(Fixture(p, gate, r, workflows, jobs), r.main, r.head)
  {
    var api := Fixture(p, gate, r, workflows, jobs);
    assert api.commit(r.main) == Got(Commit(Some(r.main), [Some(Some(r.base))], Some(Some(r.tree))));
    assert api.commit(r.head) == Got(Commit(Some(r.head), [], Some(Some(r.tree))));
  }

  lemma RanAt(p: Policy, api: Api, gate: string, head: string, runs: seq<Run>, total: Option<int>, list: JobList, i: int)
    requires gate in p.workflow && Latest(runs, head, p.workflow[gate], i) && runs[i].id.Some?
    requires api.history(head) == Got(History(total, Some(runs)))
    requires api.jobs(runs[i].id.value) == Got(list) && JobsRan(p, list, gate)
    ensures StepsRan(p, api, gate, head)
  {
  }

  lemma FixtureRan(p: Policy, gate: string, r: Receipt, workflows: seq<string>, jobs: seq<string>)
    requires Coherent(p) && gate in p.critical
    requires Enumerates(workflows, p.required) && |workflows| <= 100
    requires Enumerates(jobs, p.critical[gate].Keys) && |jobs| <= 100
    ensures StepsRan(p, Fixture(p, gate, r, workflows, jobs), gate, r.head)
  {
    var runs, list := PassedRuns(workflows, r.head), JobList(Some(|jobs|), Some(PassedJobs(jobs, p.critical[gate])));
    var k :| 0 <= k < |workflows| && workflows[k] == p.workflow[gate];
    assert Latest(runs, r.head, p.workflow[gate], k) by { RunsPassed(p, workflows, r.head); }
    assert JobsRan(p, list, gate) by { JobsPassed(p, gate, jobs); }
    RanAt(p, Fixture(p, gate, r, workflows, jobs), gate, r.head, runs, Some(|workflows|), list, k);
  }

  /** Under every coherent policy of at most a hundred workflows and jobs, an untampered
      receipt proves its head, steps and all. */
  lemma FixtureProved(p: Policy, gate: string, r: Receipt, workflows: seq<string>, jobs: seq<string>)
    requires Coherent(p) && gate in p.critical
    requires Enumerates(workflows, p.required) && |workflows| <= 100
    requires Enumerates(jobs, p.critical[gate].Keys) && |jobs| <= 100
    requires IsSha(r.main) && IsSha(r.head) && r.main != r.head
    ensures Proof(p, Fixture(p, gate, r, workflows, jobs), r.main, gate, true, r.head)
    ensures gate == "camoufox" ==> Proof(p, Fixture(p, gate, r, workflows, jobs), r.main, gate, false, r.head)
  {
    RunsPassed(p, workflows, r.head);
    FixtureMerged(p, gate, r, workflows, jobs);
    FixtureRan(p, gate, r, workflows, jobs);
  }

  // ----- a receipt with something wrong -----

  /** What the commit answer for the accepted main has wrong with it. */
  predicate MainWrong(main: Commit, mainSha: string) {
    || main.sha != Some(mainSha)
    || |main.parents| != 1
    || main.parents[0] == None
    || main.tree == None
  }

  /** What one pull request has wrong with it, given the accepted commit. */
  predicate PullWrong(pr: PullRequest, main: Commit, mainSha: string) {
    || pr.state != Some("closed")
    || pr.mergedAt == None || pr.mergedAt == Some("")
    || pr.mergeCommit != Some(mainSha)
    || pr.base.name != Some("main")
    || (|main.parents| == 1 && main.parents[0] != Some(pr.base.sha))
    || pr.base.repository != Some(REPOSITORY)
    || pr.head.repository != Some(REPOSITORY)
  }

  predicate TestedWrong(tested: Commit, main: Commit, head: Option<string>) {
    tested.sha != head || tested.tree != main.tree
  }

  /** One wrong answer anywhere in the receipt of the merge. */
  predicate MergeWrong(api: Api, mainSha: string) {
    || !IsSha(mainSha)
    || !api.commit(mainSha).Got?
    || MainWrong(api.commit(mainSha).value, mainSha)
    || !api.pulls(mainSha).Got?
    || |api.pulls(mainSha).value| != 1
    || (var main, pr := api.commit(mainSha).value, api.pulls(mainSha).value[0];
        || PullWrong(pr, main, mainSha)
        || pr.head.sha == None || !IsSha(pr.head.sha.value)
        || !api.commit(pr.head.sha.value).Got?
        || TestedWrong(api.commit(pr.head.sha.value).value, main, pr.head.sha))
  }

  /** One wrong answer in the receipt of the merge, and nothing is proved. */
  lemma WrongMergeRejects(p: Policy, api: Api, mainSha: string, gate: string, requireSteps: bool)
    requires MergeWrong(api, mainSha)
    ensures forall c :: !Proof(p, api, mainSha, gate, requireSteps, c)
  {
  }

  /** A run of the workflow on the head has an id above all others but is not a completed success. */
  predicate NewestRunWrong(runs: seq<Run>, head: string, name: string, k: int) {
    && 0 <= k < |runs|
    && runs[k].headSha == Some(head) && runs[k].event == Some("pull_request") && runs[k].name == Some(name)
    && (runs[k].status != Some("completed") || runs[k].conclusion != Some("success"))
    && runs[k].id.Some?
    && (forall j :: 0 <= j < |runs| && j != k && runs[j].name == Some(name) && runs[j].id.Some? ==> runs[j].id.value < runs[k].id.value)
  }

  /** No run of the workflow on the head at all. */
  predicate NoRun(runs: seq<Run>, head: string, name: string) {
    forall j :: 0 <= j < |runs| ==>
      runs[j].headSha != Some(head) || runs[j].event != Some("pull_request") || runs[j].name != Some(name)
  }

  /** Something wrong in the workflow inventory of the head. */
  ghost predicate InventoryWrong(p: Policy, history: Reply<History>, head: string) {
    || history.Broken?
    || history.value.runs == None
    || history.value.total == None
    || history.value.total.value > 100
    || (exists name :: name in p.required && NoRun(history.value.runs.value, head, name))
    || (exists name, k :: name in p.required && NewestRunWrong(history.value.runs.value, head, name, k))
  }

  lemma WrongInventory(p: Policy, history: History, head: string)
    requires InventoryWrong(p, Got(history), head)
    ensures !WorkflowsPassed(p, history, head)
  {
    if Complete(history) {
      var runs := history.runs.value;
      if name :| name in p.required && NoRun(runs, head, name) {
        assert forall i :: !Latest(runs, head, name, i);
      } else {
        var name, k :| name in p.required && NewestRunWrong(runs, head, name, k);
        NewestFailureRejects(p, history, head, name, k);
      }
    }
  }

  /** A broken, truncated or incomplete inventory proves nothing, and neither does one in which
      the newest run of a required workflow is pending or failed. */
  lemma WrongInventoryRejects(p: Policy, api: Api, mainSha: string, gate: string, requireSteps: bool, head: string)
    requires InventoryWrong(p, api.history(head), head)
    ensures !Proof(p, api, mainSha, gate, requireSteps, head)
  {
    if api.history(head).Got? {
      WrongInventory(p, api.history(head).value, head);
    }
  }

  /** Job `k` is the last to have the name. */
  predicate LastNamedJob(jobs: seq<Job>, name: string, k: int) {
    0 <= k < |jobs| && jobs[k].name == Some(name) && !exists m :: k < m < |jobs| && jobs[m].name == Some(name)
  }

  /** The last job of a critical name is missing, unfinished or unsuccessful. */
  predicate JobWrong(jobs: seq<Job>, name: string) {
    || (forall k :: 0 <= k < |jobs| ==> jobs[k].name != Some(name))
    || exists k :: 0 <= k < |jobs| && LastNamedJob(jobs, name, k) && (jobs[k].status != Some("completed") || jobs[k].conclusion != Some("success"))
  }

  /** In the last job of a critical name the last entry of a critical step is missing or no success. */
  predicate StepWrong(jobs: seq<Job>, name: string, step: string) {
    exists k :: 0 <= k < |jobs| && LastNamedJob(jobs, name, k)
      && forall m :: 0 <= m < |jobs[k].steps| && jobs[k].steps[m].name == Some(step) ==>
        jobs[k].steps[m].conclusion != Some("success") || exists n :: m < n < |jobs[k].steps| && jobs[k].steps[n].name == Some(step)
  }

  predicate JobsWrong(list: JobList, critical: map<string, seq<string>>) {
    || list.jobs == None
    || list.total == None
    || list.total.value > 100
    || (exists name :: name in critical && JobWrong(list.jobs.value, name))
    || (exists name :: name in critical && exists step :: step in critical[name] && StepWrong(list.jobs.value, name, step))
  }

  lemma WrongJob(jobs: seq<Job>, name: string, steps: seq<string>)
    requires JobWrong(jobs, name) || exists step :: step in steps && StepWrong(jobs, name, step)
    ensures !JobRan(jobs, name, steps)
  {
    forall k | LastJob(jobs, name, k) && Completed(jobs[k].status, jobs[k].conclusion)
      ensures exists step :: step in steps && !StepRan(jobs[k].steps, step)
    {
      var step :| step in steps && StepWrong(jobs, name, step);
      assert !StepRan(jobs[k].steps, step);
    }
  }

  lemma WrongJobs(p: Policy, list: JobList, gate: string)
    requires gate in p.critical && JobsWrong(list, p.critical[gate])
    ensures !JobsRan(p, list, gate)
  {
    if list.jobs.Some? && list.total.Some? && list.total.value <= 100 {
      var name :| name in p.critical[gate] &&
        (JobWrong(list.jobs.value, name) || exists step :: step in p.critical[gate][name] && StepWrong(list.jobs.value, name, step));
      WrongJob(list.jobs.value, name, p.critical[gate][name]);
    }
  }

  /** A missing, skipped or unfinished job or step of the latest run of the gate's workflow
      leaves the gate unproved, whatever else the receipt says. */
  lemma WrongJobsReject(p: Policy, api: Api, mainSha: string, gate: string, head: string, i: int)
    requires gate in p.critical && gate in p.workflow
    requires api.history(head).Got? && api.history(head).value.runs.Some?
    requires Latest(api.history(head).value.runs.value, head, p.workflow[gate], i)
    requires var run := api.history(head).value.runs.value[i];
      run.id == None || api.jobs(run.id.value).Broken? || JobsWrong(api.jobs(run.id.value).value, p.critical[gate])
    ensures !Proof(p, api, mainSha, gate, true, head)
  {
    var runs := api.history(head).value.runs.value;
    forall j | Latest(runs, head, p.workflow[gate], j) ensures j == i {
      LatestUnique(runs, head, p.workflow[gate], i, j);
    }
    if runs[i].id.Some? && api.jobs(runs[i].id.value).Got? {
      WrongJobs(p, api.jobs(runs[i].id.value).value, gate);
    }
  }

  /** A receipt that asks for no steps is for the browser gate alone and says nothing of its
      jobs: whatever they were, skipped or missing or failed, it stays a receipt. */
  lemma WithoutSteps(p: Policy, api: Api, jobs: int -> Reply<JobList>, mainSha: string, gate: string, head: string)
    ensures gate != "camoufox" || gate !in p.critical ==> !Proof(p, api, mainSha, gate, false, head)
    ensures Proof(p, api, mainSha, gate, false, head) <==> Proof(p, api.(jobs := jobs), mainSha, gate, false, head)
    ensures gate !in p.critical ==> !Proof(p, api, mainSha, gate, true, head)
    ensures gate == "camoufox" && Proof(p, api, mainSha, gate, true, head) ==> Proof(p, api, mainSha, gate, false, head)
  {
    var other := api.(jobs := jobs);
    assert other.commit == api.commit && other.pulls == api.pulls && other.history == api.history;
    assert ExactMerge(other, mainSha, head) <==> ExactMerge(api, mainSha, head);
  }

  // ----- runs of other heads and events -----

  /** A run of another head or event, or of no required workflow. */
  predicate Stray(p: Policy, run: Run, head: string) {
    run.headSha != Some(head) || run.event != Some("pull_request") || run.name == None || run.name.value !in p.required
  }

  lemma StrayLatest(p: Policy, runs: seq<Run>, head: string, name: string, at: nat, run: Run, i: int)
    requires at <= |runs| && Stray(p, run, head) && name in p.required
    ensures 0 <= i < |runs| ==>
      (Latest(runs, head, name, i) <==> Latest(runs[..at] + [run] + runs[at..], head, name, if i < at then i else i + 1))
    ensures 0 <= i < |runs| ==> runs[i] == (runs[..at] + [run] + runs[at..])[if i < at then i else i + 1]
    ensures !Latest(runs[..at] + [run] + runs[at..], head, name, at)
  {
    var more, k := runs[..at] + [run] + runs[at..], if i < at then i else i + 1;
    assert more[at] == run;
    assert forall j :: 0 <= j < |runs| ==> runs[j] == more[if j < at then j else j + 1];
    if 0 <= i < |runs| && Latest(runs, head, name, i) {
      forall j | 0 <= j < |more| && j != k && Matches(more[j], head, name) ensures Below(more[j], more[k], j < k) {
        var m := if j < at then j else j - 1;
        assert j != at && more[j] == runs[m];
      }
    }
    if 0 <= i < |runs| && Latest(more, head, name, k) {
      forall j | 0 <= j < |runs| && j != i && Matches(runs[j], head, name) ensures Below(runs[j], runs[i], j < i) {
        var m := if j < at then j else j + 1;
        assert more[m] == runs[j] && m != k;
      }
    }
  }

  lemma StrayNumbered(p: Policy, runs: seq<Run>, head: string, at: nat, run: Run)
    requires at <= |runs| && Stray(p, run, head)
    ensures Numbered(p, runs, head) ==> Numbered(p, runs[..at] + [run] + runs[at..], head)
  {
    var more := runs[..at] + [run] + runs[at..];
    forall i, j, name | Numbered(p, runs, head) && 0 <= i < |more| && 0 <= j < |more| && i != j && name in p.required
      && Matches(more[i], head, name) && Matches(more[j], head, name) ensures more[i].id.Some?
    {
      var k, m := if i < at then i else i - 1, if j < at then j else j - 1;
      assert i != at && j != at && more[i] == runs[k] && more[j] == runs[m];
    }
  }

  lemma StrayUnnumbered(p: Policy, runs: seq<Run>, head: string, at: nat, run: Run)
    requires at <= |runs|
    ensures Numbered(p, runs[..at] + [run] + runs[at..], head) ==> Numbered(p, runs, head)
  {
    var more := runs[..at] + [run] + runs[at..];
    forall i, j, name | Numbered(p, more, head) && 0 <= i < |runs| && 0 <= j < |runs| && i != j && name in p.required
      && Matches(runs[i], head, name) && Matches(runs[j], head, name) ensures runs[i].id.Some?
    {
      var k, m := if i < at then i else i + 1, if j < at then j else j + 1;
      assert more[k] == runs[i] && more[m] == runs[j];
    }
  }

  lemma StrayPassed(p: Policy, runs: seq<Run>, head: string, name: string, at: nat, run: Run)
    requires at <= |runs| && Stray(p, run, head) && name in p.required
    ensures var more := runs[..at] + [run] + runs[at..];
      (exists i :: Latest(runs, head, name, i) && Successful(runs[i])) <==> (exists i :: Latest(more, head, name, i) && Successful(more[i]))
  {
    var more := runs[..at] + [run] + runs[at..];
    forall i | Latest(runs, head, name, i) && Successful(runs[i]) ensures exists k :: Latest(more, head, name, k) && Successful(more[k]) {
      StrayLatest(p, runs, head, name, at, run, i);
      assert Latest(more, head, name, if i < at then i else i + 1);
    }
    forall k | Latest(more, head, name, k) && Successful(more[k]) ensures exists i :: Latest(runs, head, name, i) && Successful(runs[i]) {
      StrayLatest(p, runs, head, name, at, run, if k < at then k else k - 1);
      assert Latest(runs, head, name, if k < at then k else k - 1);
    }
  }

  /** A run of another head, another event or another workflow has no say, wherever it stands
      and whatever its id and its outcome are. */
  lemma StrayIgnored(p: Policy, history: History, head: string, at: nat, run: Run)
    requires history.runs.Some? && at <= |history.runs.value| && Stray(p, run, head)
    ensures var runs := history.runs.value;
      WorkflowsPassed(p, history, head) <==> WorkflowsPassed(p, History(history.total, Some(runs[..at] + [run] + runs[at..])), head)
  {
    var runs := history.runs.value;
    var more := runs[..at] + [run] + runs[at..];
    StrayNumbered(p, runs, head, at, run);
    StrayUnnumbered(p, runs, head, at, run);
    forall name | name in p.required
      ensures (exists i :: Latest(runs, head, name, i) && Successful(runs[i])) <==> (exists i :: Latest(more, head, name, i) && Successful(more[i]))
    {
      StrayPassed(p, runs, head, name, at, run);
    }
  }

  // ----- how evidence may be handed on -----

  /** Evidence handed on from an ancestor is that of one of at most sixteen, the first of them
      the base itself, all of them up to it well-formed and free of runtime changes since; it
      was itself proved with every step, and no nearer one was. */
  lemma HandedOn(p: Policy, api: Api, git: Git, mainSha: string, baseSha: string, commit: string)
    requires Reusable(p, api, git, mainSha, baseSha, commit)
    ensures IsSha(baseSha) && git.ancestors(baseSha).Got?
    ensures 1 <= |git.ancestors(baseSha).value| <= 16 && git.ancestors(baseSha).value[0] == baseSha
    ensures var chain := git.ancestors(baseSha).value;
      (exists k :: 0 <= k < |chain| && chain[k] == commit
        && (exists head :: Proof(p, api, commit, "camoufox", true, head))
        && (forall j :: 0 <= j <= k ==> IsSha(chain[j]) && git.changed(chain[j], mainSha).Got? && git.unrelated(git.changed(chain[j], mainSha).value))
        && (forall j, head :: 0 <= j < k ==> !Proof(p, api, chain[j], "camoufox", true, head)))
  {
  }

  /** The nearest fully proved ancestor is handed on wherever nothing has touched the runtime since. */
  lemma NearestHandedOn(p: Policy, api: Api, git: Git, mainSha: string, baseSha: string, k: nat, head: string)
    requires IsSha(baseSha) && git.ancestors(baseSha).Got?
    requires var chain := git.ancestors(baseSha).value;
      && 1 <= |chain| <= 16 && chain[0] == baseSha && k < |chain|
      && (forall j :: 0 <= j <= k ==> IsSha(chain[j]) && git.changed(chain[j], mainSha).Got? && git.unrelated(git.changed(chain[j], mainSha).value))
      && (forall j, other :: 0 <= j < k ==> !Proof(p, api, chain[j], "camoufox", true, other))
      && Proof(p, api, chain[k], "camoufox", true, head)
    ensures Reusable(p, api, git, mainSha, baseSha, git.ancestors(baseSha).value[k])
  {
    var chain := git.ancestors(baseSha).value;
    assert PhysicallyProved(p, api, chain[k]);
    assert NearestSafe(p, api, git, mainSha, chain, k);
  }

  // ----- the announcement -----

  /** What leaves a push without reuse, a direct proof aside: another event, a missing token,
      another gate, no receipt of the merge, a drifted checkout, an unknown parent, or no
      ancestor whose evidence may be handed on. */
  lemma NoReuse(p: Policy, api: Api, git: Git, env: Environment, gate: string)
    requires || !env.mainPush || !env.token
             || ((forall head :: !Proof(p, api, env.mainSha, gate, true, head))
                 && (|| gate != "camoufox"
                     || (forall head :: !Proof(p, api, env.mainSha, "camoufox", false, head))
                     || env.head.Broken? || env.head.value != env.mainSha
                     || env.parent.Broken?
                     || (forall prior :: !Reusable(p, api, git, env.mainSha, env.parent.value, prior))))
    ensures !Justified(p, api, git, env, gate)
  {
  }

  /** A direct proof is enough on a push, and so is the evidence of an ancestor. */
  lemma EnoughForReuse(p: Policy, api: Api, git: Git, env: Environment, gate: string, head: string, prior: string)
    requires env.mainPush && env.token
    requires || Proof(p, api, env.mainSha, gate, true, head)
             || (&& gate == "camoufox" && Proof(p, api, env.mainSha, gate, false, head)
                 && env.head == Got(env.mainSha) && env.parent.Got?
                 && Reusable(p, api, git, env.mainSha, env.parent.value, prior))
    ensures Justified(p, api, git, env, gate)
  {
  }
}
