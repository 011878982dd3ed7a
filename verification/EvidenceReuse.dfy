/** Reusing the test evidence of a merged pull request instead of running the tests again. */
module EvidenceReuse {
  import opened J = Json

  const REPOSITORY := "iamaman11/part-crm-emai-profile"

  const REQUIRED := {
    "Bridge Host Operations Gate", "Camoufox Runtime Gate",
    "Certification Gate", "Cross-Component Acceptance Gate",
    "D1 Evolution Gate", "Encrypted Generation Gate",
    "External Evidence Gate", "External Review Attestation Gate",
    "Frontend Gate", "GitHub Governance Gate", "Local Profile Gate",
    "Profile Generation Gate", "Quality Gate", "Release Architecture Gate",
    "Repository Quality Audit Gate", "Resolver D1 First Bootstrap",
    "Runtime Bundle Gate", "V2 Staging Envelope Observation"}

  /** Per gate, the jobs that must have run and in each the steps that must have run. */
  const CRITICAL: map<string, map<string, seq<string>>> := map[
    "camoufox" := map[
      "Profile Bridge Windows regression" := [
        "Materialize official browser and verified offline fpgen model",
        "Read actual compressed official runtime via shipping Rust delivery reader",
        "Run Windows Bridge regressions through production crates",
        "Prove native state survives encrypted Save and cold Reopen"],
      "Real Camoufox cold-launch proof" := [
        "Require real official Camoufox and Bridge Windows proof"]],
    "quality" := map[
      "Rust Linux and WASM" := ["Test native crates"],
      "Rust Windows And Profile Bridge Artifact" := [
        "Check and test native crates",
        "Compile actual per-user installer and prove native signature rejection"]],
    "local-profile" := map[
      "Local Profile Linux" := ["Test local profile lifecycle"],
      "Local Profile Windows" := [
        "Test local profile lifecycle",
        "Prove K2 256/512 MiB file streaming on Windows with peak RAM and disk limits",
        "Prove Windows release CMS verifier"]]]

  const WORKFLOW: map<string, string> := map[
    "camoufox" := "Camoufox Runtime Gate",
    "quality" := "Quality Gate",
    "local-profile" := "Local Profile Gate"]

  /** The permanent policy; every result below holds of any policy. */
  datatype Policy = Policy(required: set<string>, critical: map<string, map<string, seq<string>>>, workflow: map<string, string>)

  const POLICY := Policy(REQUIRED, CRITICAL, WORKFLOW)

  /** Every gate's steps are looked for in a required workflow. */
  predicate Coherent(p: Policy) {
    p.workflow.Keys == p.critical.Keys && forall gate :: gate in p.workflow ==> p.workflow[gate] in p.required
  }

  lemma PolicyCoherent()
    ensures Coherent(POLICY)
  {
    assert WORKFLOW.Keys == {"camoufox", "quality", "local-profile"};
    assert CRITICAL.Keys == {"camoufox", "quality", "local-profile"};
  }

  predicate IsSha(s: string) {
    |s| == 40 && forall i :: 0 <= i < 40 ==> '0' <= s[i] <= '9' || 'a' <= s[i] <= 'f'
  }

  // ----- what the repository host answers -----

  /** `Broken`: the call, or the first use of an answer of another shape, raises an
      exception; `caught` tells whether it is of a kind the history walk catches. */
  datatype Reply<T> = Got(value: T) | Broken(caught: bool)

  /** A member read by `get` is an Option; one read by subscript is an Option that is
      None where the key is missing, around a value that may be null. */
  datatype Commit = Commit(sha: Option<string>, parents: seq<Option<Option<string>>>, tree: Option<Option<string>>)
  datatype Branch = Branch(sha: Option<string>, name: Option<string>, repository: Option<string>)
  datatype PullRequest = PullRequest(
    state: Option<string>, mergedAt: Option<string>, mergeCommit: Option<string>, base: Branch, head: Branch)
  datatype Run = Run(
    id: Option<int>, name: Option<string>, headSha: Option<string>, event: Option<string>,
    status: Option<string>, conclusion: Option<string>)
  datatype History = History(total: Option<int>, runs: Option<seq<Run>>)
  datatype JobStep = JobStep(name: Option<string>, conclusion: Option<string>)
  datatype Job = Job(name: Option<string>, status: Option<string>, conclusion: Option<string>, steps: seq<JobStep>)
  datatype JobList = JobList(total: Option<int>, jobs: Option<seq<Job>>)

  datatype Api = Api(
    commit: string -> Reply<Commit>,
    pulls: string -> Reply<seq<PullRequest>>,
    history: string -> Reply<History>,
    jobs: int -> Reply<JobList>)

  /** What the version control of the checkout answers, and the path classifier. */
  datatype Git = Git(
    ancestors: string -> Reply<seq<string>>,
    changed: (string, string) -> Reply<seq<string>>,
    unrelated: seq<string> -> bool)

  /** `Escaped`: an exception no caller catches ends the program. */
  datatype Outcome = Proved(commit: string) | Refused | Escaped

  ghost predicate Calm(api: Api) {
    && (forall s :: api.commit(s) != Broken(false))
    && (forall s :: api.pulls(s) != Broken(false))
    && (forall s :: api.history(s) != Broken(false))
    && (forall n :: api.jobs(n) != Broken(false))
  }

  function Raised(caught: bool): Outcome {
    if caught then Refused else Escaped
  }

  // ----- the latest run of a workflow -----

  predicate Matches(run: Run, head: string, name: string) {
    run.headSha == Some(head) && run.event == Some("pull_request") && run.name == Some(name)
  }

  predicate Completed(status: Option<string>, conclusion: Option<string>) {
    status == Some("completed") && conclusion == Some("success")
  }

  predicate Successful(run: Run) {
    Completed(run.status, run.conclusion)
  }

  predicate Newer(a: Run, b: Run) {
    a.id.Some? && b.id.Some? && a.id.value > b.id.value
  }

  predicate Below(a: Run, b: Run, strictly: bool) {
    a.id.Some? && b.id.Some? && (if strictly then a.id.value < b.id.value else a.id.value <= b.id.value)
  }

  /** Run `i` has the highest id of its workflow, and is the first to have it. */
  predicate Latest(runs: seq<Run>, head: string, name: string, i: int) {
    && 0 <= i < |runs|
    && Matches(runs[i], head, name)
    && forall j :: 0 <= j < |runs| && j != i && Matches(runs[j], head, name) ==> Below(runs[j], runs[i], j < i)
  }

  /** No two runs of one required workflow are compared where an id is missing. */
  predicate Numbered(p: Policy, runs: seq<Run>, head: string) {
    forall i, j, name :: (0 <= i < |runs| && 0 <= j < |runs| && i != j && name in p.required
      && Matches(runs[i], head, name) && Matches(runs[j], head, name)) ==> runs[i].id.Some?
  }

  predicate HasRun(runs: seq<Run>, head: string, name: string) {
    exists i :: 0 <= i < |runs| && Matches(runs[i], head, name)
  }

  ghost predicate LatestOf(runs: seq<Run>, head: string, latest: map<string, Run>, name: string) {
    && (name in latest <==> HasRun(runs, head, name))
    && (name in latest ==> exists i :: Latest(runs, head, name, i) && latest[name] == runs[i])
  }

  ghost predicate LatestMap(p: Policy, runs: seq<Run>, head: string, latest: map<string, Run>) {
    && latest.Keys <= p.required
    && forall name :: name in p.required ==> LatestOf(runs, head, latest, name)
  }

  /** What one turn of the inventory loop makes of the map. */
  function Turn(p: Policy, latest: map<string, Run>, run: Run, head: string): Option<map<string, Run>> {
    if run.headSha != Some(head) || run.event != Some("pull_request") || run.name.None? || run.name.value !in p.required then Some(latest)
    else if run.name.value !in latest then Some(latest[run.name.value := run])
    else if run.id.None? || latest[run.name.value].id.None? then None
    else Some(if Newer(run, latest[run.name.value]) then latest[run.name.value := run] else latest)
  }

  lemma NumberedParts(p: Policy, runs: seq<Run>, run: Run, head: string)
    requires Numbered(p, runs + [run], head)
    ensures Numbered(p, runs, head)
    ensures forall i, name :: (0 <= i < |runs| && name in p.required && Matches(runs[i], head, name) && Matches(run, head, name)) ==>
      runs[i].id.Some? && run.id.Some?
  {
    var all := runs + [run];
    assert all[|runs|] == run;
    forall i, j, name | 0 <= i < |runs| && 0 <= j < |runs| && i != j && name in p.required
      && Matches(runs[i], head, name) && Matches(runs[j], head, name) ensures runs[i].id.Some?
    {
      assert all[i] == runs[i] && all[j] == runs[j];
    }
    forall i, name | 0 <= i < |runs| && name in p.required && Matches(runs[i], head, name) && Matches(run, head, name)
      ensures runs[i].id.Some? && run.id.Some?
    {
      assert all[i] == runs[i];
    }
  }

  lemma NumberedWhole(p: Policy, runs: seq<Run>, run: Run, head: string)
    requires Numbered(p, runs, head)
    requires forall i, name :: (0 <= i < |runs| && name in p.required && Matches(runs[i], head, name) && Matches(run, head, name)) ==>
      runs[i].id.Some? && run.id.Some?
    ensures Numbered(p, runs + [run], head)
  {
  }

  lemma NumberedPrefix(p: Policy, runs: seq<Run>, k: nat, head: string)
    requires k <= |runs|
    ensures Numbered(p, runs, head) ==> Numbered(p, runs[..k], head)
  {
    var front := runs[..k];
    forall i, j, name | Numbered(p, runs, head) && 0 <= i < k && 0 <= j < k && i != j && name in p.required
      && Matches(front[i], head, name) && Matches(front[j], head, name) ensures front[i].id.Some?
    {
      assert Matches(runs[i], head, name) && Matches(runs[j], head, name);
    }
  }

  lemma LatestStep(runs: seq<Run>, run: Run, head: string, name: string, i: int)
    requires Latest(runs, head, name, i) && Matches(run, head, name) && runs[i].id.Some? && run.id.Some?
    ensures Latest(runs + [run], head, name, if Newer(run, runs[i]) then |runs| else i)
  {
    var all := runs + [run];
    var k := if Newer(run, runs[i]) then |runs| else i;
    forall j | 0 <= j < |all| && j != k && Matches(all[j], head, name) ensures Below(all[j], all[k], j < k) {
      assert j < |runs| ==> all[j] == runs[j];
    }
  }

  lemma LatestOther(runs: seq<Run>, run: Run, head: string, name: string, i: int)
    requires Latest(runs, head, name, i) && !Matches(run, head, name)
    ensures Latest(runs + [run], head, name, i)
  {
    var all := runs + [run];
    forall j | 0 <= j < |all| && j != i && Matches(all[j], head, name) ensures Below(all[j], all[i], j < i) {
      assert j < |runs| && all[j] == runs[j];
    }
  }

  lemma LatestFirst(runs: seq<Run>, run: Run, head: string, name: string)
    requires !HasRun(runs, head, name) && Matches(run, head, name)
    ensures Latest(runs + [run], head, name, |runs|)
  {
  }

  /** One workflow through one turn. */
  lemma LatestOfStep(p: Policy, runs: seq<Run>, run: Run, head: string, before: map<string, Run>, name: string)
    requires LatestOf(runs, head, before, name) && name in p.required && Turn(p, before, run, head).Some?
    ensures LatestOf(runs + [run], head, Turn(p, before, run, head).value, name)
  {
    var all, after := runs + [run], Turn(p, before, run, head).value;
    assert all[|runs|] == run;
    assert forall i :: 0 <= i < |runs| ==> all[i] == runs[i];
    if name in before {
      var i :| Latest(runs, head, name, i) && before[name] == runs[i];
      assert all[i] == runs[i];
      if Matches(run, head, name) {
        LatestStep(runs, run, head, name, i);
      } else {
        LatestOther(runs, run, head, name, i);
      }
    } else if Matches(run, head, name) {
      LatestFirst(runs, run, head, name);
    }
  }

  lemma TurnKeeps(p: Policy, runs: seq<Run>, run: Run, head: string, before: map<string, Run>)
    requires LatestMap(p, runs, head, before) && Turn(p, before, run, head).Some?
    ensures LatestMap(p, runs + [run], head, Turn(p, before, run, head).value)
  {
    forall name | name in p.required ensures LatestOf(runs + [run], head, Turn(p, before, run, head).value, name) {
      assert LatestOf(runs, head, before, name);
      LatestOfStep(p, runs, run, head, before, name);
    }
  }

  lemma TurnFails(p: Policy, runs: seq<Run>, run: Run, head: string, before: map<string, Run>)
    requires LatestMap(p, runs, head, before) && Numbered(p, runs, head)
    ensures Turn(p, before, run, head).Some? <==> Numbered(p, runs + [run], head)
  {
    if run.name.Some? && Matches(run, head, run.name.value) && run.name.value in p.required {
      var name := run.name.value;
      assert LatestOf(runs, head, before, name);
      if Turn(p, before, run, head).None? {
        var i :| Latest(runs, head, name, i) && before[name] == runs[i];
        if Numbered(p, runs + [run], head) {
          NumberedParts(p, runs, run, head);
          assert false;
        }
      } else {
        AllNumbered(runs, head, name, before);
        NumberedWhole(p, runs, run, head);
      }
    } else {
      NumberedWhole(p, runs, run, head);
    }
  }

  /** The inventory loop of `prove`; None where comparing a missing id raises. */
  method LatestRuns(p: Policy, runs: seq<Run>, head: string) returns (r: Option<map<string, Run>>)
    ensures r.Some? <==> Numbered(p, runs, head)
    ensures r.Some? ==> LatestMap(p, runs, head, r.value)
  {
    var latest: map<string, Run> := map[];
    for k := 0 to |runs|
      invariant Numbered(p, runs[..k], head)
      invariant LatestMap(p, runs[..k], head, latest)
    {
      var run := runs[k];
      assert runs[..k + 1] == runs[..k] + [run];
      TurnFails(p, runs[..k], run, head, latest);
      ghost var turn := Turn(p, latest, run, head);
      if turn.Some? {
        TurnKeeps(p, runs[..k], run, head, latest);
      }
      if run.headSha == Some(head) && run.event == Some("pull_request") && run.name.Some? && run.name.value in p.required {
        var name := run.name.value;
        if name !in latest {
          latest := latest[name := run];
        } else if run.id.None? || latest[name].id.None? {
          NumberedPrefix(p, runs, k + 1, head);
          return None;
        } else if run.id.value > latest[name].id.value {
          latest := latest[name := run];
        }
      }
    }
    assert runs[..|runs|] == runs;
    r := Some(latest);
  }

  /** Where the chosen run and the new one have ids, so have all the others. */
  lemma AllNumbered(runs: seq<Run>, head: string, name: string, latest: map<string, Run>)
    requires LatestOf(runs, head, latest, name) && (name in latest ==> latest[name].id.Some?)
    ensures forall i :: 0 <= i < |runs| && Matches(runs[i], head, name) ==> runs[i].id.Some?
  {
  }

  // ----- last entry wins, as in a dictionary built from a list -----

  predicate LastJob(jobs: seq<Job>, name: string, k: int) {
    0 <= k < |jobs| && jobs[k].name == Some(name) && forall m :: k < m < |jobs| ==> jobs[m].name != Some(name)
  }

  predicate LastStep(steps: seq<JobStep>, name: string, k: int) {
    0 <= k < |steps| && steps[k].name == Some(name) && forall m :: k < m < |steps| ==> steps[m].name != Some(name)
  }

  function JobsByName(jobs: seq<Job>): (r: map<Option<string>, Job>)
    ensures forall name :: Some(name) in r ==> exists k :: LastJob(jobs, name, k) && r[Some(name)] == jobs[k]
    ensures forall name, k :: LastJob(jobs, name, k) ==> Some(name) in r && r[Some(name)] == jobs[k]
  {
    if jobs == [] then map[]
    else
      var front, last := jobs[..|jobs| - 1], jobs[|jobs| - 1];
      var r := JobsByName(front)[last.name := last];
      assert forall name, k :: k < |front| && LastJob(jobs, name, k) ==> LastJob(front, name, k);
      assert forall name, k :: LastJob(front, name, k) && last.name != Some(name) ==> LastJob(jobs, name, k);
      assert forall name :: last.name == Some(name) ==> LastJob(jobs, name, |front|);
      r
  }

  function StepsByName(steps: seq<JobStep>): (r: map<Option<string>, Option<string>>)
    ensures forall name :: Some(name) in r ==> exists k :: LastStep(steps, name, k) && r[Some(name)] == steps[k].conclusion
    ensures forall name, k :: LastStep(steps, name, k) ==> Some(name) in r && r[Some(name)] == steps[k].conclusion
  {
    if steps == [] then map[]
    else
      var front, last := steps[..|steps| - 1], steps[|steps| - 1];
      var r := StepsByName(front)[last.name := last.conclusion];
      assert forall name, k :: k < |front| && LastStep(steps, name, k) ==> LastStep(front, name, k);
      assert forall name, k :: LastStep(front, name, k) && last.name != Some(name) ==> LastStep(steps, name, k);
      assert forall name :: last.name == Some(name) ==> LastStep(steps, name, |front|);
      r
  }

  // ----- what a proof is -----

  ghost predicate StepRan(steps: seq<JobStep>, name: string) {
    exists k :: LastStep(steps, name, k) && steps[k].conclusion == Some("success")
  }

  ghost predicate JobRan(jobs: seq<Job>, name: string, steps: seq<string>) {
    exists k :: LastJob(jobs, name, k) && Completed(jobs[k].status, jobs[k].conclusion)
      && forall step :: step in steps ==> StepRan(jobs[k].steps, step)
  }

  /** The accepted commit has one parent. */
  predicate SingleParent(api: Api, mainSha: string) {
    && api.commit(mainSha).Got?
    && var main := api.commit(mainSha).value;
    && main.sha == Some(mainSha)
    && |main.parents| == 1 && main.parents[0].Some?
    && main.tree.Some?
  }

  /** It was made by merging the one closed pull request of this repository with this head. */
  predicate MergedFrom(api: Api, mainSha: string, candidate: string)
    requires SingleParent(api, mainSha)
  {
    && api.pulls(mainSha).Got?
    && var pulls := api.pulls(mainSha).value;
    && |pulls| == 1 && pulls[0].head.sha == Some(candidate)
    && pulls[0].state == Some("closed")
    && pulls[0].mergedAt.Some? && pulls[0].mergedAt.value != ""
    && pulls[0].mergeCommit == Some(mainSha)
    && pulls[0].base.name == Some("main")
    && pulls[0].base.sha == api.commit(mainSha).value.parents[0].value
    && pulls[0].base.repository == Some(REPOSITORY)
    && pulls[0].head.repository == Some(REPOSITORY)
  }

  /** `mainSha` is the squash merge of one pull request of this repository, whose head
      `candidate` has the very same tree. */
  ghost predicate ExactMerge(api: Api, mainSha: string, candidate: string) {
    && IsSha(mainSha) && IsSha(candidate)
    && SingleParent(api, mainSha) && MergedFrom(api, mainSha, candidate)
    && api.commit(candidate).Got?
    && api.commit(candidate).value.sha == Some(candidate)
    && api.commit(candidate).value.tree == api.commit(mainSha).value.tree
  }

  /** The merge checks meet an exception nobody catches. */
  ghost predicate MergeEscapes(api: Api, mainSha: string) {
    || api.commit(mainSha) == Broken(false)
    || (SingleParent(api, mainSha) && api.pulls(mainSha) == Broken(false))
    || (SingleParent(api, mainSha) && exists c :: IsSha(c) && MergedFrom(api, mainSha, c) && api.commit(c) == Broken(false))
  }

  predicate Complete(history: History) {
    history.runs.Some? && history.total.Some? && history.total.value <= 100
  }

  /** Of every required workflow the latest run of exactly this head succeeded. */
  ghost predicate WorkflowsPassed(p: Policy, history: History, head: string) {
    && Complete(history)
    && Numbered(p, history.runs.value, head)
    && forall name :: name in p.required ==>
      exists i :: Latest(history.runs.value, head, name, i) && Successful(history.runs.value[i])
  }

  ghost predicate JobsRan(p: Policy, list: JobList, gate: string) {
    && list.jobs.Some? && list.total.Some? && list.total.value <= 100
    && gate in p.critical
    && forall name :: name in p.critical[gate] ==> JobRan(list.jobs.value, name, p.critical[gate][name])
  }

  /** Every critical step of the gate ran and succeeded, in the latest run of its workflow. */
  ghost predicate StepsRan(p: Policy, api: Api, gate: string, head: string) {
    && gate in p.workflow
    && api.history(head).Got? && api.history(head).value.runs.Some?
    && var runs := api.history(head).value.runs.value;
    exists i :: Latest(runs, head, p.workflow[gate], i) && runs[i].id.Some?
      && api.jobs(runs[i].id.value).Got? && JobsRan(p, api.jobs(runs[i].id.value).value, gate)
  }

  /** Reading the jobs of the latest run meets an exception nobody catches. */
  ghost predicate StepsEscape(p: Policy, api: Api, gate: string, head: string) {
    && gate in p.workflow
    && api.history(head).Got? && api.history(head).value.runs.Some?
    && var runs := api.history(head).value.runs.value;
    exists i :: Latest(runs, head, p.workflow[gate], i) && runs[i].id.Some? && api.jobs(runs[i].id.value) == Broken(false)
  }

  ghost predicate Proof(p: Policy, api: Api, mainSha: string, gate: string, requireSteps: bool, candidate: string) {
    && gate in p.critical
    && ExactMerge(api, mainSha, candidate)
    && api.history(candidate).Got? && WorkflowsPassed(p, api.history(candidate).value, candidate)
    && (if requireSteps then StepsRan(p, api, gate, candidate) else gate == "camoufox")
  }

  /** Looking for a proof meets an exception nobody catches. */
  ghost predicate ProofEscapes(p: Policy, api: Api, mainSha: string, gate: string, requireSteps: bool) {
    && IsSha(mainSha) && gate in p.critical
    && (|| MergeEscapes(api, mainSha)
        || exists c :: ExactMerge(api, mainSha, c) && InventoryEscapes(p, api, gate, requireSteps, c))
  }

  ghost predicate InventoryEscapes(p: Policy, api: Api, gate: string, requireSteps: bool, head: string) {
    || api.history(head) == Broken(false)
    || (requireSteps && api.history(head).Got? && WorkflowsPassed(p, api.history(head).value, head) && StepsEscape(p, api, gate, head))
  }

  /** Nothing escapes where the host's failures are all of the kinds that are caught. */
  lemma CalmNeverEscapes(p: Policy, api: Api, mainSha: string, gate: string, requireSteps: bool)
    requires Calm(api)
    ensures !ProofEscapes(p, api, mainSha, gate, requireSteps)
  {
    assert !MergeEscapes(api, mainSha) by {
      assert forall s :: api.commit(s) != Broken(false) && api.pulls(s) != Broken(false);
    }
    forall c ensures !InventoryEscapes(p, api, gate, requireSteps, c) {
      assert api.history(c) != Broken(false);
      assert forall n :: api.jobs(n) != Broken(false);
    }
  }

  /** What the merge checks of `prove` establish: the head of the merged pull request. */
  method CheckMerge(api: Api, mainSha: string) returns (r: Outcome)
    requires IsSha(mainSha)
    ensures forall c :: r == Proved(c) <==> ExactMerge(api, mainSha, c)
    ensures r.Escaped? <==> MergeEscapes(api, mainSha)
  {
    var accepted := api.commit(mainSha);
    if accepted.Broken? { return Raised(accepted.caught); }
    if accepted.value.sha != Some(mainSha) || |accepted.value.parents| != 1 { return Refused; }
    if accepted.value.parents[0].None? || accepted.value.tree.None? { return Refused; }
    var base, tree := accepted.value.parents[0].value, accepted.value.tree.value;
    var associated := api.pulls(mainSha);
    if associated.Broken? { return Raised(associated.caught); }
    if |associated.value| != 1 { return Refused; }
    var pr := associated.value[0];
    if pr.head.sha.None? || !IsSha(pr.head.sha.value) { return Refused; }
    var candidate := pr.head.sha.value;
    if !(&& pr.state == Some("closed")
         && pr.mergedAt.Some? && pr.mergedAt.value != ""
         && pr.mergeCommit == Some(mainSha)
         && pr.base.name == Some("main")
         && pr.base.sha == base
         && pr.base.repository == Some(REPOSITORY)
         && pr.head.repository == Some(REPOSITORY))
    {
      return Refused;
    }
    var original := api.commit(candidate);
    if original.Broken? { return Raised(original.caught); }
    if original.value.sha != Some(candidate) || original.value.tree != Some(tree) { return Refused; }
    return Proved(candidate);
  }

  lemma LatestUnique(runs: seq<Run>, head: string, name: string, i: int, j: int)
    requires Latest(runs, head, name, i) && Latest(runs, head, name, j)
    ensures i == j
  {
  }

  /** The map of latest runs decides as the inventory does. */
  lemma LatestDecides(p: Policy, runs: seq<Run>, head: string, latest: map<string, Run>)
    requires LatestMap(p, runs, head, latest)
    ensures (latest.Keys == p.required && forall name :: name in latest ==> Successful(latest[name])) <==>
      (forall name :: name in p.required ==> exists i :: Latest(runs, head, name, i) && Successful(runs[i]))
  {
    forall name | name in p.required
      ensures (name in latest && Successful(latest[name])) <==> exists i :: Latest(runs, head, name, i) && Successful(runs[i])
    {
      assert LatestOf(runs, head, latest, name);
      if name in latest {
        var k :| Latest(runs, head, name, k) && latest[name] == runs[k];
        forall i | Latest(runs, head, name, i) ensures i == k { LatestUnique(runs, head, name, i, k); }
      }
    }
  }

  /** The workflow checks of `prove`, up to the map of latest runs. */
  method CheckWorkflows(p: Policy, api: Api, candidate: string) returns (r: Outcome, latest: map<string, Run>)
    ensures r.Proved? <==> api.history(candidate).Got? && WorkflowsPassed(p, api.history(candidate).value, candidate)
    ensures r.Proved? ==> r.commit == candidate && latest.Keys == p.required
    ensures r.Proved? ==> LatestMap(p, api.history(candidate).value.runs.value, candidate, latest)
    ensures r.Escaped? <==> api.history(candidate) == Broken(false)
  {
    latest := map[];
    var history := api.history(candidate);
    if history.Broken? { return Raised(history.caught), latest; }
    if !Complete(history.value) { return Refused, latest; }
    var picked := LatestRuns(p, history.value.runs.value, candidate);
    if picked.None? { return Refused, latest; }
    latest := picked.value;
    LatestDecides(p, history.value.runs.value, candidate, latest);
    if latest.Keys != p.required || exists name :: name in latest && !Successful(latest[name]) { return Refused, latest; }
    return Proved(candidate), latest;
  }

  /** The job checks of `prove`. */
  method CheckJobs(p: Policy, list: JobList, gate: string) returns (ok: bool)
    requires gate in p.critical
    ensures ok <==> JobsRan(p, list, gate)
  {
    if list.jobs.None? || list.total.None? || list.total.value > 100 { return false; }
    var byName := JobsByName(list.jobs.value);
    var todo := p.critical[gate].Keys;
    while todo != {}
      invariant todo <= p.critical[gate].Keys
      invariant forall name :: name in p.critical[gate] && name !in todo ==> JobRan(list.jobs.value, name, p.critical[gate][name])
    {
      var name :| name in todo;
      ok := CheckJob(list.jobs.value, byName, name, p.critical[gate][name]);
      if !ok { return; }
      todo := todo - {name};
    }
    ok := true;
  }

  method CheckJob(jobs: seq<Job>, byName: map<Option<string>, Job>, name: string, steps: seq<string>) returns (ok: bool)
    requires byName == JobsByName(jobs)
    ensures ok <==> JobRan(jobs, name, steps)
  {
    if Some(name) !in byName { return false; }
    var job := byName[Some(name)];
    var actual := StepsByName(job.steps);
    ok := Completed(job.status, job.conclusion)
      && forall step :: step in steps ==> Some(step) in actual && actual[Some(step)] == Some("success");
    ghost var k :| LastJob(jobs, name, k) && job == jobs[k];
    assert forall m :: LastJob(jobs, name, m) ==> m == k;
    assert forall step :: (Some(step) in actual && actual[Some(step)] == Some("success")) <==> StepRan(job.steps, step);
  }

  /** The part of `prove` that looks for the critical steps. */
  method CheckSteps(p: Policy, api: Api, gate: string, candidate: string, latest: map<string, Run>) returns (r: Outcome)
    requires gate in p.critical && gate in p.workflow && p.workflow[gate] in latest && latest.Keys <= p.required
    requires api.history(candidate).Got? && api.history(candidate).value.runs.Some?
    requires LatestMap(p, api.history(candidate).value.runs.value, candidate, latest)
    ensures r.Proved? <==> StepsRan(p, api, gate, candidate)
    ensures r.Proved? ==> r.commit == candidate
    ensures r.Escaped? <==> StepsEscape(p, api, gate, candidate)
  {
    ghost var name, runs := p.workflow[gate], api.history(candidate).value.runs.value;
    assert LatestOf(runs, candidate, latest, name);
    ghost var i :| Latest(runs, candidate, name, i) && latest[name] == runs[i];
    forall j | Latest(runs, candidate, name, j) ensures j == i {
      LatestUnique(runs, candidate, name, i, j);
    }
    var source := latest[p.workflow[gate]];
    if source.id.None? { return Refused; }
    var jobs := api.jobs(source.id.value);
    if jobs.Broken? { return Raised(jobs.caught); }
    var ran := CheckJobs(p, jobs.value, gate);
    r := if ran then Proved(candidate) else Refused;
  }

  /** `prove`: succeeds exactly where a proof exists. */
  method Prove(p: Policy, api: Api, mainSha: string, gate: string, requireSteps: bool) returns (r: Outcome)
    requires Coherent(p)
    ensures forall c :: r == Proved(c) <==> Proof(p, api, mainSha, gate, requireSteps, c)
    ensures r.Escaped? <==> ProofEscapes(p, api, mainSha, gate, requireSteps)
  {
    if !IsSha(mainSha) || gate !in p.critical { return Refused; }
    r := CheckMerge(api, mainSha);
    if !r.Proved? { return; }
    var candidate := r.commit;
    assert forall c :: ExactMerge(api, mainSha, c) ==> c == candidate;
    var latest;
    r, latest := CheckWorkflows(p, api, candidate);
    if !r.Proved? { return; }
    if !requireSteps {
      return if gate == "camoufox" then r else Refused;
    }
    r := CheckSteps(p, api, gate, candidate, latest);
  }

  // ----- the nearest earlier proof -----

  ghost predicate PhysicallyProved(p: Policy, api: Api, commit: string) {
    exists c :: Proof(p, api, commit, "camoufox", true, c)
  }

  predicate Unrelated(git: Git, prior: string, mainSha: string) {
    git.changed(prior, mainSha).Got? && git.unrelated(git.changed(prior, mainSha).value)
  }

  predicate ChainFrom(git: Git, baseSha: string) {
    && IsSha(baseSha)
    && git.ancestors(baseSha).Got?
    && var chain := git.ancestors(baseSha).value;
    0 < |chain| <= 16 && chain[0] == baseSha
  }

  /** The walk may go on past the first `k` ancestors. */
  ghost predicate Passed(p: Policy, api: Api, git: Git, mainSha: string, chain: seq<string>, k: int) {
    && 0 <= k <= |chain|
    && forall j :: 0 <= j < k ==> IsSha(chain[j]) && Unrelated(git, chain[j], mainSha) && !PhysicallyProved(p, api, chain[j])
  }

  /** Ancestor `k` is the nearest that is fully proved, and no change since touches the runtime. */
  ghost predicate NearestSafe(p: Policy, api: Api, git: Git, mainSha: string, chain: seq<string>, k: int) {
    && 0 <= k < |chain|
    && Passed(p, api, git, mainSha, chain, k)
    && IsSha(chain[k]) && Unrelated(git, chain[k], mainSha) && PhysicallyProved(p, api, chain[k])
  }

  ghost predicate Reusable(p: Policy, api: Api, git: Git, mainSha: string, baseSha: string, commit: string) {
    && ChainFrom(git, baseSha)
    && exists k :: NearestSafe(p, api, git, mainSha, git.ancestors(baseSha).value, k) && git.ancestors(baseSha).value[k] == commit
  }

  /** The walk meets an exception nobody catches, before it ends. */
  ghost predicate WalkEscapes(p: Policy, api: Api, git: Git, mainSha: string, baseSha: string) {
    && IsSha(baseSha)
    && (|| git.ancestors(baseSha) == Broken(false)
        || (ChainFrom(git, baseSha) && exists k :: StopsAt(p, api, git, mainSha, git.ancestors(baseSha).value, k)))
  }

  ghost predicate StopsAt(p: Policy, api: Api, git: Git, mainSha: string, chain: seq<string>, k: int) {
    && 0 <= k < |chain|
    && Passed(p, api, git, mainSha, chain, k) && IsSha(chain[k])
    && (|| git.changed(chain[k], mainSha) == Broken(false)
        || (Unrelated(git, chain[k], mainSha) && ProofEscapes(p, api, chain[k], "camoufox", true)))
  }

  ghost predicate GitCalm(git: Git) {
    && (forall s :: git.ancestors(s) != Broken(false))
    && (forall a, b :: git.changed(a, b) != Broken(false))
  }

  lemma NearestUnique(p: Policy, api: Api, git: Git, mainSha: string, chain: seq<string>, k: int)
    ensures NearestSafe(p, api, git, mainSha, chain, k) ==> forall j :: NearestSafe(p, api, git, mainSha, chain, j) ==> j == k
    ensures Passed(p, api, git, mainSha, chain, k) ==> forall j :: NearestSafe(p, api, git, mainSha, chain, j) ==> j >= k
  {
  }

  /** `prove_unchanged_prior_camoufox`: finds exactly the nearest safe evidence. */
  method ProveUnchangedPriorCamoufox(p: Policy, api: Api, git: Git, mainSha: string, baseSha: string) returns (r: Outcome)
    requires Coherent(p)
    ensures forall c :: r == Proved(c) <==> Reusable(p, api, git, mainSha, baseSha, c) && !WalkEscapes(p, api, git, mainSha, baseSha)
    ensures r.Escaped? <==> WalkEscapes(p, api, git, mainSha, baseSha)
  {
    if !IsSha(baseSha) { return Refused; }
    var ancestors := git.ancestors(baseSha);
    if ancestors.Broken? { return Raised(ancestors.caught); }
    var chain := ancestors.value;
    if chain == [] || chain[0] != baseSha || |chain| > 16 { return Refused; }
    var k := 0;
    while k < |chain|
      invariant Passed(p, api, git, mainSha, chain, k)
      invariant forall j :: j < k ==> !StopsAt(p, api, git, mainSha, chain, j)
    {
      var prior := chain[k];
      NearestUnique(p, api, git, mainSha, chain, k);
      assert forall j :: StopsAt(p, api, git, mainSha, chain, j) ==> j >= k;
      if !IsSha(prior) { return Refused; }
      var paths := git.changed(prior, mainSha);
      if paths.Broken? {
        assert StopsAt(p, api, git, mainSha, chain, k) <==> !paths.caught;
        return Raised(paths.caught);
      }
      if !git.unrelated(paths.value) { break; }
      var proof := Prove(p, api, prior, "camoufox", true);
      assert StopsAt(p, api, git, mainSha, chain, k) <==> proof.Escaped?;
      if proof.Escaped? { return Escaped; }
      if proof.Proved? {
        assert Proof(p, api, prior, "camoufox", true, proof.commit);
        assert NearestSafe(p, api, git, mainSha, chain, k);
        return Proved(prior);
      }
      k := k + 1;
    }
    NearestUnique(p, api, git, mainSha, chain, k);
    r := Refused;
  }

  // ----- the decision -----

  /** What the workflow hands over, and what `git rev-parse` says of the checkout. */
  datatype Environment = Environment(
    mainPush: bool, token: bool, mainSha: string, head: Reply<string>, parent: Reply<string>)

  ghost predicate Justified(p: Policy, api: Api, git: Git, env: Environment, gate: string) {
    && env.mainPush && env.token
    && (|| (exists c :: Proof(p, api, env.mainSha, gate, true, c))
        || (&& gate == "camoufox"
            && (exists c :: Proof(p, api, env.mainSha, gate, false, c))
            && env.head == Got(env.mainSha)
            && env.parent.Got?
            && (exists prior :: Reusable(p, api, git, env.mainSha, env.parent.value, prior))))
  }

  /** The program ends on an exception before it announces anything. */
  ghost predicate DecisionEscapes(p: Policy, api: Api, git: Git, env: Environment, gate: string) {
    && env.mainPush && env.token
    && (|| ProofEscapes(p, api, env.mainSha, gate, true)
        || (&& gate == "camoufox"
            && (forall c :: !Proof(p, api, env.mainSha, gate, true, c))
            && (|| ProofEscapes(p, api, env.mainSha, gate, false)
                || ((exists c :: Proof(p, api, env.mainSha, gate, false, c)) && CheckoutEscapes(p, api, git, env)))))
  }

  ghost predicate CheckoutEscapes(p: Policy, api: Api, git: Git, env: Environment) {
    || env.head == Broken(false)
    || (env.head == Got(env.mainSha)
        && (|| env.parent == Broken(false)
            || (env.parent.Got? && WalkEscapes(p, api, git, env.mainSha, env.parent.value))))
  }

  /** Where no failure of host, checkout and version control is of a kind that escapes, the
      program always announces something. */
  lemma CalmDecides(p: Policy, api: Api, git: Git, env: Environment, gate: string)
    requires Calm(api) && GitCalm(git) && env.head != Broken(false) && env.parent != Broken(false)
    ensures !DecisionEscapes(p, api, git, env, gate)
  {
    forall c, steps ensures !ProofEscapes(p, api, c, gate, steps) {
      CalmNeverEscapes(p, api, c, gate, steps);
    }
    if env.parent.Got? {
      CalmWalk(p, api, git, env.mainSha, env.parent.value);
    }
  }

  lemma CalmWalk(p: Policy, api: Api, git: Git, mainSha: string, baseSha: string)
    requires Calm(api) && GitCalm(git)
    ensures !WalkEscapes(p, api, git, mainSha, baseSha)
  {
    assert git.ancestors(baseSha) != Broken(false);
    if git.ancestors(baseSha).Got? {
      var chain := git.ancestors(baseSha).value;
      forall k | 0 <= k < |chain| ensures !StopsAt(p, api, git, mainSha, chain, k) {
        assert git.changed(chain[k], mainSha) != Broken(false);
        CalmNeverEscapes(p, api, chain[k], "camoufox", true);
      }
    }
  }

  /** `main`: reuse is announced exactly where it is justified; None exactly where the program
      ends on an exception it does not catch. */
  method Decide(p: Policy, api: Api, git: Git, env: Environment, gate: string) returns (reuse: Option<bool>)
    requires Coherent(p)
    ensures reuse.None? <==> DecisionEscapes(p, api, git, env, gate)
    ensures reuse == Some(true) ==> Justified(p, api, git, env, gate)
    ensures reuse == Some(false) ==> !Justified(p, api, git, env, gate)
  {
    if !env.mainPush || !env.token { return Some(false); }
    var r := Prove(p, api, env.mainSha, gate, true);
    assert r.Proved? ==> Proof(p, api, env.mainSha, gate, true, r.commit);
    if r.Escaped? { return None; }
    if r.Proved? { return Some(true); }
    if gate != "camoufox" { return Some(false); }
    r := Prove(p, api, env.mainSha, gate, false);
    assert r.Proved? ==> Proof(p, api, env.mainSha, gate, false, r.commit);
    if r.Escaped? { return None; }
    if r.Refused? { return Some(false); }
    if env.head.Broken? { return if env.head.caught then Some(false) else None; }
    if env.head.value != env.mainSha { return Some(false); }
    if env.parent.Broken? { return if env.parent.caught then Some(false) else None; }
    r := ProveUnchangedPriorCamoufox(p, api, git, env.mainSha, env.parent.value);
    assert r.Proved? ==> Reusable(p, api, git, env.mainSha, env.parent.value, r.commit);
    if r.Escaped? { return None; }
    reuse := Some(r.Proved?);
  }

  // ----- the latest-run rule -----

  /** A required workflow has an unsuccessful run newer than all its others. */
  predicate NewestFailed(runs: seq<Run>, head: string, name: string, k: int) {
    && 0 <= k < |runs| && Matches(runs[k], head, name) && !Successful(runs[k])
    && forall j :: 0 <= j < |runs| && j != k && Matches(runs[j], head, name) && runs[j].id.Some? ==> Below(runs[j], runs[k], true)
  }

  lemma NewestFailureRejects(p: Policy, history: History, head: string, name: string, k: int)
    requires history.runs.Some? && name in p.required && NewestFailed(history.runs.value, head, name, k)
    ensures !WorkflowsPassed(p, history, head)
  {
    var runs := history.runs.value;
    assert Matches(runs[k], head, name);
    forall i | Latest(runs, head, name, i) ensures i == k {
    }
  }

  /** Adding a newer unsuccessful run of a required workflow, anywhere in the list,
      turns acceptance into rejection. */
  lemma NewerFailureRejects(p: Policy, history: History, head: string, name: string, k: nat, run: Run, total: Option<int>)
    requires history.runs.Some? && name in p.required && k <= |history.runs.value|
    requires Matches(run, head, name) && !Successful(run) && run.id.Some?
    requires forall other :: other in history.runs.value && Matches(other, head, name) && other.id.Some? ==>
      other.id.value < run.id.value
    ensures !WorkflowsPassed(p, History(total, Some(history.runs.value[..k] + [run] + history.runs.value[k..])), head)
  {
    var runs := history.runs.value;
    var more := runs[..k] + [run] + runs[k..];
    forall j | 0 <= j < |more| && j != k && Matches(more[j], head, name) && more[j].id.Some? ensures Below(more[j], more[k], true) {
      assert more[j] == if j < k then runs[j] else runs[j - 1];
    }
    NewestFailureRejects(p, History(total, Some(more)), head, name, k);
  }

  // ----- the order of the list -----

  /** Runs of a required workflow have ids, and different ones have different ids. */
  ghost predicate DistinctIds(p: Policy, runs: seq<Run>, head: string) {
    forall a, b, name :: (a in runs && b in runs && name in p.required && Matches(a, head, name) && Matches(b, head, name)) ==>
      a.id.Some? && b.id.Some? && (a.id == b.id ==> a == b)
  }

  ghost predicate SameRuns(a: seq<Run>, b: seq<Run>) {
    forall run :: run in a <==> run in b
  }

  lemma {:induction false} FirstOccurrence(runs: seq<Run>, run: Run) returns (j: nat)
    requires run in runs
    ensures j < |runs| && runs[j] == run && forall m :: 0 <= m < j ==> runs[m] != run
  {
    if runs[0] == run {
      j := 0;
    } else {
      j := FirstOccurrence(runs[1..], run);
      j := j + 1;
    }
  }

  lemma SameLatest(p: Policy, a: seq<Run>, b: seq<Run>, head: string, name: string, i: int) returns (j: int)
    requires SameRuns(a, b) && DistinctIds(p, a, head) && name in p.required && Latest(a, head, name, i)
    ensures Latest(b, head, name, j) && b[j] == a[i]
  {
    assert a[i] in b;
    j := FirstOccurrence(b, a[i]);
    forall m | 0 <= m < |b| && m != j && Matches(b[m], head, name) ensures Below(b[m], b[j], m < j) {
      assert b[m] in a;
      var k :| 0 <= k < |a| && a[k] == b[m];
      assert k != i ==> Below(a[k], a[i], k < i);
    }
  }

  lemma SameNumbered(p: Policy, runs: seq<Run>, head: string)
    requires DistinctIds(p, runs, head)
    ensures Numbered(p, runs, head)
  {
  }

  lemma SamePassed(p: Policy, a: History, b: History, head: string)
    requires a.runs.Some? && b.runs.Some? && a.total == b.total
    requires SameRuns(a.runs.value, b.runs.value) && DistinctIds(p, a.runs.value, head)
    ensures WorkflowsPassed(p, a, head) ==> WorkflowsPassed(p, b, head)
  {
    if WorkflowsPassed(p, a, head) {
      assert DistinctIds(p, b.runs.value, head);
      SameNumbered(p, b.runs.value, head);
      forall name | name in p.required ensures exists j :: Latest(b.runs.value, head, name, j) && Successful(b.runs.value[j]) {
        var i :| Latest(a.runs.value, head, name, i) && Successful(a.runs.value[i]);
        var j := SameLatest(p, a.runs.value, b.runs.value, head, name, i);
      }
    }
  }

  /** Two answers that list the same runs, in any order. */
  ghost predicate Relisted(a: Api, b: Api, head: string) {
    && a.commit == b.commit && a.pulls == b.pulls && a.jobs == b.jobs
    && a.history(head).Got? && b.history(head).Got?
    && var x, y := a.history(head).value, b.history(head).value;
    && x.runs.Some? && y.runs.Some? && x.total == y.total && SameRuns(x.runs.value, y.runs.value)
  }

  lemma SameSteps(p: Policy, a: Api, b: Api, gate: string, head: string)
    requires Coherent(p) && Relisted(a, b, head) && DistinctIds(p, a.history(head).value.runs.value, head)
    ensures StepsRan(p, a, gate, head) ==> StepsRan(p, b, gate, head)
  {
    if StepsRan(p, a, gate, head) {
      var x, y := a.history(head).value.runs.value, b.history(head).value.runs.value;
      var i :| Latest(x, head, p.workflow[gate], i) && x[i].id.Some?
        && a.jobs(x[i].id.value).Got? && JobsRan(p, a.jobs(x[i].id.value).value, gate);
      var j := SameLatest(p, x, y, head, p.workflow[gate], i);
    }
  }

  lemma ProofRelisted(p: Policy, a: Api, b: Api, mainSha: string, gate: string, requireSteps: bool, head: string)
    requires Coherent(p) && Relisted(a, b, head) && DistinctIds(p, a.history(head).value.runs.value, head)
    ensures Proof(p, a, mainSha, gate, requireSteps, head) ==> Proof(p, b, mainSha, gate, requireSteps, head)
  {
    SameSteps(p, a, b, gate, head);
    SamePassed(p, a.history(head).value, b.history(head).value, head);
  }

  /** With distinct ids the decision does not depend on the order of the list. */
  lemma OrderForgotten(p: Policy, a: Api, b: Api, mainSha: string, gate: string, requireSteps: bool, head: string)
    requires Coherent(p) && Relisted(a, b, head) && DistinctIds(p, a.history(head).value.runs.value, head)
    ensures Proof(p, a, mainSha, gate, requireSteps, head) <==> Proof(p, b, mainSha, gate, requireSteps, head)
  {
    ProofRelisted(p, a, b, mainSha, gate, requireSteps, head);
    ProofRelisted(p, b, a, mainSha, gate, requireSteps, head);
  }

  // ----- how far back evidence may lie -----

  /** Nothing at or behind the first related change matters: two hosts that agree on the
      nearer ancestors give the same evidence, and it lies in front of that change. */
  lemma NothingBehindRelated(p: Policy, a: Api, b: Api, git: Git, mainSha: string, baseSha: string, m: nat, commit: string)
    requires ChainFrom(git, baseSha) && m < |git.ancestors(baseSha).value|
    requires !Unrelated(git, git.ancestors(baseSha).value[m], mainSha)
    requires forall j :: 0 <= j < m ==>
      (PhysicallyProved(p, a, git.ancestors(baseSha).value[j]) <==> PhysicallyProved(p, b, git.ancestors(baseSha).value[j]))
    ensures Reusable(p, a, git, mainSha, baseSha, commit) <==> Reusable(p, b, git, mainSha, baseSha, commit)
    ensures Reusable(p, a, git, mainSha, baseSha, commit) ==> commit in git.ancestors(baseSha).value[..m]
  {
    var chain := git.ancestors(baseSha).value;
    forall k, api | api in {a, b} && NearestSafe(p, api, git, mainSha, chain, k) ensures k < m && chain[k] in chain[..m] {
      assert k < m;
      assert chain[..m][k] == chain[k];
    }
    forall k ensures NearestSafe(p, a, git, mainSha, chain, k) <==> NearestSafe(p, b, git, mainSha, chain, k) {
      assert NearestSafe(p, a, git, mainSha, chain, k) || NearestSafe(p, b, git, mainSha, chain, k) ==> k < m;
    }
  }
}
