/** Submitting one script to a live owner: the submitting program and the owner that
    claims, runs and answers, any step of either at any time. */
module AgentSubmission {
  import opened J = Json
  import opened Hashing

  /** `selected` is the descriptor the submitter chose; a `timeout` of 0 is no limit. */
  datatype Config = Config(selected: Json, script: Bytes, timeout: real)

  /** What the submitter reads of the owner: the descriptor file and the process behind
      its number, each None where it cannot be read.  The two need not be of one instant. */
  datatype Owner = Owner(descriptor: Option<Json>, instance: Option<Json>)

  /** `owner_process_matches`. */
  predicate OwnerMatches(selected: Json, seen: Owner) {
    && selected.Obj?
    && Get(selected, "pid").Num?
    && seen.descriptor.Some? && PyEq(seen.descriptor.value, selected)
    && seen.instance.Some? && PyEq(Get(selected, "process"), seen.instance.value)
  }

  // ----- receipts -----

  function Receipt(status: string, rest: map<string, Json>): Json {
    Obj(rest["status" := Str(status)])
  }

  predicate HasStatus(details: Json, status: string) {
    details.Obj? && Get(details, "status") == Str(status)
  }

  /** The exit status for a receipt; None is one that could not be read as JSON. */
  function ReceiptCode(details: Option<Json>): int {
    if details.None? then 125
    else if HasStatus(details.value, "ok") then 0
    else if HasStatus(details.value, "error") then 1
    else 125
  }

  // ----- the two programs -----

  /** The submitter's place; `Ended` is a normal end, `Raised` an uncaught exception or a crash. */
  datatype Pc =
    | Start | Admitted | Staged | Rechecked | Renamed
    | Polling | Missing | Live | Sleeping | Found
    | Ended(code: int) | Raised

  /** The owner's place in its handling of this job. */
  datatype OwnerPc =
    | Idle | Claimed | Executing | Reporting(receipt: Json) | Dead

  /** The files of this job, the clock, and what has happened: how often the job was put
      in place, which scripts the owner began to run, when polling began and how many
      times it slept. */
  datatype State = State(
    pc: Pc, owner: OwnerPc, unconfirmed: bool,
    staged: Option<Bytes>, request: Option<Bytes>, claimed: Option<Bytes>, result: Option<Json>,
    now: real, published: nat, executed: seq<Bytes>, since: real, slept: nat)

  datatype Step =
    | Refuse
    | Check(seen: Owner)
    | Stage(ok: bool, partial: Option<Bytes>)
    | Rename(applied: bool, reported: bool)
    | Sync(ok: bool)
    | Look
    | Deadline
    | Sleep(until: real)
    | Read(readable: bool)
    | Crash
    | Claim(taken: bool, confirmed: bool)
    | Begin
    | Finish(receipt: Json)
    | Unreadable
    | Report(written: bool)
    | Die
    | Tick(until: real)

  predicate BySubmitter(step: Step) {
    !step.Claim? && !step.Begin? && !step.Finish? && !step.Unreadable? && !step.Report? && !step.Die? && !step.Tick?
  }

  predicate Over(pc: Pc) {
    pc.Ended? || pc.Raised?
  }

  /** One step of either program.  A rename or a report can take effect although it is
      reported as failed. */
  predicate Next(c: Config, s: State, step: Step, t: State) {
    match step
    case Refuse => s.pc.Start? && t == s.(pc := Ended(126))
    case Check(seen) =>
      var matches := OwnerMatches(c.selected, seen);
      (match s.pc
       case Start => t == s.(pc := if matches then Admitted else Ended(126))
       case Staged => t == s.(pc := if matches then Rechecked else Ended(126))
       case Missing => t == s.(pc := if matches then Live else Ended(125))
       case _ => false)
    case Stage(ok, partial) =>
      s.pc.Admitted? && t == if ok then s.(pc := Staged, staged := Some(c.script)) else s.(pc := Ended(125), staged := partial)
    case Rename(applied, reported) =>
      && s.pc.Rechecked? && s.staged.Some? && (reported ==> applied)
      && var moved := if applied then s.(request := s.staged, staged := None, published := s.published + 1) else s;
         t == moved.(pc := if reported then Renamed else Ended(125))
    case Sync(ok) => s.pc.Renamed? && t == s.(pc := if ok then Polling else Ended(125), since := s.now)
    case Look => s.pc.Polling? && t == s.(pc := if s.result.Some? then Found else Missing)
    case Deadline =>
      s.pc.Live? && t == s.(pc := if c.timeout > 0.0 && s.now >= s.since + c.timeout then Ended(124) else Sleeping)
    case Sleep(until) => s.pc.Sleeping? && until >= s.now + 0.1 && t == s.(pc := Polling, now := until, slept := s.slept + 1)
    case Read(readable) => s.pc.Found? && t == s.(pc := Ended(ReceiptCode(if readable then s.result else None)))
    case Crash => !Over(s.pc) && t == s.(pc := Raised)
    case Claim(taken, confirmed) =>
      && s.owner.Idle? && s.request.Some? && !s.unconfirmed && (confirmed ==> taken)
      && var moved := if taken then s.(request := None, claimed := s.request) else s;
         t == moved.(owner := if confirmed then Claimed else Reporting(Receipt("unconfirmed", map[])), unconfirmed := !confirmed)
    case Begin => s.owner.Claimed? && s.claimed.Some? && t == s.(owner := Executing, executed := s.executed + [s.claimed.value])
    case Finish(receipt) =>
      s.owner.Executing? && (HasStatus(receipt, "ok") || HasStatus(receipt, "error")) && t == s.(owner := Reporting(receipt))
    case Unreadable => s.owner.Claimed? && t == s.(owner := Reporting(Receipt("error", map[])))
    case Report(written) =>
      s.owner.Reporting? && t == s.(owner := Idle, result := if written then Some(s.owner.receipt) else s.result)
    case Die => t == s.(owner := Dead)
    case Tick(until) => until >= s.now && t == s.(now := until)
  }

  // ----- what every reachable state satisfies -----

  predicate Is(content: Option<Bytes>, script: Bytes) {
    content.Some? ==> content.value == script
  }

  predicate BeforePublish(pc: Pc) {
    pc in {Start, Admitted, Staged, Rechecked}
  }

  predicate AfterPublish(pc: Pc) {
    pc in {Renamed, Polling, Missing, Live, Sleeping, Found, Ended(0), Ended(1), Ended(124)}
  }

  /** Where the submitter is tells how often the job has been put in place. */
  predicate SubmitterConsistent(c: Config, s: State) {
    && s.published <= 1
    && (BeforePublish(s.pc) || s.pc == Ended(126) ==> s.published == 0)
    && (AfterPublish(s.pc) ==> s.published == 1)
    && (s.pc.Ended? ==> s.pc.code in {0, 1, 124, 125, 126})
    && (s.pc in {Staged, Rechecked} ==> s.staged == Some(c.script))
  }

  /** The job is at one place, and is run at most once, after it was claimed. */
  predicate JobConsistent(c: Config, s: State) {
    && Is(s.request, c.script) && Is(s.claimed, c.script)
    && (s.request.Some? || s.claimed.Some? ==> s.published == 1)
    && !(s.request.Some? && s.claimed.Some?)
    && (s.owner in {Claimed, Executing} ==> s.claimed.Some?)
    && (s.executed == [] || (s.executed == [c.script] && s.claimed.Some?))
    && (s.owner.Claimed? ==> s.executed == [])
  }

  /** An "ok" is reported only for a script that was run. */
  predicate ReceiptsConsistent(c: Config, s: State) {
    && (s.owner.Executing? ==> s.executed == [c.script])
    && (s.owner.Reporting? && HasStatus(s.owner.receipt, "ok") ==> s.executed == [c.script])
    && (s.result.Some? && HasStatus(s.result.value, "ok") ==> s.executed == [c.script])
    && (s.pc == Ended(0) ==> s.executed == [c.script])
  }

  /** Polling has not outlasted its limit by more than the last sleep. */
  predicate ClockConsistent(c: Config, s: State) {
    && (s.slept > 0 ==> s.pc != Renamed && !BeforePublish(s.pc))
    && (s.pc in {Polling, Missing, Live, Sleeping, Found} ==> s.now >= s.since + 0.1 * s.slept as real)
    && (c.timeout > 0.0 ==> 0.1 * s.slept as real <= c.timeout + 0.1)
    && (s.pc.Sleeping? && c.timeout > 0.0 ==> 0.1 * s.slept as real <= c.timeout)
    && (s.pc == Ended(124) ==> c.timeout > 0.0 && s.now >= s.since + c.timeout)
  }

  predicate Invariant(c: Config, s: State) {
    SubmitterConsistent(c, s) && JobConsistent(c, s) && ReceiptsConsistent(c, s) && ClockConsistent(c, s)
  }

  /** A job that was never seen before. */
  predicate Initial(s: State) {
    && s.pc.Start? && s.owner in {Idle, Dead}
    && s.staged.None? && s.request.None? && s.claimed.None? && s.result.None?
    && s.published == 0 && s.executed == [] && s.slept == 0
  }

  lemma StepKeepsSubmitter(c: Config, s: State, step: Step, t: State)
    requires SubmitterConsistent(c, s) && Next(c, s, step, t)
    ensures SubmitterConsistent(c, t)
  {
  }

  lemma StepKeepsJob(c: Config, s: State, step: Step, t: State)
    requires SubmitterConsistent(c, s) && JobConsistent(c, s) && Next(c, s, step, t)
    ensures JobConsistent(c, t)
  {
  }

  lemma StepKeepsReceipts(c: Config, s: State, step: Step, t: State)
    requires SubmitterConsistent(c, s) && JobConsistent(c, s) && ReceiptsConsistent(c, s) && Next(c, s, step, t)
    ensures ReceiptsConsistent(c, t)
  {
  }

  lemma StepKeepsClock(c: Config, s: State, step: Step, t: State)
    requires ClockConsistent(c, s) && Next(c, s, step, t)
    ensures ClockConsistent(c, t)
  {
  }

  ghost predicate IsRun(c: Config, states: seq<State>, steps: seq<Step>) {
    && |states| == |steps| + 1
    && Initial(states[0])
    && forall k :: 0 <= k < |steps| ==> Next(c, states[k], steps[k], states[k + 1])
  }

  lemma {:induction false} RunKeepsInvariant(c: Config, states: seq<State>, steps: seq<Step>, k: nat)
    requires c.timeout >= 0.0 && IsRun(c, states, steps) && k < |states|
    ensures Invariant(c, states[k])
  {
    if k > 0 {
      RunKeepsInvariant(c, states, steps, k - 1);
      assert Next(c, states[k - 1], steps[k - 1], states[k]);
      StepKeepsSubmitter(c, states[k - 1], steps[k - 1], states[k]);
      StepKeepsJob(c, states[k - 1], steps[k - 1], states[k]);
      StepKeepsReceipts(c, states[k - 1], steps[k - 1], states[k]);
      StepKeepsClock(c, states[k - 1], steps[k - 1], states[k]);
    }
  }

  /** Over every interleaving: the job is put in place at most once and its script run at
      most once; a submitter that put it in place ends normally only with 0, 1, 124 or
      125; 0 means the script was run; 124 means the limit is past. */
  lemma SubmissionSafe(c: Config, states: seq<State>, steps: seq<Step>, k: nat)
    requires c.timeout >= 0.0 && IsRun(c, states, steps) && k < |states|
    ensures var s := states[k];
      && s.published <= 1 && s.executed in {[], [c.script]}
      && (s.executed != [] ==> s.published == 1)
      && (s.pc.Ended? && s.published == 1 ==> s.pc.code in {0, 1, 124, 125})
      && (s.pc == Ended(0) ==> s.published == 1 && s.executed == [c.script])
      && (s.pc == Ended(1) ==> s.published == 1)
      && (s.pc == Ended(124) ==> c.timeout > 0.0 && s.now >= s.since + c.timeout)
  {
    RunKeepsInvariant(c, states, steps, k);
  }

  lemma {:induction false} OverStays(c: Config, states: seq<State>, steps: seq<Step>, k: nat, m: nat)
    requires IsRun(c, states, steps) && k <= m < |states| && Over(states[k].pc)
    ensures states[m].pc == states[k].pc
    decreases m
  {
    if k < m {
      OverStays(c, states, steps, k, m - 1);
      assert Next(c, states[m - 1], steps[m - 1], states[m]);
    }
  }

  /** A refusal is final: once the submitter has ended with 126, the job is never put in
      place and its script never run, however long the owner lives. */
  lemma RefusedNeverRuns(c: Config, states: seq<State>, steps: seq<Step>, k: nat, m: nat)
    requires c.timeout >= 0.0 && IsRun(c, states, steps) && k <= m < |states| && states[k].pc == Ended(126)
    ensures states[m].published == 0 && states[m].request.None? && states[m].executed == []
  {
    OverStays(c, states, steps, k, m);
    RunKeepsInvariant(c, states, steps, m);
  }

  /** A receipt is read, with the status it shows, whenever the submitter ends with 0 or 1. */
  lemma CodeIsReceipt(c: Config, s: State, step: Step, t: State)
    requires Next(c, s, step, t) && SubmitterConsistent(c, s) && !Over(s.pc)
    ensures t.pc == Ended(0) <==> step == Read(true) && s.result.Some? && HasStatus(s.result.value, "ok")
    ensures t.pc == Ended(1) <==> step == Read(true) && s.result.Some? && HasStatus(s.result.value, "error")
  {
  }

  // ----- the submitter comes to an end -----

  function Rank(pc: Pc): nat {
    match pc
    case Start => 9 case Admitted => 8 case Staged => 7 case Rechecked => 6 case Renamed => 5
    case Polling => 4 case Missing => 3 case Live => 2 case Sleeping => 1 case Found => 1
    case _ => 0
  }

  /** How many sleeps fit within the limit. */
  function Sleeps(timeout: real): nat
    requires timeout >= 0.0
  {
    (timeout * 10.0).Floor + 1
  }

  /** Bounds the steps the submitter still has to take. */
  function StepsLeft(c: Config, s: State): int
    requires c.timeout >= 0.0
  {
    Rank(s.pc) + if Over(s.pc) then 0 else 4 * (Sleeps(c.timeout) - s.slept)
  }

  lemma SleptWithin(c: Config, s: State)
    requires c.timeout > 0.0 && ClockConsistent(c, s)
    ensures s.slept <= Sleeps(c.timeout)
  {
    assert s.slept as real <= c.timeout * 10.0 + 1.0;
  }

  lemma OwnerStepsNeutral(c: Config, s: State, step: Step, t: State)
    requires Next(c, s, step, t) && !BySubmitter(step)
    ensures t.pc == s.pc && t.slept == s.slept
  {
  }

  lemma SubmitterStepsFall(c: Config, s: State, step: Step, t: State)
    requires Next(c, s, step, t) && BySubmitter(step)
    ensures !Over(s.pc)
    ensures if step.Sleep? then Rank(t.pc) == Rank(s.pc) + 3 && t.slept == s.slept + 1 && !Over(t.pc)
      else Rank(t.pc) < Rank(s.pc) && t.slept == s.slept
  {
  }

  /** Each of the submitter's steps brings its end nearer; the owner's do not push it away. */
  lemma StepNearer(c: Config, s: State, step: Step, t: State)
    requires c.timeout > 0.0 && Next(c, s, step, t) && ClockConsistent(c, s) && ClockConsistent(c, t)
    ensures if BySubmitter(step) then 0 <= StepsLeft(c, t) < StepsLeft(c, s) else 0 <= StepsLeft(c, t) == StepsLeft(c, s)
  {
    SleptWithin(c, s);
    SleptWithin(c, t);
    if BySubmitter(step) {
      SubmitterStepsFall(c, s, step, t);
    } else {
      OwnerStepsNeutral(c, s, step, t);
    }
  }

  function SubmitterSteps(steps: seq<Step>): nat {
    if steps == [] then 0
    else SubmitterSteps(steps[..|steps| - 1]) + if BySubmitter(steps[|steps| - 1]) then 1 else 0
  }

  /** With a limit, no run has more than a fixed number of submitter steps. */
  lemma {:induction false} PollingEnds(c: Config, states: seq<State>, steps: seq<Step>, k: nat)
    requires c.timeout > 0.0 && IsRun(c, states, steps) && k <= |steps|
    ensures SubmitterSteps(steps[..k]) + StepsLeft(c, states[k]) <= 9 + 4 * Sleeps(c.timeout)
    ensures SubmitterSteps(steps[..k]) <= 9 + 4 * Sleeps(c.timeout)
  {
    RunKeepsInvariant(c, states, steps, k);
    if k > 0 {
      PollingEnds(c, states, steps, k - 1);
      RunKeepsInvariant(c, states, steps, k - 1);
      StepNearer(c, states[k - 1], steps[k - 1], states[k]);
      assert steps[..k][..k - 1] == steps[..k - 1];
    }
    SleptWithin(c, states[k]);
  }

  /** Until it is over, the submitter can always take a step other than crashing. */
  lemma NeverStuck(c: Config, s: State) returns (step: Step, t: State)
    requires SubmitterConsistent(c, s) && !Over(s.pc)
    ensures BySubmitter(step) && !step.Crash? && Next(c, s, step, t)
  {
    match s.pc
    case Start => step, t := Refuse, s.(pc := Ended(126));
    case Admitted => step, t := Stage(true, None), s.(pc := Staged, staged := Some(c.script));
    case Staged =>
      var seen := Owner(None, None);
      step, t := Check(seen), s.(pc := Ended(126));
    case Rechecked => step, t := Rename(false, false), s.(pc := Ended(125));
    case Renamed => step, t := Sync(true), s.(pc := Polling, since := s.now);
    case Polling => step, t := Look, s.(pc := if s.result.Some? then Found else Missing);
    case Missing =>
      var seen := Owner(None, None);
      step, t := Check(seen), s.(pc := Ended(125));
    case Live =>
      step, t := Deadline, s.(pc := if c.timeout > 0.0 && s.now >= s.since + c.timeout then Ended(124) else Sleeping);
    case Sleeping => step, t := Sleep(s.now + 0.1), s.(pc := Polling, now := s.now + 0.1, slept := s.slept + 1);
    case Found => step, t := Read(false), s.(pc := Ended(125));
    case _ =>
  }

  // ----- the submitter, with the owner stepping in between -----

  /** What the submitter may rely on while the owner steps. */
  predicate Rely(c: Config, s: State, t: State) {
    && Invariant(c, t)
    && t.pc == s.pc && t.staged == s.staged && t.published == s.published && t.since == s.since && t.slept == s.slept
    && t.now >= s.now
    && s.executed <= t.executed
    && (s.result.Some? ==> t.result.Some?)
  }

  lemma OwnerStepsRely(c: Config, s: State, step: Step, t: State)
    requires c.timeout >= 0.0 && Invariant(c, s) && Next(c, s, step, t) && !BySubmitter(step)
    ensures Rely(c, s, t)
  {
    StepKeepsSubmitter(c, s, step, t);
    StepKeepsJob(c, s, step, t);
    StepKeepsReceipts(c, s, step, t);
    StepKeepsClock(c, s, step, t);
  }

  /** What the system answers the submitter: every check of the owner, every wake-up. */
  datatype Answers = Answers(
    preflight: bool, first: Owner, second: Owner, staged: bool, partial: Option<Bytes>,
    applied: bool, reported: bool, synced: bool, polled: nat -> Owner, overslept: nat -> real, readable: bool)

  class Session {
    const c: Config
    var s: State

    constructor (c: Config, initial: State)
      requires c.timeout >= 0.0 && Initial(initial)
      ensures this.c == c && s == initial && Invariant(c, s)
    {
      this.c := c;
      s := initial;
    }

    /** Any number of the owner's steps, here; a caller knows no more than `Rely`. */
    method Others()
      requires Invariant(c, s)
      modifies this
      ensures Rely(c, old(s), s)
    {
    }

    method Take(step: Step, t: State)
      requires c.timeout >= 0.0 && Invariant(c, s) && Next(c, s, step, t)
      modifies this
      ensures s == t && Invariant(c, s)
    {
      StepKeepsSubmitter(c, s, step, t);
      StepKeepsJob(c, s, step, t);
      StepKeepsReceipts(c, s, step, t);
      StepKeepsClock(c, s, step, t);
      s := t;
    }

    /** The checks before anything is written. */
    method Preflight(a: Answers)
      requires c.timeout >= 0.0 && Invariant(c, s) && s.pc.Start?
      modifies this
      ensures Invariant(c, s)
      ensures s.pc == if a.preflight && OwnerMatches(c.selected, a.first) then Admitted else Ended(126)
    {
      if !a.preflight {
        Take(Refuse, s.(pc := Ended(126)));
        return;
      }
      Take(Check(a.first), s.(pc := if OwnerMatches(c.selected, a.first) then Admitted else Ended(126)));
    }

    /** Writing the staged file, and the recheck of the owner behind it. */
    method StageAndRecheck(a: Answers)
      requires c.timeout >= 0.0 && Invariant(c, s) && s.pc.Admitted?
      modifies this
      ensures Invariant(c, s)
      ensures s.pc == if !a.staged then Ended(125) else if OwnerMatches(c.selected, a.second) then Rechecked else Ended(126)
    {
      Others();
      Take(Stage(a.staged, a.partial),
           if a.staged then s.(pc := Staged, staged := Some(c.script)) else s.(pc := Ended(125), staged := a.partial));
      if !a.staged { return; }
      Others();
      Take(Check(a.second), s.(pc := if OwnerMatches(c.selected, a.second) then Rechecked else Ended(126)));
    }

    /** The rename into place, and syncing the directory. */
    method RenameAndSync(a: Answers)
      requires c.timeout >= 0.0 && Invariant(c, s) && s.pc.Rechecked? && (a.reported ==> a.applied)
      modifies this
      ensures Invariant(c, s)
      ensures s.pc == if a.reported && a.synced then Polling else Ended(125)
    {
      Others();
      var moved := if a.applied then s.(request := s.staged, staged := None, published := s.published + 1) else s;
      Take(Rename(a.applied, a.reported), moved.(pc := if a.reported then Renamed else Ended(125)));
      if !a.reported { return; }
      Others();
      Take(Sync(a.synced), s.(pc := if a.synced then Polling else Ended(125), since := s.now));
    }

    /** Everything up to the job standing in the inbox, or an end before that. */
    method Publish(a: Answers)
      requires c.timeout >= 0.0 && Invariant(c, s) && s.pc.Start? && (a.reported ==> a.applied)
      modifies this
      ensures Invariant(c, s) && (s.pc.Polling? || s.pc in {Ended(125), Ended(126)})
      ensures s.pc == Ended(126) <==>
        !a.preflight || !OwnerMatches(c.selected, a.first) || (a.staged && !OwnerMatches(c.selected, a.second))
      ensures s.pc.Polling? <==> s.pc != Ended(126) && a.staged && a.reported && a.synced
    {
      Preflight(a);
      if s.pc.Admitted? {
        StageAndRecheck(a);
        if s.pc.Rechecked? {
          RenameAndSync(a);
        }
      }
    }

    /** One turn of the polling loop: a look, a check of the owner, the deadline, a sleep. */
    method PollOnce(answer: Owner, overslept: real) returns (found: bool)
      requires c.timeout >= 0.0 && overslept >= 0.0 && Invariant(c, s) && s.pc.Polling?
      modifies this
      ensures Invariant(c, s) && s.published == old(s).published
      ensures s.pc in {Found, Polling, Ended(124), Ended(125)} && (found <==> s.pc.Found?)
      ensures found ==> s.result.Some?
      ensures old(s).result.Some? ==> found
      ensures s.pc == Ended(125) ==> !OwnerMatches(c.selected, answer)
      ensures s.pc in {Polling, Ended(124)} ==> OwnerMatches(c.selected, answer)
      ensures s.pc == Ended(124) ==> c.timeout > 0.0
      ensures s.slept == old(s).slept + if s.pc.Polling? then 1 else 0
    {
      Others();
      found := s.result.Some?;
      Take(Look, s.(pc := if found then Found else Missing));
      if found { return; }
      Others();
      var alive := OwnerMatches(c.selected, answer);
      Take(Check(answer), s.(pc := if alive then Live else Ended(125)));
      if !alive { return; }
      Others();
      var late := c.timeout > 0.0 && s.now >= s.since + c.timeout;
      Take(Deadline, s.(pc := if late then Ended(124) else Sleeping));
      if late { return; }
      Others();
      var until := s.now + 0.1 + overslept;
      Take(Sleep(until), s.(pc := Polling, now := until, slept := s.slept + 1));
    }

    /** Poll until a result, the owner's end or the limit; `patience` bounds how long an
        unlimited wait is watched.  A result that is there at the start is found; the owner was
        there at every turn but the one that ends with 125, and missing at that one. */
    method Poll(a: Answers, patience: nat) returns (found: bool)
      requires c.timeout >= 0.0 && Invariant(c, s) && s.pc.Polling?
      requires forall n :: a.overslept(n) >= 0.0
      modifies this
      ensures Invariant(c, s) && s.published == old(s).published
      ensures if found then s.pc.Found? && s.result.Some? else s.pc in {Ended(124), Ended(125)} || (c.timeout == 0.0 && s.pc.Polling?)
      ensures old(s).result.Some? && (c.timeout > 0.0 || patience > 0) ==> found
      ensures s.slept >= old(s).slept && forall k :: 0 <= k < s.slept - old(s).slept ==> OwnerMatches(c.selected, a.polled(k))
      ensures s.pc == Ended(124) ==> c.timeout > 0.0 && OwnerMatches(c.selected, a.polled(s.slept - old(s).slept))
      ensures s.pc == Ended(125) ==> !OwnerMatches(c.selected, a.polled(s.slept - old(s).slept))
    {
      ghost var published, there, slept := s.published, s.result.Some?, s.slept;
      var watched := 0;
      while c.timeout > 0.0 || watched < patience
        invariant Invariant(c, s) && s.pc.Polling? && s.published == published
        invariant there ==> s.result.Some? && watched == 0
        invariant s.slept == slept + watched && forall k :: 0 <= k < watched ==> OwnerMatches(c.selected, a.polled(k))
        decreases if c.timeout > 0.0 then Sleeps(c.timeout) - s.slept else patience - watched
      {
        found := PollOnce(a.polled(watched), a.overslept(watched));
        if !s.pc.Polling? { return; }
        if c.timeout > 0.0 { SleptWithin(c, s); }
        watched := watched + 1;
      }
      found := false;
    }

    /** Reading the result that was found. */
    method ReadResult(readable: bool) returns (code: int)
      requires c.timeout >= 0.0 && Invariant(c, s) && s.pc.Found? && s.result.Some?
      modifies this
      ensures Invariant(c, s) && s.pc == Ended(code) && s.result.Some? && s.published == old(s).published
      ensures code == 0 <==> readable && HasStatus(s.result.value, "ok")
      ensures code == 1 <==> readable && HasStatus(s.result.value, "error")
      ensures code in {0, 1, 125}
    {
      Others();
      code := ReceiptCode(if readable then s.result else None);
      Take(Read(readable), s.(pc := Ended(code)));
    }

    /** The submission in `run`: the exit status, or None while it still waits; `found` tells
        whether polling came upon a result. */
    method Submit(a: Answers, patience: nat) returns (code: Option<int>, found: bool)
      requires c.timeout >= 0.0 && Invariant(c, s) && s.pc.Start? && (a.reported ==> a.applied)
      requires forall n :: a.overslept(n) >= 0.0
      modifies this
      ensures Invariant(c, s)
      ensures code.Some? ==> s.pc == Ended(code.value)
      ensures code.None? ==> c.timeout == 0.0 && s.pc.Polling?
      ensures code == Some(126) <==>
        !a.preflight || !OwnerMatches(c.selected, a.first) || (a.staged && !OwnerMatches(c.selected, a.second))
      ensures code == Some(126) ==> s.published == 0 && s.request.None? && s.executed == []
      ensures code.Some? && s.published == 1 ==> code.value in {0, 1, 124, 125}
      ensures code == Some(0) ==> s.executed == [c.script]
      ensures found ==> s.result.Some? && code.Some?
      ensures code == Some(0) <==> found && a.readable && HasStatus(s.result.value, "ok")
      ensures code == Some(1) <==> found && a.readable && HasStatus(s.result.value, "error")
      ensures code == Some(124) ==> !found && c.timeout > 0.0 && OwnerMatches(c.selected, a.polled(0))
      ensures code == Some(125) ==>
        || !a.staged || !a.reported || !a.synced
        || (found && !(a.readable && (HasStatus(s.result.value, "ok") || HasStatus(s.result.value, "error"))))
        || (!found && !forall n :: OwnerMatches(c.selected, a.polled(n)))
    {
      found := false;
      Publish(a);
      if s.pc.Ended? { return Some(s.pc.code), false; }
      found := Poll(a, patience);
      if !found { return if s.pc.Ended? then Some(s.pc.code) else None, false; }
      var status := ReadResult(a.readable);
      code := Some(status);
    }
  }
}
