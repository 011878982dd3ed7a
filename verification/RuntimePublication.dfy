/** Publishing an archive and its manifest under two names by hard links: any number of
    publishers, interleaved step by step, any of which may crash or have a link refused. */
module RuntimePublication {
  import opened J = Json
  import opened Hashing
  import RuntimeArchive

  type Id = nat

  datatype Bundle = Bundle(archive: RuntimeArchive.Archive, manifest: Bytes)

  /** How staged bundles are checked. */
  datatype Checker = Checker(h: Hasher, parse: Bytes -> Option<seq<RuntimeArchive.Row>>)

  predicate Verified(c: Checker, b: Bundle) {
    RuntimeArchive.Accepted(c.h, c.parse, b.archive, b.manifest)
  }

  /** Where a publisher stands in `package_runtime`. */
  datatype Pc =
    | Start
    | ArchiveSeenFree
    | Building
    | Staged(bundle: Bundle)
    | ManifestLinked(bundle: Bundle)
    | CleaningUp(bundle: Bundle)
    | Done(bundle: Bundle)
    | Failed
    | Crashed

  /** What a published name holds, and who linked it there. */
  datatype Link<T> = Link(owner: Id, content: T)

  datatype State = State(archive: Option<Link<RuntimeArchive.Archive>>, manifest: Option<Link<Bytes>>, pubs: map<Id, Pc>)

  datatype Step =
    | CheckArchive(i: Id)
    | CheckManifest(i: Id)
    | Stage(i: Id, bundle: Bundle)
    | StageFails(i: Id)
    | LinkManifest(i: Id)
    | LinkManifestRefused(i: Id)
    | LinkArchive(i: Id)
    | LinkArchiveRefused(i: Id)
    | UnlinkManifest(i: Id)
    | UnlinkRefused(i: Id)
    | Crash(i: Id)

  function Go(s: State, i: Id, pc: Pc): State {
    s.(pubs := s.pubs[i := pc])
  }

  /** One atomic step of publisher `step.i`. A link to a taken name is refused; any link
      or unlink may also be refused for no visible reason, without effect. The cleanup
      removes whatever the manifest name holds. */
  predicate Next(c: Checker, s: State, step: Step, t: State) {
    && step.i in s.pubs
    && var i, pc := step.i, s.pubs[step.i];
    match step
    case CheckArchive(_) => pc.Start? && t == Go(s, i, if s.archive.Some? then Failed else ArchiveSeenFree)
    case CheckManifest(_) => pc.ArchiveSeenFree? && t == Go(s, i, if s.manifest.Some? then Failed else Building)
    case Stage(_, bundle) => pc.Building? && Verified(c, bundle) && t == Go(s, i, Staged(bundle))
    case StageFails(_) => pc.Building? && t == Go(s, i, Failed)
    case LinkManifest(_) =>
      pc.Staged? &&
      (if s.manifest.Some? then t == Go(s, i, Failed)
       else t == Go(s, i, ManifestLinked(pc.bundle)).(manifest := Some(Link(i, pc.bundle.manifest))))
    case LinkManifestRefused(_) => pc.Staged? && t == Go(s, i, Failed)
    case LinkArchive(_) =>
      pc.ManifestLinked? &&
      (if s.archive.Some? then t == Go(s, i, CleaningUp(pc.bundle))
       else t == Go(s, i, Done(pc.bundle)).(archive := Some(Link(i, pc.bundle.archive))))
    case LinkArchiveRefused(_) => pc.ManifestLinked? && t == Go(s, i, CleaningUp(pc.bundle))
    case UnlinkManifest(_) => pc.CleaningUp? && t == Go(s, i, Failed).(manifest := None)
    case UnlinkRefused(_) => pc.CleaningUp? && t == Go(s, i, Failed)
    case Crash(_) => t == Go(s, i, Crashed)
  }

  /** Both names free, every publisher about to start. */
  predicate Initial(s: State) {
    s.archive.None? && s.manifest.None? && forall i :: i in s.pubs ==> s.pubs[i].Start?
  }

  /** A published archive always comes with the manifest of the same publisher, and the
      pair is one the verifier accepts. */
  predicate Safe(c: Checker, s: State) {
    s.archive.Some? ==>
      && s.manifest.Some? && s.manifest.value.owner == s.archive.value.owner
      && Verified(c, Bundle(s.archive.value.content, s.manifest.value.content))
  }

  predicate PublisherConsistent(c: Checker, s: State, i: Id)
    requires i in s.pubs
  {
    match s.pubs[i]
    case Staged(b) => Verified(c, b)
    case ManifestLinked(b) => Verified(c, b) && s.manifest == Some(Link(i, b.manifest)) && s.archive.None?
    case CleaningUp(b) => s.manifest == Some(Link(i, b.manifest)) && s.archive.None?
    case Done(b) => s.manifest == Some(Link(i, b.manifest)) && s.archive == Some(Link(i, b.archive))
    case _ => true
  }

  predicate Invariant(c: Checker, s: State) {
    Safe(c, s) && forall i :: i in s.pubs ==> PublisherConsistent(c, s, i)
  }

  /** Every step, of whichever publisher, keeps the invariant. */
  lemma StepKeepsInvariant(c: Checker, s: State, step: Step, t: State)
    requires Invariant(c, s) && Next(c, s, step, t)
    ensures Invariant(c, t)
  {
    forall j | j in t.pubs ensures PublisherConsistent(c, t, j) {
      assert PublisherConsistent(c, s, j) && PublisherConsistent(c, s, step.i);
    }
  }

  /** No step replaces or removes a published archive, nor the manifest beside it. */
  lemma StepKeepsPublished(c: Checker, s: State, step: Step, t: State)
    requires Invariant(c, s) && Next(c, s, step, t) && s.archive.Some?
    ensures t.archive == s.archive && t.manifest == s.manifest
  {
    assert PublisherConsistent(c, s, step.i);
  }

  /** The cleanup removes only the manifest its own publisher linked, and never beside a
      published archive. */
  lemma CleanupIsOwn(c: Checker, s: State, step: Step, t: State)
    requires Invariant(c, s) && Next(c, s, step, t) && s.manifest.Some? && t.manifest.None?
    ensures step.UnlinkManifest? && s.manifest.value.owner == step.i && s.archive.None?
  {
    assert PublisherConsistent(c, s, step.i);
  }

  // ----- whole runs -----

  ghost predicate IsRun(c: Checker, states: seq<State>, steps: seq<Step>) {
    && |states| == |steps| + 1
    && Initial(states[0])
    && forall k :: 0 <= k < |steps| ==> Next(c, states[k], steps[k], states[k + 1])
  }

  lemma {:induction false} RunKeepsInvariant(c: Checker, states: seq<State>, steps: seq<Step>, k: nat)
    requires IsRun(c, states, steps) && k < |states|
    ensures Invariant(c, states[k])
  {
    if k > 0 {
      RunKeepsInvariant(c, states, steps, k - 1);
      StepKeepsInvariant(c, states[k - 1], steps[k - 1], states[k]);
    }
  }

  lemma PublishedNext(c: Checker, states: seq<State>, steps: seq<Step>, k: nat)
    requires IsRun(c, states, steps) && k < |steps| && states[k].archive.Some?
    ensures states[k + 1].archive == states[k].archive && states[k + 1].manifest == states[k].manifest
  {
    RunKeepsInvariant(c, states, steps, k);
    StepKeepsPublished(c, states[k], steps[k], states[k + 1]);
  }

  lemma {:induction false} PublishedForever(c: Checker, states: seq<State>, steps: seq<Step>, k: nat, m: nat)
    requires IsRun(c, states, steps) && k <= m < |states| && states[k].archive.Some?
    ensures states[m].archive == states[k].archive && states[m].manifest == states[k].manifest
    decreases m
  {
    if k < m {
      PublishedForever(c, states, steps, k, m - 1);
      PublishedNext(c, states, steps, m - 1);
    }
  }

  /** Over every interleaving: whenever the archive name exists the manifest name holds
      the same publisher's verified bytes, both stay as they are from then on, and a
      cleanup only ever removes the caller's own manifest. */
  lemma PublicationSafe(c: Checker, states: seq<State>, steps: seq<Step>)
    requires IsRun(c, states, steps)
    ensures forall k :: 0 <= k < |states| ==> Safe(c, states[k])
    ensures forall k, m :: 0 <= k <= m < |states| && states[k].archive.Some? ==>
      states[m].archive == states[k].archive && states[m].manifest == states[k].manifest
    ensures forall k :: 0 <= k < |steps| && states[k].manifest.Some? && states[k + 1].manifest.None? ==>
      steps[k].UnlinkManifest? && states[k].manifest.value.owner == steps[k].i
  {
    forall k | 0 <= k < |states| ensures Safe(c, states[k]) { RunKeepsInvariant(c, states, steps, k); }
    forall k, m | 0 <= k <= m < |states| && states[k].archive.Some?
      ensures states[m].archive == states[k].archive && states[m].manifest == states[k].manifest
    {
      PublishedForever(c, states, steps, k, m);
    }
    forall k | 0 <= k < |steps| && states[k].manifest.Some? && states[k + 1].manifest.None?
      ensures steps[k].UnlinkManifest? && states[k].manifest.value.owner == steps[k].i
    {
      RunKeepsInvariant(c, states, steps, k);
      CleanupIsOwn(c, states[k], steps[k], states[k + 1]);
    }
  }

  /** At most one publisher of a run ever reports success. */
  lemma OneWinner(c: Checker, states: seq<State>, steps: seq<Step>, k: nat, m: nat, i: Id, j: Id)
    requires IsRun(c, states, steps) && k <= m < |states|
    requires i in states[k].pubs && states[k].pubs[i].Done? && j in states[m].pubs && states[m].pubs[j].Done?
    ensures i == j
  {
    RunKeepsInvariant(c, states, steps, k);
    RunKeepsInvariant(c, states, steps, m);
    assert PublisherConsistent(c, states[k], i) && PublisherConsistent(c, states[m], j);
    PublishedForever(c, states, steps, k, m);
  }

  /** What the protocol rests on: were a link to the archive name ever to take effect and
      still be reported as refused, the cleanup would strip a published archive of its
      manifest. */
  lemma UnreportedLinkBreaksSafety(c: Checker, s: State, i: Id)
    requires Invariant(c, s) && i in s.pubs && s.pubs[i].ManifestLinked?
    ensures var b := s.pubs[i].bundle;
      var linked := Go(s, i, CleaningUp(b)).(archive := Some(Link(i, b.archive)));
      var cleaned := Go(linked, i, Failed).(manifest := None);
      Next(c, linked, UnlinkManifest(i), cleaned) && Safe(c, linked) && !Safe(c, cleaned)
  {
    assert PublisherConsistent(c, s, i);
  }

  // ----- one publisher among others -----

  /** What a publisher may rely on while others step: the invariant, its own place, and
      that whatever is published stays. */
  predicate Rely(c: Checker, s: State, t: State, i: Id) {
    && Invariant(c, t)
    && (i in s.pubs <==> i in t.pubs)
    && (i in s.pubs ==> t.pubs[i] == s.pubs[i])
    && (s.archive.Some? ==> t.archive == s.archive && t.manifest == s.manifest)
  }

  /** Every step of another publisher is within what is relied on. */
  lemma OtherStepsRely(c: Checker, s: State, step: Step, t: State, i: Id)
    requires Invariant(c, s) && Next(c, s, step, t) && step.i != i
    ensures Rely(c, s, t, i)
  {
    StepKeepsInvariant(c, s, step, t);
    if s.archive.Some? {
      StepKeepsPublished(c, s, step, t);
    }
  }

  /** How a call of `package_runtime` ends. */
  datatype Outcome = Published | ArchiveExists | ManifestExists | NotVerified | ManifestRefused | ArchiveRefused

  /** The two output names on disk, shared by all publishers. */
  class Outputs {
    const c: Checker
    var state: State

    constructor (c: Checker, pubs: map<Id, Pc>)
      requires forall i :: i in pubs ==> pubs[i].Start?
      ensures this.c == c && state == State(None, None, pubs) && Invariant(c, state)
    {
      this.c := c;
      state := State(None, None, pubs);
    }

    /** Any number of steps of other publishers, here; a caller knows no more than `Rely`. */
    method Others(i: Id)
      requires Invariant(c, state)
      modifies this
      ensures Rely(c, old(state), state, i)
    {
    }

    method Take(step: Step, t: State)
      requires Invariant(c, state) && Next(c, state, step, t)
      modifies this
      ensures state == t && Invariant(c, state)
    {
      StepKeepsInvariant(c, state, step, t);
      state := t;
    }

    /** `os.link(staged_manifest, manifest_path)`. */
    method LinkManifestTo(i: Id, refused: bool) returns (ok: bool)
      requires Invariant(c, state) && i in state.pubs && state.pubs[i].Staged?
      modifies this
      ensures Invariant(c, state) && i in state.pubs
      ensures ok <==> !refused && old(state).manifest.None?
      ensures ok ==> state.pubs[i] == ManifestLinked(old(state).pubs[i].bundle)
      ensures !ok ==> state == Go(old(state), i, Failed)
    {
      var b := state.pubs[i].bundle;
      if refused || state.manifest.Some? {
        Take(LinkManifestRefused(i), Go(state, i, Failed));
        return false;
      }
      Take(LinkManifest(i), Go(state, i, ManifestLinked(b)).(manifest := Some(Link(i, b.manifest))));
      ok := true;
    }

    /** `os.link(staged_archive, archive_path)`, and the cleanup when it is refused: the own
        manifest is taken away again, unless that is refused too. */
    method LinkArchiveTo(i: Id, refused: bool, unlinkRefused: bool) returns (ok: bool)
      requires Invariant(c, state) && i in state.pubs && state.pubs[i].ManifestLinked?
      modifies this
      ensures Invariant(c, state) && i in state.pubs
      ensures ok <==> !refused
      ensures ok ==> state.pubs[i] == Done(old(state).pubs[i].bundle)
      ensures !ok ==> state.pubs[i] == Failed
      ensures !ok && !unlinkRefused ==> state.manifest.None?
    {
      var b := state.pubs[i].bundle;
      assert PublisherConsistent(c, state, i);
      if refused || state.archive.Some? {
        Take(LinkArchiveRefused(i), Go(state, i, CleaningUp(b)));
        Others(i);
        if unlinkRefused {
          Take(UnlinkRefused(i), Go(state, i, Failed));
        } else {
          Take(UnlinkManifest(i), Go(state, i, Failed).(manifest := None));
        }
        return false;
      }
      Take(LinkArchive(i), Go(state, i, Done(b)).(archive := Some(Link(i, b.archive))));
      ok := true;
    }

    /** The checks and the staging before anything is published. */
    method StageBundle(i: Id, bundle: Bundle) returns (r: Outcome)
      requires Invariant(c, state) && i in state.pubs && state.pubs[i].Start?
      modifies this
      ensures Invariant(c, state) && i in state.pubs
      ensures r in {Published, ArchiveExists, ManifestExists, NotVerified}
      ensures r.ArchiveExists? <==> old(state).archive.Some?
      ensures r.ManifestExists? ==> state.manifest.Some?
      ensures r.NotVerified? ==> !Verified(c, bundle)
      ensures r.Published? ==> Verified(c, bundle) && state.pubs[i] == Staged(bundle)
    {
      if state.archive.Some? {
        Take(CheckArchive(i), Go(state, i, Failed));
        return ArchiveExists;
      }
      Take(CheckArchive(i), Go(state, i, ArchiveSeenFree));
      Others(i);
      if state.manifest.Some? {
        Take(CheckManifest(i), Go(state, i, Failed));
        return ManifestExists;
      }
      Take(CheckManifest(i), Go(state, i, Building));
      Others(i);
      var accepted := RuntimeArchive.VerifyStagedArchive(c.h, c.parse, bundle.archive, bundle.manifest);
      if !accepted {
        Take(StageFails(i), Go(state, i, Failed));
        return NotVerified;
      }
      Take(Stage(i, bundle), Go(state, i, Staged(bundle)));
      r := Published;
    }

    /** `package_runtime` from its first check to its end, with others stepping in
        between: it publishes both names with its own verified bundle unless one of them
        was taken, the bundle fails verification or a link is refused. */
    method PackageRuntime(i: Id, bundle: Bundle, manifestRefused: bool, archiveRefused: bool, unlinkRefused: bool)
      returns (r: Outcome)
      requires Invariant(c, state) && i in state.pubs && state.pubs[i].Start?
      modifies this
      ensures Invariant(c, state)
      ensures r.Published? ==> Verified(c, bundle)
      ensures r.Published? ==> state.manifest == Some(Link(i, bundle.manifest)) && state.archive == Some(Link(i, bundle.archive))
      ensures r.ArchiveExists? <==> old(state).archive.Some?
      ensures r.ManifestExists? ==> state.manifest.Some?
      ensures r.NotVerified? ==> !Verified(c, bundle)
      ensures r.ManifestRefused? ==> manifestRefused || state.manifest.Some?
      ensures r.ArchiveRefused? ==> archiveRefused && (!unlinkRefused ==> state.manifest.None?)
    {
      r := StageBundle(i, bundle);
      if !r.Published? {
        return;
      }
      Others(i);
      var ok := LinkManifestTo(i, manifestRefused);
      if !ok {
        return ManifestRefused;
      }
      Others(i);
      ok := LinkArchiveTo(i, archiveRefused, unlinkRefused);
      if !ok {
        return ArchiveRefused;
      }
      assert PublisherConsistent(c, state, i);
    }
  }
}
