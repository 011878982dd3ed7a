/** The verified download cache: bytes filed under their own digest, shared by any
    number of interleaved jobs. */
module DownloadCache {
  import opened J = Json
  import opened Hashing

  const MAX_DOWNLOAD_BYTES := 2 * 1024 * 1024 * 1024

  /** What stands at `<digest>.blob`: a regular file, or a link or directory. */
  datatype Entry = Blob(data: Bytes) | Irregular

  type Store = map<string, Entry>

  predicate IsDigest(s: string) {
    |s| == 64 && forall i :: 0 <= i < 64 ==> '0' <= s[i] <= '9' || 'a' <= s[i] <= 'f'
  }

  /** Digests are 64 lower-case hexadecimal digits, nothing before them or after. */
  lemma DigestExactly(s: string)
    ensures IsDigest(s) <==> |s| == 64 && forall c :: c in s ==> c in "0123456789abcdef"
  {
    forall c: char ensures c in "0123456789abcdef" <==> '0' <= c <= '9' || 'a' <= c <= 'f' {
      HexDigit(c);
    }
    assert IsDigest(s) ==> forall c :: c in s ==> '0' <= c <= '9' || 'a' <= c <= 'f';
    assert (forall c :: c in s ==> '0' <= c <= '9' || 'a' <= c <= 'f') ==> forall i :: 0 <= i < |s| ==> s[i] in s;
  }

  /** The check every cache hit must pass. */
  predicate GoodEntry(h: Hasher, digest: string, e: Entry) {
    e.Blob? && 0 < |e.data| <= MAX_DOWNLOAD_BYTES && Hash(h, e.data) == digest
  }

  predicate WellFormed(h: Hasher, cache: Store) {
    forall d :: d in cache ==> GoodEntry(h, d, cache[d])
  }

  /** Nothing filed is ever changed or removed. */
  predicate Keeps(before: Store, after: Store) {
    forall d :: d in before ==> d in after && after[d] == before[d]
  }

  /** What is newly filed is filed under its own digest. */
  predicate AddsGood(h: Hasher, before: Store, after: Store) {
    forall d :: d in after && d !in before ==> GoodEntry(h, d, after[d])
  }

  // ----- any number of jobs -----

  datatype Pc =
    | Start
    | HitChecked
    | Copied(data: Bytes)
    | Downloading(got: Bytes)
    | Downloaded(data: Bytes)
    | Pending(data: Bytes)
    | Returned(data: Bytes)
    | Stopped

  datatype Job = Job(expected: string, pc: Pc, read: bool)
  datatype State = State(cache: Store, jobs: map<nat, Job>)

  datatype Step =
    | Look(i: nat)
    | Copy(i: nat)
    | CheckCopy(i: nat)
    | Receive(i: nat, chunk: Bytes)
    | Finish(i: nat)
    | StageCopy(i: nat)
    | LinkEntry(i: nat)
    | Stop(i: nat)

  function Go(s: State, i: nat, pc: Pc): State
    requires i in s.jobs
  {
    s.(jobs := s.jobs[i := s.jobs[i].(pc := pc)])
  }

  /** One step of a job; `Stop` is a crash or an operating-system error at any point. */
  predicate Next(h: Hasher, s: State, step: Step, t: State) {
    && step.i in s.jobs
    && var i, job := step.i, s.jobs[step.i];
    match step
    case Look(_) =>
      job.pc.Start? &&
      (if job.expected in s.cache
       then t == Go(s, i, if GoodEntry(h, job.expected, s.cache[job.expected]) then HitChecked else Stopped)
       else t == s.(jobs := s.jobs[i := Job(job.expected, Downloading([]), true)]))
    case Copy(_) =>
      job.pc.HitChecked? && job.expected in s.cache && s.cache[job.expected].Blob? &&
      t == Go(s, i, Copied(s.cache[job.expected].data))
    case CheckCopy(_) =>
      job.pc.Copied? && t == Go(s, i, if Hash(h, job.pc.data) == job.expected then Returned(job.pc.data) else Stopped)
    case Receive(_, chunk) =>
      job.pc.Downloading? &&
      t == Go(s, i, if |job.pc.got + chunk| > MAX_DOWNLOAD_BYTES then Stopped else Downloading(job.pc.got + chunk))
    case Finish(_) =>
      job.pc.Downloading? &&
      t == Go(s, i, if job.pc.got != [] && Hash(h, job.pc.got) == job.expected then Downloaded(job.pc.got) else Stopped)
    case StageCopy(_) => job.pc.Downloaded? && t == Go(s, i, Pending(job.pc.data))
    case LinkEntry(_) =>
      job.pc.Pending? &&
      (if job.expected !in s.cache
       then t == Go(s, i, Returned(job.pc.data)).(cache := s.cache[job.expected := Blob(job.pc.data)])
       else t == Go(s, i, if s.cache[job.expected].Blob? && Hash(h, s.cache[job.expected].data) == job.expected
                          then Returned(job.pc.data) else Stopped))
    case Stop(_) => t == Go(s, i, Stopped)
  }

  predicate JobConsistent(h: Hasher, s: State, job: Job) {
    match job.pc
    case HitChecked => job.expected in s.cache && GoodEntry(h, job.expected, s.cache[job.expected])
    case Copied(data) => GoodEntry(h, job.expected, Blob(data))
    case Downloading(got) => |got| <= MAX_DOWNLOAD_BYTES
    case Downloaded(data) => GoodEntry(h, job.expected, Blob(data))
    case Pending(data) => GoodEntry(h, job.expected, Blob(data))
    case Returned(data) => Hash(h, data) == job.expected
    case _ => true
  }

  predicate Consistent(h: Hasher, s: State) {
    forall i :: i in s.jobs ==> JobConsistent(h, s, s.jobs[i])
  }

  lemma StepKeeps(h: Hasher, s: State, step: Step, t: State)
    requires Consistent(h, s) && Next(h, s, step, t)
    ensures Consistent(h, t) && Keeps(s.cache, t.cache) && AddsGood(h, s.cache, t.cache)
  {
    assert JobConsistent(h, s, s.jobs[step.i]);
    forall j | j in t.jobs ensures JobConsistent(h, t, t.jobs[j]) {
      assert JobConsistent(h, s, s.jobs[j]);
    }
  }

  ghost predicate IsRun(h: Hasher, states: seq<State>, steps: seq<Step>) {
    && |states| == |steps| + 1
    && (forall i :: i in states[0].jobs ==> states[0].jobs[i].pc.Start? && !states[0].jobs[i].read)
    && forall k :: 0 <= k < |steps| ==> Next(h, states[k], steps[k], states[k + 1])
  }

  lemma {:induction false} RunConsistent(h: Hasher, states: seq<State>, steps: seq<Step>, k: nat)
    requires IsRun(h, states, steps) && k < |states|
    ensures Consistent(h, states[k]) && Keeps(states[0].cache, states[k].cache) && AddsGood(h, states[0].cache, states[k].cache)
  {
    if k > 0 {
      RunConsistent(h, states, steps, k - 1);
      StepKeeps(h, states[k - 1], steps[k - 1], states[k]);
    }
  }

  /** Once filed, an entry is never changed again, however the jobs interleave. */
  lemma {:induction false} FiledForever(h: Hasher, states: seq<State>, steps: seq<Step>, k: nat, m: nat)
    requires IsRun(h, states, steps) && k <= m < |states|
    ensures Keeps(states[k].cache, states[m].cache)
    decreases m
  {
    if k < m {
      FiledForever(h, states, steps, k, m - 1);
      RunConsistent(h, states, steps, m - 1);
      StepKeeps(h, states[m - 1], steps[m - 1], states[m]);
    }
  }

  /** Over every interleaving, from any cache contents: a job that returns has bytes of the
      expected digest; entries already there stay as they are; new ones are filed under
      their own digest; so a well-formed cache stays well-formed. */
  lemma CacheSafe(h: Hasher, states: seq<State>, steps: seq<Step>, k: nat)
    requires IsRun(h, states, steps) && k < |states|
    ensures forall i :: i in states[k].jobs && states[k].jobs[i].pc.Returned? ==>
      Hash(h, states[k].jobs[i].pc.data) == states[k].jobs[i].expected
    ensures Keeps(states[0].cache, states[k].cache) && AddsGood(h, states[0].cache, states[k].cache)
    ensures WellFormed(h, states[0].cache) ==> WellFormed(h, states[k].cache)
  {
    RunConsistent(h, states, steps, k);
    forall i | i in states[k].jobs && states[k].jobs[i].pc.Returned?
      ensures Hash(h, states[k].jobs[i].pc.data) == states[k].jobs[i].expected
    {
      assert JobConsistent(h, states[k], states[k].jobs[i]);
    }
  }

  /** The job never leaves the path that goes round the network. */
  predicate NeverDownloads(job: Job) {
    !job.read && !job.pc.Downloading? && !job.pc.Downloaded? && !job.pc.Pending?
  }

  /** A job whose entry is there when it starts never reads the network, and if the entry
      is bad it never returns. */
  lemma {:induction false} PresentEntryDecides(h: Hasher, states: seq<State>, steps: seq<Step>, k: nat, i: nat)
    requires IsRun(h, states, steps) && k < |states| && i in states[0].jobs
    requires states[0].jobs[i].expected in states[0].cache
    ensures i in states[k].jobs && states[k].jobs[i].expected == states[0].jobs[i].expected && NeverDownloads(states[k].jobs[i])
    ensures !GoodEntry(h, states[0].jobs[i].expected, states[0].cache[states[0].jobs[i].expected]) ==>
      states[k].jobs[i].pc.Start? || states[k].jobs[i].pc.Stopped?
  {
    if k > 0 {
      PresentEntryDecides(h, states, steps, k - 1, i);
      RunConsistent(h, states, steps, k - 1);
      assert Next(h, states[k - 1], steps[k - 1], states[k]);
    }
  }

  /** A hit and a miss hand over the same bytes, or two byte strings that collide. */
  lemma HitEqualsMiss(h: Hasher, states: seq<State>, steps: seq<Step>, k: nat, m: nat, i: nat, j: nat)
    requires IsRun(h, states, steps) && k < |states| && m < |states|
    requires i in states[k].jobs && states[k].jobs[i].pc.Returned?
    requires j in states[m].jobs && states[m].jobs[j].pc.Returned?
    requires states[k].jobs[i].expected == states[m].jobs[j].expected
    ensures states[k].jobs[i].pc.data == states[m].jobs[j].pc.data
      || Collide(h, states[k].jobs[i].pc.data, states[m].jobs[j].pc.data)
  {
    CacheSafe(h, states, steps, k);
    CacheSafe(h, states, steps, m);
  }

  // ----- a cache that others corrupt -----

  /** A step of some job, or the cache set to anything at all. */
  ghost predicate NextOrTampered(h: Hasher, s: State, t: State) {
    t == s.(cache := t.cache) || exists step :: Next(h, s, step, t)
  }

  ghost predicate IsTamperedRun(h: Hasher, states: seq<State>) {
    && states != []
    && (forall i :: i in states[0].jobs ==> states[0].jobs[i].pc.Start?)
    && forall k :: 0 < k < |states| ==> NextOrTampered(h, states[k - 1], states[k])
  }

  /** What a job has checked for itself; neither a hit nor a copy of it counts yet. */
  predicate CheckedItself(h: Hasher, job: Job) {
    match job.pc
    case Downloaded(data) => Hash(h, data) == job.expected
    case Pending(data) => Hash(h, data) == job.expected
    case Returned(data) => Hash(h, data) == job.expected
    case _ => true
  }

  lemma TamperedStep(h: Hasher, s: State, t: State, i: nat)
    requires NextOrTampered(h, s, t) && i in t.jobs
    ensures i in s.jobs && (CheckedItself(h, s.jobs[i]) ==> CheckedItself(h, t.jobs[i]))
  {
  }

  /** Even while the cache is overwritten arbitrarily between any two steps, a job returns
      only bytes of the expected digest. */
  lemma {:induction false} TamperingNeverReturned(h: Hasher, states: seq<State>, k: nat, i: nat)
    requires IsTamperedRun(h, states) && k < |states| && i in states[k].jobs
    ensures CheckedItself(h, states[k].jobs[i])
    ensures states[k].jobs[i].pc.Returned? ==> Hash(h, states[k].jobs[i].pc.data) == states[k].jobs[i].expected
  {
    if k > 0 {
      TamperedStep(h, states[k - 1], states[k], i);
      TamperingNeverReturned(h, states, k - 1, i);
    }
  }

  // ----- what a job can count on -----

  ghost predicate Path(h: Hasher, states: seq<State>, steps: seq<Step>) {
    |states| == |steps| + 1 && forall k :: 0 <= k < |steps| ==> Next(h, states[k], steps[k], states[k + 1])
  }

  lemma Onwards(h: Hasher, states: seq<State>, steps: seq<Step>, step: Step, t: State)
    requires Path(h, states, steps) && Next(h, states[|steps|], step, t)
    ensures Path(h, states + [t], steps + [step])
  {
  }

  /** A good entry is always enough: the job that finds it can return its bytes, without the
      network and without touching the cache. */
  lemma HitReturns(h: Hasher, s: State, i: nat) returns (states: seq<State>, steps: seq<Step>)
    requires i in s.jobs && s.jobs[i].pc.Start? && s.jobs[i].expected in s.cache
    requires GoodEntry(h, s.jobs[i].expected, s.cache[s.jobs[i].expected])
    ensures Path(h, states, steps) && states[0] == s
    ensures states[|steps|] == Go(s, i, Returned(s.cache[s.jobs[i].expected].data))
  {
    var data := s.cache[s.jobs[i].expected].data;
    states, steps := [s, Go(s, i, HitChecked)], [Look(i)];
    Onwards(h, states, steps, Copy(i), Go(s, i, Copied(data)));
    states, steps := states + [Go(s, i, Copied(data))], steps + [Copy(i)];
    Onwards(h, states, steps, CheckCopy(i), Go(s, i, Returned(data)));
    states, steps := states + [Go(s, i, Returned(data))], steps + [CheckCopy(i)];
  }

  lemma {:induction false} Received(h: Hasher, s: State, i: nat, chunks: seq<Bytes>, k: nat) returns (states: seq<State>, steps: seq<Step>)
    requires i in s.jobs && s.jobs[i].pc == Downloading([]) && k <= |chunks| && |Joined(chunks)| <= MAX_DOWNLOAD_BYTES
    ensures Path(h, states, steps) && states[0] == s
    ensures states[|steps|] == Go(s, i, Downloading(Joined(chunks[..k])))
  {
    if k == 0 {
      states, steps := [s], [];
      assert s.jobs[i := s.jobs[i].(pc := Downloading([]))] == s.jobs;
    } else {
      states, steps := Received(h, s, i, chunks, k - 1);
      JoinedNext(chunks, k - 1);
      JoinedGrows(chunks, k);
      var t := Go(s, i, Downloading(Joined(chunks[..k])));
      Onwards(h, states, steps, Step.Receive(i, chunks[k - 1]), t);
      states, steps := states + [t], steps + [Step.Receive(i, chunks[k - 1])];
    }
  }

  /** So is a good delivery, where there is no entry: the job can return its bytes, however
      they are cut into chunks, and has them filed. */
  lemma MissReturns(h: Hasher, s: State, i: nat, chunks: seq<Bytes>) returns (states: seq<State>, steps: seq<Step>)
    requires i in s.jobs && s.jobs[i].pc.Start? && s.jobs[i].expected !in s.cache
    requires 0 < |Joined(chunks)| <= MAX_DOWNLOAD_BYTES && Hash(h, Joined(chunks)) == s.jobs[i].expected
    ensures Path(h, states, steps) && states[0] == s
    ensures var t := states[|steps|];
      && i in t.jobs && t.jobs[i].pc == Returned(Joined(chunks)) && t.jobs[i].read
      && t.cache == s.cache[s.jobs[i].expected := Blob(Joined(chunks))]
  {
    var data, expected := Joined(chunks), s.jobs[i].expected;
    var first := s.(jobs := s.jobs[i := Job(expected, Downloading([]), true)]);
    states, steps := Received(h, first, i, chunks, |chunks|);
    assert chunks[..|chunks|] == chunks;
    Before(h, s, Look(i), states, steps);
    states, steps := [s] + states, [Look(i)] + steps;
    Onwards(h, states, steps, Finish(i), Go(first, i, Downloaded(data)));
    states, steps := states + [Go(first, i, Downloaded(data))], steps + [Finish(i)];
    Onwards(h, states, steps, StageCopy(i), Go(first, i, Pending(data)));
    states, steps := states + [Go(first, i, Pending(data))], steps + [StageCopy(i)];
    var t := Go(first, i, Returned(data)).(cache := s.cache[expected := Blob(data)]);
    Onwards(h, states, steps, LinkEntry(i), t);
    states, steps := states + [t], steps + [LinkEntry(i)];
  }

  lemma Before(h: Hasher, s: State, step: Step, states: seq<State>, steps: seq<Step>)
    requires Path(h, states, steps) && Next(h, s, step, states[0])
    ensures Path(h, [s] + states, [step] + steps)
  {
  }

  // ----- one job on disk -----

  /** What the network delivers: non-empty chunks, then the end or an error. */
  datatype Delivery = Delivery(chunks: seq<Bytes>, broken: bool)

  function Joined(chunks: seq<Bytes>): Bytes {
    if chunks == [] then [] else Joined(chunks[..|chunks| - 1]) + chunks[|chunks| - 1]
  }

  lemma JoinedNext(chunks: seq<Bytes>, i: nat)
    requires i < |chunks|
    ensures Joined(chunks[..i + 1]) == Joined(chunks[..i]) + chunks[i]
  {
    assert chunks[..i + 1][..i] == chunks[..i];
  }

  lemma {:induction false} JoinedGrows(chunks: seq<Bytes>, k: nat)
    requires k <= |chunks|
    ensures |Joined(chunks[..k])| <= |Joined(chunks)|
    decreases |chunks|
  {
    if k < |chunks| {
      assert chunks[..|chunks| - 1][..k] == chunks[..k];
      JoinedGrows(chunks[..|chunks| - 1], k);
    } else {
      assert chunks[..k] == chunks;
    }
  }

  class Disk {
    const h: Hasher
    var cache: Store
    var targets: map<string, Bytes>
    var networkReads: nat

    constructor (h: Hasher, cache: Store)
      ensures this.h == h && this.cache == cache && targets == map[] && networkReads == 0
    {
      this.h := h;
      this.cache := cache;
      targets, networkReads := map[], 0;
    }

    /** Other jobs, here: they only add good entries. */
    method Others()
      modifies this`cache
      ensures Keeps(old(cache), cache) && AddsGood(h, old(cache), cache)
    {
    }

    /** The download loop: bytes go to the target and into the digest chunk by chunk. */
    method Receive(target: string, delivery: Delivery) returns (ok: bool, digest: string, total: nat)
      modifies this`targets
      ensures forall name :: name != target && name in old(targets) ==> name in targets && targets[name] == old(targets)[name]
      ensures target in old(targets) ==> targets == old(targets)
      ensures ok <==> target !in old(targets) && !delivery.broken && |Joined(delivery.chunks)| <= MAX_DOWNLOAD_BYTES
      ensures ok ==> targets == old(targets)[target := Joined(delivery.chunks)]
      ensures ok ==> digest == Hash(h, Joined(delivery.chunks)) && total == |Joined(delivery.chunks)|
    {
      if target in targets {
        return false, "", 0;
      }
      var state := h.init;
      total := 0;
      targets := targets[target := []];
      for i := 0 to |delivery.chunks|
        invariant targets == old(targets)[target := Joined(delivery.chunks[..i])]
        invariant state == Absorb(h, h.init, Joined(delivery.chunks[..i]))
        invariant total == |Joined(delivery.chunks[..i])| <= MAX_DOWNLOAD_BYTES
      {
        var chunk := delivery.chunks[i];
        JoinedNext(delivery.chunks, i);
        total := total + |chunk|;
        if total > MAX_DOWNLOAD_BYTES {
          JoinedGrows(delivery.chunks, i + 1);
          return false, "", total;
        }
        AbsorbChunks(h, h.init, Joined(delivery.chunks[..i]), chunk);
        state := Absorb(h, state, chunk);
        targets := targets[target := targets[target] + chunk];
      }
      assert delivery.chunks[..|delivery.chunks|] == delivery.chunks;
      return !delivery.broken, h.digest(state), total;
    }

    /** Filing verified bytes; a taken name is verified instead of replaced. */
    method FileEntry(expected: string, data: Bytes) returns (ok: bool)
      requires GoodEntry(h, expected, Blob(data))
      modifies this`cache
      ensures Keeps(old(cache), cache) && AddsGood(h, old(cache), cache)
      ensures ok <==> (expected in old(cache) ==> old(cache)[expected].Blob? && Hash(h, old(cache)[expected].data) == expected)
      ensures expected in cache
    {
      Others();
      if expected !in cache {
        cache := cache[expected := Blob(data)];
        return true;
      }
      ok := cache[expected].Blob? && Hash(h, cache[expected].data) == expected;
    }

    /** `download_exact`. */
    method DownloadExact(expected: string, target: string, useCache: bool, delivery: Delivery) returns (ok: bool)
      modifies this
      ensures ok <==>
        && IsDigest(expected) && target !in old(targets)
        && (if useCache && expected in old(cache) then
              && old(cache)[expected].Blob? && 0 < |old(cache)[expected].data| <= MAX_DOWNLOAD_BYTES
              && Hash(h, old(cache)[expected].data) == expected
            else
              && !delivery.broken && 0 < |Joined(delivery.chunks)| <= MAX_DOWNLOAD_BYTES
              && Hash(h, Joined(delivery.chunks)) == expected)
      ensures ok && useCache && expected in old(cache) ==> targets == old(targets)[target := old(cache)[expected].data]
      ensures ok && !(useCache && expected in old(cache)) ==> targets == old(targets)[target := Joined(delivery.chunks)]
      ensures ok ==> target in targets && Hash(h, targets[target]) == expected
      ensures ok && useCache ==> expected in cache
      ensures Keeps(old(cache), cache) && AddsGood(h, old(cache), cache)
      ensures WellFormed(h, old(cache)) ==> WellFormed(h, cache)
      ensures useCache && expected in old(cache) ==> networkReads == old(networkReads)
      ensures useCache && expected in old(cache) && !ok ==> targets == old(targets)
      ensures !useCache ==> cache == old(cache)
      ensures forall name :: name != target && name in old(targets) ==> name in targets && targets[name] == old(targets)[name]
      ensures !IsDigest(expected) || target in old(targets) ==> targets == old(targets)
    {
      if !IsDigest(expected) {
        return false;
      }
      if useCache {
        if expected in cache {
          if !GoodEntry(h, expected, cache[expected]) {
            return false;
          }
          Others();
          if target in targets {
            return false;
          }
          targets := targets[target := cache[expected].data];
          return Hash(h, targets[target]) == expected;
        }
      }
      networkReads := networkReads + 1;
      var whole, digest, total := Receive(target, delivery);
      if !whole || total == 0 || digest != expected {
        return false;
      }
      ok := true;
      if useCache {
        ok := FileEntry(expected, targets[target]);
      }
    }
  }
}
