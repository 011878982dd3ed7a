/** What the commands on clients themselves guarantee: renaming, archiving and merging
    behind one optimistic version each. */
module ClientHistory {
  import opened J = Json
  import opened RelationshipHistory

  /** The client whose version a command names and raises. */
  function SubjectOf(c: ClientCommand): Key {
    match c
    case OfLifecycle(l) => ClientKey(l)
    case OfMerge(m) => SourceKey(m)
  }

  function NamedVersion(c: ClientCommand): int {
    match c
    case OfLifecycle(l) => l.expectedVersion
    case OfMerge(m) => m.expectedSource
  }

  function KeyOf(c: ClientCommand): ClientCommandKey {
    match c
    case OfLifecycle(l) => LifecycleCommandKey(l)
    case OfMerge(m) => MergeCommandKey(m)
  }

  function StatementOf(c: ClientCommand): Statement {
    match c
    case OfLifecycle(l) => InsertLifecycle(l)
    case OfMerge(m) => InsertMerge(m)
  }

  // ----- what every reachable state satisfies -----

  predicate VersionsConsumed(s: State) {
    forall ck :: ck in s.clientCommands ==>
      && ck == KeyOf(s.clientCommands[ck])
      && SubjectOf(s.clientCommands[ck]) in s.clients
      && NamedVersion(s.clientCommands[ck]) < s.clients[SubjectOf(s.clientCommands[ck])].version
  }

  /** No two accepted commands on a client name the same version of it. */
  predicate OncePerClientVersion(s: State) {
    forall a, b :: (a in s.clientCommands && b in s.clientCommands
      && SubjectOf(s.clientCommands[a]) == SubjectOf(s.clientCommands[b])
      && NamedVersion(s.clientCommands[a]) == NamedVersion(s.clientCommands[b])) ==> a == b
  }

  predicate RecordsOfMerged(s: State) {
    forall k :: k in s.merged ==> k in s.clients && s.clients[k].status.Merged?
  }

  predicate ClientsConsistent(s: State) {
    VersionsConsumed(s) && OncePerClientVersion(s) && RecordsOfMerged(s)
  }

  // ----- what no statement undoes -----

  function Naming(commands: map<ClientCommandKey, ClientCommand>, k: Key): set<ClientCommandKey> {
    set ck | ck in commands && SubjectOf(commands[ck]) == k
  }

  /** A client that is not active never changes again; versions move with the accepted
      commands. */
  predicate ClientsKept(s: State, t: State) {
    && t.clients.Keys == s.clients.Keys
    && (forall k :: k in s.clients && !s.clients[k].status.Active? ==> t.clients[k] == s.clients[k])
    && (forall ck :: ck in s.clientCommands ==> ck in t.clientCommands && t.clientCommands[ck] == s.clientCommands[ck])
    && (forall k :: k in s.merged ==> k in t.merged && t.merged[k] == s.merged[k])
    && forall k :: k in s.clients ==>
      t.clients[k].version - s.clients[k].version == |Naming(t.clientCommands, k)| - |Naming(s.clientCommands, k)|
  }

  predicate ClientsSound(s: State, result: Option<State>) {
    result.Some? ==> ClientsConsistent(result.value) && ClientsKept(s, result.value)
  }

  // ----- one command -----

  /** All that an accepted command on a client changes, but for the client's new status,
      name and merge record. */
  predicate ClientBumped(s: State, c: ClientCommand, t: State) {
    && SubjectOf(c) in s.clients && s.clients[SubjectOf(c)].status.Active?
    && s.clients[SubjectOf(c)].version == NamedVersion(c)
    && t.clients.Keys == s.clients.Keys
    && (forall k :: k in s.clients && k != SubjectOf(c) ==> t.clients[k] == s.clients[k])
    && t.clients[SubjectOf(c)].version == NamedVersion(c) + 1
    && KeyOf(c) !in s.clientCommands && t.clientCommands == s.clientCommands[KeyOf(c) := c]
    && t == s.(clients := t.clients, clientCommands := t.clientCommands, merged := t.merged)
  }

  /** What becomes of the client. */
  predicate Outcome(s: State, c: ClientCommand, t: State) {
    SubjectOf(c) in t.clients &&
    match c
    case OfLifecycle(l) =>
      && t.merged == s.merged
      && (l.rename.Some? ==> t.clients[ClientKey(l)].status.Active? && t.clients[ClientKey(l)].displayName == l.rename.value)
      && (l.rename.None? ==> t.clients[ClientKey(l)].status.Archived?)
    case OfMerge(m) =>
      && t.clients[SourceKey(m)].status.Merged?
      && SourceKey(m) !in s.merged && t.merged == s.merged[SourceKey(m) := RecordOf(m)]
  }

  /** Precisely when a command on a client is admitted. */
  predicate ClientAdmissible(s: State, c: ClientCommand) {
    match c
    case OfLifecycle(l) => LifecycleAdmitted(s, l) && !(l.rename.None? && l.contactsRefuse)
    case OfMerge(m) => MergeAdmitted(s, m) && !m.contactsRefuse
  }

  lemma {:induction false} DropLastPrefix(text: string)
    ensures DropLastSpaces(text) <= text
    ensures DropLastSpaces(text) != "" ==> DropLastSpaces(text)[|DropLastSpaces(text)| - 1] != ' '
  {
    if text != "" && text[|text| - 1] == ' ' {
      DropLastPrefix(text[..|text| - 1]);
    }
  }

  lemma {:induction false} DropFirst(text: string)
    ensures DropSpaces(text) != "" ==> DropSpaces(text)[0] != ' '
  {
    if text != "" && text[0] == ' ' {
      DropFirst(text[1..]);
    }
  }

  /** Trimming a trimmed text changes nothing. */
  lemma TrimTwice(text: string)
    ensures Trim(Trim(text)) == Trim(text)
  {
    DropFirst(text);
    DropLastPrefix(DropSpaces(text));
    var t := Trim(text);
    if t != "" {
      assert t[0] == DropSpaces(text)[0];
      assert DropSpaces(t) == t;
    }
  }

  /** The guards inside the merge's apply trigger never refuse what its validators
      admitted: its own command governs both writes, and an active source has no record. */
  lemma MergeGuardsAgree(s: State, m: Merge)
    requires RecordsOfMerged(s) && MergeAdmitted(s, m)
    ensures var noted := s.(clientCommands := s.clientCommands[MergeCommandKey(m) := OfMerge(m)]);
      var was := s.clients[SourceKey(m)];
      && StatusGoverned(noted, SourceKey(m), was, MergedAway(was, m))
      && RecordAdmitted(noted.(clients := s.clients[SourceKey(m) := MergedAway(was, m)]), SourceKey(m), RecordOf(m))
  {
    var noted := s.(clientCommands := s.clientCommands[MergeCommandKey(m) := OfMerge(m)]);
    var was := s.clients[SourceKey(m)];
    TrimTwice(m.reason);
    assert StatusBy(noted.clientCommands[MergeCommandKey(m)].merge, SourceKey(m), was, MergedAway(was, m));
    assert RecordBy(noted.clientCommands[MergeCommandKey(m)].merge, SourceKey(m), RecordOf(m));
  }

  lemma LifecycleAdmittedExactly(s: State, l: Lifecycle)
    ensures ExecLifecycle(s, l).Some? <==> ClientAdmissible(s, OfLifecycle(l))
    ensures ExecLifecycle(s, l).Some? ==>
      ClientBumped(s, OfLifecycle(l), ExecLifecycle(s, l).value) && Outcome(s, OfLifecycle(l), ExecLifecycle(s, l).value)
  {
  }

  lemma MergeAdmittedExactly(s: State, m: Merge)
    requires RecordsOfMerged(s)
    ensures ExecMerge(s, m).Some? <==> ClientAdmissible(s, OfMerge(m))
    ensures ExecMerge(s, m).Some? ==>
      ClientBumped(s, OfMerge(m), ExecMerge(s, m).value) && Outcome(s, OfMerge(m), ExecMerge(s, m).value)
  {
    if MergeAdmitted(s, m) {
      MergeGuardsAgree(s, m);
    }
  }

  /** A command on a client is accepted exactly when its validators admit it, checks and
      raises that client's version, and leaves every other client as it is. */
  lemma ClientAdmittedExactly(s: State, c: ClientCommand)
    requires ClientsConsistent(s)
    ensures Exec(s, StatementOf(c)).Some? <==> ClientAdmissible(s, c)
    ensures Exec(s, StatementOf(c)).Some? ==>
      ClientBumped(s, c, Exec(s, StatementOf(c)).value) && Outcome(s, c, Exec(s, StatementOf(c)).value)
  {
    match c
    case OfLifecycle(l) => LifecycleAdmittedExactly(s, l);
    case OfMerge(m) => MergeAdmittedExactly(s, m);
  }

  /** Of the commands that name one version of a client, renamings, archivings and mergers
      together, at most one is ever accepted. */
  lemma UsedClientVersionRefused(s: State, ck: ClientCommandKey, c: ClientCommand)
    requires ClientsConsistent(s) && ck in s.clientCommands
    requires SubjectOf(s.clientCommands[ck]) == SubjectOf(c) && NamedVersion(s.clientCommands[ck]) == NamedVersion(c)
    ensures Exec(s, StatementOf(c)).None?
  {
    ClientAdmittedExactly(s, c);
  }

  // ----- every statement -----

  lemma BumpedConsistent(s: State, c: ClientCommand, t: State)
    requires ClientsConsistent(s) && ClientBumped(s, c, t) && Outcome(s, c, t)
    ensures VersionsConsumed(t) && OncePerClientVersion(t)
  {
  }

  lemma BumpedRecords(s: State, c: ClientCommand, t: State)
    requires RecordsOfMerged(s) && ClientBumped(s, c, t) && Outcome(s, c, t)
    ensures RecordsOfMerged(t)
  {
    forall k | k in t.merged ensures k in t.clients && t.clients[k].status.Merged? {
      assert k != SubjectOf(c) ==> k in s.merged;
    }
  }

  lemma OneMoreNaming(commands: map<ClientCommandKey, ClientCommand>, c: ClientCommand, k: Key)
    requires KeyOf(c) !in commands
    ensures |Naming(commands[KeyOf(c) := c], k)| == |Naming(commands, k)| + if k == SubjectOf(c) then 1 else 0
  {
    var before, after := Naming(commands, k), Naming(commands[KeyOf(c) := c], k);
    assert KeyOf(c) !in before;
    if k == SubjectOf(c) {
      assert after == before + {KeyOf(c)};
    } else {
      assert after == before;
    }
  }

  lemma BumpedKept(s: State, c: ClientCommand, t: State)
    requires ClientBumped(s, c, t) && Outcome(s, c, t)
    ensures ClientsKept(s, t)
  {
    forall k | k in s.clients
      ensures t.clients[k].version - s.clients[k].version == |Naming(t.clientCommands, k)| - |Naming(s.clientCommands, k)|
    {
      OneMoreNaming(s.clientCommands, c, k);
    }
  }

  lemma ClientCommandKeeps(s: State, c: ClientCommand)
    requires ClientsConsistent(s)
    ensures ClientsSound(s, Exec(s, StatementOf(c)))
  {
    if Exec(s, StatementOf(c)).Some? {
      var t := Exec(s, StatementOf(c)).value;
      ClientAdmittedExactly(s, c);
      BumpedConsistent(s, c, t);
      BumpedRecords(s, c, t);
      BumpedKept(s, c, t);
    }
  }

  /** No other statement touches the clients' tables. */
  lemma OthersLeaveClients(s: State, st: Statement)
    requires !st.InsertLifecycle? && !st.InsertMerge? && Exec(s, st).Some?
    ensures var t := Exec(s, st).value;
      t.clients == s.clients && t.clientCommands == s.clientCommands && t.merged == s.merged
  {
    if st.InsertCommand? {
      AdmittedExactly(s, st.command);
    }
  }

  lemma SameClientsKept(s: State, t: State)
    requires t.clients == s.clients && t.clientCommands == s.clientCommands && t.merged == s.merged
    ensures ClientsKept(s, t)
  {
  }

  lemma SameClientsConsistent(s: State, t: State)
    requires ClientsConsistent(s)
    requires t.clients == s.clients && t.clientCommands == s.clientCommands && t.merged == s.merged
    ensures ClientsConsistent(t)
  {
  }

  lemma SameClients(s: State, t: State)
    requires ClientsConsistent(s) && t.clients == s.clients && t.clientCommands == s.clientCommands && t.merged == s.merged
    ensures ClientsSound(s, Some(t))
  {
    SameClientsKept(s, t);
    SameClientsConsistent(s, t);
  }

  lemma ClientsExecKeeps(s: State, st: Statement)
    requires ClientsConsistent(s)
    ensures ClientsSound(s, Exec(s, st))
  {
    match st
    case InsertLifecycle(l) => ClientCommandKeeps(s, OfLifecycle(l));
    case InsertMerge(m) => ClientCommandKeeps(s, OfMerge(m));
    case _ =>
      if Exec(s, st).Some? {
        OthersLeaveClients(s, st);
        SameClients(s, Exec(s, st).value);
      }
  }

  lemma ClientsKeptTransitive(s: State, t: State, u: State)
    requires ClientsKept(s, t) && ClientsKept(t, u)
    ensures ClientsKept(s, u)
  {
  }

  lemma {:induction false} ClientsExecAllKeeps(s: State, batch: seq<Statement>)
    requires ClientsConsistent(s)
    ensures ClientsSound(s, ExecAll(s, batch))
  {
    if batch == [] {
      SameClients(s, s);
    } else {
      var front := batch[..|batch| - 1];
      ClientsExecAllKeeps(s, front);
      if ExecAll(s, batch).Some? {
        ClientsExecKeeps(ExecAll(s, front).value, batch[|batch| - 1]);
        ClientsKeptTransitive(s, ExecAll(s, front).value, ExecAll(s, batch).value);
      }
    }
  }

  lemma ClientsCommitKeeps(s: State, batch: seq<Statement>)
    requires ClientsConsistent(s)
    ensures ClientsSound(s, Some(Commit(s, batch)))
  {
    match ExecAll(s, batch)
    case Some(t) => ClientsExecAllKeeps(s, batch);
    case None => SameClients(s, s);
  }

  /** Over every run of transactions: each client's version is its initial one plus the
      accepted commands on it, no two of which name the same version; and a client once
      archived or merged away stays exactly as it is. */
  lemma {:induction false} ClientsRunKeeps(s: State, batches: seq<seq<Statement>>)
    requires ClientsConsistent(s)
    ensures ClientsConsistent(Run(s, batches)) && ClientsKept(s, Run(s, batches))
  {
    if batches == [] {
      SameClients(s, s);
    } else {
      var t, last := Run(s, batches[..|batches| - 1]), batches[|batches| - 1];
      ClientsRunKeeps(s, batches[..|batches| - 1]);
      ClientsCommitKeeps(t, last);
      ClientsKeptTransitive(s, t, Commit(t, last));
    }
  }
}
