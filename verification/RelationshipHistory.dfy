/** Which client a browser profile belongs to, kept as an append-only history behind
    optimistic versions.  Tables are maps; the triggers and constraints that guard them
    decide whether a statement is admitted. */
module RelationshipHistory {
  import opened J = Json

  /** Every table is keyed by tenant and a name within it. */
  datatype Key = Key(tenant: string, name: string)

  datatype ClientStatus = Active | Archived | Merged
  datatype Client = Client(status: ClientStatus, version: int, updatedBy: string, updatedAt: int, displayName: string)
  datatype Profile = Profile(deleted: bool, version: int, createdAt: int)

  /** One row of history; it is open until `closedAt` is set. */
  datatype Row = Row(
    profile: string, client: string, actor: string, assignedAt: int, closedAt: Option<int>, reason: string)

  datatype Operation = Assign | Detach

  datatype Command = Command(
    tenant: string, id: string, actor: string, assignment: string, profile: string, client: string,
    expectedVersion: int, reason: string, executedAt: int, operation: Operation)

  /** `contactsRefuse`: the guards on the client's contact points abort the statement. */
  datatype Lifecycle = Lifecycle(
    tenant: string, id: string, actor: string, client: string, expectedVersion: int,
    rename: Option<string>, executedAt: int, contactsRefuse: bool)

  datatype Merge = Merge(
    tenant: string, id: string, actor: string, source: string, target: string,
    expectedSource: int, expectedTarget: int, reason: string, executedAt: int, contactsRefuse: bool)

  /** The two command tables of clients, as one. */
  datatype ClientCommandKey = LifecycleKey(key: Key) | MergeKey(key: Key)
  datatype ClientCommand = OfLifecycle(lifecycle: Lifecycle) | OfMerge(merge: Merge)

  /** One row of `client_merges`, under its source. */
  datatype MergeRecord = MergeRecord(
    target: string, sourceBefore: int, sourceAfter: int, targetObserved: int, actor: string, mergedAt: int, reason: string)

  /** Tables of which only the primary key matters here. */
  datatype Table = Idempotency | Audit | Outbox
  datatype Record = Record(table: Table, key: seq<string>)

  datatype State = State(
    owners: set<Key>, members: set<Key>, profiles: map<Key, Profile>, clients: map<Key, Client>,
    rows: map<Key, Row>, commands: map<Key, Command>,
    clientCommands: map<ClientCommandKey, ClientCommand>, merged: map<Key, MergeRecord>, records: set<Record>)

  /** `admissible`: every column check and payload guard of the record's table holds. */
  datatype Statement =
    | InsertCommand(command: Command)
    | InsertLifecycle(lifecycle: Lifecycle)
    | InsertMerge(merge: Merge)
    | InsertRow(key: Key, row: Row)
    | UpdateRow(key: Key, row: Row)
    | DeleteRow(key: Key)
    | InsertRecord(record: Record, admissible: bool)
    | Malformed

  // ----- columns -----

  function DropSpaces(s: string): string {
    if s != "" && s[0] == ' ' then DropSpaces(s[1..]) else s
  }

  function DropLastSpaces(s: string): string {
    if s != "" && s[|s| - 1] == ' ' then DropLastSpaces(s[..|s| - 1]) else s
  }

  /** `trim(text)`. */
  function Trim(s: string): string {
    DropLastSpaces(DropSpaces(s))
  }

  predicate ReasonOk(reason: string) {
    1 <= |Trim(reason)| <= 500
  }

  predicate NameOk(name: string) {
    1 <= |Trim(name)| <= 200
  }

  predicate IdentifierOk(id: string) {
    8 <= |id| <= 96 && forall i :: 0 <= i < |id| ==>
      'A' <= id[i] <= 'Z' || 'a' <= id[i] <= 'z' || '0' <= id[i] <= '9' || id[i] == '_' || id[i] == '-'
  }

  // ----- history rows -----

  predicate OpenRow(s: State, k: Key) {
    k in s.rows && s.rows[k].closedAt.None?
  }

  predicate OpenOf(s: State, tenant: string, profile: string, k: Key) {
    OpenRow(s, k) && k.tenant == tenant && s.rows[k].profile == profile
  }

  predicate ActiveClient(s: State, tenant: string, client: string) {
    Key(tenant, client) in s.clients && s.clients[Key(tenant, client)].status.Active?
  }

  /** The command may close row `k` at `at`: its expected version is still current. */
  predicate Governs(s: State, c: Command, k: Key, at: int)
    requires k in s.rows
  {
    && c.tenant == k.tenant && c.profile == s.rows[k].profile && c.executedAt == at
    && Key(c.tenant, c.profile) in s.profiles
    && s.profiles[Key(c.tenant, c.profile)].version == c.expectedVersion
    && (c.operation.Assign? || (c.assignment == k.name && c.client == s.rows[k].client))
  }

  predicate CloseGoverned(s: State, k: Key, at: int)
    requires k in s.rows
  {
    exists ck :: ck in s.commands && Governs(s, s.commands[ck], k, at)
  }

  /** The update guard of the history table. */
  predicate UpdateAdmitted(s: State, k: Key, row: Row)
    requires k in s.rows
  {
    var was := s.rows[k];
    && row == was.(closedAt := row.closedAt)
    && (was.closedAt.Some? ==> row.closedAt == was.closedAt)
    && (row.closedAt.Some? ==> row.closedAt.value >= was.assignedAt)
    && (was.closedAt.None? && row.closedAt.Some? ==> CloseGoverned(s, k, row.closedAt.value))
  }

  /** The ASSIGN command that authorizes inserting a row. */
  predicate Authorizes(c: Command, k: Key, row: Row) {
    && c.operation.Assign? && c.tenant == k.tenant && c.assignment == k.name
    && c.profile == row.profile && c.client == row.client && c.actor == row.actor
    && c.executedAt == row.assignedAt && Trim(c.reason) == Trim(row.reason)
  }

  predicate InsertGoverned(s: State, k: Key, row: Row) {
    exists ck :: ck in s.commands && Authorizes(s.commands[ck], k, row)
  }

  /** Guards, checks and references of the history table for a new row. */
  predicate InsertChecked(s: State, k: Key, row: Row) {
    && ActiveClient(s, k.tenant, row.client)
    && InsertGoverned(s, k, row)
    && IdentifierOk(k.name) && ReasonOk(row.reason) && row.assignedAt >= 0
    && (row.closedAt.Some? ==> row.closedAt.value >= row.assignedAt)
    && Key(k.tenant, row.profile) in s.profiles && Key(k.tenant, row.actor) in s.members
  }

  /** Those, the primary key and the one-open-row index. */
  predicate InsertAdmitted(s: State, k: Key, row: Row) {
    && InsertChecked(s, k, row)
    && k !in s.rows
    && (row.closedAt.None? ==> !exists other :: other in s.rows && OpenOf(s, k.tenant, row.profile, other))
  }

  function WithRow(s: State, k: Key, row: Row): State {
    s.(rows := s.rows[k := row])
  }

  function Closed(s: State, k: Key, at: int): Row
    requires k in s.rows
  {
    s.rows[k].(closedAt := Some(at))
  }

  // ----- assignment commands -----

  function CommandKey(c: Command): Key { Key(c.tenant, c.id) }
  function ProfileKey(c: Command): Key { Key(c.tenant, c.profile) }
  function AssignmentKey(c: Command): Key { Key(c.tenant, c.assignment) }

  function NewRow(c: Command): Row {
    Row(c.profile, c.client, c.actor, c.executedAt, None, c.reason)
  }

  datatype Reason =
    | OwnerRequired | ProfileMissing | VersionMismatch | ClientNotActive
    | ActiveAssignmentMissing | SameClient | TimeRegression

  /** What the validators of a new command find; the first of several is reported here. */
  function Refusal(s: State, c: Command): Option<Reason> {
    if Key(c.tenant, c.actor) !in s.owners then Some(OwnerRequired)
    else if ProfileKey(c) !in s.profiles || s.profiles[ProfileKey(c)].deleted then Some(ProfileMissing)
    else if s.profiles[ProfileKey(c)].version != c.expectedVersion then Some(VersionMismatch)
    else if c.operation.Assign? && !ActiveClient(s, c.tenant, c.client) then Some(ClientNotActive)
    else if c.operation.Detach? && !(OpenOf(s, c.tenant, c.profile, AssignmentKey(c)) && s.rows[AssignmentKey(c)].client == c.client) then
      Some(ActiveAssignmentMissing)
    else if c.operation.Assign? && exists k :: k in s.rows && OpenOf(s, c.tenant, c.profile, k) && s.rows[k].client == c.client then
      Some(SameClient)
    else if exists k :: k in s.rows && OpenOf(s, c.tenant, c.profile, k) && s.rows[k].assignedAt > c.executedAt then
      Some(TimeRegression)
    else None
  }

  /** Key, checks and references of the command table. */
  predicate CommandRowOk(s: State, c: Command) {
    && CommandKey(c) !in s.commands
    && c.expectedVersion >= 1 && c.executedAt >= 0 && ReasonOk(c.reason)
    && Key(c.tenant, c.actor) in s.members && ProfileKey(c) in s.profiles && Key(c.tenant, c.client) in s.clients
  }

  /** Close every open row of the profile. */
  function CloseOpen(s: State, c: Command): Option<State> {
    if forall k :: k in s.rows && OpenOf(s, c.tenant, c.profile, k) ==> UpdateAdmitted(s, k, Closed(s, k, c.executedAt)) then
      Some(s.(rows := map k | k in s.rows ::
        if OpenOf(s, c.tenant, c.profile, k) then Closed(s, k, c.executedAt) else s.rows[k]))
    else None
  }

  function Bump(s: State, c: Command): Option<State>
    requires ProfileKey(c) in s.profiles
  {
    var p := s.profiles[ProfileKey(c)];
    if c.executedAt < p.createdAt then None
    else Some(s.(profiles := s.profiles[ProfileKey(c) := p.(version := p.version + 1)]))
  }

  /** The apply trigger's work on the history, each row operation under its guards. */
  function ApplyRows(s: State, c: Command): (r: Option<State>)
    requires c.operation.Detach? ==> AssignmentKey(c) in s.rows
    ensures r.Some? ==> r.value == s.(rows := r.value.rows)
  {
    if c.operation.Assign? then
      match CloseOpen(s, c)
      case None => None
      case Some(closed) =>
        if InsertAdmitted(closed, AssignmentKey(c), NewRow(c)) then Some(WithRow(closed, AssignmentKey(c), NewRow(c))) else None
    else if UpdateAdmitted(s, AssignmentKey(c), Closed(s, AssignmentKey(c), c.executedAt)) then
      Some(WithRow(s, AssignmentKey(c), Closed(s, AssignmentKey(c), c.executedAt)))
    else None
  }

  /** Inserting a command: validators, the row itself, then the apply trigger. */
  function ExecCommand(s: State, c: Command): Option<State> {
    if Refusal(s, c).Some? || !CommandRowOk(s, c) then None
    else
      match ApplyRows(s.(commands := s.commands[CommandKey(c) := c]), c)
      case None => None
      case Some(t) => Bump(t, c)
  }

  // ----- client commands -----

  predicate HasOpenRow(s: State, tenant: string, client: string) {
    exists k :: k in s.rows && OpenRow(s, k) && k.tenant == tenant && s.rows[k].client == client
  }

  predicate CurrentClient(s: State, tenant: string, client: string, version: int, at: int) {
    && ActiveClient(s, tenant, client)
    && s.clients[Key(tenant, client)].version == version
    && s.clients[Key(tenant, client)].updatedAt <= at
  }

  predicate OwnedBy(s: State, tenant: string, actor: string) {
    Key(tenant, actor) in s.owners && Key(tenant, actor) in s.members
  }

  function ClientKey(c: Lifecycle): Key { Key(c.tenant, c.client) }
  function LifecycleCommandKey(c: Lifecycle): ClientCommandKey { LifecycleKey(Key(c.tenant, c.id)) }

  /** The validators of a lifecycle command, and the checks of its own row. */
  predicate LifecycleAdmitted(s: State, c: Lifecycle) {
    && OwnedBy(s, c.tenant, c.actor)
    && CurrentClient(s, c.tenant, c.client, c.expectedVersion, c.executedAt)
    && (c.rename.None? ==> !HasOpenRow(s, c.tenant, c.client))
    && LifecycleCommandKey(c) !in s.clientCommands
    && c.expectedVersion >= 1 && c.executedAt >= 0
    && (c.rename.Some? ==> NameOk(c.rename.value))
  }

  /** The client after its apply trigger. */
  function Managed(was: Client, c: Lifecycle): Client {
    var next := was.(version := was.version + 1, updatedBy := c.actor, updatedAt := c.executedAt);
    if c.rename.Some? then next.(displayName := c.rename.value) else next.(status := Archived)
  }

  function ExecLifecycle(s: State, c: Lifecycle): Option<State> {
    if !LifecycleAdmitted(s, c) || (c.rename.None? && c.contactsRefuse) then None
    else Some(s.(clientCommands := s.clientCommands[LifecycleCommandKey(c) := OfLifecycle(c)],
                 clients := s.clients[ClientKey(c) := Managed(s.clients[ClientKey(c)], c)]))
  }

  function SourceKey(c: Merge): Key { Key(c.tenant, c.source) }
  function TargetKey(c: Merge): Key { Key(c.tenant, c.target) }
  function MergeCommandKey(c: Merge): ClientCommandKey { MergeKey(Key(c.tenant, c.id)) }

  /** The validators of a merge command, and the checks of its own row. */
  predicate MergeAdmitted(s: State, c: Merge) {
    && OwnedBy(s, c.tenant, c.actor)
    && CurrentClient(s, c.tenant, c.source, c.expectedSource, c.executedAt)
    && CurrentClient(s, c.tenant, c.target, c.expectedTarget, c.executedAt)
    && !HasOpenRow(s, c.tenant, c.source)
    && MergeCommandKey(c) !in s.clientCommands
    && c.source != c.target && c.expectedSource >= 1 && c.expectedTarget >= 1 && c.executedAt >= 0 && ReasonOk(c.reason)
  }

  /** The guard on setting a client's status to merged. */
  predicate StatusGoverned(s: State, k: Key, was: Client, now: Client) {
    exists ck :: ck in s.clientCommands && s.clientCommands[ck].OfMerge? && StatusBy(s.clientCommands[ck].merge, k, was, now)
  }

  predicate StatusBy(m: Merge, k: Key, was: Client, now: Client) {
    SourceKey(m) == k && m.expectedSource == was.version && m.actor == now.updatedBy && m.executedAt == now.updatedAt
  }

  /** The guards, checks and key of `client_merges`. */
  predicate RecordAdmitted(s: State, k: Key, record: MergeRecord) {
    && (exists ck :: ck in s.clientCommands && s.clientCommands[ck].OfMerge? && RecordBy(s.clientCommands[ck].merge, k, record))
    && k in s.clients && s.clients[k].status.Merged? && s.clients[k].version == record.sourceAfter
    && ActiveClient(s, k.tenant, record.target) && s.clients[Key(k.tenant, record.target)].version == record.targetObserved
    && k !in s.merged
    && record.sourceBefore >= 1 && record.sourceAfter == record.sourceBefore + 1 && record.targetObserved >= 1
    && record.mergedAt >= 0 && ReasonOk(record.reason) && k.name != record.target
    && Key(k.tenant, record.actor) in s.members
  }

  predicate RecordBy(m: Merge, k: Key, record: MergeRecord) {
    && SourceKey(m) == k && m.target == record.target
    && m.expectedSource == record.sourceBefore && m.expectedTarget == record.targetObserved
    && m.actor == record.actor && m.executedAt == record.mergedAt && Trim(m.reason) == Trim(record.reason)
  }

  function RecordOf(c: Merge): MergeRecord {
    MergeRecord(c.target, c.expectedSource, c.expectedSource + 1, c.expectedTarget, c.actor, c.executedAt, Trim(c.reason))
  }

  function MergedAway(was: Client, c: Merge): Client {
    was.(status := Merged, version := was.version + 1, updatedBy := c.actor, updatedAt := c.executedAt)
  }

  /** A merge command: validators, its row, then the apply trigger with the guards it meets. */
  function ExecMerge(s: State, c: Merge): Option<State> {
    if !MergeAdmitted(s, c) then None
    else
      var noted := s.(clientCommands := s.clientCommands[MergeCommandKey(c) := OfMerge(c)]);
      var was := s.clients[SourceKey(c)];
      if !StatusGoverned(noted, SourceKey(c), was, MergedAway(was, c)) || c.contactsRefuse then None
      else
        var away := noted.(clients := s.clients[SourceKey(c) := MergedAway(was, c)]);
        if !RecordAdmitted(away, SourceKey(c), RecordOf(c)) then None
        else Some(away.(merged := s.merged[SourceKey(c) := RecordOf(c)]))
  }

  // ----- statements and transactions -----

  function ExecRecord(s: State, record: Record, admissible: bool): Option<State> {
    if admissible && record !in s.records then Some(s.(records := s.records + {record})) else None
  }

  /** One statement: the new state, or None where it is refused and changes nothing. */
  function Exec(s: State, st: Statement): Option<State> {
    match st
    case InsertCommand(c) => ExecCommand(s, c)
    case InsertLifecycle(c) => ExecLifecycle(s, c)
    case InsertMerge(c) => ExecMerge(s, c)
    case InsertRow(k, row) => if InsertAdmitted(s, k, row) then Some(WithRow(s, k, row)) else None
    case UpdateRow(k, row) =>
      if k !in s.rows then Some(s) else if UpdateAdmitted(s, k, row) then Some(WithRow(s, k, row)) else None
    case DeleteRow(k) => if k in s.rows then None else Some(s)
    case InsertRecord(record, admissible) => ExecRecord(s, record, admissible)
    case Malformed => None
  }

  function ExecAll(s: State, batch: seq<Statement>): Option<State> {
    if batch == [] then Some(s)
    else
      match ExecAll(s, batch[..|batch| - 1])
      case None => None
      case Some(t) => Exec(t, batch[|batch| - 1])
  }

  /** One transaction: all of it or nothing. */
  function Commit(s: State, batch: seq<Statement>): State {
    match ExecAll(s, batch)
    case Some(t) => t
    case None => s
  }

  function Run(s: State, batches: seq<seq<Statement>>): State {
    if batches == [] then s else Commit(Run(s, batches[..|batches| - 1]), batches[|batches| - 1])
  }

  // ----- what every reachable state satisfies -----

  predicate OneOpen(s: State) {
    forall a, b :: (a in s.rows && b in s.rows && OpenRow(s, a) && OpenRow(s, b)
      && a.tenant == b.tenant && s.rows[a].profile == s.rows[b].profile) ==> a == b
  }

  predicate OpenActive(s: State) {
    forall k :: k in s.rows && OpenRow(s, k) ==> ActiveClient(s, k.tenant, s.rows[k].client)
  }

  /** Every accepted command's expected version has been used up. */
  predicate Consumed(s: State) {
    forall ck :: ck in s.commands ==>
      && ck == CommandKey(s.commands[ck])
      && ProfileKey(s.commands[ck]) in s.profiles
      && s.commands[ck].expectedVersion < s.profiles[ProfileKey(s.commands[ck])].version
  }

  /** Every accepted ASSIGN left its row. */
  predicate Recorded(s: State) {
    forall ck :: ck in s.commands && s.commands[ck].operation.Assign? ==> AssignmentKey(s.commands[ck]) in s.rows
  }

  /** No two accepted commands of a profile name the same version. */
  predicate OncePerVersion(s: State) {
    forall a, b :: (a in s.commands && b in s.commands && ProfileKey(s.commands[a]) == ProfileKey(s.commands[b])
      && s.commands[a].expectedVersion == s.commands[b].expectedVersion) ==> a == b
  }

  predicate Consistent(s: State) {
    OneOpen(s) && OpenActive(s) && Consumed(s) && Recorded(s) && OncePerVersion(s)
  }

  // ----- what no statement undoes -----

  /** Rows are never removed or rewritten, and a closed one never changes. */
  predicate HistoryKept(s: State, t: State) {
    forall k :: k in s.rows ==>
      && k in t.rows
      && t.rows[k].(closedAt := s.rows[k].closedAt) == s.rows[k]
      && (s.rows[k].closedAt.Some? ==> t.rows[k] == s.rows[k])
  }

  function Naming(commands: map<Key, Command>, p: Key): set<Key> {
    set ck | ck in commands && ProfileKey(commands[ck]) == p
  }

  /** The accepted commands for a profile. */
  function CommandsOf(s: State, p: Key): set<Key> {
    Naming(s.commands, p)
  }

  /** The version has moved by the number of commands accepted in between. */
  predicate Counted(s: State, t: State) {
    && s.profiles.Keys == t.profiles.Keys
    && (forall ck :: ck in s.commands ==> ck in t.commands && t.commands[ck] == s.commands[ck])
    && forall p :: p in s.profiles ==>
      t.profiles[p].version - s.profiles[p].version == |CommandsOf(t, p)| - |CommandsOf(s, p)|
  }

  predicate Kept(s: State, t: State) {
    HistoryKept(s, t) && Counted(s, t)
  }

  /** Where a statement or transaction ends in a state, that state is consistent and
      undoes nothing. */
  predicate Sound(s: State, result: Option<State>) {
    result.Some? ==> Consistent(result.value) && Kept(s, result.value)
  }

  // ----- one command -----

  /** All that an accepted ASSIGN changes. */
  predicate Assigned(s: State, c: Command, t: State) {
    && t.rows.Keys == s.rows.Keys + {AssignmentKey(c)} && AssignmentKey(c) !in s.rows
    && t.rows[AssignmentKey(c)] == NewRow(c)
    && (forall k :: k in s.rows ==> t.rows[k] == if OpenOf(s, c.tenant, c.profile, k) then Closed(s, k, c.executedAt) else s.rows[k])
  }

  /** All that an accepted DETACH changes. */
  predicate Detached(s: State, c: Command, t: State) {
    && AssignmentKey(c) in s.rows
    && t.rows == s.rows[AssignmentKey(c) := Closed(s, AssignmentKey(c), c.executedAt)]
  }

  predicate Bumped(s: State, c: Command, t: State) {
    && ProfileKey(c) in s.profiles
    && t.profiles == s.profiles[ProfileKey(c) := s.profiles[ProfileKey(c)].(version := c.expectedVersion + 1)]
    && CommandKey(c) !in s.commands && t.commands == s.commands[CommandKey(c) := c]
    && t == s.(rows := t.rows, profiles := t.profiles, commands := t.commands)
  }

  /** Precisely when a command is admitted, in terms of the tables before it. */
  predicate Admissible(s: State, c: Command) {
    && Refusal(s, c).None?
    && CommandRowOk(s, c)
    && c.executedAt >= s.profiles[ProfileKey(c)].createdAt
    && (c.operation.Assign? ==> AssignmentKey(c) !in s.rows && IdentifierOk(c.assignment))
  }

  function Noted(s: State, c: Command): State {
    s.(commands := s.commands[CommandKey(c) := c])
  }

  /** The command that has just been noted may close the rows it names. */
  lemma ClosesOwn(s: State, c: Command, k: Key)
    requires Refusal(s, c).None? && OpenOf(s, c.tenant, c.profile, k)
    requires c.operation.Detach? ==> k == AssignmentKey(c)
    ensures UpdateAdmitted(Noted(s, c), k, Closed(s, k, c.executedAt))
  {
    assert Governs(Noted(s, c), Noted(s, c).commands[CommandKey(c)], k, c.executedAt);
  }

  lemma CloseOpenAdmitted(s: State, c: Command)
    requires Refusal(s, c).None? && c.operation.Assign?
    ensures CloseOpen(Noted(s, c), c).Some?
  {
    forall k | k in s.rows && OpenOf(Noted(s, c), c.tenant, c.profile, k)
      ensures UpdateAdmitted(Noted(s, c), k, Closed(Noted(s, c), k, c.executedAt))
    {
      assert OpenOf(s, c.tenant, c.profile, k);
      ClosesOwn(s, c, k);
    }
  }

  lemma NewRowAdmitted(s: State, c: Command)
    requires Refusal(s, c).None? && CommandRowOk(s, c) && c.operation.Assign?
    ensures CloseOpen(Noted(s, c), c).Some?
    ensures InsertAdmitted(CloseOpen(Noted(s, c), c).value, AssignmentKey(c), NewRow(c)) <==>
      AssignmentKey(c) !in s.rows && IdentifierOk(c.assignment)
  {
    CloseOpenAdmitted(s, c);
    var closed := CloseOpen(Noted(s, c), c).value;
    assert Authorizes(closed.commands[CommandKey(c)], AssignmentKey(c), NewRow(c));
    forall other | other in closed.rows ensures !OpenOf(closed, c.tenant, c.profile, other) {
    }
  }

  /** The guards inside the apply trigger never refuse what the validators admitted. */
  lemma AdmittedExactly(s: State, c: Command)
    ensures ExecCommand(s, c).Some? <==> Admissible(s, c)
    ensures ExecCommand(s, c).Some? ==> Bumped(s, c, ExecCommand(s, c).value)
    ensures ExecCommand(s, c).Some? ==>
      if c.operation.Assign? then Assigned(s, c, ExecCommand(s, c).value) else Detached(s, c, ExecCommand(s, c).value)
  {
    if Refusal(s, c).None? && CommandRowOk(s, c) {
      if c.operation.Assign? {
        NewRowAdmitted(s, c);
      } else {
        ClosesOwn(s, c, AssignmentKey(c));
      }
    }
  }

  lemma OpenAfterAssign(s: State, c: Command, t: State)
    requires Assigned(s, c, t) && Bumped(s, c, t)
    ensures forall k :: k in t.rows && OpenRow(t, k) ==>
      k == AssignmentKey(c) || (k in s.rows && OpenRow(s, k) && t.rows[k] == s.rows[k] && !OpenOf(s, c.tenant, c.profile, k))
  {
  }

  lemma RowsAfter(s: State, c: Command, t: State)
    requires OneOpen(s) && OpenActive(s) && Bumped(s, c, t)
    requires if c.operation.Assign? then Assigned(s, c, t) && ActiveClient(s, c.tenant, c.client) else Detached(s, c, t)
    ensures OneOpen(t) && OpenActive(t)
  {
    if c.operation.Assign? {
      OpenAfterAssign(s, c, t);
    } else {
      forall k | k in t.rows && OpenRow(t, k) ensures k in s.rows && OpenRow(s, k) && t.rows[k] == s.rows[k] {
      }
    }
  }

  lemma ConsumedAfter(s: State, c: Command, t: State)
    requires Consumed(s) && Bumped(s, c, t) && s.profiles[ProfileKey(c)].version == c.expectedVersion
    ensures Consumed(t)
  {
  }

  lemma OncePerVersionAfter(s: State, c: Command, t: State)
    requires Consumed(s) && OncePerVersion(s) && Bumped(s, c, t) && s.profiles[ProfileKey(c)].version == c.expectedVersion
    ensures OncePerVersion(t)
  {
  }

  lemma RecordedAfter(s: State, c: Command, t: State)
    requires Recorded(s) && Bumped(s, c, t) && (if c.operation.Assign? then Assigned(s, c, t) else Detached(s, c, t))
    ensures Recorded(t)
  {
  }

  lemma VersionNamed(s: State, c: Command)
    requires Refusal(s, c).None?
    ensures ProfileKey(c) in s.profiles && s.profiles[ProfileKey(c)].version == c.expectedVersion
  {
  }

  lemma OneMore(commands: map<Key, Command>, c: Command, p: Key)
    requires CommandKey(c) !in commands
    ensures |Naming(commands[CommandKey(c) := c], p)| == |Naming(commands, p)| + if p == ProfileKey(c) then 1 else 0
  {
    var before, after := Naming(commands, p), Naming(commands[CommandKey(c) := c], p);
    assert CommandKey(c) !in before;
    if p == ProfileKey(c) {
      assert after == before + {CommandKey(c)};
    } else {
      assert after == before;
    }
  }

  lemma CommandCounted(s: State, c: Command, t: State)
    requires Bumped(s, c, t) && s.profiles[ProfileKey(c)].version == c.expectedVersion
    ensures Counted(s, t)
  {
    forall p | p in s.profiles
      ensures t.profiles[p].version - s.profiles[p].version == |CommandsOf(t, p)| - |CommandsOf(s, p)|
    {
      OneMore(s.commands, c, p);
    }
  }

  lemma CommandKeepsHistory(s: State, c: Command)
    requires ExecCommand(s, c).Some?
    ensures HistoryKept(s, ExecCommand(s, c).value)
  {
    AdmittedExactly(s, c);
  }

  /** History is written by commands alone: a direct insert, change or removal of a row
      is refused, or changes nothing. */
  lemma DirectWritesRefused(s: State, k: Key, row: Row)
    requires Consistent(s)
    ensures Exec(s, InsertRow(k, row)).None?
    ensures Exec(s, UpdateRow(k, row)).None? || Exec(s, UpdateRow(k, row)) == Some(s)
    ensures Exec(s, DeleteRow(k)).None? || Exec(s, DeleteRow(k)) == Some(s)
  {
    assert !InsertAdmitted(s, k, row);
    if k in s.rows && UpdateAdmitted(s, k, row) {
      assert row == s.rows[k];
      assert s.rows[k := row] == s.rows;
    }
  }

  /** `INSERT OR REPLACE`: rows in the way are dropped, and without recursive triggers the
      guard on deleting them is not asked. */
  function ExecReplace(s: State, k: Key, row: Row): Option<State> {
    if InsertChecked(s, k, row) then
      Some(s.(rows := (map other | other in s.rows
                                   && !(row.closedAt.None? && OpenOf(s, k.tenant, row.profile, other)) :: s.rows[other])[k := row]))
    else None
  }

  /** Why `DirectWritesRefused` stops at plain statements: a consumed ASSIGN still lets
      `INSERT OR REPLACE` reopen the row that a later DETACH closed. */
  lemma ReplaceReopens(s: State, assign: Command, detach: Command)
    requires assign.operation.Assign? && detach.operation.Detach? && AssignmentKey(detach) == AssignmentKey(assign)
    requires ExecCommand(s, assign).Some? && ExecCommand(ExecCommand(s, assign).value, detach).Some?
    ensures var t := ExecCommand(ExecCommand(s, assign).value, detach).value;
      && !OpenRow(t, AssignmentKey(assign))
      && ExecReplace(t, AssignmentKey(assign), NewRow(assign)).Some?
      && OpenRow(ExecReplace(t, AssignmentKey(assign), NewRow(assign)).value, AssignmentKey(assign))
      && !HistoryKept(t, ExecReplace(t, AssignmentKey(assign), NewRow(assign)).value)
  {
    AdmittedExactly(s, assign);
    var mid := ExecCommand(s, assign).value;
    AdmittedExactly(mid, detach);
    var t := ExecCommand(mid, detach).value;
    assert t.commands[CommandKey(assign)] == assign;
    assert Authorizes(t.commands[CommandKey(assign)], AssignmentKey(assign), NewRow(assign));
    assert InsertChecked(t, AssignmentKey(assign), NewRow(assign));
  }

  /** A client of an open row can be neither archived nor merged away. */
  lemma OpenClientStays(s: State, k: Key, l: Lifecycle, m: Merge)
    requires k in s.rows && OpenRow(s, k)
    ensures l.tenant == k.tenant && l.client == s.rows[k].client && l.rename.None? ==> Exec(s, InsertLifecycle(l)).None?
    ensures m.tenant == k.tenant && m.source == s.rows[k].client ==> Exec(s, InsertMerge(m)).None?
  {
    assert HasOpenRow(s, k.tenant, s.rows[k].client);
  }

  lemma LifecycleKeeps(s: State, c: Lifecycle)
    requires Consistent(s) && ExecLifecycle(s, c).Some?
    ensures Consistent(ExecLifecycle(s, c).value)
    ensures ExecLifecycle(s, c).value.rows == s.rows && ExecLifecycle(s, c).value.commands == s.commands
    ensures ExecLifecycle(s, c).value.profiles == s.profiles
  {
    var t := ExecLifecycle(s, c).value;
    forall k | k in t.rows && OpenRow(t, k) ensures ActiveClient(t, k.tenant, t.rows[k].client) {
      assert OpenRow(s, k);
      assert ActiveClient(s, k.tenant, s.rows[k].client);
    }
  }

  lemma MergeKeeps(s: State, c: Merge)
    requires Consistent(s) && ExecMerge(s, c).Some?
    ensures Consistent(ExecMerge(s, c).value)
    ensures ExecMerge(s, c).value.rows == s.rows && ExecMerge(s, c).value.commands == s.commands
    ensures ExecMerge(s, c).value.profiles == s.profiles
  {
    var t := ExecMerge(s, c).value;
    forall k | k in t.rows && OpenRow(t, k) ensures ActiveClient(t, k.tenant, t.rows[k].client) {
      assert OpenRow(s, k);
      assert ActiveClient(s, k.tenant, s.rows[k].client);
    }
  }

  lemma SameTables(s: State, t: State)
    requires t.rows == s.rows && t.commands == s.commands && t.profiles == s.profiles
    ensures HistoryKept(s, t) && Counted(s, t)
  {
    assert forall p :: CommandsOf(t, p) == CommandsOf(s, p);
  }

  lemma CommandKeeps(s: State, c: Command)
    requires Consistent(s)
    ensures Sound(s, ExecCommand(s, c))
  {
    if ExecCommand(s, c).Some? {
      var t := ExecCommand(s, c).value;
      AdmittedExactly(s, c);
      VersionNamed(s, c);
      RowsAfter(s, c, t);
      ConsumedAfter(s, c, t);
      OncePerVersionAfter(s, c, t);
      RecordedAfter(s, c, t);
      CommandCounted(s, c, t);
      CommandKeepsHistory(s, c);
    }
  }

  lemma LifecycleSound(s: State, c: Lifecycle)
    requires Consistent(s)
    ensures Sound(s, ExecLifecycle(s, c))
  {
    if ExecLifecycle(s, c).Some? {
      LifecycleKeeps(s, c);
      SameTables(s, ExecLifecycle(s, c).value);
    }
  }

  lemma MergeSound(s: State, c: Merge)
    requires Consistent(s)
    ensures Sound(s, ExecMerge(s, c))
  {
    if ExecMerge(s, c).Some? {
      MergeKeeps(s, c);
      SameTables(s, ExecMerge(s, c).value);
    }
  }

  lemma InsertRowSound(s: State, k: Key, row: Row)
    requires Consistent(s)
    ensures Sound(s, Exec(s, InsertRow(k, row)))
  {
    DirectWritesRefused(s, k, row);
  }

  lemma UpdateRowSound(s: State, k: Key, row: Row)
    requires Consistent(s)
    ensures Sound(s, Exec(s, UpdateRow(k, row)))
  {
    DirectWritesRefused(s, k, row);
    SameTables(s, s);
  }

  lemma DeleteRowSound(s: State, k: Key)
    requires Consistent(s)
    ensures Sound(s, Exec(s, DeleteRow(k)))
  {
    SameTables(s, s);
  }

  lemma RecordSound(s: State, record: Record, admissible: bool)
    requires Consistent(s)
    ensures Sound(s, ExecRecord(s, record, admissible))
  {
    if ExecRecord(s, record, admissible).Some? {
      OnlyRecords(s, ExecRecord(s, record, admissible).value);
    }
  }

  lemma OnlyRecords(s: State, t: State)
    requires Consistent(s) && t == s.(records := t.records)
    ensures Sound(s, Some(t))
  {
    SameTables(s, t);
    RecordConsistent(s, t);
  }

  lemma RecordConsistent(s: State, t: State)
    requires Consistent(s) && t == s.(records := t.records)
    ensures Consistent(t)
  {
    assert forall k :: OpenRow(t, k) ==> OpenRow(s, k);
  }

  lemma ExecKeeps(s: State, st: Statement)
    requires Consistent(s)
    ensures Sound(s, Exec(s, st))
  {
    match st
    case InsertCommand(c) => CommandKeeps(s, c);
    case InsertLifecycle(c) => LifecycleSound(s, c);
    case InsertMerge(c) => MergeSound(s, c);
    case InsertRow(k, row) => InsertRowSound(s, k, row);
    case UpdateRow(k, row) => UpdateRowSound(s, k, row);
    case DeleteRow(k) => DeleteRowSound(s, k);
    case InsertRecord(record, admissible) => RecordSound(s, record, admissible);
    case Malformed =>
  }

  lemma KeptTransitive(s: State, t: State, u: State)
    requires Kept(s, t) && Kept(t, u)
    ensures Kept(s, u)
  {
    forall k | k in s.rows
      ensures k in u.rows && u.rows[k].(closedAt := s.rows[k].closedAt) == s.rows[k]
      ensures s.rows[k].closedAt.Some? ==> u.rows[k] == s.rows[k]
    {
      assert k in t.rows;
    }
  }

  lemma {:induction false} ExecAllKeeps(s: State, batch: seq<Statement>)
    requires Consistent(s)
    ensures Sound(s, ExecAll(s, batch))
  {
    if batch == [] {
      SameTables(s, s);
    } else {
      var front := batch[..|batch| - 1];
      ExecAllKeeps(s, front);
      if ExecAll(s, batch).Some? {
        ExecKeeps(ExecAll(s, front).value, batch[|batch| - 1]);
        KeptTransitive(s, ExecAll(s, front).value, ExecAll(s, batch).value);
      }
    }
  }

  lemma CommitKeeps(s: State, batch: seq<Statement>)
    requires Consistent(s)
    ensures Sound(s, Some(Commit(s, batch)))
  {
    match ExecAll(s, batch)
    case Some(t) => ExecAllKeeps(s, batch);
    case None => SameTables(s, s);
  }

  /** Over every run of transactions: at most one open row per profile, its client active;
      versions move with the accepted commands, no two of which name the same version;
      rows are only added and closed, and closed ones never change. */
  lemma {:induction false} RunKeeps(s: State, batches: seq<seq<Statement>>)
    requires Consistent(s)
    ensures Consistent(Run(s, batches)) && Kept(s, Run(s, batches))
  {
    if batches == [] {
      SameTables(s, s);
    } else {
      var t, last := Run(s, batches[..|batches| - 1]), batches[|batches| - 1];
      RunKeeps(s, batches[..|batches| - 1]);
      CommitKeeps(t, last);
      KeptTransitive(s, t, Commit(t, last));
    }
  }

  /** Of the commands that name one version of a profile, at most one is ever accepted. */
  lemma UsedVersionRefused(s: State, ck: Key, c: Command)
    requires Consistent(s) && ck in s.commands
    requires ProfileKey(s.commands[ck]) == ProfileKey(c) && s.commands[ck].expectedVersion == c.expectedVersion
    ensures Exec(s, InsertCommand(c)).None?
  {
    AdmittedExactly(s, c);
  }

  /** After an ASSIGN its own row is the profile's one open row; after a DETACH none is. */
  lemma OpenRowsAfter(s: State, c: Command, k: Key)
    requires Consistent(s) && ExecCommand(s, c).Some?
    ensures OpenOf(ExecCommand(s, c).value, c.tenant, c.profile, k) <==> c.operation.Assign? && k == AssignmentKey(c)
  {
    AdmittedExactly(s, c);
    if c.operation.Assign? {
      OpenAfterAssign(s, c, ExecCommand(s, c).value);
    }
  }

  // ----- the tables, updated in place -----

  lemma SameAdmitted(s: State, t: State, k: Key, row: Row)
    requires k in s.rows && k in t.rows && s.rows[k] == t.rows[k] && s.commands == t.commands && s.profiles == t.profiles
    ensures UpdateAdmitted(s, k, row) <==> UpdateAdmitted(t, k, row)
  {
    if row.closedAt.Some? {
      assert forall ck :: ck in s.commands ==>
        (Governs(s, s.commands[ck], k, row.closedAt.value) <==> Governs(t, t.commands[ck], k, row.closedAt.value));
    }
  }

  /** The history while the open rows of the profile are being closed; `todo` are left. */
  ghost predicate Closing(s: State, c: Command, todo: set<Key>, rows: map<Key, Row>) {
    && todo <= rows.Keys == s.rows.Keys
    && (forall k :: k in todo ==> OpenOf(s, c.tenant, c.profile, k) && rows[k] == s.rows[k])
    && forall k :: k in s.rows && k !in todo ==>
      && (OpenOf(s, c.tenant, c.profile, k) ==>
            rows[k] == Closed(s, k, c.executedAt) && UpdateAdmitted(s, k, Closed(s, k, c.executedAt)))
      && (!OpenOf(s, c.tenant, c.profile, k) ==> rows[k] == s.rows[k])
  }

  lemma ClosingStep(s: State, c: Command, todo: set<Key>, rows: map<Key, Row>, k: Key)
    requires Closing(s, c, todo, rows) && k in todo && UpdateAdmitted(s, k, Closed(s, k, c.executedAt))
    ensures Closing(s, c, todo - {k}, rows[k := Closed(s, k, c.executedAt)])
  {
  }

  lemma ClosingEnds(s: State, c: Command, rows: map<Key, Row>)
    requires Closing(s, c, {}, rows)
    ensures CloseOpen(s, c) == Some(s.(rows := rows))
  {
    assert CloseOpen(s, c).Some?;
    assert CloseOpen(s, c).value.rows == rows;
  }

  class Database {
    var owners: set<Key>
    var members: set<Key>
    var profiles: map<Key, Profile>
    var clients: map<Key, Client>
    var rows: map<Key, Row>
    var commands: map<Key, Command>
    var clientCommands: map<ClientCommandKey, ClientCommand>
    var merged: map<Key, MergeRecord>
    var records: set<Record>

    constructor (s: State)
      ensures Contents() == s
    {
      owners, members, profiles, clients := s.owners, s.members, s.profiles, s.clients;
      rows, commands, records := s.rows, s.commands, s.records;
      clientCommands, merged := s.clientCommands, s.merged;
    }

    function Contents(): State
      reads this
    {
      State(owners, members, profiles, clients, rows, commands, clientCommands, merged, records)
    }

    /** The apply trigger's UPDATE: each open row of the profile in turn, each guarded. */
    method CloseOpenRows(c: Command) returns (ok: bool)
      modifies this`rows
      ensures ok <==> CloseOpen(old(Contents()), c).Some?
      ensures ok ==> Contents() == CloseOpen(old(Contents()), c).value
    {
      ghost var s := Contents();
      var todo := set k | k in rows && OpenOf(Contents(), c.tenant, c.profile, k);
      while todo != {}
        invariant Closing(s, c, todo, rows)
      {
        var k :| k in todo;
        SameAdmitted(s, Contents(), k, Closed(s, k, c.executedAt));
        if !UpdateAdmitted(Contents(), k, Closed(Contents(), k, c.executedAt)) { return false; }
        ClosingStep(s, c, todo, rows, k);
        rows := rows[k := Closed(Contents(), k, c.executedAt)];
        todo := todo - {k};
      }
      ClosingEnds(s, c, rows);
      ok := true;
    }

    /** The apply trigger's work on the history. */
    method ApplyToRows(c: Command) returns (ok: bool)
      requires c.operation.Detach? ==> AssignmentKey(c) in rows
      modifies this`rows
      ensures ok <==> ApplyRows(old(Contents()), c).Some?
      ensures ok ==> Contents() == ApplyRows(old(Contents()), c).value
    {
      var at := AssignmentKey(c);
      if c.operation.Assign? {
        ok := CloseOpenRows(c);
        ok := ok && InsertAdmitted(Contents(), at, NewRow(c));
        if ok {
          rows := rows[at := NewRow(c)];
        }
      } else {
        ok := UpdateAdmitted(Contents(), at, Closed(Contents(), at, c.executedAt));
        if ok {
          rows := rows[at := Closed(Contents(), at, c.executedAt)];
        }
      }
    }

    /** Inserting an assignment command, with what its triggers do; a refusal undoes all of it. */
    method InsertCommandRow(c: Command) returns (ok: bool)
      modifies this`rows, this`commands, this`profiles
      ensures ok <==> ExecCommand(old(Contents()), c).Some?
      ensures Contents() == if ok then ExecCommand(old(Contents()), c).value else old(Contents())
    {
      if Refusal(Contents(), c).Some? || !CommandRowOk(Contents(), c) { return false; }
      var rowsBefore, commandsBefore := rows, commands;
      commands := commands[CommandKey(c) := c];
      ok := ApplyToRows(c);
      var profile := profiles[ProfileKey(c)];
      ok := ok && c.executedAt >= profile.createdAt;
      if ok {
        profiles := profiles[ProfileKey(c) := profile.(version := profile.version + 1)];
      } else {
        rows, commands := rowsBefore, commandsBefore;
      }
    }

    /** Renaming or archiving a client. */
    method InsertLifecycleRow(c: Lifecycle) returns (ok: bool)
      modifies this`clients, this`clientCommands
      ensures ok <==> ExecLifecycle(old(Contents()), c).Some?
      ensures Contents() == if ok then ExecLifecycle(old(Contents()), c).value else old(Contents())
    {
      if !LifecycleAdmitted(Contents(), c) { return false; }
      var commandsBefore, key := clientCommands, ClientKey(c);
      clientCommands := clientCommands[LifecycleCommandKey(c) := OfLifecycle(c)];
      var client := clients[key].(version := clients[key].version + 1, updatedBy := c.actor, updatedAt := c.executedAt);
      if c.rename.Some? {
        clients := clients[key := client.(displayName := c.rename.value)];
      } else if c.contactsRefuse {
        clientCommands := commandsBefore;
        return false;
      } else {
        clients := clients[key := client.(status := Archived)];
      }
      ok := true;
    }

    /** Merging one client into another; a refusal inside the trigger undoes all of it. */
    method InsertMergeRow(c: Merge) returns (ok: bool)
      modifies this`clients, this`clientCommands, this`merged
      ensures ok <==> ExecMerge(old(Contents()), c).Some?
      ensures Contents() == if ok then ExecMerge(old(Contents()), c).value else old(Contents())
    {
      if !MergeAdmitted(Contents(), c) { return false; }
      var clientsBefore, commandsBefore, key := clients, clientCommands, SourceKey(c);
      clientCommands := clientCommands[MergeCommandKey(c) := OfMerge(c)];
      var was := clients[key];
      ok := StatusGoverned(Contents(), key, was, MergedAway(was, c)) && !c.contactsRefuse;
      if ok {
        clients := clients[key := MergedAway(was, c)];
        ok := RecordAdmitted(Contents(), key, RecordOf(c));
      }
      if ok {
        merged := merged[key := RecordOf(c)];
      } else {
        clients, clientCommands := clientsBefore, commandsBefore;
      }
    }

    /** Replace all tables by those of `s`. */
    method Restore(s: State)
      modifies this
      ensures Contents() == s
    {
      owners, members, profiles, clients := s.owners, s.members, s.profiles, s.clients;
      rows, commands, records := s.rows, s.commands, s.records;
      clientCommands, merged := s.clientCommands, s.merged;
    }

    /** One statement. */
    method Execute(st: Statement) returns (ok: bool)
      modifies this
      ensures ok <==> Exec(old(Contents()), st).Some?
      ensures Contents() == if ok then Exec(old(Contents()), st).value else old(Contents())
    {
      ok := false;
      match st
      case InsertCommand(c) => ok := InsertCommandRow(c);
      case InsertLifecycle(c) => ok := InsertLifecycleRow(c);
      case InsertMerge(c) => ok := InsertMergeRow(c);
      case InsertRow(k, row) =>
        if InsertAdmitted(Contents(), k, row) {
          rows, ok := rows[k := row], true;
        }
      case UpdateRow(k, row) =>
        if k !in rows {
          ok := true;
        } else if UpdateAdmitted(Contents(), k, row) {
          rows, ok := rows[k := row], true;
        }
      case DeleteRow(k) => ok := k !in rows;
      case InsertRecord(record, admissible) =>
        if admissible && record !in records {
          records, ok := records + {record}, true;
        }
      case Malformed =>
    }

    /** One transaction: begun, and rolled back as soon as a statement is refused. */
    method Transact(batch: seq<Statement>) returns (ok: bool)
      modifies this
      ensures ok <==> ExecAll(old(Contents()), batch).Some?
      ensures Contents() == Commit(old(Contents()), batch)
      ensures !ok ==> Contents() == old(Contents())
    {
      var before := Contents();
      for i := 0 to |batch|
        invariant ExecAll(before, batch[..i]) == Some(Contents())
      {
        assert batch[..i + 1][..i] == batch[..i];
        ok := Execute(batch[i]);
        if !ok {
          RefusedPrefix(before, batch, i + 1);
          Restore(before);
          return;
        }
      }
      assert batch[..|batch|] == batch;
      ok := true;
    }
  }

  lemma {:induction false} RefusedPrefix(s: State, batch: seq<Statement>, k: nat)
    requires k <= |batch| && ExecAll(s, batch[..k]).None?
    ensures ExecAll(s, batch).None?
    decreases |batch|
  {
    if k < |batch| {
      assert batch[..|batch| - 1][..k] == batch[..k];
      RefusedPrefix(s, batch[..|batch| - 1], k);
    } else {
      assert batch[..k] == batch;
    }
  }
}
