/** Which commands and transactions the tables let through, said of the rows themselves; and
    that one refused statement takes everything else of its transaction with it. */
module GovernedTransactions {
  import opened J = Json
  import opened RelationshipHistory
  import ClientHistory

  // ----- assignment commands -----

  /** An open row of the profile. */
  predicate Holds(s: State, k: Key, tenant: string, profile: string) {
    k in s.rows && k.tenant == tenant && s.rows[k].profile == profile && s.rows[k].closedAt == None
  }

  predicate ByOwner(s: State, tenant: string, actor: string) {
    Key(tenant, actor) in s.owners && Key(tenant, actor) in s.members
  }

  /** The profile is there, not deleted, of this version and not younger than the command. */
  predicate OnProfile(s: State, c: Command) {
    && Key(c.tenant, c.profile) in s.profiles
    && var p := s.profiles[Key(c.tenant, c.profile)];
    !p.deleted && p.version == c.expectedVersion && p.createdAt <= c.executedAt
  }

  predicate WellFormedCommand(c: Command) {
    c.expectedVersion >= 1 && c.executedAt >= 0 && 1 <= |Trim(c.reason)| <= 500
  }

  /** A new row under a new identifier, for an active client the profile does not hold yet. */
  ghost predicate MayAssign(s: State, c: Command) {
    && Key(c.tenant, c.client) in s.clients && s.clients[Key(c.tenant, c.client)].status == Active
    && (forall k :: Holds(s, k, c.tenant, c.profile) ==> s.rows[k].client != c.client)
    && Key(c.tenant, c.assignment) !in s.rows
    && 8 <= |c.assignment| <= 96
    && forall ch :: ch in c.assignment ==>
      'A' <= ch <= 'Z' || 'a' <= ch <= 'z' || '0' <= ch <= '9' || ch in {'_', '-'}
  }

  /** Exactly this open row, of this profile and client. */
  predicate MayDetach(s: State, c: Command) {
    && Key(c.tenant, c.client) in s.clients
    && Holds(s, Key(c.tenant, c.assignment), c.tenant, c.profile)
    && s.rows[Key(c.tenant, c.assignment)].client == c.client
  }

  lemma IdentifierCharacters(id: string)
    ensures IdentifierOk(id) <==>
      8 <= |id| <= 96 && forall ch :: ch in id ==>
        'A' <= ch <= 'Z' || 'a' <= ch <= 'z' || '0' <= ch <= '9' || ch in {'_', '-'}
  {
    assert forall i :: 0 <= i < |id| ==> id[i] in id;
    if IdentifierOk(id) {
      forall ch | ch in id ensures 'A' <= ch <= 'Z' || 'a' <= ch <= 'z' || '0' <= ch <= '9' || ch in {'_', '-'} {
        var i :| 0 <= i < |id| && id[i] == ch;
      }
    }
  }

  /** A command is accepted exactly when its owner, profile, version and row are right, its
      identifier is new and no open row of the profile is younger. */
  lemma CommandAcceptedExactly(s: State, c: Command)
    ensures Exec(s, InsertCommand(c)).Some? <==>
      && ByOwner(s, c.tenant, c.actor) && OnProfile(s, c) && WellFormedCommand(c)
      && Key(c.tenant, c.id) !in s.commands
      && (forall k :: Holds(s, k, c.tenant, c.profile) ==> s.rows[k].assignedAt <= c.executedAt)
      && (if c.operation.Assign? then MayAssign(s, c) else MayDetach(s, c))
  {
    AdmittedExactly(s, c);
    IdentifierCharacters(c.assignment);
    assert forall k :: Holds(s, k, c.tenant, c.profile) <==> k in s.rows && OpenOf(s, c.tenant, c.profile, k);
  }

  /** What each reason for refusal says of the tables. */
  predicate ReasonHolds(s: State, c: Command, reason: Reason) {
    match reason
    case OwnerRequired => Key(c.tenant, c.actor) !in s.owners
    case ProfileMissing => Key(c.tenant, c.profile) !in s.profiles || s.profiles[Key(c.tenant, c.profile)].deleted
    case VersionMismatch => Key(c.tenant, c.profile) in s.profiles && s.profiles[Key(c.tenant, c.profile)].version != c.expectedVersion
    case ClientNotActive =>
      c.operation == Assign && (Key(c.tenant, c.client) !in s.clients || s.clients[Key(c.tenant, c.client)].status != Active)
    case ActiveAssignmentMissing =>
      c.operation == Detach && !(Holds(s, Key(c.tenant, c.assignment), c.tenant, c.profile) && s.rows[Key(c.tenant, c.assignment)].client == c.client)
    case SameClient => c.operation == Assign && exists k :: k in s.rows && Holds(s, k, c.tenant, c.profile) && s.rows[k].client == c.client
    case TimeRegression => exists k :: k in s.rows && Holds(s, k, c.tenant, c.profile) && s.rows[k].assignedAt > c.executedAt
  }

  /** The reason reported holds, and it is the first that does in the order of the validators. */
  lemma ReasonReported(s: State, c: Command, reason: Reason)
    ensures Refusal(s, c) == Some(reason) ==> ReasonHolds(s, c, reason)
    ensures ReasonHolds(s, c, reason) ==> Refusal(s, c).Some? && Place(Refusal(s, c).value) <= Place(reason)
  {
    assert forall k :: k in s.rows ==> (Holds(s, k, c.tenant, c.profile) <==> OpenOf(s, c.tenant, c.profile, k));
  }

  function Place(reason: Reason): nat {
    match reason
    case OwnerRequired => 0
    case ProfileMissing => 1
    case VersionMismatch => 2
    case ClientNotActive => 3
    case ActiveAssignmentMissing => 4
    case SameClient => 5
    case TimeRegression => 6
  }

  // ----- commands on clients -----

  predicate OnClient(s: State, tenant: string, client: string, version: int, at: int) {
    && Key(tenant, client) in s.clients
    && var c := s.clients[Key(tenant, client)];
    c.status == Active && c.version == version && version >= 1 && c.updatedAt <= at && at >= 0
  }

  predicate Unassigned(s: State, tenant: string, client: string) {
    forall k :: k in s.rows && k.tenant == tenant && s.rows[k].client == client ==> s.rows[k].closedAt.Some?
  }

  /** A client is renamed or archived exactly by an owner, at its current version, under a new
      identifier; renamed to a proper name, archived only when no profile holds it. */
  lemma LifecycleAcceptedExactly(s: State, l: Lifecycle)
    ensures Exec(s, InsertLifecycle(l)).Some? <==>
      && ByOwner(s, l.tenant, l.actor) && OnClient(s, l.tenant, l.client, l.expectedVersion, l.executedAt)
      && LifecycleKey(Key(l.tenant, l.id)) !in s.clientCommands
      && match l.rename
         case Some(name) => 1 <= |Trim(name)| <= 200
         case None => Unassigned(s, l.tenant, l.client) && !l.contactsRefuse
  {
  }

  /** A client is merged into another exactly by an owner, both active and at their current
      versions, when no profile holds the source. */
  lemma MergeAcceptedExactly(s: State, m: Merge)
    requires ClientHistory.ClientsConsistent(s)
    ensures Exec(s, InsertMerge(m)).Some? <==>
      && ByOwner(s, m.tenant, m.actor) && m.source != m.target
      && OnClient(s, m.tenant, m.source, m.expectedSource, m.executedAt)
      && OnClient(s, m.tenant, m.target, m.expectedTarget, m.executedAt)
      && Unassigned(s, m.tenant, m.source) && !m.contactsRefuse
      && MergeKey(Key(m.tenant, m.id)) !in s.clientCommands
      && 1 <= |Trim(m.reason)| <= 500
  {
    ClientHistory.MergeAdmittedExactly(s, m);
  }

  // ----- transactions -----

  /** One refused statement refuses its transaction, and nothing of it stays. */
  lemma {:induction false} OneRefusedAllUndone(s: State, batch: seq<Statement>, k: nat)
    requires k < |batch|
    requires ExecAll(s, batch[..k]).Some? ==> Exec(ExecAll(s, batch[..k]).value, batch[k]).None?
    ensures ExecAll(s, batch).None? && Commit(s, batch) == s
  {
    assert batch[..k + 1][..k] == batch[..k];
    RefusedPrefix(s, batch, k + 1);
  }

  /** A transaction with a statement no table takes is undone as a whole. */
  lemma MalformedUndone(s: State, batch: seq<Statement>)
    requires Malformed in batch
    ensures ExecAll(s, batch).None? && Commit(s, batch) == s
  {
    var k :| 0 <= k < |batch| && batch[k] == Malformed;
    OneRefusedAllUndone(s, batch, k);
  }

  /** Nothing removes a record. */
  lemma RecordsStay(s: State, st: Statement)
    requires Exec(s, st).Some?
    ensures s.records <= Exec(s, st).value.records
  {
    if st.InsertCommand? {
      AdmittedExactly(s, st.command);
    }
  }

  predicate RecordTaken(st: Statement, s: State) {
    st.InsertRecord? ==> st.admissible && st.record in s.records
  }

  lemma LastTaken(s: State, st: Statement)
    requires Exec(s, st).Some?
    ensures RecordTaken(st, Exec(s, st).value)
  {
  }

  lemma {:induction false} RecordsStayAll(s: State, batch: seq<Statement>)
    requires ExecAll(s, batch).Some?
    ensures s.records <= ExecAll(s, batch).value.records
    ensures forall st :: st in batch ==> RecordTaken(st, ExecAll(s, batch).value)
  {
    if batch != [] {
      var front, last := batch[..|batch| - 1], batch[|batch| - 1];
      RecordsStayAll(s, front);
      RecordsStay(ExecAll(s, front).value, last);
      LastTaken(ExecAll(s, front).value, last);
      forall st | st in batch ensures RecordTaken(st, ExecAll(s, batch).value) {
        if st != last { assert st in front; }
      }
    }
  }

  /** An idempotency, audit or outbox record that is inadmissible, there before, or inserted
      twice undoes the whole transaction. */
  lemma BadRecordUndone(s: State, batch: seq<Statement>, k: nat)
    requires k < |batch| && batch[k].InsertRecord?
    requires || !batch[k].admissible
             || batch[k].record in s.records
             || exists j :: 0 <= j < k && batch[j].InsertRecord? && batch[j].record == batch[k].record
    ensures ExecAll(s, batch).None? && Commit(s, batch) == s
  {
    if ExecAll(s, batch[..k]).Some? {
      RecordsStayAll(s, batch[..k]);
      if j :| 0 <= j < k && batch[j].InsertRecord? && batch[j].record == batch[k].record {
        assert batch[j] in batch[..k];
      }
    }
    OneRefusedAllUndone(s, batch, k);
  }

  /** An admissible new record is taken, and nothing else changes. */
  lemma NewRecordTaken(s: State, record: Record)
    requires record !in s.records
    ensures Exec(s, InsertRecord(record, true)) == Some(s.(records := s.records + {record}))
  {
  }

  /** The governed envelope: an admitted command and its three records commit together, or
      not at all. */
  lemma EnvelopeTogether(s: State, c: Command, idempotency: Record, audit: Record, outbox: Record)
    requires idempotency != audit && idempotency != outbox && audit != outbox
    requires {idempotency, audit, outbox} !! s.records
    ensures var batch := [InsertCommand(c), InsertRecord(idempotency, true), InsertRecord(audit, true), InsertRecord(outbox, true)];
      Commit(s, batch) ==
        if Exec(s, InsertCommand(c)).Some?
        then Exec(s, InsertCommand(c)).value.(records := s.records + {idempotency, audit, outbox})
        else s
  {
    var batch := [InsertCommand(c), InsertRecord(idempotency, true), InsertRecord(audit, true), InsertRecord(outbox, true)];
    EnvelopeSteps(s, c, idempotency, audit, outbox);
    if Exec(s, InsertCommand(c)).None? {
      assert batch[..0] == [];
      OneRefusedAllUndone(s, batch, 0);
    } else {
      var t := Exec(s, InsertCommand(c)).value;
      AdmittedExactly(s, c);
      assert s.records + {idempotency} + {audit} + {outbox} == s.records + {idempotency, audit, outbox};
    }
  }

  lemma NextStatement(s: State, batch: seq<Statement>, st: Statement)
    ensures ExecAll(s, batch + [st]) ==
      match ExecAll(s, batch)
      case Some(t) => Exec(t, st)
      case None => None
  {
    assert (batch + [st])[..|batch|] == batch;
  }

  lemma EnvelopeSteps(s: State, c: Command, idempotency: Record, audit: Record, outbox: Record)
    ensures var batch := [InsertCommand(c), InsertRecord(idempotency, true), InsertRecord(audit, true), InsertRecord(outbox, true)];
      ExecAll(s, batch) ==
        match Exec(s, InsertCommand(c))
        case None => None
        case Some(t) =>
          match ExecRecord(t, idempotency, true)
          case None => None
          case Some(v) =>
            match ExecRecord(v, audit, true)
            case None => None
            case Some(w) => ExecRecord(w, outbox, true)
  {
    var a := [InsertCommand(c)];
    var b := a + [InsertRecord(idempotency, true)];
    var d := b + [InsertRecord(audit, true)];
    var e := d + [InsertRecord(outbox, true)];
    NextStatement(s, [], InsertCommand(c));
    NextStatement(s, a, InsertRecord(idempotency, true));
    NextStatement(s, b, InsertRecord(audit, true));
    NextStatement(s, d, InsertRecord(outbox, true));
    assert [] + [InsertCommand(c)] == a;
    assert e == [InsertCommand(c), InsertRecord(idempotency, true), InsertRecord(audit, true), InsertRecord(outbox, true)];
  }

  // ----- the guards on the history itself -----

  predicate Blank(s: string) {
    forall ch :: ch in s ==> ch == ' '
  }

  lemma {:induction false} LeadingSpaces(s: string) returns (blank: string)
    ensures s == blank + DropSpaces(s) && Blank(blank)
    ensures DropSpaces(s) == "" || DropSpaces(s)[0] != ' '
  {
    blank := "";
    if s != "" && s[0] == ' ' {
      var rest := LeadingSpaces(s[1..]);
      blank := [' '] + rest;
      assert s == [s[0]] + s[1..];
    }
  }

  lemma {:induction false} TrailingSpaces(s: string) returns (blank: string)
    ensures s == DropLastSpaces(s) + blank && Blank(blank)
    ensures DropLastSpaces(s) == "" || DropLastSpaces(s)[|DropLastSpaces(s)| - 1] != ' '
  {
    blank := "";
    if s != "" && s[|s| - 1] == ' ' {
      var rest := TrailingSpaces(s[..|s| - 1]);
      blank := rest + [' '];
      assert s == s[..|s| - 1] + [s[|s| - 1]];
    }
  }

  /** What is trimmed are exactly the spaces around a text. */
  lemma TrimExactly(s: string) returns (left: string, right: string)
    ensures s == left + Trim(s) + right && Blank(left) && Blank(right)
    ensures Trim(s) == "" || (Trim(s)[0] != ' ' && Trim(s)[|Trim(s)| - 1] != ' ')
  {
    left := LeadingSpaces(s);
    right := TrailingSpaces(DropSpaces(s));
    assert DropSpaces(s) == Trim(s) + right;
    if Trim(s) != "" {
      assert Trim(s)[0] == DropSpaces(s)[0];
    }
  }

  /** A command that may close this row at this time: of its profile and time, its version not
      used up, and, for a DETACH, naming this very row and client. */
  predicate Closes(s: State, c: Command, k: Key, at: int)
    requires k in s.rows
  {
    && c.tenant == k.tenant && c.profile == s.rows[k].profile && c.executedAt == at
    && Key(c.tenant, c.profile) in s.profiles && s.profiles[Key(c.tenant, c.profile)].version == c.expectedVersion
    && (c.operation == Detach ==> c.assignment == k.name && c.client == s.rows[k].client)
  }

  /** In whatever state, a row of history is changed exactly by closing it: nothing but its
      closing time changes, a closed row keeps that too, no row closes before it was opened,
      and closing takes a command whose version is not used up. */
  lemma ChangeAcceptedExactly(s: State, k: Key, row: Row)
    requires k in s.rows
    ensures Exec(s, UpdateRow(k, row)).Some? <==>
      && row.profile == s.rows[k].profile && row.client == s.rows[k].client && row.actor == s.rows[k].actor
      && row.assignedAt == s.rows[k].assignedAt && row.reason == s.rows[k].reason
      && (s.rows[k].closedAt != None ==> row.closedAt == s.rows[k].closedAt)
      && (row.closedAt != None ==> row.closedAt.value >= s.rows[k].assignedAt)
      && (s.rows[k].closedAt == None && row.closedAt != None ==> exists ck :: ck in s.commands && Closes(s, s.commands[ck], k, row.closedAt.value))
    ensures Exec(s, UpdateRow(k, row)).Some? ==> Exec(s, UpdateRow(k, row)).value == s.(rows := s.rows[k := row])
  {
    if row.closedAt.Some? {
      assert forall ck :: ck in s.commands ==> (Closes(s, s.commands[ck], k, row.closedAt.value) <==> Governs(s, s.commands[ck], k, row.closedAt.value));
    }
  }

  /** An ASSIGN that says everything the row says. */
  predicate Opens(c: Command, k: Key, row: Row) {
    && c.operation == Assign && c.tenant == k.tenant && c.assignment == k.name
    && c.profile == row.profile && c.client == row.client && c.actor == row.actor
    && c.executedAt == row.assignedAt && Trim(c.reason) == Trim(row.reason)
  }

  /** In whatever state, a row is added exactly where an ASSIGN says everything it says, its
      client is active, its columns and references are right, its key is new, and no other row
      of the profile is open where it is. */
  lemma AdditionAcceptedExactly(s: State, k: Key, row: Row)
    ensures Exec(s, InsertRow(k, row)).Some? <==>
      && (exists ck :: ck in s.commands && Opens(s.commands[ck], k, row))
      && Key(k.tenant, row.client) in s.clients && s.clients[Key(k.tenant, row.client)].status == Active
      && Key(k.tenant, row.profile) in s.profiles && Key(k.tenant, row.actor) in s.members
      && IdentifierOk(k.name) && 1 <= |Trim(row.reason)| <= 500 && row.assignedAt >= 0
      && (row.closedAt != None ==> row.closedAt.value >= row.assignedAt)
      && k !in s.rows
      && (row.closedAt == None ==> forall other :: !Holds(s, other, k.tenant, row.profile))
    ensures Exec(s, InsertRow(k, row)).Some? ==> Exec(s, InsertRow(k, row)).value == s.(rows := s.rows[k := row])
  {
    assert forall ck :: ck in s.commands ==> (Opens(s.commands[ck], k, row) <==> Authorizes(s.commands[ck], k, row));
    assert forall other :: Holds(s, other, k.tenant, row.profile) <==> other in s.rows && OpenOf(s, k.tenant, row.profile, other);
  }

  /** No row is ever removed, and removing none changes nothing. */
  lemma RemovalAcceptedExactly(s: State, k: Key)
    ensures Exec(s, DeleteRow(k)) == if k in s.rows then None else Some(s)
    ensures forall row :: k !in s.rows ==> Exec(s, UpdateRow(k, row)) == Some(s)
  {
  }
}
