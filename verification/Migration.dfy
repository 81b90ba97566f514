/**
 * Moving provider credentials from application encryption into the vault:
 * create, read back, repoint, delete, where any step may fail with or without
 * effect and the process may stop before or after any of them.
 */
module Migration {
  import opened Wrappers

  datatype Backend = Aes | Vault

  datatype Secret = Secret(user: string, backend: Backend, ciphertext: Option<string>)

  /** The tables involved. Both reference columns are set to null when the secret they name is deleted. */
  datatype Db = Db(
    secrets: map<string, Secret>,
    vault: map<string, string>,
    connections: map<string, Option<string>>,
    billing: map<string, Option<string>>)

  /** Decryption throws on text it cannot read. */
  type Decrypt = string -> Option<string>

  // ------------------------------------------------------------------ store calls

  function CreateInVault(db: Db, id: string, user: string, value: string): Db
  {
    db.(secrets := db.secrets[id := Secret(user, Vault, None)], vault := db.vault[id := value])
  }

  /** The new id is the database's choice; one already taken makes the transaction fail. */
  predicate IdTaken(db: Db, id: string)
  {
    id in db.secrets || id in db.vault
  }

  function ReadFromVault(db: Db, id: string, user: string): Option<string>
  {
    if id in db.secrets && db.secrets[id].user == user && db.secrets[id].backend == Vault && id in db.vault
    then Some(db.vault[id]) else None
  }

  function Redirect(refs: map<string, Option<string>>, from: string, to: Option<string>): map<string, Option<string>>
  {
    map r | r in refs :: if refs[r] == Some(from) then to else refs[r]
  }

  function Repoint(db: Db, from: string, to: string): Db
  {
    db.(connections := Redirect(db.connections, from, Some(to)))
  }

  function DeleteSecret(db: Db, id: string): Db
  {
    db.(secrets := db.secrets - {id}, connections := Redirect(db.connections, id, None), billing := Redirect(db.billing, id, None))
  }

  // ------------------------------------------------------------------- one secret

  datatype Step = Works | FailsBefore | FailsAfter | StopsBefore | StopsAfter {
    predicate Happens() { Works? || FailsAfter? || StopsAfter? }
    predicate Stops() { StopsBefore? || StopsAfter? }
  }

  /** What befalls the steps of one secret: the id it gets, and what the vault really keeps. */
  datatype Script = Script(create: Step, newId: string, kept: string, read: Step, repoint: Step, delete: Step)

  datatype Verdict = Migrated | Failed | Stopped

  function AfterCreate(db: Db, user: string, s: Script): Db
  {
    if s.create.Happens() && !IdTaken(db, s.newId) then CreateInVault(db, s.newId, user, s.kept) else db
  }

  function AfterRepoint(db: Db, id: string, s: Script): Db
  {
    if s.repoint.Happens() then Repoint(db, id, s.newId) else db
  }

  function AfterDelete(db: Db, id: string, s: Script): Db
  {
    if s.delete.Happens() then DeleteSecret(db, id) else db
  }

  /** The copy was made and reads back as the original. */
  predicate CopyVerified(db: Db, user: string, plaintext: string, s: Script)
  {
    s.create.Works? && !IdTaken(db, s.newId) && s.read.Works? && ReadFromVault(AfterCreate(db, user, s), s.newId, user) == Some(plaintext)
  }

  /** One turn of the loop. An error of the final delete is not looked at. */
  function MigrateRow(db: Db, decrypt: Decrypt, id: string, user: string, ciphertext: string, s: Script): (Db, Verdict)
  {
    match decrypt(ciphertext)
    case None => (db, Failed)
    case Some(plaintext) =>
      var db1 := AfterCreate(db, user, s);
      if s.create.Stops() then (db1, Stopped)
      else if s.create.Works? && !IdTaken(db, s.newId) && s.read.Stops() then (db1, Stopped)
      else if !CopyVerified(db, user, plaintext, s) then (db1, Failed)
      else
        var db2 := AfterRepoint(db1, id, s);
        if s.repoint.Stops() then (db2, Stopped)
        else if !s.repoint.Works? then (db2, Failed)
        else (AfterDelete(db2, id, s), if s.delete.Stops() then Stopped else Migrated)
  }

  // ---------------------------------------------------------------------- the run

  /** A row as listed when the run began. */
  datatype Row = Row(id: string, user: string, ciphertext: string)

  predicate IsPending(db: Db, id: string)
  {
    id in db.secrets && db.secrets[id].backend == Aes && db.secrets[id].ciphertext.Some?
  }

  /** The rows are secrets as they stand, none listed twice. */
  ghost predicate Lists(db: Db, rows: seq<Row>)
  {
    && (forall i | 0 <= i < |rows| ::
          rows[i].id in db.secrets && db.secrets[rows[i].id] == Secret(rows[i].user, Aes, Some(rows[i].ciphertext)))
    && forall i, j | 0 <= i < j < |rows| :: rows[i].id != rows[j].id
  }

  ghost predicate ListsAllPending(db: Db, rows: seq<Row>)
  {
    Lists(db, rows) && forall id | IsPending(db, id) :: exists i | 0 <= i < |rows| :: rows[i].id == id
  }

  datatype Report = Report(migrated: nat, failed: nat, stopped: bool)

  function Count(v: Verdict, later: Report): Report
  {
    match v
    case Migrated => later.(migrated := later.migrated + 1)
    case Failed => later.(failed := later.failed + 1)
    case Stopped => later
  }

  function Run(db: Db, decrypt: Decrypt, rows: seq<Row>, scripts: seq<Script>): (Db, Report)
    requires |rows| == |scripts|
    decreases |rows|, 0
  {
    if rows == [] then (db, Report(0, 0, false))
    else
      var (db', v) := MigrateRow(db, decrypt, rows[0].id, rows[0].user, rows[0].ciphertext, scripts[0]);
      RunOn(db', decrypt, rows[1..], scripts[1..], v)
  }

  /** The rest of a run after one verdict. */
  function RunOn(db: Db, decrypt: Decrypt, rows: seq<Row>, scripts: seq<Script>, v: Verdict): (Db, Report)
    requires |rows| == |scripts|
    decreases |rows|, 1
  {
    if v == Stopped then (db, Report(0, 0, true))
    else
      var (end, report) := Run(db, decrypt, rows, scripts);
      (end, Count(v, report))
  }

  /** The script's tables, changed one call at a time. */
  class SecretTables {
    var db: Db

    constructor (initial: Db)
      ensures db == initial
    {
      db := initial;
    }

    method MigrateSecret(decrypt: Decrypt, row: Row, s: Script) returns (v: Verdict)
      modifies this
      ensures (db, v) == MigrateRow(old(db), decrypt, row.id, row.user, row.ciphertext, s)
    {
      var plaintext := decrypt(row.ciphertext);
      if plaintext.None? { return Failed; }
      var taken := IdTaken(db, s.newId);
      if s.create.Happens() && !taken { db := CreateInVault(db, s.newId, row.user, s.kept); }
      if s.create.Stops() { return Stopped; }
      if !s.create.Works? || taken { return Failed; }
      if s.read.Stops() { return Stopped; }
      if !s.read.Works? || ReadFromVault(db, s.newId, row.user) != Some(plaintext.value) { return Failed; }
      if s.repoint.Happens() { db := Repoint(db, row.id, s.newId); }
      if s.repoint.Stops() { return Stopped; }
      if !s.repoint.Works? { return Failed; }
      if s.delete.Happens() { db := DeleteSecret(db, row.id); }
      if s.delete.Stops() { return Stopped; }
      return Migrated;
    }

    method MigrateNext(decrypt: Decrypt, rows: seq<Row>, scripts: seq<Script>, i: nat) returns (v: Verdict)
      requires |rows| == |scripts| && i < |rows|
      modifies this
      ensures Run(old(db), decrypt, rows[i..], scripts[i..]) == RunOn(db, decrypt, rows[i + 1..], scripts[i + 1..], v)
    {
      RunStep(db, decrypt, rows, scripts, i);
      v := MigrateSecret(decrypt, rows[i], scripts[i]);
    }

    method MigrateAll(decrypt: Decrypt, rows: seq<Row>, scripts: seq<Script>) returns (report: Report)
      requires |rows| == |scripts|
      modifies this
      ensures (db, report) == Run(old(db), decrypt, rows, scripts)
    {
      var migrated, failed := 0, 0;
      for i := 0 to |rows|
        invariant Run(old(db), decrypt, rows, scripts) == Shift(migrated, failed, Run(db, decrypt, rows[i..], scripts[i..]))
      {
        var v := MigrateNext(decrypt, rows, scripts, i);
        match v
        case Stopped => return Report(migrated, failed, true);
        case Migrated => migrated := migrated + 1;
        case Failed => failed := failed + 1;
      }
      report := Report(migrated, failed, false);
    }
  }

  /** A run from the `i`-th row on. */
  lemma RunStep(db: Db, decrypt: Decrypt, rows: seq<Row>, scripts: seq<Script>, i: nat)
    requires |rows| == |scripts| && i < |rows|
    ensures var (db', v) := MigrateRow(db, decrypt, rows[i].id, rows[i].user, rows[i].ciphertext, scripts[i]);
            Run(db, decrypt, rows[i..], scripts[i..]) == RunOn(db', decrypt, rows[i + 1..], scripts[i + 1..], v)
  {
    assert rows[i..][1..] == rows[i + 1..] && scripts[i..][1..] == scripts[i + 1..];
  }

  ghost function Shift(migrated: nat, failed: nat, later: (Db, Report)): (Db, Report)
  {
    (later.0, Report(migrated + later.1.migrated, failed + later.1.failed, later.1.stopped))
  }

  // --------------------------------------------------- what holds between any steps

  /** What a reader of a secret obtains, whichever backend holds it. */
  function ValueOf(db: Db, decrypt: Decrypt, id: string): Option<string>
    requires id in db.secrets
  {
    var s := db.secrets[id];
    if s.backend == Vault then (if id in db.vault then Some(db.vault[id]) else None)
    else if s.ciphertext.Some? then decrypt(s.ciphertext.value)
    else None
  }

  ghost predicate RefsExist(db: Db, refs: map<string, Option<string>>)
  {
    forall r | r in refs :: refs[r].Some? ==> refs[r].value in db.secrets
  }

  /** The foreign keys of the schema. */
  ghost predicate ForeignKeys(db: Db)
  {
    RefsExist(db, db.connections) && RefsExist(db, db.billing)
  }

  /** A reference still leads to a secret of the same user with the same value. */
  ghost predicate SameTarget(db: Db, db': Db, decrypt: Decrypt, a: Option<string>, b: Option<string>)
    requires a.Some? ==> a.value in db.secrets
  {
    if a.None? then b.None?
    else
      b.Some? && b.value in db'.secrets && db'.secrets[b.value].user == db.secrets[a.value].user
      && ValueOf(db', decrypt, b.value) == ValueOf(db, decrypt, a.value)
  }

  /** Every connection that had a credential has it still. */
  ghost predicate KeepsConnections(db: Db, db': Db, decrypt: Decrypt)
    requires ForeignKeys(db)
  {
    ForeignKeys(db') && db'.connections.Keys == db.connections.Keys
    && forall c | c in db.connections :: SameTarget(db, db', decrypt, db.connections[c], db'.connections[c])
  }

  lemma CreateKeeps(db: Db, decrypt: Decrypt, user: string, s: Script)
    requires ForeignKeys(db)
    ensures KeepsConnections(db, AfterCreate(db, user, s), decrypt)
  {
  }

  lemma RepointKeeps(db: Db, decrypt: Decrypt, id: string, to: string)
    requires ForeignKeys(db) && id in db.secrets && to in db.secrets
    requires db.secrets[to].user == db.secrets[id].user && ValueOf(db, decrypt, to) == ValueOf(db, decrypt, id)
    ensures KeepsConnections(db, Repoint(db, id, to), decrypt)
  {
  }

  lemma KeepsTwice(a: Db, b: Db, c: Db, decrypt: Decrypt)
    requires ForeignKeys(a) && KeepsConnections(a, b, decrypt) && KeepsConnections(b, c, decrypt)
    ensures KeepsConnections(a, c, decrypt)
  {
  }

  /** One secret, whatever befalls it: connections keep their credentials; a reported failure keeps the old secret. */
  lemma RowKeepsConnections(db: Db, decrypt: Decrypt, row: Row, s: Script)
    requires ForeignKeys(db) && Lists(db, [row])
    ensures var (db', v) := MigrateRow(db, decrypt, row.id, row.user, row.ciphertext, s);
            && KeepsConnections(db, db', decrypt)
            && (v == Failed ==> row.id in db'.secrets && db'.secrets[row.id] == Secret(row.user, Aes, Some(row.ciphertext)))
  {
    assert [row][0] == row;
    var plaintext := decrypt(row.ciphertext);
    var db1 := AfterCreate(db, row.user, s);
    CreateKeeps(db, decrypt, row.user, s);
    if plaintext.Some? && CopyVerified(db, row.user, plaintext.value, s) {
      RepointKeeps(db1, decrypt, row.id, s.newId);
      KeepsTwice(db, db1, Repoint(db1, row.id, s.newId), decrypt);
      if s.repoint.Works? {
        var db2 := Repoint(db1, row.id, s.newId);
        KeepsTwice(db, db2, DeleteSecret(db2, row.id), decrypt);
      }
    }
  }

  /** Other secrets are not touched, so the rest of the list stays true. */
  lemma RestIsStillListed(db: Db, decrypt: Decrypt, rows: seq<Row>, s: Script)
    requires rows != [] && Lists(db, rows)
    ensures Lists(MigrateRow(db, decrypt, rows[0].id, rows[0].user, rows[0].ciphertext, s).0, rows[1..])
  {
    var db' := MigrateRow(db, decrypt, rows[0].id, rows[0].user, rows[0].ciphertext, s).0;
    forall i | 0 <= i < |rows[1..]|
      ensures rows[1..][i].id in db'.secrets && db'.secrets[rows[1..][i].id] == db.secrets[rows[i + 1].id]
    {
      assert rows[1..][i] == rows[i + 1];
    }
  }

  /** However many steps of a run fail, and wherever it stops, every connection keeps its credential. */
  lemma {:induction false} RunKeepsConnections(db: Db, decrypt: Decrypt, rows: seq<Row>, scripts: seq<Script>)
    requires |rows| == |scripts| && ForeignKeys(db) && Lists(db, rows)
    ensures KeepsConnections(db, Run(db, decrypt, rows, scripts).0, decrypt)
    decreases |rows|
  {
    if rows != [] {
      var (db', v) := MigrateRow(db, decrypt, rows[0].id, rows[0].user, rows[0].ciphertext, scripts[0]);
      assert rows[0] == [rows[0]][0];
      RowKeepsConnections(db, decrypt, rows[0], scripts[0]);
      if v != Stopped {
        RestIsStillListed(db, decrypt, rows, scripts[0]);
        RunKeepsConnections(db', decrypt, rows[1..], scripts[1..]);
        KeepsTwice(db, db', Run(db', decrypt, rows[1..], scripts[1..]).0, decrypt);
      }
    }
  }

  // ------------------------------------------------------------- runs after runs

  /** A list of pending rows read by each of several runs, and what befalls them. */
  datatype Attempt = Attempt(rows: seq<Row>, scripts: seq<Script>)

  ghost predicate Runs(db: Db, decrypt: Decrypt, attempts: seq<Attempt>, end: Db)
    decreases |attempts|
  {
    if attempts == [] then end == db
    else
      && |attempts[0].rows| == |attempts[0].scripts| && ListsAllPending(db, attempts[0].rows)
      && Runs(Run(db, decrypt, attempts[0].rows, attempts[0].scripts).0, decrypt, attempts[1..], end)
  }

  /** Re-running after any failures or stops, any number of times, keeps every credential. */
  lemma {:induction false} RerunsKeepConnections(db: Db, decrypt: Decrypt, attempts: seq<Attempt>, end: Db)
    requires ForeignKeys(db) && Runs(db, decrypt, attempts, end)
    ensures KeepsConnections(db, end, decrypt)
    decreases |attempts|
  {
    if attempts != [] {
      var db' := Run(db, decrypt, attempts[0].rows, attempts[0].scripts).0;
      RunKeepsConnections(db, decrypt, attempts[0].rows, attempts[0].scripts);
      RerunsKeepConnections(db', decrypt, attempts[1..], end);
      KeepsTwice(db, db', end, decrypt);
    }
  }

  // ------------------------------------------------------------- when it completes

  /** Every step works, the vault keeps what it was given, and its new ids are new. */
  ghost predicate AllWorks(db: Db, decrypt: Decrypt, rows: seq<Row>, scripts: seq<Script>)
    decreases |rows|
  {
    |rows| == |scripts| &&
    (rows != [] ==>
      var s := scripts[0];
      && s.create.Works? && s.read.Works? && s.repoint.Works? && s.delete.Works?
      && decrypt(rows[0].ciphertext) == Some(s.kept) && !IdTaken(db, s.newId)
      && AllWorks(MigrateRow(db, decrypt, rows[0].id, rows[0].user, rows[0].ciphertext, s).0, decrypt, rows[1..], scripts[1..]))
  }

  ghost predicate Listed(rows: seq<Row>, id: string)
  {
    exists i | 0 <= i < |rows| :: rows[i].id == id
  }

  /** A run in which every step works removes the listed secrets, reports them all and adds none that is pending. */
  lemma {:induction false} WorkingRunRemovesListed(db: Db, decrypt: Decrypt, rows: seq<Row>, scripts: seq<Script>)
    requires Lists(db, rows) && AllWorks(db, decrypt, rows, scripts)
    ensures var (end, report) := Run(db, decrypt, rows, scripts);
            && report == Report(|rows|, 0, false)
            && (forall id :: IsPending(end, id) <==> IsPending(db, id) && !Listed(rows, id))
    decreases |rows|
  {
    if rows != [] {
      var db' := MigrateRow(db, decrypt, rows[0].id, rows[0].user, rows[0].ciphertext, scripts[0]).0;
      RestIsStillListed(db, decrypt, rows, scripts[0]);
      WorkingRunRemovesListed(db', decrypt, rows[1..], scripts[1..]);
      forall id ensures IsPending(db', id) <==> IsPending(db, id) && id != rows[0].id {
      }
      forall id ensures Listed(rows, id) <==> id == rows[0].id || Listed(rows[1..], id) {
      }
    }
  }

  /** After such a run nothing is pending, so the next run changes nothing. */
  lemma CompletedRunLeavesNothing(db: Db, decrypt: Decrypt, rows: seq<Row>, scripts: seq<Script>, next: seq<Row>, nextScripts: seq<Script>)
    requires ListsAllPending(db, rows) && AllWorks(db, decrypt, rows, scripts)
    requires ListsAllPending(Run(db, decrypt, rows, scripts).0, next) && |nextScripts| == |next|
    ensures forall id :: !IsPending(Run(db, decrypt, rows, scripts).0, id)
    ensures Run(Run(db, decrypt, rows, scripts).0, decrypt, next, nextScripts) == (Run(db, decrypt, rows, scripts).0, Report(0, 0, false))
  {
    WorkingRunRemovesListed(db, decrypt, rows, scripts);
    var end := Run(db, decrypt, rows, scripts).0;
    forall id ensures !IsPending(end, id) {
      assert IsPending(db, id) ==> Listed(rows, id);
    }
    assert next != [] ==> IsPending(end, next[0].id);
  }

  /** A delete whose error goes unseen is reported as a migration, though the secret is still pending. */
  lemma FailedDeleteIsReportedMigrated(db: Db, decrypt: Decrypt, row: Row, s: Script)
    requires Lists(db, [row]) && decrypt(row.ciphertext) == Some(s.kept) && !IdTaken(db, s.newId)
    requires s.create.Works? && s.read.Works? && s.repoint.Works? && !s.delete.Stops()
    ensures var (db', v) := MigrateRow(db, decrypt, row.id, row.user, row.ciphertext, s);
            v == Migrated && (IsPending(db', row.id) <==> s.delete == FailsBefore)
  {
    assert [row][0] == row;
  }

  // ----------------------------------------------------------------- other readers

  lemma {:induction false} BillingAfterRun(db: Db, decrypt: Decrypt, rows: seq<Row>, scripts: seq<Script>, account: string)
    requires Lists(db, rows) && AllWorks(db, decrypt, rows, scripts) && account in db.billing
    ensures var end := Run(db, decrypt, rows, scripts).0;
            && account in end.billing
            && end.billing[account] ==
               if db.billing[account].Some? && Listed(rows, db.billing[account].value) then None else db.billing[account]
    decreases |rows|
  {
    if rows != [] {
      var db' := MigrateRow(db, decrypt, rows[0].id, rows[0].user, rows[0].ciphertext, scripts[0]).0;
      RestIsStillListed(db, decrypt, rows, scripts[0]);
      BillingAfterRun(db', decrypt, rows[1..], scripts[1..], account);
    }
  }

  /** Billing accounts are not repointed: a complete run leaves them their tokens exactly if none is pending. */
  lemma BillingTokensSurviveExactlyIfNonePending(db: Db, decrypt: Decrypt, rows: seq<Row>, scripts: seq<Script>)
    requires ListsAllPending(db, rows) && AllWorks(db, decrypt, rows, scripts)
    ensures (forall a | a in db.billing :: a in Run(db, decrypt, rows, scripts).0.billing
                                           && Run(db, decrypt, rows, scripts).0.billing[a] == db.billing[a])
       <==> (forall a | a in db.billing :: db.billing[a].Some? ==> !IsPending(db, db.billing[a].value))
  {
    forall a | a in db.billing
      ensures (a in Run(db, decrypt, rows, scripts).0.billing && Run(db, decrypt, rows, scripts).0.billing[a] == db.billing[a])
         <==> (db.billing[a].Some? ==> !IsPending(db, db.billing[a].value))
    {
      BillingAfterRun(db, decrypt, rows, scripts, a);
      if db.billing[a].Some? {
        assert IsPending(db, db.billing[a].value) <==> Listed(rows, db.billing[a].value);
      }
    }
  }

  /** One pending secret that a connection and a billing account name, and a run in which every step works. */
  function SharedSecret(): Db
  {
    Db(map["old" := Secret("u", Aes, Some("cipher"))], map[], map["c" := Some("old")], map["b" := Some("old")])
  }

  /** The connection follows its secret into the vault; the billing account loses its own. */
  lemma SharedSecretLeavesBillingBehind(decrypt: Decrypt)
    requires decrypt("cipher") == Some("token")
    ensures var rows, scripts := [Row("old", "u", "cipher")], [Script(Works, "new", "token", Works, Works, Works)];
            var (end, report) := Run(SharedSecret(), decrypt, rows, scripts);
            && ListsAllPending(SharedSecret(), rows) && AllWorks(SharedSecret(), decrypt, rows, scripts)
            && report == Report(1, 0, false)
            && "c" in end.connections && end.connections["c"] == Some("new")
            && "b" in end.billing && end.billing["b"] == None
  {
    var db, row, s := SharedSecret(), Row("old", "u", "cipher"), Script(Works, "new", "token", Works, Works, Works);
    assert [row][1..] == [] && [s][1..] == [];
    assert [row][0].id == "old";
    assert forall id | IsPending(db, id) :: id == "old";
    WorkingRunRemovesListed(db, decrypt, [row], [s]);
    BillingAfterRun(db, decrypt, [row], [s], "b");
    var db' := MigrateRow(db, decrypt, row.id, row.user, row.ciphertext, s).0;
    assert Run(db, decrypt, [row], [s]).0 == Run(db', decrypt, [], []).0 == db';
  }

  // ------------------------------------------------------------- what one row writes

  /** The step took effect, whatever the caller was told. */
  predicate TookEffect(step: Step)
  {
    step == Works || step == FailsAfter || step == StopsAfter
  }

  /** The new secret was made under an id of its own, read back, and held the decrypted text. */
  predicate Copied(db: Db, plaintext: string, s: Script)
  {
    s.create == Works && s.newId !in db.secrets && s.newId !in db.vault && s.read == Works && s.kept == plaintext
  }

  /**
   * The tables after one row that decrypts. The vault gains the copy, if making it
   * took effect; connections move to it only once it was read back as it should be;
   * and only after they moved does the old secret go, and with it the billing
   * references to it. Nothing else changes.
   */
  lemma RowWrites(db: Db, decrypt: Decrypt, id: string, user: string, ciphertext: string, s: Script, plaintext: string)
    requires id in db.secrets && decrypt(ciphertext) == Some(plaintext)
    ensures var db' := MigrateRow(db, decrypt, id, user, ciphertext, s).0;
            var made := TookEffect(s.create) && s.newId !in db.secrets && s.newId !in db.vault;
            var moved := Copied(db, plaintext, s) && TookEffect(s.repoint);
            var deleted := Copied(db, plaintext, s) && s.repoint == Works && TookEffect(s.delete);
            && db'.vault == (if made then db.vault[s.newId := s.kept] else db.vault)
            && db'.secrets == (if made then db.secrets[s.newId := Secret(user, Vault, None)] else db.secrets) - (if deleted then {id} else {})
            && db'.connections.Keys == db.connections.Keys && db'.billing.Keys == db.billing.Keys
            && (forall c | c in db.connections ::
                  db'.connections[c] == if moved && db.connections[c] == Some(id) then Some(s.newId) else db.connections[c])
            && (forall b | b in db.billing :: db'.billing[b] == if deleted && db.billing[b] == Some(id) then None else db.billing[b])
  {
  }

  /** What is reported of one row: a failure of the delete is not seen. */
  lemma RowReports(db: Db, decrypt: Decrypt, id: string, user: string, ciphertext: string, s: Script)
    ensures var (db', v) := MigrateRow(db, decrypt, id, user, ciphertext, s);
            match decrypt(ciphertext)
            case None => db' == db && v == Failed
            case Some(plaintext) =>
              var untaken := s.newId !in db.secrets && s.newId !in db.vault;
              && (v == Migrated <==> Copied(db, plaintext, s) && s.repoint == Works && !s.delete.Stops())
              && (v == Stopped <==>
                    || s.create.Stops() || (s.create == Works && untaken && s.read.Stops())
                    || (Copied(db, plaintext, s) && (s.repoint.Stops() || (s.repoint == Works && s.delete.Stops()))))
  {
  }

  /** A run counts each row it finished and ends where the process stops. */
  lemma RunCounts(db: Db, decrypt: Decrypt, rows: seq<Row>, scripts: seq<Script>)
    requires |rows| == |scripts|
    ensures rows == [] ==> Run(db, decrypt, rows, scripts) == (db, Report(0, 0, false))
    ensures rows != [] ==>
              var (db', v) := MigrateRow(db, decrypt, rows[0].id, rows[0].user, rows[0].ciphertext, scripts[0]);
              var (end, later) := Run(db', decrypt, rows[1..], scripts[1..]);
              Run(db, decrypt, rows, scripts) ==
              if v == Stopped then (db', Report(0, 0, true))
              else (end, Report(later.migrated + (if v == Migrated then 1 else 0), later.failed + (if v == Failed then 1 else 0), later.stopped))
  {
  }
}
