/** The `users` table the service, the user route and the seed script share:
    `id INTEGER PRIMARY KEY`, `email TEXT UNIQUE NOT NULL`, `password_hash`,
    `created_at` and `updated_at` set by column defaults. */
module UserStore {
  import opened AuthTypes
  import opened Bcrypt

  /** A stored row, hash included. It never leaves this module and the service
      except through `StripHash`. */
  datatype UserRow = UserRow(id: int, email: string, passwordHash: PasswordHash, createdAt: string, updatedAt: string)

  /** The table's contents: each row under its (unique) email, and the rowid the
      next insert receives (one more than the largest so far, since nothing is
      ever deleted). */
  datatype Store = Store(rows: map<string, UserRow>, nextId: int)

  /** What the database guarantees: rows are keyed by their own email, ids are
      positive, below the next id, and unique. */
  ghost predicate StoreValid(s: Store) {
    && s.nextId >= 1
    && (forall e :: e in s.rows ==> s.rows[e].email == e && 1 <= s.rows[e].id < s.nextId)
    && (forall e1, e2 :: e1 in s.rows && e2 in s.rows && s.rows[e1].id == s.rows[e2].id ==> e1 == e2)
  }

  /** The columns `SELECT id, email, created_at, updated_at` returns. */
  function StripHash(row: UserRow): (u: User)
    ensures u.id == row.id && u.email == row.email
    ensures u.createdAt == row.createdAt && u.updatedAt == row.updatedAt
  {
    User(row.id, row.email, row.createdAt, row.updatedAt)
  }

  /** `SELECT id, email, created_at, updated_at FROM users WHERE id = ?`. */
  function SelectById(s: Store, id: int): (r: Option<UserRow>)
    requires StoreValid(s)
    ensures r.Some? <==> exists e :: e in s.rows && s.rows[e].id == id
    ensures r.Some? ==> r.value.id == id && r.value.email in s.rows && s.rows[r.value.email] == r.value
  {
    if exists e :: e in s.rows && s.rows[e].id == id then
      var e :| e in s.rows && s.rows[e].id == id;
      Some(s.rows[e])
    else
      None
  }

  /** The table after a successful insert of a new email: one new row with the
      next id and both timestamps set to `now`. */
  function Inserted(s: Store, email: string, hash: PasswordHash, now: string): (t: Store)
    requires email !in s.rows
    ensures StoreValid(s) ==> StoreValid(t)
    ensures t.rows.Keys == s.rows.Keys + {email} && |t.rows| == |s.rows| + 1
    ensures forall e :: e in s.rows ==> t.rows[e] == s.rows[e]
    ensures t.rows[email] == UserRow(s.nextId, email, hash, now, now)
    ensures t.nextId == s.nextId + 1
  {
    Store(s.rows[email := UserRow(s.nextId, email, hash, now, now)], s.nextId + 1)
  }

  /** What `stmt.run` reports for an INSERT: the number of changed rows and the
      new rowid, or a `SQLITE_CONSTRAINT_UNIQUE` error. */
  datatype RunOutcome = Changed(changes: nat, lastInsertRowid: int) | UniqueViolation

  /** `INSERT INTO users (email, password_hash) VALUES (?, ?)` on a snapshot. */
  function InsertRow(s: Store, email: string, hash: PasswordHash, now: string): (res: (RunOutcome, Store))
    requires StoreValid(s)
    ensures StoreValid(res.1)
    ensures res.0.UniqueViolation? <==> email in s.rows
    ensures res.0.UniqueViolation? ==> res.1 == s
    ensures res.0.Changed? ==> res.0.changes == 1 && res.0.lastInsertRowid == s.nextId
    ensures res.0.Changed? ==> res.1 == Inserted(s, email, hash, now)
  {
    if email in s.rows then (UniqueViolation, s)
    else (Changed(1, s.nextId), Inserted(s, email, hash, now))
  }

  /** The users table, updated in place by the service and the seed script. */
  class UsersTable {
    var rows: map<string, UserRow>
    var nextId: int

    function Snapshot(): Store
      reads this
    {
      Store(rows, nextId)
    }

    ghost predicate Valid()
      reads this
    {
      StoreValid(Snapshot())
    }

    /** A freshly created, empty table. */
    constructor ()
      ensures Valid()
      ensures rows == map[] && nextId == 1
    {
      rows := map[];
      nextId := 1;
    }

    /** `INSERT INTO users ...`: fails on a duplicate email, otherwise adds one row. */
    method Insert(email: string, hash: PasswordHash, now: string) returns (o: RunOutcome)
      requires Valid()
      modifies this
      ensures Valid()
      ensures (o, Snapshot()) == InsertRow(old(Snapshot()), email, hash, now)
    {
      if email in rows {
        o := UniqueViolation;
      } else {
        o := Changed(1, nextId);
        var t := Inserted(Snapshot(), email, hash, now);
        rows, nextId := t.rows, t.nextId;
      }
    }

    /** `INSERT OR IGNORE INTO users ...`: returns the number of changed rows. */
    method InsertOrIgnore(email: string, hash: PasswordHash, now: string) returns (changes: nat)
      requires Valid()
      modifies this
      ensures Valid()
      ensures changes == if email in old(rows) then 0 else 1
      ensures Snapshot() == if email in old(rows) then old(Snapshot()) else Inserted(old(Snapshot()), email, hash, now)
    {
      if email in rows {
        changes := 0;
      } else {
        changes := 1;
        var t := Inserted(Snapshot(), email, hash, now);
        rows, nextId := t.rows, t.nextId;
      }
    }
  }
}
