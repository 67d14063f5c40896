/** The seed script scripts/seed.ts: five demo users sharing one password hash,
    inserted in list order with `INSERT OR IGNORE` inside one transaction, with a
    count of the rows actually inserted. */
module Seed {
  import opened AuthTypes
  import opened Bcrypt
  import opened UserStore

  const SeedPassword := "harsha"

  const SeedEmails: seq<string> :=
    ["user1@example.com", "user2@example.com", "user3@example.com", "user4@example.com", "user5@example.com"]

  datatype SeedUser = SeedUser(email: string, hash: PasswordHash)

  /** The `dummyUsers` list: every seed email, in order, with the same hash. */
  function DummyUsers(hash: PasswordHash): (users: seq<SeedUser>)
    ensures |users| == |SeedEmails|
    ensures forall i :: 0 <= i < |users| ==> users[i].email == SeedEmails[i] && users[i].hash == hash
  {
    seq(|SeedEmails|, i requires 0 <= i < |SeedEmails| => SeedUser(SeedEmails[i], hash))
  }

  /** The emails of a list of users. */
  function EmailsOf(users: seq<SeedUser>): (es: set<string>)
    ensures forall i :: 0 <= i < |users| ==> users[i].email in es
  {
    if users == [] then {} else EmailsOf(users[..|users| - 1]) + {users[|users| - 1].email}
  }

  /** Every email of `EmailsOf(users)` is the email of one of the users. */
  lemma {:induction false} EmailsOfMembers(users: seq<SeedUser>, e: string)
    requires e in EmailsOf(users)
    ensures exists i :: 0 <= i < |users| && users[i].email == e
    decreases |users|
  {
    var last := |users| - 1;
    if e != users[last].email {
      EmailsOfMembers(users[..last], e);
      var i :| 0 <= i < last && users[..last][i].email == e;
      assert users[i].email == e;
    }
  }

  /** The table after seeding, and the number of rows inserted. */
  datatype Seeding = Seeding(table: Store, inserted: nat)

  /** `INSERT OR IGNORE` of each user in list order, counting the inserted rows.
      Each run adds a row with the next id exactly when the email is not in the
      table yet. Every statement is stamped with its own time: `nows[i]` is the
      `CURRENT_TIMESTAMP` of the statement that inserts `users[i]`. */
  function InsertAll(s: Store, users: seq<SeedUser>, nows: seq<string>): (res: Seeding)
    requires |nows| == |users|
    ensures res.inserted <= |users| && res.table.nextId == s.nextId + res.inserted
    decreases |users|
  {
    if users == [] then Seeding(s, 0)
    else
      var before := InsertAll(s, users[..|users| - 1], nows[..|users| - 1]);
      var last := users[|users| - 1];
      if last.email in before.table.rows then before
      else Seeding(Inserted(before.table, last.email, last.hash, nows[|users| - 1]), before.inserted + 1)
  }

  /** Seeding keeps the table valid: emails stay unique and ids distinct. */
  lemma {:induction false} InsertAllValid(s: Store, users: seq<SeedUser>, nows: seq<string>)
    requires |nows| == |users|
    requires StoreValid(s)
    ensures StoreValid(InsertAll(s, users, nows).table)
    decreases |users|
  {
    if users != [] {
      InsertAllValid(s, users[..|users| - 1], nows[..|users| - 1]);
    }
  }

  /** What seeding leaves in the table: the rows that were there, unchanged, and a
      row for every email of the list; the count is the number of rows added. */
  lemma {:induction false} InsertAllRows(s: Store, users: seq<SeedUser>, nows: seq<string>)
    requires |nows| == |users|
    ensures var r := InsertAll(s, users, nows);
      && (forall e :: e in s.rows ==> e in r.table.rows && r.table.rows[e] == s.rows[e])
      && (forall e :: e in r.table.rows <==> e in s.rows || e in EmailsOf(users))
      && |r.table.rows| == |s.rows| + r.inserted
    decreases |users|
  {
    if users != [] {
      InsertAllRows(s, users[..|users| - 1], nows[..|users| - 1]);
    }
  }

  /** The count is the number of distinct emails of the list that were not in
      the table before. */
  lemma {:induction false} InsertedCountIsNewEmails(s: Store, users: seq<SeedUser>, nows: seq<string>)
    requires |nows| == |users|
    ensures InsertAll(s, users, nows).inserted == |EmailsOf(users) - s.rows.Keys|
  {
    var t := InsertAll(s, users, nows).table;
    InsertAllRows(s, users, nows);
    assert t.rows.Keys == s.rows.Keys + (EmailsOf(users) - s.rows.Keys);
    assert s.rows.Keys !! (EmailsOf(users) - s.rows.Keys);
  }

  /** When every user carries the hash `h`, every row the seeding adds holds `h`. */
  lemma {:induction false} InsertAllHashes(s: Store, users: seq<SeedUser>, h: PasswordHash, nows: seq<string>)
    requires |nows| == |users|
    requires forall i :: 0 <= i < |users| ==> users[i].hash == h
    ensures var t := InsertAll(s, users, nows).table;
            forall e :: e in t.rows && e !in s.rows ==> t.rows[e].passwordHash == h
    decreases |users|
  {
    if users != [] {
      InsertAllHashes(s, users[..|users| - 1], h, nows[..|users| - 1]);
    }
  }

  /** `users[i]` is the first user of the list with its email. */
  predicate FirstListed(users: seq<SeedUser>, i: int)
  {
    0 <= i < |users| && forall j :: 0 <= j < i ==> users[j].email != users[i].email
  }

  /** The row a new email gets is stamped by the statement of the first user
      listed with that email: both its timestamps are that statement's time. */
  lemma {:induction false} InsertAllTimestamps(s: Store, users: seq<SeedUser>, nows: seq<string>, i: int)
    requires |nows| == |users|
    requires FirstListed(users, i) && users[i].email !in s.rows
    ensures var t := InsertAll(s, users, nows).table;
            && users[i].email in t.rows
            && t.rows[users[i].email].createdAt == nows[i]
            && t.rows[users[i].email].updatedAt == nows[i]
    decreases |users|
  {
    var n := |users| - 1;
    var prefix, prefixNows := users[..n], nows[..n];
    var before := InsertAll(s, prefix, prefixNows).table;
    var last := users[n];
    var t := InsertAll(s, users, nows).table;
    assert users[..|users| - 1] == prefix && nows[..|users| - 1] == prefixNows;
    if i < n {
      PrefixFirstListed(users, n, i);
      InsertAllTimestamps(s, prefix, prefixNows, i);
      assert prefix[i] == users[i] && prefixNows[i] == nows[i];
      if last.email in before.rows {
        assert t == before;
      } else {
        assert t == Inserted(before, last.email, last.hash, nows[n]);
        assert last.email != users[i].email;
      }
    } else {
      FirstListedIsNew(s, users, nows);
      assert t == Inserted(before, last.email, last.hash, nows[n]);
    }
  }

  /** The last user, when first listed with a new email, finds that email still
      absent after the users before it are seeded. */
  lemma FirstListedIsNew(s: Store, users: seq<SeedUser>, nows: seq<string>)
    requires |nows| == |users| && users != []
    requires FirstListed(users, |users| - 1) && users[|users| - 1].email !in s.rows
    ensures users[|users| - 1].email !in InsertAll(s, users[..|users| - 1], nows[..|users| - 1]).table.rows
  {
    var n := |users| - 1;
    InsertAllRows(s, users[..n], nows[..n]);
    if users[n].email in EmailsOf(users[..n]) {
      EmailsOfMembers(users[..n], users[n].email);
    }
  }

  /** A user listed first in the whole list is listed first in any prefix that
      holds it. */
  lemma PrefixFirstListed(users: seq<SeedUser>, n: nat, i: int)
    requires n <= |users| && FirstListed(users, i) && i < n
    ensures FirstListed(users[..n], i) && users[..n][i] == users[i]
  {
    forall j | 0 <= j < i ensures users[..n][j].email != users[..n][i].email {
      assert users[..n][j] == users[j];
    }
  }

  /** One more user: seeding the first `i + 1` users is one `INSERT OR IGNORE`
      after seeding the first `i`. */
  lemma {:induction false} InsertAllNext(s: Store, users: seq<SeedUser>, nows: seq<string>, i: nat)
    requires |nows| == |users| && i < |users|
    ensures var before := InsertAll(s, users[..i], nows[..i]);
            InsertAll(s, users[..i + 1], nows[..i + 1]) ==
              if users[i].email in before.table.rows then before
              else Seeding(Inserted(before.table, users[i].email, users[i].hash, nows[i]), before.inserted + 1)
  {
    var prefix, prefixNows := users[..i + 1], nows[..i + 1];
    assert prefix != [] && prefix[..|prefix| - 1] == users[..i] && prefix[|prefix| - 1] == users[i];
    assert prefixNows[..|prefix| - 1] == nows[..i] && prefixNows[|prefix| - 1] == nows[i];
  }

  /** The `insertMany` transaction: one `INSERT OR IGNORE` per user, in list
      order, counting the runs that changed a row. Statement `i` runs at time
      `nows[i]`. */
  method InsertMany(table: UsersTable, users: seq<SeedUser>, nows: seq<string>) returns (insertedCount: nat)
    requires |nows| == |users|
    requires table.Valid()
    modifies table
    ensures table.Valid()
    ensures Seeding(table.Snapshot(), insertedCount) == InsertAll(old(table.Snapshot()), users, nows)
  {
    ghost var start := table.Snapshot();
    insertedCount := 0;
    for i := 0 to |users|
      invariant table.Valid()
      invariant Seeding(table.Snapshot(), insertedCount) == InsertAll(start, users[..i], nows[..i])
    {
      InsertAllNext(start, users, nows, i);
      var changes := table.InsertOrIgnore(users[i].email, users[i].hash, nows[i]);
      if changes > 0 {
        insertedCount := insertedCount + 1;
      }
    }
    assert users[..|users|] == users && nows[..|users|] == nows;
  }

  /** `seedDatabase`: hashes the common password once, at cost 12, and inserts
      the five demo users with it. */
  method SeedDatabase(table: UsersTable, salt: Salt, nows: seq<string>) returns (insertedCount: nat)
    requires |nows| == |SeedEmails|
    requires table.Valid()
    modifies table
    ensures table.Valid()
    ensures Seeding(table.Snapshot(), insertedCount) == InsertAll(old(table.Snapshot()), DummyUsers(Hash(SeedPassword, salt)), nows)
  {
    var passwordHash := Hash(SeedPassword, salt);
    var dummyUsers := DummyUsers(passwordHash);
    insertedCount := InsertMany(table, dummyUsers, nows);
  }

  /** Seeding keeps the table valid, keeps the rows that were there untouched
      and leaves every seed email in the table. */
  lemma SeedRows(s: Store, salt: Salt, nows: seq<string>)
    requires |nows| == |SeedEmails|
    requires StoreValid(s)
    ensures var r := InsertAll(s, DummyUsers(Hash(SeedPassword, salt)), nows);
      && StoreValid(r.table)
      && (forall i :: 0 <= i < |SeedEmails| ==> SeedEmails[i] in r.table.rows)
      && (forall e :: e in s.rows ==> e in r.table.rows && r.table.rows[e] == s.rows[e])
  {
    var users := DummyUsers(Hash(SeedPassword, salt));
    InsertAllValid(s, users, nows);
    InsertAllRows(s, users, nows);
    assert forall i :: 0 <= i < |SeedEmails| ==> users[i].email == SeedEmails[i];
  }

  /** Every row seeding adds holds the one common hash: cost 12, accepting the
      password "harsha". */
  lemma SeedHash(s: Store, salt: Salt, nows: seq<string>)
    requires |nows| == |SeedEmails|
    ensures var r := InsertAll(s, DummyUsers(Hash(SeedPassword, salt)), nows);
      forall e :: e in r.table.rows && e !in s.rows ==>
        && r.table.rows[e].passwordHash == Hash(SeedPassword, salt)
        && r.table.rows[e].passwordHash.cost == 12
        && Compare("harsha", r.table.rows[e].passwordHash)
  {
    InsertAllHashes(s, DummyUsers(Hash(SeedPassword, salt)), Hash(SeedPassword, salt), nows);
  }

  /** The seed emails differ pairwise: each has its own digit at index 4. */
  lemma SeedEmailsDistinct()
    ensures forall i, j :: 0 <= i < j < |SeedEmails| ==> SeedEmails[i] != SeedEmails[j]
  {
    assert SeedEmails[0][4] == '1' && SeedEmails[1][4] == '2' && SeedEmails[2][4] == '3';
    assert SeedEmails[3][4] == '4' && SeedEmails[4][4] == '5';
  }

  /** The row of a seed email that was new carries the time of that user's own
      statement, as both its creation and its update time. */
  lemma SeedTimestamps(s: Store, salt: Salt, nows: seq<string>)
    requires |nows| == |SeedEmails|
    ensures var r := InsertAll(s, DummyUsers(Hash(SeedPassword, salt)), nows);
      forall i :: 0 <= i < |SeedEmails| && SeedEmails[i] !in s.rows ==>
        && SeedEmails[i] in r.table.rows
        && r.table.rows[SeedEmails[i]].createdAt == nows[i]
        && r.table.rows[SeedEmails[i]].updatedAt == nows[i]
  {
    var users := DummyUsers(Hash(SeedPassword, salt));
    SeedEmailsDistinct();
    forall i | 0 <= i < |SeedEmails| && SeedEmails[i] !in s.rows
      ensures var t := InsertAll(s, users, nows).table;
        && SeedEmails[i] in t.rows && t.rows[SeedEmails[i]].createdAt == nows[i] && t.rows[SeedEmails[i]].updatedAt == nows[i]
    {
      forall j | 0 <= j < i ensures users[j].email != users[i].email {
        assert users[j].email == SeedEmails[j];
      }
      InsertAllTimestamps(s, users, nows, i);
    }
  }

  /** The count is the number of seed emails that were new: five on an empty
      table. */
  lemma SeedCount(s: Store, salt: Salt, nows: seq<string>)
    requires |nows| == |SeedEmails|
    ensures var r := InsertAll(s, DummyUsers(Hash(SeedPassword, salt)), nows);
      && r.inserted == |EmailsOf(DummyUsers(Hash(SeedPassword, salt))) - s.rows.Keys|
      && (s.rows == map[] ==> r.inserted == 5)
  {
    var h := Hash(SeedPassword, salt);
    var users := DummyUsers(h);
    InsertedCountIsNewEmails(s, users, nows);
    if s.rows == map[] {
      SeedEmailsCount(h);
      assert EmailsOf(users) - s.rows.Keys == EmailsOf(users);
    }
  }

  /** The five seed emails are distinct. */
  lemma SeedEmailsCount(h: PasswordHash)
    ensures |EmailsOf(DummyUsers(h))| == 5
  {
    var users := DummyUsers(h);
    var all := {SeedEmails[0], SeedEmails[1], SeedEmails[2], SeedEmails[3], SeedEmails[4]};
    forall e | e in EmailsOf(users) ensures e in all {
      EmailsOfMembers(users, e);
    }
    assert EmailsOf(users) == all;
    SeedEmailsDistinct();
  }

  /** A list whose emails are all in the table inserts nothing. */
  lemma {:induction false} NothingNewInsertsNothing(s: Store, users: seq<SeedUser>, nows: seq<string>)
    requires |nows| == |users|
    requires forall i :: 0 <= i < |users| ==> users[i].email in s.rows
    ensures InsertAll(s, users, nows) == Seeding(s, 0)
    decreases |users|
  {
    if users != [] {
      NothingNewInsertsNothing(s, users[..|users| - 1], nows[..|users| - 1]);
    }
  }

  /** Running the seed script a second time inserts nothing and changes nothing. */
  lemma SeedTwice(s: Store, salt1: Salt, salt2: Salt, nows1: seq<string>, nows2: seq<string>)
    requires |nows1| == |SeedEmails| && |nows2| == |SeedEmails|
    ensures var t := InsertAll(s, DummyUsers(Hash(SeedPassword, salt1)), nows1).table;
            InsertAll(t, DummyUsers(Hash(SeedPassword, salt2)), nows2) == Seeding(t, 0)
  {
    var t := InsertAll(s, DummyUsers(Hash(SeedPassword, salt1)), nows1).table;
    InsertAllRows(s, DummyUsers(Hash(SeedPassword, salt1)), nows1);
    NothingNewInsertsNothing(t, DummyUsers(Hash(SeedPassword, salt2)), nows2);
  }
}
