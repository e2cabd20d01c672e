// sqlite_migrator.SQLiteMigrator: forward-only, one transaction per file.
module Migrator {
  import opened Ordering

  datatype Stmt = Ddl(text: string) | SetUserVersion(n: int)

  /** One `v{N}__slug.sql` file, already split into statements. */
  datatype Migration = Migration(version: nat, name: string, body: seq<Stmt>)

  /** What is durable: `PRAGMA user_version` and the statements committed so far. */
  datatype Durable = Durable(version: int, executed: seq<Stmt>)

  /** Which statement of which file raises; index `|body|` is the version pragma or COMMIT. */
  datatype Fault = NoFault | FailsAt(name: string, at: nat)

  datatype Outcome = Ok | DownMigrationDisallowed | SchemaTooNew | ReadOnlyDbOutdated | MigrationFailed

  /** One `ensure_current` call of some release of the code. */
  datatype Open = Open(latest: int, files: seq<Migration>, hasDown: bool, writeCapable: bool, fault: Fault)

  // ---- specification ------------------------------------------------------------------

  predicate NameLe(a: Migration, b: Migration) { StrLe(a.name, b.name) }
  predicate VersionLe(a: Migration, b: Migration) { a.version <= b.version }

  function Due(current: int, latest: int): Migration -> bool {
    (m: Migration) => current < m.version <= latest
  }

  function Pending(files: seq<Migration>, current: int, latest: int): seq<Migration> {
    Sort(VersionLe, Filter(Due(current, latest), Sort(NameLe, files)))
  }

  predicate Hit(m: Migration, fault: Fault) {
    fault.FailsAt? && fault.name == m.name && fault.at <= |m.body|
  }

  function Applied(db: Durable, m: Migration): Durable {
    Durable(m.version, db.executed + m.body)
  }

  /** Files up to the first one that fails. */
  function ApplyAll(db: Durable, pending: seq<Migration>, fault: Fault): (Durable, Outcome)
    decreases |pending|
  {
    if pending == [] then (db, Ok)
    else if Hit(pending[0], fault) then (db, MigrationFailed)
    else ApplyAll(Applied(db, pending[0]), pending[1..], fault)
  }

  function Opened(db: Durable, o: Open): (Durable, Outcome) {
    if o.hasDown then (db, DownMigrationDisallowed)
    else if db.version > o.latest then (db, SchemaTooNew)
    else if db.version == o.latest then (db, Ok)
    else if !o.writeCapable then (db, ReadOnlyDbOutdated)
    else
      var pending := Pending(o.files, db.version, o.latest);
      if pending == [] then (db, MigrationFailed) else ApplyAll(db, pending, o.fault)
  }

  function AfterOpens(db: Durable, opens: seq<Open>): Durable
    decreases |opens|
  {
    if opens == [] then db else AfterOpens(Opened(db, opens[0]).0, opens[1..])
  }

  /** Opens follow one another. */
  lemma {:induction false} OpensFollow(db: Durable, opens: seq<Open>, o: Open)
    ensures AfterOpens(db, opens + [o]) == Opened(AfterOpens(db, opens), o).0
    decreases |opens|
  {
    hide Opened;
    var all := opens + [o];
    if opens == [] {
      assert all[0] == o && all[1..] == [];
    } else {
      assert all[0] == opens[0] && all[1..] == opens[1..] + [o];
      OpensFollow(Opened(db, opens[0]).0, opens[1..], o);
    }
  }

  /** By version, and by name where versions are equal. */
  ghost predicate InOrder(s: seq<Migration>) {
    forall i, j :: 0 <= i < j < |s| ==>
      s[i].version < s[j].version || (s[i].version == s[j].version && StrLe(s[i].name, s[j].name))
  }

  lemma {:induction false} InsertInOrder(x: Migration, s: seq<Migration>)
    requires InOrder(s) && forall y :: y in s ==> StrLe(x.name, y.name)
    ensures InOrder(Insert(VersionLe, x, s))
  {
    if s != [] && !VersionLe(x, s[0]) {
      var rest := Insert(VersionLe, x, s[1..]);
      InsertInOrder(x, s[1..]);
      InsertKeepsElements(VersionLe, x, s[1..]);
      forall i | 0 <= i < |rest| ensures s[0].version < rest[i].version
                                         || (s[0].version == rest[i].version && StrLe(s[0].name, rest[i].name))
      {
        assert rest[i] in multiset(rest);
        assert rest[i] == x || rest[i] in s[1..];
      }
    }
  }

  lemma {:induction false} SortInOrder(s: seq<Migration>)
    requires forall i, j :: 0 <= i < j < |s| ==> StrLe(s[i].name, s[j].name)
    ensures InOrder(Sort(VersionLe, s))
  {
    if s != [] {
      SortInOrder(s[1..]);
      SortMembers(VersionLe, s[1..]);
      InsertInOrder(s[0], Sort(VersionLe, s[1..]));
    }
  }

  lemma {:induction false} FilterKeepsNameOrder(keep: Migration -> bool, s: seq<Migration>)
    requires forall i, j :: 0 <= i < j < |s| ==> StrLe(s[i].name, s[j].name)
    ensures forall i, j :: 0 <= i < j < |Filter(keep, s)| ==> StrLe(Filter(keep, s)[i].name, Filter(keep, s)[j].name)
  {
    if s != [] {
      FilterKeepsNameOrder(keep, s[1..]);
      FilterMembers(keep, s[1..]);
      assert forall y :: y in s[1..] ==> StrLe(s[0].name, y.name);
    }
  }

  /** The pending files are exactly those above the current version and up to the latest, by version and then by name. */
  lemma PendingExactly(files: seq<Migration>, current: int, latest: int)
    ensures var pending := Pending(files, current, latest);
            && (forall m :: m in pending <==> m in files && current < m.version <= latest)
            && InOrder(pending)
  {
    var named := Sort(NameLe, files);
    NameLeIsOrder();
    SortSorts(NameLe, files);
    SortMembers(NameLe, files);
    FilterMembers(Due(current, latest), named);
    FilterKeepsNameOrder(Due(current, latest), named);
    SortInOrder(Filter(Due(current, latest), named));
    SortMembers(VersionLe, Filter(Due(current, latest), named));
  }

  lemma NameLeIsOrder()
    ensures TotalPreorder(NameLe)
  {
    forall a, b ensures NameLe(a, b) || NameLe(b, a) { StrLeTotal(a.name, b.name); }
    forall a, b, c | NameLe(a, b) && NameLe(b, c) ensures NameLe(a, c) { StrLeTransitive(a.name, b.name, c.name); }
  }

  // ---- the code --------------------------------------------------------------------------

  class SQLiteMigrator {
    var db: Durable

    constructor (db: Durable)
      ensures this.db == db
    {
      this.db := db;
    }

    /** `_list_pending_migrations` */
    method ListPending(files: seq<Migration>, current: int, latest: int) returns (pending: seq<Migration>)
      ensures pending == Pending(files, current, latest)
    {
      var entries := Sort(NameLe, files);
      var keep := Due(current, latest);
      pending := [];
      for i := 0 to |entries|
        invariant pending == Filter(keep, entries[..i])
      {
        assert entries[..i + 1] == entries[..i] + [entries[i]];
        FilterAppends(keep, entries[..i], [entries[i]]);
        if current < entries[i].version <= latest { pending := pending + [entries[i]]; }
      }
      assert entries[..|entries|] == entries;
      pending := Sort(VersionLe, pending);
    }

    /** `_apply_one`: BEGIN, every statement, the version pragma, COMMIT; or ROLLBACK. */
    method ApplyOne(m: Migration, fault: Fault) returns (ok: bool)
      modifies this
      ensures ok == !Hit(m, fault)
      ensures db == if ok then Applied(old(db), m) else old(db)
    {
      var begin := db;
      for i := 0 to |m.body|
        invariant begin == old(db)
        invariant db.executed == begin.executed + m.body[..i]
        invariant !(fault.FailsAt? && fault.name == m.name && fault.at < i)
      {
        if fault == FailsAt(m.name, i) {
          db := begin;
          return false;
        }
        var stmt := m.body[i];
        db := db.(executed := db.executed + [stmt]);
        if stmt.SetUserVersion? { db := db.(version := stmt.n); }
        assert m.body[..i + 1] == m.body[..i] + [stmt];
      }
      if fault == FailsAt(m.name, |m.body|) {
        db := begin;
        return false;
      }
      if db.version != m.version { db := db.(version := m.version); }
      assert m.body[..|m.body|] == m.body;
      return true;
    }

    /** `ensure_current` with `_migrate_to_latest` inlined at its only call. */
    method EnsureCurrent(o: Open) returns (outcome: Outcome)
      modifies this
      ensures (db, outcome) == Opened(old(db), o)
    {
      if o.hasDown { return DownMigrationDisallowed; }
      var current := db.version;
      if current > o.latest { return SchemaTooNew; }
      if current == o.latest { return Ok; }
      if !o.writeCapable { return ReadOnlyDbOutdated; }
      var pending := ListPending(o.files, current, o.latest);
      if pending == [] { return MigrationFailed; }
      for i := 0 to |pending|
        invariant ApplyAll(old(db), pending, o.fault) == ApplyAll(db, pending[i..], o.fault)
      {
        assert pending[i..][0] == pending[i] && pending[i..][1..] == pending[i + 1..];
        var ok := ApplyOne(pending[i], o.fault);
        if !ok { return MigrationFailed; }
      }
      assert pending[|pending|..] == [];
      return Ok;
    }
  }

  // ---- facts about the pending list ------------------------------------------------------

  lemma PendingFacts(files: seq<Migration>, current: int, latest: int)
    ensures Sorted(VersionLe, Pending(files, current, latest))
    ensures forall m :: m in Pending(files, current, latest) <==> m in files && current < m.version <= latest
  {
    var keep := Due(current, latest);
    var kept := Filter(keep, Sort(NameLe, files));
    SortMembers(NameLe, files);
    FilterMembers(keep, Sort(NameLe, files));
    SortMembers(VersionLe, kept);
    SortSorts(VersionLe, kept);
  }

  lemma {:induction false} ApplyAllFacts(db: Durable, pending: seq<Migration>, fault: Fault)
    requires Sorted(VersionLe, pending)
    requires forall m :: m in pending ==> db.version <= m.version
    ensures db.version <= ApplyAll(db, pending, fault).0.version
    ensures ApplyAll(db, pending, fault).1 == Ok && pending != [] ==>
              ApplyAll(db, pending, fault).0.version == pending[|pending| - 1].version
    ensures ApplyAll(db, pending, fault).1 in {Ok, MigrationFailed}
    decreases |pending|
  {
    if pending != [] && !Hit(pending[0], fault) {
      forall m | m in pending[1..] ensures pending[0].version <= m.version {
        var j :| 0 <= j < |pending| - 1 && pending[1..][j] == m;
        assert VersionLe(pending[0], pending[j + 1]);
      }
      assert pending[0] in pending;
      ApplyAllFacts(Applied(db, pending[0]), pending[1..], fault);
    }
  }

  // ---- promises over any sequence of opens ------------------------------------------------

  /** Whatever files, faults and code releases the opens meet, the version never goes down. */
  lemma {:induction false} VersionNeverDecreases(db: Durable, opens: seq<Open>)
    ensures db.version <= AfterOpens(db, opens).version
    decreases |opens|
  {
    if opens != [] {
      var o := opens[0];
      PendingFacts(o.files, db.version, o.latest);
      ApplyAllFacts(db, Pending(o.files, db.version, o.latest), o.fault);
      VersionNeverDecreases(Opened(db, o).0, opens[1..]);
    }
  }

  /** A successful write-capable open of an older database reaches `latest` exactly when
      the directory holds a file numbered `latest`: the code never checks where it ended. */
  lemma SuccessReachesLatestIff(db: Durable, o: Open)
    requires db.version < o.latest && Opened(db, o).1 == Ok
    ensures Opened(db, o).0.version == o.latest <==> exists m :: m in o.files && m.version == o.latest
  {
    var pending := Pending(o.files, db.version, o.latest);
    PendingFacts(o.files, db.version, o.latest);
    ApplyAllFacts(db, pending, o.fault);
    var last := pending[|pending| - 1];
    assert last in pending;
    if m :| m in o.files && m.version == o.latest {
      assert m in pending;
      var j :| 0 <= j < |pending| && pending[j] == m;
      assert j < |pending| - 1 ==> VersionLe(pending[j], last);
    }
  }

  /** A directory without the last file: the open succeeds and stays a version behind. */
  lemma SuccessBelowLatest()
    ensures Opened(Durable(0, []), Open(2, [Migration(1, "v1__initial.sql", [Ddl("t")])], false, true, NoFault))
            == (Durable(1, [Ddl("t")]), Ok)
  {
    var m := Migration(1, "v1__initial.sql", [Ddl("t")]);
    assert [m][..0] == [] && [m][1..] == [];
    assert Sort(NameLe, []) == [] && Insert(NameLe, m, []) == [m] && Insert(VersionLe, m, []) == [m];
    assert Sort(NameLe, [m]) == [m] && Sort(VersionLe, [m]) == [m];
    FilterAppends(Due(0, 2), [], [m]);
    assert [] + [m] == [m] && Due(0, 2)(m) && Filter(Due(0, 2), [m]) == [m];
    assert Pending([m], 0, 2) == [m];
    assert [] + m.body == m.body && Applied(Durable(0, []), m) == Durable(1, [Ddl("t")]) && !Hit(m, NoFault);
    assert ApplyAll(Durable(0, []), [m], NoFault) == ApplyAll(Applied(Durable(0, []), m), [], NoFault);
  }

  function Replay(catalog: seq<Migration>): seq<Stmt> {
    if catalog == [] then [] else Replay(catalog[..|catalog| - 1]) + catalog[|catalog| - 1].body
  }

  /** The released migrations: number i+1 at index i. */
  predicate Contiguous(catalog: seq<Migration>) {
    forall i :: 0 <= i < |catalog| ==> catalog[i].version == i + 1
  }

  /** A release that ships the first `latest` migrations of the catalog, in any directory order. */
  predicate Ships(o: Open, catalog: seq<Migration>) {
    0 <= o.latest <= |catalog| && multiset(o.files) == multiset(catalog[..o.latest])
  }

  /** The database is exactly the replay of migrations 1..version, each once and in order. */
  predicate Consistent(db: Durable, catalog: seq<Migration>) {
    0 <= db.version <= |catalog| && db.executed == Replay(catalog[..db.version])
  }

  lemma DueFacts(catalog: seq<Migration>, current: nat, latest: nat)
    requires Contiguous(catalog) && current <= latest <= |catalog|
    ensures Sorted(VersionLe, catalog[current..latest])
    ensures Antisymmetric(VersionLe, catalog[current..latest])
    ensures TotalPreorder(VersionLe)
  {
    forall x, y | x in catalog[current..latest] && y in catalog[current..latest] && x.version == y.version
      ensures x == y
    {
      assert catalog[x.version - 1] == x && catalog[y.version - 1] == y;
    }
  }

  lemma DueVersions(catalog: seq<Migration>, current: nat, latest: nat)
    requires Contiguous(catalog) && current <= latest <= |catalog|
    ensures forall x :: x in catalog[..current] ==> !Due(current, latest)(x)
    ensures forall x :: x in catalog[current..latest] ==> Due(current, latest)(x)
  {
  }

  /** Of the shipped files, whatever their arrangement, the due ones are those after `current`. */
  lemma {:induction false} DueOfShipped(catalog: seq<Migration>, entries: seq<Migration>, current: nat, latest: nat)
    requires Contiguous(catalog) && current <= latest <= |catalog|
    requires multiset(entries) == multiset(catalog[..latest])
    ensures multiset(Filter(Due(current, latest), entries)) == multiset(catalog[current..latest])
  {
    hide Filter, Due, Contiguous;
    var keep, due := Due(current, latest), catalog[current..latest];
    DueVersions(catalog, current, latest);
    FilterIgnoresArrangement(keep, entries, catalog[..latest]);
    assert catalog[..latest] == catalog[..current] + due;
    FilterAppends(keep, catalog[..current], due);
    FilterNone(keep, catalog[..current]);
    FilterAll(keep, due);
    assert [] + due == due;
  }

  lemma PendingOfShipped(catalog: seq<Migration>, o: Open, current: int)
    requires Contiguous(catalog) && Ships(o, catalog) && 0 <= current <= o.latest
    ensures Pending(o.files, current, o.latest) == catalog[current..o.latest]
  {
    hide Sort, Filter;
    var due, entries := catalog[current..o.latest], Sort(NameLe, o.files);
    SortKeepsElements(NameLe, o.files);
    DueOfShipped(catalog, entries, current, o.latest);
    var found := Filter(Due(current, o.latest), entries);
    SortKeepsElements(VersionLe, found);
    DueFacts(catalog, current, o.latest);
    SortSorts(VersionLe, found);
    hide Contiguous, Ships, Antisymmetric, Sorted, TotalPreorder;
    SortedUnique(VersionLe, due, Sort(VersionLe, found));
  }

  lemma {:induction false} FilterNone<T>(keep: T -> bool, s: seq<T>)
    requires forall x :: x in s ==> !keep(x)
    ensures Filter(keep, s) == []
  {
    if s != [] { FilterNone(keep, s[1..]); }
  }

  lemma {:induction false} FilterAll<T>(keep: T -> bool, s: seq<T>)
    requires forall x :: x in s ==> keep(x)
    ensures Filter(keep, s) == s
  {
    if s != [] { FilterAll(keep, s[1..]); assert s == [s[0]] + s[1..]; }
  }

  /** Applying the due files keeps the replay, and a fault stops right before its file. */
  lemma {:induction false} ApplyAllReplays(db: Durable, catalog: seq<Migration>, latest: nat, fault: Fault)
    requires Contiguous(catalog) && Consistent(db, catalog) && db.version <= latest <= |catalog|
    ensures
      var (db', outcome) := ApplyAll(db, catalog[db.version..latest], fault);
      && Consistent(db', catalog) && db.version <= db'.version <= latest
      && outcome in {Ok, MigrationFailed}
      && (outcome == Ok ==> db'.version == latest)
      && (outcome != Ok ==> db'.version < latest && Hit(catalog[db'.version], fault))
      && (forall v :: db.version <= v < db'.version ==> !Hit(catalog[v], fault))
    decreases latest - db.version
  {
    var due := catalog[db.version..latest];
    if db.version < latest && !Hit(catalog[db.version], fault) {
      var next := Applied(db, catalog[db.version]);
      assert catalog[..db.version + 1][..db.version] == catalog[..db.version];
      assert due[0] == catalog[db.version] && due[1..] == catalog[db.version + 1..latest];
      ApplyAllReplays(next, catalog, latest, fault);
    }
  }

  /** One open of a release: the replay is kept; a write-capable success ends at `latest`;
      a failed migration leaves the version just below the file that failed. */
  lemma OpenOfRelease(db: Durable, o: Open, catalog: seq<Migration>)
    requires Contiguous(catalog) && Ships(o, catalog) && Consistent(db, catalog)
    ensures Consistent(Opened(db, o).0, catalog)
    ensures db.version <= Opened(db, o).0.version
    ensures Opened(db, o).1 == Ok ==> Opened(db, o).0.version == o.latest
    ensures Opened(db, o).1 == MigrationFailed ==>
              Opened(db, o).0.version < o.latest && Hit(catalog[Opened(db, o).0.version], o.fault)
  {
    if db.version < o.latest {
      PendingOfShipped(catalog, o, db.version);
      ApplyAllReplays(db, catalog, o.latest, o.fault);
    }
  }

  /** The fault strikes the catalog's file `v`, in a statement or at its end. */
  ghost predicate Breaks(catalog: seq<Migration>, v: int, fault: Fault) {
    0 <= v < |catalog| && fault.FailsAt? && fault.name == catalog[v].name && 0 <= fault.at <= |catalog[v].body|
  }

  /** What an open by a release ends in. Only an older database under a writer is migrated: to the latest version, or up to
      just before the first file the fault strikes. */
  lemma OpenEndsExactly(db: Durable, o: Open, catalog: seq<Migration>)
    requires Contiguous(catalog) && Ships(o, catalog) && Consistent(db, catalog)
    ensures
      var (after, outcome) := Opened(db, o);
      && (outcome == DownMigrationDisallowed <==> o.hasDown)
      && (outcome == SchemaTooNew <==> !o.hasDown && db.version > o.latest)
      && (outcome == ReadOnlyDbOutdated <==> !o.hasDown && db.version < o.latest && !o.writeCapable)
      && (outcome == MigrationFailed <==>
            !o.hasDown && db.version < o.latest && o.writeCapable && exists v :: db.version <= v < o.latest && Breaks(catalog, v, o.fault))
      && (outcome == MigrationFailed ==>
            Breaks(catalog, after.version, o.fault) && forall v :: db.version <= v < after.version ==> !Breaks(catalog, v, o.fault))
      && (outcome == Ok ==> after.version == o.latest)
      && (outcome !in {Ok, MigrationFailed} ==> after == db)
  {
    if db.version < o.latest {
      PendingOfShipped(catalog, o, db.version);
      ApplyAllReplays(db, catalog, o.latest, o.fault);
      assert Pending(o.files, db.version, o.latest) != [];
      assert forall v :: 0 <= v < |catalog| ==> (Breaks(catalog, v, o.fault) <==> Hit(catalog[v], o.fault));
      hide Pending, ApplyAll, Hit, Breaks;
    }
  }

  /** Over any sequence of opens by releases of one catalog, with faults anywhere. */
  lemma {:induction false} OpensReplayTheCatalog(db: Durable, opens: seq<Open>, catalog: seq<Migration>)
    requires Contiguous(catalog) && Consistent(db, catalog)
    requires forall i :: 0 <= i < |opens| ==> Ships(opens[i], catalog)
    ensures Consistent(AfterOpens(db, opens), catalog)
    decreases |opens|
  {
    if opens != [] {
      OpenOfRelease(db, opens[0], catalog);
      OpensReplayTheCatalog(Opened(db, opens[0]).0, opens[1..], catalog);
    }
  }
}
