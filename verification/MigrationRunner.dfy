/**
 Migrations over an abstract database: the schema_version table and everything else. A script is a
 partial step; what it leaves behind when it fails is undone by the rollback.
 */
module MigrationSpec {
  import opened Wrappers
  import opened MigrationNames
  import opened SectionSplitter
  import opened Bytes

  datatype MigrationFile = MigrationFile(version: int, filename: string, upSql: string, downSql: string)

  // Discovery.

  /** A directory entry; its content is None if the file cannot be opened. */
  datatype DirEntry = DirEntry(name: string, isRegularFile: bool, content: Option<string>)

  predicate Matches(e: DirEntry) {
    e.isRegularFile && VersionDigits(e.name).Some?
  }

  function Version(e: DirEntry): nat
    requires Matches(e)
  {
    Number(VersionDigits(e.name).value)
  }

  /** std::stoi throws on such a name, before the file is opened. */
  predicate OutOfRange(e: DirEntry) {
    Matches(e) && Version(e) > INT_MAX
  }

  function Parse(e: DirEntry): MigrationFile
    requires Matches(e) && e.content.Some?
  {
    var s := Split(e.content.value);
    MigrationFile(Version(e), e.name, s.up, s.down)
  }

  function ParseAll(entries: seq<DirEntry>): seq<MigrationFile> {
    if entries == [] then []
    else
      var e := entries[|entries| - 1];
      ParseAll(entries[..|entries| - 1]) + (if Matches(e) && e.content.Some? then [Parse(e)] else [])
  }

  ghost predicate AnyOutOfRange(entries: seq<DirEntry>) {
    exists i :: 0 <= i < |entries| && OutOfRange(entries[i])
  }

  function Insert(f: MigrationFile, fs: seq<MigrationFile>): seq<MigrationFile> {
    if fs == [] || f.version < fs[0].version then [f] + fs else [fs[0]] + Insert(f, fs[1..])
  }

  /** std::sort by version, as a function. */
  function SortByVersion(fs: seq<MigrationFile>): seq<MigrationFile> {
    if fs == [] then [] else Insert(fs[|fs| - 1], SortByVersion(fs[..|fs| - 1]))
  }

  ghost predicate Sorted(fs: seq<MigrationFile>) {
    forall i, j :: 0 <= i < j < |fs| ==> fs[i].version <= fs[j].version
  }

  ghost predicate StrictlySorted(fs: seq<MigrationFile>) {
    forall i, j :: 0 <= i < j < |fs| ==> fs[i].version < fs[j].version
  }

  lemma {:induction false} InsertMembers(f: MigrationFile, fs: seq<MigrationFile>)
    ensures multiset(Insert(f, fs)) == multiset(fs) + multiset{f}
  {
    if fs == [] || f.version < fs[0].version {
    } else {
      InsertMembers(f, fs[1..]);
      assert fs == [fs[0]] + fs[1..];
    }
  }

  lemma {:induction false} InsertSorts(f: MigrationFile, fs: seq<MigrationFile>)
    requires Sorted(fs)
    ensures Sorted(Insert(f, fs))
    ensures forall i :: 0 <= i < |Insert(f, fs)| ==> Insert(f, fs)[i] == f || Insert(f, fs)[i] in fs
  {
    if fs == [] || f.version < fs[0].version {
    } else {
      InsertSorts(f, fs[1..]);
    }
  }

  lemma {:induction false} SortSorts(fs: seq<MigrationFile>)
    ensures Sorted(SortByVersion(fs)) && multiset(SortByVersion(fs)) == multiset(fs)
  {
    if fs == [] {
    } else {
      var init, last := fs[..|fs| - 1], fs[|fs| - 1];
      SortSorts(init);
      InsertMembers(last, SortByVersion(init));
      InsertSorts(last, SortByVersion(init));
      assert fs == init + [last];
    }
  }

  /** With distinct versions the order in which the directory is read does not matter. */
  lemma {:induction false} SortedUnique(a: seq<MigrationFile>, b: seq<MigrationFile>)
    requires StrictlySorted(a) && Sorted(b) && multiset(a) == multiset(b)
    ensures a == b
  {
    if a == [] {
      assert |multiset(b)| == |multiset(a)|;
    } else {
      assert a[0] in multiset(b) && |multiset(b)| == |b|;
      SameFirst(a, b);
      SameRest(a, b);
      SortedUnique(a[1..], b[1..]);
      hide StrictlySorted, Sorted;
      assert a == [a[0]] + a[1..] && b == [b[0]] + b[1..];
    }
  }

  lemma SameRest(a: seq<MigrationFile>, b: seq<MigrationFile>)
    requires a != [] && b != [] && a[0] == b[0] && multiset(a) == multiset(b)
    ensures multiset(a[1..]) == multiset(b[1..])
  {
    assert a == [a[0]] + a[1..] && b == [b[0]] + b[1..];
    assert multiset(a[1..]) == multiset(a) - multiset{a[0]};
    assert multiset(b[1..]) == multiset(b) - multiset{b[0]};
  }

  lemma SameFirst(a: seq<MigrationFile>, b: seq<MigrationFile>)
    requires StrictlySorted(a) && Sorted(b) && multiset(a) == multiset(b) && a != [] && b != []
    ensures a[0] == b[0]
  {
    assert a[0] in multiset(b) && b[0] in multiset(a);
    var i :| 0 <= i < |a| && a[i] == b[0];
    var j :| 0 <= j < |b| && b[j] == a[0];
  }

  // What becomes of a directory entry.

  lemma OnlyEntry(e: DirEntry)
    ensures ParseAll([e]) == if Matches(e) && e.content.Some? then [Parse(e)] else []
  {
    assert [e][..0] == [];
  }

  lemma {:induction false} ParseAllConcat(a: seq<DirEntry>, b: seq<DirEntry>)
    ensures ParseAll(a + b) == ParseAll(a) + ParseAll(b)
  {
    hide ParseAll;
    if b == [] {
      assert a + b == a && ParseAll([]) == [] by { NoEntries(); }
    } else {
      var init, e := b[..|b| - 1], b[|b| - 1];
      ParseAllConcat(a, init);
      assert init + [e] == b && a + init + [e] == a + b;
      LastEntry(init, e);
      LastEntry(a + init, e);
    }
  }

  lemma NoEntries()
    ensures ParseAll([]) == []
  {
  }

  lemma LastEntry(entries: seq<DirEntry>, e: DirEntry)
    ensures ParseAll(entries + [e]) == ParseAll(entries) + ParseAll([e])
  {
    hide Matches, Parse;
    assert (entries + [e])[..|entries|] == entries && [e][..0] == [];
  }

  /** A file of the documented name and layout gives its version, its name and both of its sections. */
  lemma PrintedFile(zeros: nat, v: nat, title: string, header: string, up: string, down: string)
    requires title != "" && OneLine(title) && |Print(header, up, down)| < TWO_TO_THE_64
    ensures var name := PrintName(Zeros(zeros) + Decimal(v), title);
            ParseAll([DirEntry(name, true, Some(Print(header, up, down)))]) == [MigrationFile(v, name, up, down)]
            <==> Transparent(header) && !Contains(header, "-- DOWN") && !Contains(up, "-- DOWN")
  {
    hide Number, Decimal, VersionDigits, PrintName, Print, UpSection, DownSection, Transparent, Contains;
    OnlyEntry(DirEntry(PrintName(Zeros(zeros) + Decimal(v), title), true, Some(Print(header, up, down))));
    VersionOfPrintedName(zeros, v, title);
    SplitUndoesPrint(header, up, down);
  }

  /** Exactly the readable regular files with a matching name are read, each with the sections of its text. */
  lemma EntryIsRead(e: DirEntry)
    ensures ParseAll([e]) != [] <==> e.isRegularFile && VersionDigits(e.name).Some? && e.content.Some?
    ensures ParseAll([e]) != [] ==>
              var f := ParseAll([e])[0];
              && |ParseAll([e])| == 1 && f.version == Number(VersionDigits(e.name).value) && f.filename == e.name
              && f.upSql == UpSection(e.content.value) && f.downSql == DownSection(e.content.value)
  {
    hide Number, VersionDigits, UpSection, DownSection;
    OnlyEntry(e);
  }

  /** Whatever else the directory holds and in whatever order, discovery lists what an entry gives by itself. */
  lemma DiscoveredFile(before: seq<DirEntry>, e: DirEntry, after: seq<DirEntry>)
    ensures multiset(SortByVersion(ParseAll(before + [e] + after)))
            == multiset(ParseAll(before)) + multiset(ParseAll([e])) + multiset(ParseAll(after))
  {
    hide ParseAll, SortByVersion;
    SortSorts(ParseAll(before + [e] + after));
    ParseAllConcat(before + [e], after);
    ParseAllConcat(before, [e]);
  }

  /** A version is out of range exactly above the largest int. */
  lemma RangeLimit(zeros: nat, v: nat, title: string, content: Option<string>)
    requires title != "" && OneLine(title)
    ensures OutOfRange(DirEntry(PrintName(Zeros(zeros) + Decimal(v), title), true, content)) <==> v > 2147483647
  {
    hide Number, Decimal, VersionDigits, PrintName;
    VersionOfPrintedName(zeros, v, title);
  }

  predicate DashFree(text: string) {
    forall i :: 0 <= i < |text| ==> text[i] != '-'
  }

  lemma NoDashNoMarker(text: string)
    requires DashFree(text)
    ensures !Contains(text, "-- DOWN")
  {
    forall i: nat ensures !OccursAt(text, "-- DOWN", i) {
      if OccursAt(text, "-- DOWN", i) {
        LetterAt(text, "-- DOWN", i, 0);
      }
    }
  }

  /** The file that tests/unit/test_migration_runner.cpp writes. */
  lemma TestFile()
    ensures var up := "CREATE TABLE test_table" + " (id INTEGER PRIMARY KEY" + ", name TEXT);\n";
            var down := "DROP TABLE test_table;\n";
            ParseAll([DirEntry("001_test.sql", true, Some("-- UP\n" + up + "-- DOWN\n" + down))])
            == [MigrationFile(1, "001_test.sql", up, down)]
  {
    hide ParseAll;
    var up, down := TestUp(), "DROP TABLE test_table;\n";
    PrintedFile(2, 1, "test", "", up, down);
    TestName();
    NoDashNoMarker("");
    NoDashNoMarker(up);
    TestPrint(up, down);
  }

  function TestUp(): (up: string)
    ensures DashFree(up)
  {
    "CREATE TABLE test_table" + " (id INTEGER PRIMARY KEY" + ", name TEXT);\n"
  }

  lemma TestName()
    ensures PrintName(Zeros(2) + Decimal(1), "test") == "001_test.sql" && OneLine("test")
  {
  }

  lemma TestPrint(up: string, down: string)
    ensures Print("", up, down) == "-- UP\n" + up + "-- DOWN\n" + down && Transparent("")
  {
  }

  // The database.

  /** `rows` is the schema_version table; None means that the table does not exist. */
  datatype Db<S> = Db(rows: Option<seq<int>>, data: S)

  /** What a script does to a database, and whether it succeeds. */
  type Scripts<!S> = (string, Db<S>) -> (Db<S>, bool)

  /** SELECT version FROM schema_version LIMIT 1; 0 without a table or a row. */
  function CurrentVersion<S>(db: Db<S>): int {
    if db.rows.None? || db.rows.value == [] then 0 else db.rows.value[0]
  }

  /** UPDATE schema_version SET version = v; fails without a table. */
  function SetVersion<S>(db: Db<S>, v: int): Option<Db<S>> {
    match db.rows
    case None => None
    case Some(rows) => Some(db.(rows := Some(seq(|rows|, i => v))))
  }

  datatype EnsureFault = NoEnsureFault | CreateFails | SeedFails

  /** CREATE TABLE IF NOT EXISTS, then one row with version 0 if there is none; a failed INSERT goes unnoticed. */
  function EnsureTable<S>(db: Db<S>, fault: EnsureFault): Option<Db<S>> {
    if fault.CreateFails? then None
    else
      var rows := if db.rows.Some? then db.rows.value else [];
      Some(db.(rows := Some(if rows == [] && !fault.SeedFails? then [0] else rows)))
  }

  /** An external fault in one migration; a failing script may leave any partial state behind. */
  datatype Fault<S> = NoFault | BeginFails | UpFails(partial: Db<S>) | VersionFails | CommitFails(staysOpen: bool)

  /** One migration as a transaction: the new database, or None when nothing was committed. */
  function Migrate<S>(exec: Scripts<S>, fault: Fault<S>, db: Db<S>, f: MigrationFile): Option<Db<S>> {
    if !fault.NoFault? then None
    else
      var (working, ok) := exec(f.upSql, db);
      if ok then SetVersion(working, f.version) else None
  }

  /** The database left behind, the number of committed migrations, and whether all pending ones succeeded. */
  datatype Outcome<S> = Outcome(db: Db<S>, applied: nat, ok: bool)

  function ApplyFiles<S>(exec: Scripts<S>, faults: MigrationFile -> Fault<S>, db: Db<S>, files: seq<MigrationFile>,
                         current: int): Outcome<S>
    decreases |files|
  {
    if files == [] then Outcome(db, 0, true)
    else if files[0].version <= current then ApplyFiles(exec, faults, db, files[1..], current)
    else
      match Migrate(exec, faults(files[0]), db, files[0])
      case None => Outcome(db, 0, false)
      case Some(db') =>
        var rest := ApplyFiles(exec, faults, db', files[1..], current);
        rest.(applied := rest.applied + 1)
  }

  function Apply<S>(exec: Scripts<S>, ensure: EnsureFault, faults: MigrationFile -> Fault<S>, db: Db<S>,
                    files: seq<MigrationFile>): Outcome<S> {
    match EnsureTable(db, ensure)
    case None => Outcome(db, 0, false)
    case Some(db') => ApplyFiles(exec, faults, db', files, CurrentVersion(db'))
  }

  /** The value apply() returns. */
  function ReturnCode<S>(o: Outcome<S>): int {
    if o.ok then o.applied else -1
  }

  function NoFaults<S>(): MigrationFile -> Fault<S> {
    f => NoFault
  }

  // Properties.

  function Pending(files: seq<MigrationFile>, current: int): seq<MigrationFile> {
    if files == [] then []
    else if files[0].version <= current then Pending(files[1..], current)
    else [files[0]] + Pending(files[1..], current)
  }

  /** The reference: all the given migrations committed one after the other. */
  function Commit<S>(exec: Scripts<S>, db: Db<S>, files: seq<MigrationFile>): Option<Db<S>>
    decreases |files|
  {
    if files == [] then Some(db)
    else
      match Migrate(exec, NoFault, db, files[0])
      case None => None
      case Some(db') => Commit(exec, db', files[1..])
  }

  /** Every row holds the version: whichever row LIMIT 1 picks, it is the current version. */
  ghost predicate Uniform<S>(db: Db<S>) {
    db.rows.Some? ==> forall r :: r in db.rows.value ==> r == CurrentVersion(db)
  }

  ghost predicate HasRow<S>(db: Db<S>) {
    db.rows.Some? && db.rows.value != []
  }

  /** The script never empties the version table, as no script does that leaves it alone or inserts into it. */
  ghost predicate KeepsRow<S(!new)>(exec: Scripts<S>, f: MigrationFile) {
    forall db: Db<S> :: HasRow(db) && exec(f.upSql, db).1 && exec(f.upSql, db).0.rows.Some? ==>
      HasRow(exec(f.upSql, db).0)
  }

  /** A committed migration leaves only rows with its version; the version is recorded exactly if there is a row. */
  lemma MigrateRecordsVersion<S>(exec: Scripts<S>, fault: Fault<S>, db: Db<S>, f: MigrationFile)
    requires Migrate(exec, fault, db, f).Some?
    ensures var db' := Migrate(exec, fault, db, f).value;
            && db'.rows.Some? && (forall r :: r in db'.rows.value ==> r == f.version) && Uniform(db')
            && (f.version != 0 ==> (CurrentVersion(db') == f.version <==> db'.rows.value != []))
  {
  }

  /** A migration commits exactly if nothing fails and the UP script leaves a version table; its data is kept. */
  lemma MigrateRunsUpScript<S>(exec: Scripts<S>, fault: Fault<S>, db: Db<S>, f: MigrationFile)
    ensures var (after, succeeds) := exec(f.upSql, db);
            && (Migrate(exec, fault, db, f).Some? <==> fault.NoFault? && succeeds && after.rows.Some?)
            && (Migrate(exec, fault, db, f).Some? ==>
                  var db' := Migrate(exec, fault, db, f).value;
                  db'.data == after.data && db'.rows.Some? && |db'.rows.value| == |after.rows.value|)
  {
    var (after, succeeds) := exec(f.upSql, db);
    if after.rows.Some? {
      assert SetVersion(after, f.version).Some?;
    } else {
      assert after.rows == None;
      assert SetVersion(after, f.version) == None;
    }
    if fault.NoFault? && succeeds {
      assert Migrate(exec, fault, db, f) == SetVersion(after, f.version);
    }
  }

  /** Uniformity holds in every reachable state, whatever fails and whatever the scripts insert. */
  lemma {:induction false} ApplyFilesUniform<S>(exec: Scripts<S>, faults: MigrationFile -> Fault<S>, db: Db<S>,
                                                files: seq<MigrationFile>, current: int)
    requires Uniform(db)
    ensures Uniform(ApplyFiles(exec, faults, db, files, current).db)
    decreases |files|
  {
    if files == [] {
    } else if files[0].version <= current {
      ApplyFilesUniform(exec, faults, db, files[1..], current);
    } else if Migrate(exec, faults(files[0]), db, files[0]).Some? {
      MigrateRecordsVersion(exec, faults(files[0]), db, files[0]);
      ApplyFilesUniform(exec, faults, Migrate(exec, faults(files[0]), db, files[0]).value, files[1..], current);
    }
  }

  lemma ApplyUniform<S>(exec: Scripts<S>, ensure: EnsureFault, faults: MigrationFile -> Fault<S>, db: Db<S>,
                        files: seq<MigrationFile>)
    requires Uniform(db)
    ensures Uniform(Apply(exec, ensure, faults, db, files).db)
  {
    if EnsureTable(db, ensure).Some? {
      var db' := EnsureTable(db, ensure).value;
      ApplyFilesUniform(exec, faults, db', files, CurrentVersion(db'));
    }
  }

  /** Whatever fails, the database is the state after committing a prefix of the pending migrations. */
  lemma {:induction false} AppliesPrefix<S>(exec: Scripts<S>, faults: MigrationFile -> Fault<S>, db: Db<S>,
                                            files: seq<MigrationFile>, current: int)
    ensures var o, pending := ApplyFiles(exec, faults, db, files, current), Pending(files, current);
            && o.applied <= |pending|
            && Commit(exec, db, pending[..o.applied]) == Some(o.db)
            && (o.ok <==> o.applied == |pending|)
    decreases |files|
  {
    if files == [] {
    } else {
      var pending := Pending(files, current);
      if files[0].version <= current {
        AppliesPrefix(exec, faults, db, files[1..], current);
      } else if Migrate(exec, faults(files[0]), db, files[0]).Some? {
        var db' := Migrate(exec, faults(files[0]), db, files[0]).value;
        AppliesPrefix(exec, faults, db', files[1..], current);
        var k := ApplyFiles(exec, faults, db', files[1..], current).applied;
        assert pending[..k + 1] == [files[0]] + Pending(files[1..], current)[..k];
      }
    }
  }

  lemma {:induction false} PendingOf(files: seq<MigrationFile>, current: int)
    requires Sorted(files)
    ensures Sorted(Pending(files, current)) && |Pending(files, current)| <= |files|
    ensures forall f :: f in Pending(files, current) <==> f in files && f.version > current
  {
    if files == [] {
    } else {
      PendingOf(files[1..], current);
      SortedTail(files);
      hide Sorted, Pending;
      assert files == [files[0]] + files[1..];
      if files[0].version > current {
        assert Pending(files, current) == [files[0]] + Pending(files[1..], current) by { PendingFirst(files, current); }
        SortedFront(files[0], Pending(files[1..], current));
      } else {
        PendingFirst(files, current);
      }
    }
  }

  lemma PendingFirst(files: seq<MigrationFile>, current: int)
    requires files != []
    ensures Pending(files, current)
            == (if files[0].version <= current then [] else [files[0]]) + Pending(files[1..], current)
  {
  }

  lemma SortedTail(files: seq<MigrationFile>)
    requires files != [] && Sorted(files)
    ensures Sorted(files[1..]) && forall f :: f in files[1..] ==> files[0].version <= f.version
  {
  }

  lemma SortedFront(f: MigrationFile, files: seq<MigrationFile>)
    requires Sorted(files) && forall g :: g in files ==> f.version <= g.version
    ensures Sorted([f] + files)
  {
  }

  /** In a sorted list the pending files are a suffix. */
  lemma {:induction false} PendingIsSuffix(files: seq<MigrationFile>, current: int)
    requires Sorted(files)
    ensures var n := |files| - |Pending(files, current)|;
            && n >= 0 && Pending(files, current) == files[n..]
            && forall i :: 0 <= i < |files| ==> (files[i].version > current <==> i >= n)
  {
    if files == [] {
    } else if files[0].version <= current {
      PendingIsSuffix(files[1..], current);
      var n := |files| - |Pending(files, current)|;
      assert files[n..] == files[1..][n - 1..];
      assert forall i :: 1 <= i < |files| ==> files[i] == files[1..][i - 1];
    } else {
      AllPending(files, current);
    }
  }

  /** No pending file shares the version of the last one committed. */
  ghost predicate NoTie(pending: seq<MigrationFile>, k: nat) {
    0 < k < |pending| ==> pending[k - 1].version != pending[k].version
  }

  /**
   With the version of the k-th pending file on record, exactly the files after it are pending if
   and only if the next one has another version.
   */
  lemma PendingAfter(files: seq<MigrationFile>, current: int, k: nat)
    requires Sorted(files) && 0 < k <= |Pending(files, current)|
    ensures Pending(files, Pending(files, current)[k - 1].version) == Pending(files, current)[k..]
            <==> NoTie(Pending(files, current), k)
  {
    hide Pending;
    PendingIsSuffix(files, current);
    var pending := Pending(files, current);
    var n, v := |files| - |pending|, pending[k - 1].version;
    PendingIsSuffix(files, v);
    var m := |files| - |Pending(files, v)|;
    assert files[n..][k..] == files[n + k..];
    assert pending[k - 1] == files[n + k - 1];
    if k < |pending| {
      assert pending[k] == files[n + k];
      assert m == n + k <==> files[n + k].version > v;
    }
  }

  /** Every prefix of the pending files can be recorded by its version exactly if no two have the same. */
  lemma PendingAfterExactly(files: seq<MigrationFile>, current: int)
    requires Sorted(files)
    ensures var pending := Pending(files, current);
            (forall k :: 0 < k <= |pending| ==> Pending(files, pending[k - 1].version) == pending[k..])
            <==> StrictlySorted(pending)
  {
    hide Pending;
    var pending := Pending(files, current);
    PendingOf(files, current);
    forall k | 0 < k <= |pending|
      ensures Pending(files, pending[k - 1].version) == pending[k..] <==> NoTie(pending, k)
    {
      PendingAfter(files, current, k);
    }
    StrictlySortedIs(pending);
  }

  lemma StrictlySortedIs(files: seq<MigrationFile>)
    requires Sorted(files)
    ensures StrictlySorted(files) <==> forall k :: 0 < k <= |files| ==> NoTie(files, k)
  {
    if forall k :: 0 < k <= |files| ==> NoTie(files, k) {
      forall i, j | 0 <= i < j < |files| ensures files[i].version < files[j].version {
        assert NoTie(files, j);
      }
    }
  }

  lemma {:induction false} AllPending(files: seq<MigrationFile>, current: int)
    requires forall i :: 0 <= i < |files| ==> files[i].version > current
    ensures Pending(files, current) == files
  {
    if files != [] {
      AllPending(files[1..], current);
    }
  }

  /**
   After committing any non-empty list the version table exists and holds only the last version; if
   the scripts keep a row that was there, it is on record.
   */
  lemma {:induction false} CommitRecordsVersion<S(!new)>(exec: Scripts<S>, db: Db<S>, files: seq<MigrationFile>)
    requires files != [] && Commit(exec, db, files).Some?
    ensures var db' := Commit(exec, db, files).value;
            && db'.rows.Some? && (forall r :: r in db'.rows.value ==> r == files[|files| - 1].version)
            && (HasRow(db) && (forall f :: f in files ==> KeepsRow(exec, f)) ==> HasRow(db'))
    decreases |files|
  {
    var db' := Migrate(exec, NoFault, db, files[0]).value;
    if HasRow(db) && KeepsRow(exec, files[0]) {
      MigrateKeepsRow(exec, db, files[0]);
    }
    hide Migrate, KeepsRow;
    if |files| == 1 {
      assert Commit(exec, db', files[1..]) == Some(db');
      MigrateRecordsVersion(exec, NoFault, db, files[0]);
    } else {
      CommitRecordsVersion(exec, db', files[1..]);
    }
  }

  lemma MigrateKeepsRow<S(!new)>(exec: Scripts<S>, db: Db<S>, f: MigrationFile)
    requires HasRow(db) && KeepsRow(exec, f) && Migrate(exec, NoFault, db, f).Some?
    ensures HasRow(Migrate(exec, NoFault, db, f).value)
  {
  }

  /** A fault-free run over a list of pending migrations is a fault-free run over the whole list of files. */
  lemma {:induction false} OnlyPendingMatters<S>(exec: Scripts<S>, db: Db<S>, files: seq<MigrationFile>, current: int)
    ensures ApplyFiles(exec, NoFaults(), db, files, current) == CommitLongest(exec, db, Pending(files, current))
    decreases |files|
  {
    if files == [] {
    } else if files[0].version <= current {
      OnlyPendingMatters(exec, db, files[1..], current);
    } else if Migrate(exec, NoFault, db, files[0]).Some? {
      OnlyPendingMatters(exec, Migrate(exec, NoFault, db, files[0]).value, files[1..], current);
    }
  }

  /** Commits until a script fails by itself. */
  function CommitLongest<S>(exec: Scripts<S>, db: Db<S>, files: seq<MigrationFile>): Outcome<S>
    decreases |files|
  {
    if files == [] then Outcome(db, 0, true)
    else
      match Migrate(exec, NoFault, db, files[0])
      case None => Outcome(db, 0, false)
      case Some(db') =>
        var rest := CommitLongest(exec, db', files[1..]);
        rest.(applied := rest.applied + 1)
  }

  lemma {:induction false} CommitLongestSkips<S>(exec: Scripts<S>, db: Db<S>, files: seq<MigrationFile>, k: nat)
    requires k <= |files| && Commit(exec, db, files[..k]).Some?
    ensures var rest := CommitLongest(exec, Commit(exec, db, files[..k]).value, files[k..]);
            CommitLongest(exec, db, files) == rest.(applied := rest.applied + k)
    decreases |files|
  {
    if k == 0 {
      assert files[..0] == [] && files[0..] == files;
    } else {
      var db' := Migrate(exec, NoFault, db, files[0]).value;
      assert files[..k][1..] == files[1..][..k - 1] && files[..k][0] == files[0];
      CommitLongestSkips(exec, db', files[1..], k - 1);
    }
  }

  // Running again.

  /** What a run would apply to this database. */
  function PendingAt<S>(db: Db<S>, ensure: EnsureFault, files: seq<MigrationFile>): seq<MigrationFile>
    requires !ensure.CreateFails?
  {
    Pending(files, CurrentVersion(EnsureTable(db, ensure).value))
  }

  /** The version table is created and gets a row with version 0 only where there is none. */
  lemma EnsuredTable<S>(data: S, v: int, rest: seq<int>)
    ensures EnsureTable(Db(None, data), NoEnsureFault) == Some(Db(Some([0]), data))
    ensures EnsureTable(Db(Some([]), data), NoEnsureFault) == Some(Db(Some([0]), data))
    ensures EnsureTable(Db(Some([v] + rest), data), NoEnsureFault) == Some(Db(Some([v] + rest), data))
    ensures EnsureTable(Db(None, data), SeedFails) == Some(Db(Some([]), data))
    ensures CurrentVersion(Db(Some([v] + rest), data)) == v && CurrentVersion(Db(None, data)) == 0
  {
    assert ([v] + rest)[0] == v;
  }

  /** On a new database every file with a positive version is pending. */
  lemma FreshDatabase<S>(data: S, files: seq<MigrationFile>)
    requires forall f :: f in files ==> f.version > 0
    ensures PendingAt(Db(None, data), NoEnsureFault, files) == files
  {
    AllPending(files, 0);
  }

  /** The committed migrations have left a record that tells them from the others. */
  ghost predicate Resumable<S>(o: Outcome<S>, pending: seq<MigrationFile>) {
    o.applied == 0 || (HasRow(o.db) && NoTie(pending, o.applied))
  }

  /** What any run leaves behind. */
  lemma AfterRun<S(!new)>(exec: Scripts<S>, ensure: EnsureFault, faults: MigrationFile -> Fault<S>, db: Db<S>,
                          files: seq<MigrationFile>)
    requires !ensure.CreateFails?
    ensures var o, pending := Apply(exec, ensure, faults, db, files), PendingAt(db, ensure, files);
            && o.applied <= |pending| && (o.ok <==> o.applied == |pending|)
            && Commit(exec, EnsureTable(db, ensure).value, pending[..o.applied]) == Some(o.db)
            && (o.applied == 0 ==> o.db == EnsureTable(db, ensure).value)
            && (o.applied > 0 ==>
                  o.db.rows.Some? && forall r :: r in o.db.rows.value ==> r == pending[o.applied - 1].version)
  {
    hide ApplyFiles, Commit, Pending;
    var db0 := EnsureTable(db, ensure).value;
    var o, pending := ApplyFiles(exec, faults, db0, files, CurrentVersion(db0)), PendingAt(db, ensure, files);
    AppliesPrefix(exec, faults, db0, files, CurrentVersion(db0));
    if o.applied == 0 {
      NothingCommitted(exec, db0, pending);
    } else {
      CommitRecordsVersion(exec, db0, pending[..o.applied]);
    }
  }

  lemma NothingCommitted<S>(exec: Scripts<S>, db: Db<S>, files: seq<MigrationFile>)
    ensures Commit(exec, db, files[..0]) == Some(db) && files[0..] == files
  {
  }

  lemma MorePending(files: seq<MigrationFile>, a: int, b: int)
    requires Sorted(files) && forall f :: f in Pending(files, b) ==> f.version > a
    ensures |Pending(files, a)| >= |Pending(files, b)|
  {
    hide Pending;
    PendingIsSuffix(files, a);
    PendingIsSuffix(files, b);
    if Pending(files, b) != [] {
      assert files[|files| - |Pending(files, b)|] == Pending(files, b)[0];
    }
  }

  lemma RecordedVersion<S>(db: Db<S>, version: int)
    requires HasRow(db) && forall r :: r in db.rows.value ==> r == version
    ensures CurrentVersion(db) == version && EnsureTable(db, NoEnsureFault) == Some(db)
  {
    assert db.rows.value[0] in db.rows.value;
  }

  /**
   For any scripts and any faults, the next run takes up where this one stopped if and only if this
   one committed nothing, or its version is on record and the next file has another version.
   */
  lemma RerunContinuesExactly<S(!new)>(exec: Scripts<S>, ensure: EnsureFault,
                                       faults: MigrationFile -> Fault<S>, db: Db<S>,
                                       files: seq<MigrationFile>)
    requires Sorted(files) && !ensure.CreateFails? && forall f :: f in PendingAt(db, ensure, files) ==> f.version > 0
    ensures var first, pending := Apply(exec, ensure, faults, db, files), PendingAt(db, ensure, files);
            && first.applied <= |pending|
            && (PendingAt(first.db, NoEnsureFault, files) == pending[first.applied..] <==> Resumable(first, pending))
  {
    var first, pending := Apply(exec, ensure, faults, db, files), PendingAt(db, ensure, files);
    AfterRun(exec, ensure, faults, db, files);
    hide Pending, Apply;
    if first.applied > 0 {
      if HasRow(first.db) {
        RecordedVersion(first.db, pending[first.applied - 1].version);
        PendingAfter(files, CurrentVersion(EnsureTable(db, ensure).value), first.applied);
      } else {
        MorePending(files, 0, CurrentVersion(EnsureTable(db, ensure).value));
      }
    }
  }

  /** After a successful run, another one returns 0 and changes nothing if and only if a version is on record. */
  lemma SecondRunDoesNothing<S(!new)>(exec: Scripts<S>, ensure: EnsureFault,
                                      faults: MigrationFile -> Fault<S>,
                                      again: MigrationFile -> Fault<S>, db: Db<S>,
                                      files: seq<MigrationFile>)
    requires Sorted(files) && !ensure.CreateFails? && forall f :: f in PendingAt(db, ensure, files) ==> f.version > 0
    requires Apply(exec, ensure, faults, db, files).ok
    ensures var first := Apply(exec, ensure, faults, db, files);
            var second := Apply(exec, NoEnsureFault, again, first.db, files);
            ReturnCode(second) == 0 && second.db == first.db <==> HasRow(first.db)
  {
    var first := Apply(exec, ensure, faults, db, files);
    AfterRun(exec, ensure, faults, db, files);
    RerunContinuesExactly(exec, ensure, faults, db, files);
    AfterRun(exec, NoEnsureFault, again, first.db, files);
    hide Apply, Pending, Commit;
  }

  /**
   Resuming: if the committed migrations are on record, then running again after the fault clears
   gives the database, the success and the total number of migrations of one uninterrupted run. If
   nothing was committed, that run may meet a better table check.
   */
  lemma ResumeIsUninterrupted<S(!new)>(exec: Scripts<S>, ensure: EnsureFault,
                                       faults: MigrationFile -> Fault<S>, db: Db<S>,
                                       files: seq<MigrationFile>)
    requires Sorted(files)
    requires ensure.CreateFails? || Resumable(Apply(exec, ensure, faults, db, files), PendingAt(db, ensure, files))
    ensures var first := Apply(exec, ensure, faults, db, files);
            var once := Apply(exec, if first.applied == 0 then NoEnsureFault else ensure, NoFaults(), db, files);
            var second := Apply(exec, NoEnsureFault, NoFaults(), first.db, files);
            second.db == once.db && second.ok == once.ok && first.applied + second.applied == once.applied
  {
    hide ApplyFiles, Commit, CommitLongest, Pending;
    if !ensure.CreateFails? {
      var db0 := EnsureTable(db, ensure).value;
      var first, pending := Apply(exec, ensure, faults, db, files), PendingAt(db, ensure, files);
      AfterRun(exec, ensure, faults, db, files);
      if first.applied > 0 {
        RecordedVersion(first.db, pending[first.applied - 1].version);
        PendingAfter(files, CurrentVersion(db0), first.applied);
        OnlyPendingMatters(exec, db0, files, CurrentVersion(db0));
        CommitLongestSkips(exec, db0, pending, first.applied);
        OnlyPendingMatters(exec, first.db, files, CurrentVersion(first.db));
      }
    }
  }

  /** Ordinary migrations always leave their record: distinct versions, and scripts that do not empty the table. */
  lemma OrdinaryRunsAreResumable<S(!new)>(exec: Scripts<S>, ensure: EnsureFault,
                                          faults: MigrationFile -> Fault<S>, db: Db<S>,
                                          files: seq<MigrationFile>)
    requires StrictlySorted(files) && forall f :: f in files ==> KeepsRow(exec, f)
    requires !ensure.CreateFails? && HasRow(EnsureTable(db, ensure).value)
    ensures var first, pending := Apply(exec, ensure, faults, db, files), PendingAt(db, ensure, files);
            first.applied <= |pending| && Resumable(first, pending) && HasRow(first.db)
  {
    var db0 := EnsureTable(db, ensure).value;
    var first, pending := Apply(exec, ensure, faults, db, files), PendingAt(db, ensure, files);
    AfterRun(exec, ensure, faults, db, files);
    PendingOf(files, CurrentVersion(db0));
    PendingIsSuffix(files, CurrentVersion(db0));
    hide Apply, Pending, Commit, KeepsRow;
    if first.applied > 0 {
      CommitRecordsVersion(exec, db0, pending[..first.applied]);
    }
  }

  /** One interruption of ordinary migrations. */
  lemma OneInterruption<S(!new)>(exec: Scripts<S>, ensure: EnsureFault, faults: MigrationFile -> Fault<S>, db: Db<S>,
                                 files: seq<MigrationFile>)
    requires StrictlySorted(files) && forall f :: f in files ==> KeepsRow(exec, f)
    requires ensure.SeedFails? ==> HasRow(db)
    ensures var first := Apply(exec, ensure, faults, db, files);
            var once := Apply(exec, NoEnsureFault, NoFaults(), db, files);
            var second := Apply(exec, NoEnsureFault, NoFaults(), first.db, files);
            && second.db == once.db && second.ok == once.ok && first.applied + second.applied == once.applied
            && (HasRow(db) ==> HasRow(first.db))
  {
    if !ensure.CreateFails? {
      OrdinaryRunsAreResumable(exec, ensure, faults, db, files);
    }
    hide KeepsRow, ApplyFiles;
    ResumeIsUninterrupted(exec, ensure, faults, db, files);
  }

  /** One run with the faults that it meets. */
  datatype Attempt<!S> = Attempt(ensure: EnsureFault, faults: MigrationFile -> Fault<S>)

  /** The database after a number of runs, and the number of migrations that they committed together. */
  function Attempts<S>(exec: Scripts<S>, attempts: seq<Attempt<S>>, db: Db<S>, files: seq<MigrationFile>): (Db<S>, nat)
    decreases |attempts|
  {
    if attempts == [] then (db, 0)
    else
      var o := Apply(exec, attempts[0].ensure, attempts[0].faults, db, files);
      var (db', applied) := Attempts(exec, attempts[1..], o.db, files);
      (db', o.applied + applied)
  }

  /**
   Ordinary migrations can be interrupted anywhere and any number of times: the first run without a
   fault ends in the database, the success and the total count of one uninterrupted run.
   */
  lemma {:induction false} OrdinaryMigrationsResume<S(!new)>(exec: Scripts<S>, attempts: seq<Attempt<S>>, db: Db<S>,
                                                             files: seq<MigrationFile>)
    requires StrictlySorted(files) && forall f :: f in files ==> KeepsRow(exec, f)
    requires HasRow(db) || forall i :: 0 <= i < |attempts| ==> !attempts[i].ensure.SeedFails?
    ensures var (tried, applied) := Attempts(exec, attempts, db, files);
            var last := Apply(exec, NoEnsureFault, NoFaults(), tried, files);
            var once := Apply(exec, NoEnsureFault, NoFaults(), db, files);
            last.db == once.db && last.ok == once.ok && applied + last.applied == once.applied
    decreases |attempts|
  {
    hide KeepsRow, Apply, StrictlySorted, HasRow;
    if attempts == [] {
    } else {
      OneInterruption(exec, attempts[0].ensure, attempts[0].faults, db, files);
      OrdinaryMigrationsResume(exec, attempts[1..],
                               Apply(exec, attempts[0].ensure, attempts[0].faults, db, files).db, files);
    }
  }
}

/** Where the guarantees end: inputs for which resuming does repeat or skip work. */
module MigrationLimits {
  import opened Wrappers
  import opened MigrationSpec

  // Every script succeeds and counts itself; the database is the number of scripts that ever ran.
  function CountScripts(): Scripts<int> {
    (sql: string, db: Db<int>) => (Db(db.rows, db.data + 1), true)
  }

  lemma CountedMigration(rows: seq<int>, n: int, f: MigrationFile)
    requires |rows| <= 1
    ensures Migrate(CountScripts(), NoFault, Db(Some(rows), n), f)
            == Some(Db(Some(if rows == [] then [] else [f.version]), n + 1))
  {
    assert seq(|rows|, i => f.version) == if rows == [] then [] else [f.version];
  }

  lemma PairRun(faults: MigrationFile -> Fault<int>, db: Db<int>, f: MigrationFile, g: MigrationFile, current: int)
    ensures ApplyFiles(CountScripts(), faults, db, [f, g], current)
            == if f.version <= current then ApplyFiles(CountScripts(), faults, db, [g], current)
               else match Migrate(CountScripts(), faults(f), db, f)
                    case None => Outcome(db, 0, false)
                    case Some(db') =>
                      var rest := ApplyFiles(CountScripts(), faults, db', [g], current);
                      rest.(applied := rest.applied + 1)
  {
    var files := [f, g];
    assert files[0] == f && files[1..] == [g];
  }

  lemma CountedRun(db: Db<int>, f: MigrationFile, current: int)
    ensures ApplyFiles(CountScripts(), NoFaults(), db, [f], current)
            == if f.version <= current then Outcome(db, 0, true)
               else match Migrate(CountScripts(), NoFault, db, f)
                    case None => Outcome(db, 0, false)
                    case Some(db') => Outcome(db', 1, true)
  {
    assert [f][1..] == [];
  }

  /** A failed INSERT of the first version row goes unnoticed, and then no migration is ever recorded. */
  lemma UnseededTableRepeats(f: MigrationFile)
    requires f.version > 0
    ensures var first := Apply(CountScripts(), SeedFails, NoFaults(), Db(None, 0), [f]);
            var second := Apply(CountScripts(), SeedFails, NoFaults(), first.db, [f]);
            && ReturnCode(first) == 1 && CurrentVersion(first.db) == 0
            && ReturnCode(second) == 1 && second.db.data == 2
  {
    hide ApplyFiles, Migrate;
    CountedRun(Db(Some([]), 0), f, 0);
    CountedMigration([], 0, f);
    CountedRun(Db(Some([]), 1), f, 0);
    CountedMigration([], 1, f);
  }

  // Every script succeeds, counts itself and deletes all rows of schema_version.
  function ClearingScripts(): Scripts<int> {
    (sql: string, db: Db<int>) => (Db(Some([]), db.data + 1), true)
  }

  /** A script that empties schema_version is applied by every run. */
  lemma ClearedTableRepeats(f: MigrationFile)
    requires f.version > 0
    ensures var first := Apply(ClearingScripts(), NoEnsureFault, NoFaults(), Db(None, 0), [f]);
            var second := Apply(ClearingScripts(), NoEnsureFault, NoFaults(), first.db, [f]);
            && ReturnCode(first) == 1 && CurrentVersion(first.db) == 0
            && ReturnCode(second) == 1 && second.db.data == 2
  {
    hide ApplyFiles;
    ClearedRun(0, f);
    ClearedRun(1, f);
  }

  lemma ClearedRun(n: int, f: MigrationFile)
    requires f.version > 0
    ensures ApplyFiles(ClearingScripts(), NoFaults(), Db(Some([0]), n), [f], 0) == Outcome(Db(Some([]), n + 1), 1, true)
  {
    assert [f][1..] == [];
    assert seq(0, i => f.version) == [];
  }

  /** With two files of one version, a run interrupted between them never applies the second. */
  lemma DuplicateVersionSkipped(f: MigrationFile, g: MigrationFile)
    requires f.version == g.version > 0 && f != g
    ensures var faults := (m: MigrationFile) => if m == g then BeginFails else NoFault;
            var once := Apply(CountScripts(), NoEnsureFault, NoFaults(), Db(None, 0), [f, g]);
            var first := Apply(CountScripts(), NoEnsureFault, faults, Db(None, 0), [f, g]);
            var second := Apply(CountScripts(), NoEnsureFault, NoFaults(), first.db, [f, g]);
            once.db.data == 2 && second.ok && second.db.data == 1
  {
    var faults := (m: MigrationFile) => if m == g then BeginFails else NoFault;
    var db1: Db<int> := Db(Some([f.version]), 1);
    hide Migrate, ApplyFiles;
    PairRun(NoFaults(), Db(Some([0]), 0), f, g, 0);
    PairRun(faults, Db(Some([0]), 0), f, g, 0);
    PairRun(NoFaults(), db1, f, g, f.version);
    CountedMigration([0], 0, f);
    CountedMigration([f.version], 1, g);
    CountedRun(db1, g, 0);
    CountedRun(db1, g, f.version);
    FaultStops(faults, db1, g);
  }

  lemma FaultStops(faults: MigrationFile -> Fault<int>, db: Db<int>, f: MigrationFile)
    requires f.version > 0 && faults(f) != NoFault
    ensures ApplyFiles(CountScripts(), faults, db, [f], 0) == Outcome(db, 0, false)
  {
  }
}

/** The runner of src/storage/migration_runner.cpp on a connection with transactions. */
module Migrations {
  import opened Wrappers
  import opened MigrationSpec

  /** Reads the directory into a list of files and sorts it by version; None if a name makes std::stoi throw. */
  method Discover(dirExists: bool, entries: seq<DirEntry>) returns (files: Option<seq<MigrationFile>>)
    ensures dirExists && AnyOutOfRange(entries) <==> files.None?
    ensures files.Some? ==> files.value == if dirExists then SortByVersion(ParseAll(entries)) else []
    ensures files.Some? ==> Sorted(files.value) && (dirExists ==> multiset(files.value) == multiset(ParseAll(entries)))
  {
    hide Matches, OutOfRange, Parse, SortByVersion, Sorted;
    SortSorts([]);
    if !dirExists {
      return Some([]);
    }
    var found: seq<MigrationFile> := [];
    for i := 0 to |entries|
      invariant found == ParseAll(entries[..i])
      invariant forall j :: 0 <= j < i ==> !OutOfRange(entries[j])
    {
      var e := entries[i];
      assert entries[..i + 1][..i] == entries[..i];
      if Matches(e) {
        if OutOfRange(e) {
          return None;
        }
        if e.content.Some? {
          found := found + [Parse(e)];
        }
      }
      OutOfRangeMatches(e);
    }
    assert entries[..|entries|] == entries;
    SortSorts(found);
    return Some(SortByVersion(found));
  }

  lemma OutOfRangeMatches(e: DirEntry)
    ensures OutOfRange(e) ==> Matches(e)
  {
  }

  /** An outcome that counts `n` migrations committed before it. */
  function Plus<S>(o: Outcome<S>, n: nat): Outcome<S> {
    o.(applied := o.applied + n)
  }

  lemma NoFilesLeft<S(!new)>(exec: Scripts<S>, faults: MigrationFile -> Fault<S>)
    ensures forall db, current :: ApplyFiles(exec, faults, db, [], current) == Outcome(db, 0, true)
  {
  }

  lemma ApplyFilesStep<S>(exec: Scripts<S>, faults: MigrationFile -> Fault<S>, db: Db<S>, files: seq<MigrationFile>,
                          i: nat, current: int)
    requires i < |files|
    ensures ApplyFiles(exec, faults, db, files[i..], current)
            == if files[i].version <= current then ApplyFiles(exec, faults, db, files[i + 1..], current)
               else match Migrate(exec, faults(files[i]), db, files[i])
                    case None => Outcome(db, 0, false)
                    case Some(db') => Plus(ApplyFiles(exec, faults, db', files[i + 1..], current), 1)
  {
    assert files[i..][0] == files[i] && files[i..][1..] == files[i + 1..];
  }

  class Connection<S(0,!new)> {
    var committed: Db<S>
    var working: Db<S>
    var inTransaction: bool

    ghost predicate Idle()
      reads this
    {
      !inTransaction && working == committed
    }

    /** A failed COMMIT may leave the transaction open for the calls that follow. */
    ghost predicate Valid()
      reads this
    {
      inTransaction || Idle()
    }

    constructor (db: Db<S>)
      ensures Idle() && committed == db
    {
      committed, working, inTransaction := db, db, false;
    }

    /** Fails inside a transaction. */
    method Begin(fails: bool) returns (ok: bool)
      requires Valid()
      modifies this`inTransaction
      ensures ok == (!fails && !old(inTransaction)) && inTransaction == (ok || old(inTransaction))
    {
      if fails || inTransaction {
        return false;
      }
      inTransaction := true;
      return true;
    }

    /** Runs a script inside the transaction; on failure some partial state is left in it. */
    method ExecuteScript(exec: Scripts<S>, sql: string, fault: Fault<S>) returns (ok: bool)
      requires inTransaction
      modifies this`working
      ensures var (after, succeeds) := exec(sql, old(working));
              ok == (succeeds && !fault.UpFails?) && (ok ==> working == after)
    {
      if fault.UpFails? {
        working := fault.partial;
        return false;
      }
      var (after, succeeds) := exec(sql, working);
      working := after;
      return succeeds;
    }

    method SetVersion(version: int, fails: bool) returns (ok: bool)
      requires inTransaction
      modifies this`working
      ensures ok == (!fails && old(working).rows.Some?)
      ensures ok ==> MigrationSpec.SetVersion(old(working), version) == Some(working)
    {
      if fails || working.rows.None? {
        return false;
      }
      working := working.(rows := Some(seq(|working.rows.value|, i => version)));
      return true;
    }

    method Rollback()
      requires inTransaction
      modifies this
      ensures Idle() && committed == old(committed)
    {
      working, inTransaction := committed, false;
    }

    /** SQLite decides whether a failed COMMIT keeps the transaction open or rolls it back. */
    method CommitTransaction(fault: Fault<S>) returns (ok: bool)
      requires inTransaction
      modifies this
      ensures ok == !fault.CommitFails?
      ensures committed == if ok then old(working) else old(committed)
      ensures if ok || !fault.staysOpen then Idle() else inTransaction && working == old(working)
    {
      if fault.CommitFails? {
        if !fault.staysOpen {
          working, inTransaction := committed, false;
        }
        return false;
      }
      committed, inTransaction := working, false;
      return true;
    }

    /** Outside a transaction every statement commits by itself; inside one, none does. */
    method EnsureVersionTable(fault: EnsureFault) returns (ok: bool)
      requires Valid()
      modifies this`working, this`committed
      ensures Valid() && ok == EnsureTable(old(working), fault).Some?
      ensures working == if ok then EnsureTable(old(working), fault).value else old(working)
      ensures inTransaction ==> committed == old(committed)
    {
      if fault.CreateFails? {
        return false;
      }
      if working.rows.None? {
        working := working.(rows := Some([]));
      }
      if working.rows.value == [] && !fault.SeedFails? {
        working := working.(rows := Some([0]));
      }
      if !inTransaction {
        committed := working;
      }
      return true;
    }

    method CurrentVersion() returns (version: int)
      ensures version == MigrationSpec.CurrentVersion(working)
    {
      version := 0;
      if working.rows.Some? && working.rows.value != [] {
        version := working.rows.value[0];
      }
    }

    /** One iteration of the loop: BEGIN, the script, the version update and COMMIT, or a rollback. */
    method MigrateOne(exec: Scripts<S>, fault: Fault<S>, mig: MigrationFile) returns (ok: bool)
      requires Valid()
      modifies this
      ensures if old(inTransaction) then
                !ok && inTransaction && committed == old(committed) && working == old(working)
              else
                && ok == Migrate(exec, fault, old(committed), mig).Some?
                && committed == (if ok then Migrate(exec, fault, old(committed), mig).value else old(committed))
                && (Idle() || (inTransaction && fault.CommitFails? && fault.staysOpen))
                && (ok ==> Idle())
    {
      ok := Begin(fault.BeginFails?);
      if !ok {
        return;
      }
      ok := ExecuteScript(exec, mig.upSql, fault);
      if !ok {
        Rollback();
        return;
      }
      ok := SetVersion(mig.version, fault.VersionFails?);
      if !ok {
        Rollback();
        return;
      }
      ok := CommitTransaction(fault);
    }

    /**
     The whole run; the result is the number of migrations applied, or -1, or None for the exception
     of a version out of range. On a connection with an open transaction nothing is ever committed,
     and the result is 0 if no file is pending in the state of that transaction, and -1 otherwise.
     */
    method Apply(exec: Scripts<S>, ensureFault: EnsureFault, faults: MigrationFile -> Fault<S>,
                 dirExists: bool, entries: seq<DirEntry>) returns (result: Option<int>)
      requires Valid()
      modifies this
      ensures Valid() && (inTransaction ==> old(inTransaction) || result == Some(-1))
      ensures !old(inTransaction) && (forall f :: !faults(f).CommitFails?) ==> Idle()
      ensures var thrown := !ensureFault.CreateFails? && dirExists && AnyOutOfRange(entries);
              var files := if dirExists then SortByVersion(ParseAll(entries)) else [];
              if old(inTransaction) then
                && inTransaction && committed == old(committed)
                && result == (if thrown then None
                              else if ensureFault.CreateFails? then Some(-1)
                              else Some(if PendingAt(old(working), ensureFault, files) == [] then 0 else -1))
              else if thrown then
                result == None && Some(committed) == EnsureTable(old(committed), ensureFault)
              else
                var o := MigrationSpec.Apply(exec, ensureFault, faults, old(committed), files);
                result == Some(if o.ok then o.applied else -1) && committed == o.db
    {
      hide ApplyFiles, Pending, Migrate, MigrationSpec.CurrentVersion, SortByVersion, ParseAll, Sorted, AnyOutOfRange;
      var ok := EnsureVersionTable(ensureFault);
      if !ok {
        return Some(-1);
      }
      var current := CurrentVersion();
      var discovered := Discover(dirExists, entries);
      if discovered.None? {
        return None;
      }
      var code := ApplyDiscovered(exec, faults, discovered.value, current);
      return Some(code);
    }

    /** The loop over the files. */
    method ApplyDiscovered(exec: Scripts<S>, faults: MigrationFile -> Fault<S>, files: seq<MigrationFile>, current: int)
      returns (result: int)
      requires Valid()
      modifies this
      ensures Valid() && (inTransaction ==> old(inTransaction) || result == -1)
      ensures !old(inTransaction) && (forall f :: !faults(f).CommitFails?) ==> Idle()
      ensures if old(inTransaction) then
                && inTransaction && committed == old(committed)
                && result == (if Pending(files, current) == [] then 0 else -1)
              else
                var o := ApplyFiles(exec, faults, old(committed), files, current);
                result == ReturnCode(o) && committed == o.db
    {
      hide ApplyFiles, Pending, Migrate;
      NoFilesLeft(exec, faults);
      ghost var open := inTransaction;
      ghost var o := ApplyFiles(exec, faults, committed, files, current);
      assert files[0..] == files;
      var applied := 0;
      var i := 0;
      while i < |files|
        invariant 0 <= i <= |files| && applied >= 0 && inTransaction == open && Valid()
        invariant open ==> committed == old(committed) && applied == 0
        invariant open ==> Pending(files, current) == Pending(files[i..], current)
        invariant !open ==> o == Plus(ApplyFiles(exec, faults, committed, files[i..], current), applied)
      {
        var mig := files[i];
        i := i + 1;
        PendingStep(files, i - 1, current);
        ApplyFilesStep(exec, faults, committed, files, i - 1, current);
        if mig.version <= current {
          continue;
        }
        var ok := MigrateOne(exec, faults(mig), mig);
        if !ok {
          return -1;
        }
        applied := applied + 1;
      }
      assert files[|files|..] == [];
      NothingPending(current);
      return applied;
    }
  }

  lemma PendingStep(files: seq<MigrationFile>, i: nat, current: int)
    requires i < |files|
    ensures Pending(files[i..], current)
            == (if files[i].version <= current then [] else [files[i]]) + Pending(files[i + 1..], current)
  {
    assert files[i..][0] == files[i] && files[i..][1..] == files[i + 1..];
  }

  lemma NothingPending(current: int)
    ensures Pending([], current) == []
  {
  }
}
