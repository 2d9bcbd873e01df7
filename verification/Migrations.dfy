/** The migration runner: up scripts applied in file order, one transaction each, and undone one at a time in
  * the order of their names. */
module Migrations {
  import opened Prelude
  import opened Text

  datatype Dialect = Sqlite | Postgres

  function Suffix(d: Dialect): string {
    match d
    case Sqlite => ".sqlite.sql"
    case Postgres => ".postgres.sql"
  }

  function DownSuffix(d: Dialect): string {
    match d
    case Sqlite => ".sqlite.down.sql"
    case Postgres => ".postgres.down.sql"
  }

  /** What executing a script does to the schema; `None` when the database refuses it. */
  type Script<!S> = S -> Option<S>

  datatype Directory<!S> = Directory(entries: seq<string>, scripts: map<string, Script<S>>)

  predicate Distinct(entries: seq<string>) {
    forall i, j | 0 <= i < j < |entries| :: entries[i] != entries[j]
  }

  ghost predicate IsDirectory<S(!new)>(dir: Directory<S>) {
    Distinct(dir.entries) && forall f :: f in dir.scripts <==> f in dir.entries
  }

  // ---------- the list of migrations ----------

  predicate EndsWith(s: string, t: string) {
    |t| <= |s| && s[|s| - |t|..] == t
  }

  function MigrationName(file: string): string {
    if EndsWith(file, ".sqlite.sql") then file[..|file| - |".sqlite.sql"|]
    else if EndsWith(file, ".postgres.sql") then file[..|file| - |".postgres.sql"|]
    else file
  }

  function InsertFile(files: seq<string>, file: string): seq<string> {
    if files == [] || AtMost(file, files[0]) then [file] + files else [files[0]] + InsertFile(files[1..], file)
  }

  function ListMigrationFiles(d: Dialect, entries: seq<string>): seq<string> {
    if entries == [] then []
    else
      var rest := ListMigrationFiles(d, entries[1..]);
      if EndsWith(entries[0], Suffix(d)) then InsertFile(rest, entries[0]) else rest
  }

  ghost predicate Ascending(texts: seq<string>) {
    forall i, j | 0 <= i < j < |texts| :: Less(texts[i], texts[j])
  }

  lemma {:induction false} InsertFileAscends(files: seq<string>, file: string)
    requires Ascending(files) && file !in files
    ensures Ascending(InsertFile(files, file))
    ensures forall f :: f in InsertFile(files, file) <==> f in files || f == file
  {
    if files != [] {
      if Less(file, files[0]) {
        forall j | 0 <= j < |files| ensures Less(file, files[j]) {
          if j > 0 {
            Transitive(file, files[0], files[j]);
          }
        }
      } else {
        Total(file, files[0]);
        InsertFileAscends(files[1..], file);
        assert files == [files[0]] + files[1..];
        var rest := InsertFile(files[1..], file);
        forall j | 0 <= j < |rest| ensures Less(files[0], rest[j]) {
          assert rest[j] in rest;
        }
      }
    }
  }

  /** The list holds every up script of the dialect, once, in the order of the file names. */
  lemma {:induction false} ListIsSorted(d: Dialect, entries: seq<string>)
    requires Distinct(entries)
    ensures Ascending(ListMigrationFiles(d, entries))
    ensures forall f :: f in ListMigrationFiles(d, entries) <==>
              f in entries && EndsWith(f, if d == Sqlite then ".sqlite.sql" else ".postgres.sql")
  {
    if entries != [] {
      assert entries == [entries[0]] + entries[1..];
      ListIsSorted(d, entries[1..]);
      if EndsWith(entries[0], Suffix(d)) {
        InsertFileAscends(ListMigrationFiles(d, entries[1..]), entries[0]);
      }
    }
  }

  ghost predicate IsFileList(d: Dialect, files: seq<string>) {
    Ascending(files) && forall i | 0 <= i < |files| :: EndsWith(files[i], Suffix(d))
  }

  /** The name of an up script determines its file. */
  lemma NameOfFile(d: Dialect, file: string)
    requires EndsWith(file, Suffix(d))
    ensures file == MigrationName(file) + if d == Sqlite then ".sqlite.sql" else ".postgres.sql"
  {
    assert ".sqlite.sql"[6] == 'e' && ".postgres.sql"[8] == 's';
    assert EndsWith(file, ".sqlite.sql") ==> file[|file| - 5] == 'e';
    assert d == Postgres ==> file[|file| - 5] == 's';
  }

  /** Down scripts are never taken for up scripts. */
  lemma DownScriptsAreNotListed(d: Dialect, name: string)
    ensures !EndsWith(name + DownSuffix(d), Suffix(Sqlite)) && !EndsWith(name + DownSuffix(d), Suffix(Postgres))
  {
    var file := name + DownSuffix(d);
    assert file[|file| - 5] == DownSuffix(d)[|DownSuffix(d)| - 5] == 'n';
    assert ".sqlite.sql"[6] == 'e' && ".postgres.sql"[8] == 's';
  }

  ghost predicate NamedApart(files: seq<string>) {
    forall i, j | 0 <= i < j < |files| :: MigrationName(files[i]) != MigrationName(files[j])
  }

  lemma FilesAreNamedApart(d: Dialect, files: seq<string>)
    requires IsFileList(d, files)
    ensures NamedApart(files)
  {
    forall i, j | 0 <= i < j < |files| ensures MigrationName(files[i]) != MigrationName(files[j]) {
      NameOfFile(d, files[i]);
      NameOfFile(d, files[j]);
      Irreflexive(files[i]);
    }
  }

  // ---------- applying migrations ----------

  datatype Contents<S> = Contents(schema: S, applied: set<string>)

  /** One up script in its transaction; the name is a primary key, so a second insert of it is refused. */
  function ApplyOne<S>(dir: Directory<S>, db: Contents<S>, file: string): Option<Contents<S>> {
    if file !in dir.scripts || MigrationName(file) in db.applied then None
    else match dir.scripts[file](db.schema)
         case None => None
         case Some(schema) => Some(Contents(schema, db.applied + {MigrationName(file)}))
  }

  function ApplyAll<S>(dir: Directory<S>, db: Contents<S>, files: seq<string>): Option<Contents<S>> {
    if files == [] then Some(db)
    else match ApplyAll(dir, db, files[..|files| - 1])
         case None => None
         case Some(before) => ApplyOne(dir, before, files[|files| - 1])
  }

  /** The files whose names are not recorded as applied, in order. */
  function Pending(files: seq<string>, applied: set<string>): seq<string> {
    if files == [] then []
    else Pending(files[..|files| - 1], applied)
         + if MigrationName(files[|files| - 1]) in applied then [] else [files[|files| - 1]]
  }

  function NamesOf(files: seq<string>): set<string> {
    set f <- files :: MigrationName(f)
  }

  class Database<S> {
    var schema: S
    var applied: set<string>

    constructor (empty: S)
      ensures this.Now() == Contents(empty, {})
    {
      schema, applied := empty, {};
    }

    function Now(): Contents<S>
      reads this
    {
      Contents(schema, applied)
    }

    /** BEGIN; the script; INSERT INTO _migrations; COMMIT. A refusal rolls everything back. */
    method Apply(dir: Directory<S>, file: string) returns (ok: bool)
      modifies this
      ensures ok == ApplyOne(dir, old(Now()), file).Some?
      ensures Now() == if ok then ApplyOne(dir, old(Now()), file).value else old(Now())
    {
      if file !in dir.scripts {
        return false;
      }
      var result := dir.scripts[file](schema);
      if result.None? || MigrationName(file) in applied {
        return false;
      }
      schema, applied := result.value, applied + {MigrationName(file)};
      return true;
    }
  }

  datatype Ending = Finished | Threw | Crashed

  /** `survives` bounds the migrations the process commits before it dies. */
  method Migrate<S(!new)>(dir: Directory<S>, d: Dialect, db: Database<S>, survives: nat) returns (ending: Ending, count: nat)
    requires IsDirectory(dir)
    modifies db
    ensures var pending := Pending(ListMigrationFiles(d, dir.entries), old(db.applied));
            && count <= |pending| && count <= survives
            && ApplyAll(dir, old(db.Now()), pending[..count]) == Some(db.Now())
            && (ending == Finished <==> count == |pending|)
            && (ending == Crashed <==> count < |pending| && count == survives)
            && (ending == Threw ==> ApplyOne(dir, db.Now(), pending[count]) == None)
  {
    var applied := db.applied;
    var files := ListMigrationFiles(d, dir.entries);
    ghost var was := db.Now();
    count := 0;
    for i := 0 to |files|
      invariant count == |Pending(files[..i], applied)| <= survives
      invariant ApplyAll(dir, was, Pending(files[..i], applied)) == Some(db.Now())
    {
      PendingStep(files, applied, i);
      if MigrationName(files[i]) in applied {
        continue;
      }
      if count == survives {
        return Crashed, count;
      }
      var ok := db.Apply(dir, files[i]);
      if !ok {
        return Threw, count;
      }
      count := count + 1;
    }
    assert files[..|files|] == files;
    var pending := Pending(files, applied);
    assert pending[..count] == pending;
    return Finished, count;
  }

  lemma {:induction false} PendingConcat(files: seq<string>, more: seq<string>, applied: set<string>)
    ensures Pending(files + more, applied) == Pending(files, applied) + Pending(more, applied)
  {
    if more == [] {
      assert files + more == files;
    } else {
      assert (files + more)[..|files + more| - 1] == files + more[..|more| - 1];
      PendingConcat(files, more[..|more| - 1], applied);
    }
  }

  lemma PendingStep(files: seq<string>, applied: set<string>, i: nat)
    requires i < |files|
    ensures var before, all := Pending(files[..i], applied), Pending(files, applied);
            && |before| <= |all| && all[..|before|] == before
            && (MigrationName(files[i]) in applied ==> Pending(files[..i + 1], applied) == before)
            && (MigrationName(files[i]) !in applied ==>
                  && Pending(files[..i + 1], applied) == before + [files[i]]
                  && |before| < |all| && all[|before|] == files[i] && all[..|before| + 1] == before + [files[i]])
  {
    assert files[..i + 1][..i] == files[..i];
    assert files == files[..i + 1] + files[i + 1..];
    PendingConcat(files[..i + 1], files[i + 1..], applied);
  }

  lemma {:induction false} ApplyAllConcat<S>(dir: Directory<S>, db: Contents<S>, files: seq<string>, more: seq<string>)
    ensures ApplyAll(dir, db, files + more) ==
            match ApplyAll(dir, db, files) { case None => None case Some(mid) => ApplyAll(dir, mid, more) }
  {
    if more == [] {
      assert files + more == files;
    } else {
      assert (files + more)[..|files + more| - 1] == files + more[..|more| - 1];
      ApplyAllConcat(dir, db, files, more[..|more| - 1]);
    }
  }

  lemma {:induction false} ApplyAllRecords<S>(dir: Directory<S>, db: Contents<S>, files: seq<string>)
    requires ApplyAll(dir, db, files).Some?
    ensures ApplyAll(dir, db, files).value.applied == db.applied + NamesOf(files)
  {
    if files != [] {
      ApplyAllRecords(dir, db, files[..|files| - 1]);
      assert files == files[..|files| - 1] + [files[|files| - 1]];
    }
  }

  // ---------- resuming ----------

  lemma {:induction false} PendingTwice(files: seq<string>, a: set<string>, b: set<string>)
    ensures Pending(Pending(files, a), b) == Pending(files, a + b)
  {
    if files != [] {
      var front, last := files[..|files| - 1], files[|files| - 1];
      PendingTwice(front, a, b);
      if MigrationName(last) in a {
        assert Pending(files, a) == Pending(front, a);
      } else {
        assert Pending(files, a)[..|Pending(front, a)|] == Pending(front, a);
      }
    }
  }

  lemma {:induction false} PendingNamedApart(files: seq<string>, applied: set<string>)
    requires NamedApart(files)
    ensures NamedApart(Pending(files, applied)) && forall f <- Pending(files, applied) :: f in files
  {
    if files != [] {
      var front := files[..|files| - 1];
      PendingNamedApart(front, applied);
      forall f <- Pending(front, applied) ensures MigrationName(f) != MigrationName(files[|files| - 1]) {
        var i :| 0 <= i < |front| && front[i] == f;
      }
    }
  }

  lemma {:induction false} PendingRest(files: seq<string>, j: nat, done: set<string>)
    requires j <= |files|
    requires forall i | 0 <= i < |files| :: MigrationName(files[i]) in done <==> i < j
    ensures Pending(files, done) == files[j..]
  {
    if files != [] {
      var n := |files| - 1;
      PendingRest(files[..n], if j <= n then j else n, done);
      assert j <= n ==> files[j..] == files[..n][j..] + [files[n]];
    }
  }

  lemma RestIsPending(files: seq<string>, j: nat)
    requires NamedApart(files) && j <= |files|
    ensures Pending(files, NamesOf(files[..j])) == files[j..]
  {
    var done := NamesOf(files[..j]);
    forall i | 0 <= i < |files| ensures MigrationName(files[i]) in done <==> i < j {
      if i < j {
        assert files[..j][i] == files[i];
      } else {
        LaterIsNotDone(files, j, i);
      }
    }
    PendingRest(files, j, done);
  }

  lemma LaterIsNotDone(files: seq<string>, j: nat, i: nat)
    requires NamedApart(files) && j <= i < |files|
    ensures MigrationName(files[i]) !in NamesOf(files[..j])
  {
    forall g <- files[..j] ensures MigrationName(g) != MigrationName(files[i]) {
      var h :| 0 <= h < j && files[h] == g;
    }
  }

  /** After any crash, a second `migrate` does exactly what the first would have done uninterrupted. */
  lemma ResumeIsUninterrupted<S>(dir: Directory<S>, files: seq<string>, db: Contents<S>, mid: Contents<S>, j: nat)
    requires NamedApart(files) && j <= |Pending(files, db.applied)|
    requires ApplyAll(dir, db, Pending(files, db.applied)[..j]) == Some(mid)
    ensures Pending(files, mid.applied) == Pending(files, db.applied)[j..]
    ensures ApplyAll(dir, mid, Pending(files, mid.applied)) == ApplyAll(dir, db, Pending(files, db.applied))
  {
    var pending := Pending(files, db.applied);
    ApplyAllRecords(dir, db, pending[..j]);
    PendingNamedApart(files, db.applied);
    RestIsPending(pending, j);
    PendingTwice(files, db.applied, NamesOf(pending[..j]));
    ApplyAllConcat(dir, db, pending[..j], pending[j..]);
    assert pending == pending[..j] + pending[j..];
  }

  // ---------- rolling back ----------

  predicate IsLast(applied: set<string>, last: string) {
    last in applied && forall name <- applied :: AtMost(name, last)
  }

  lemma {:induction false} LastExists(applied: set<string>)
    requires applied != {}
    ensures exists last :: IsLast(applied, last)
  {
    var name :| name in applied;
    if applied == {name} {
      assert IsLast(applied, name);
    } else {
      LastExists(applied - {name});
      var best :| IsLast(applied - {name}, best);
      Total(name, best);
      if Less(best, name) {
        forall other <- applied ensures AtMost(other, name) {
          if other != name && other != best {
            assert AtMost(other, best);
            Transitive(other, best, name);
          }
        }
        assert IsLast(applied, name);
      } else {
        assert IsLast(applied, best);
      }
    }
  }

  lemma LastIsUnique(applied: set<string>, a: string, b: string)
    requires IsLast(applied, a) && IsLast(applied, b)
    ensures a == b
  {
    if a != b {
      Transitive(a, b, a);
      Irreflexive(a);
    }
  }

  datatype Rolled = Nothing | Exited(name: string) | Refused(name: string) | RolledBack(name: string)

  /** The effect of `rollback`: the greatest recorded name is undone, in one transaction. */
  predicate RollbackIs<S(==)>(dir: Directory<S>, d: Dialect, db: Contents<S>, rolled: Rolled, db': Contents<S>) {
    match rolled
    case Nothing => db.applied == {} && db' == db
    case Exited(name) => IsLast(db.applied, name) && name + DownSuffix(d) !in dir.scripts && db' == db
    case Refused(name) =>
      && IsLast(db.applied, name) && name + DownSuffix(d) in dir.scripts
      && dir.scripts[name + DownSuffix(d)](db.schema) == None && db' == db
    case RolledBack(name) =>
      && IsLast(db.applied, name) && name + DownSuffix(d) in dir.scripts
      && dir.scripts[name + DownSuffix(d)](db.schema) == Some(db'.schema)
      && db'.applied == db.applied - {name}
  }

  method Rollback<S(==)>(dir: Directory<S>, d: Dialect, db: Database<S>) returns (rolled: Rolled)
    modifies db
    ensures RollbackIs(dir, d, old(db.Now()), rolled, db.Now())
    ensures rolled.RolledBack? ==>
              var file := rolled.name + if d == Sqlite then ".sqlite.down.sql" else ".postgres.down.sql";
              file in dir.scripts && dir.scripts[file](old(db.schema)) == Some(db.schema)
    ensures rolled.Exited? ==> rolled.name + (if d == Sqlite then ".sqlite.down.sql" else ".postgres.down.sql") !in dir.scripts
  {
    if db.applied == {} {
      return Nothing;
    }
    LastExists(db.applied);
    var last: string :| last in db.applied && IsLast(db.applied, last);
    var downFile := last + DownSuffix(d);
    if downFile !in dir.scripts {
      return Exited(last);
    }
    var result := dir.scripts[downFile](db.schema);
    if result.None? {
      return Refused(last);
    }
    db.schema, db.applied := result.value, db.applied - {last};
    return RolledBack(last);
  }

  // ---------- runs ----------

  /** Every down script undoes the up script of its name. */
  ghost predicate DownInvertsUp<S(!new)>(dir: Directory<S>, d: Dialect, files: seq<string>) {
    forall i | 0 <= i < |files| ::
      files[i] in dir.scripts && MigrationName(files[i]) + DownSuffix(d) in dir.scripts ==>
        Inverts(dir.scripts[files[i]], dir.scripts[MigrationName(files[i]) + DownSuffix(d)])
  }

  ghost predicate Inverts<S(!new)>(up: Script<S>, down: Script<S>) {
    forall s: S :: up(s).Some? ==> down(up(s).value) == Some(s)
  }

  /** The names of the files are in the order of the files. */
  ghost predicate InStep(files: seq<string>) {
    forall i, j | 0 <= i < j < |files| :: Less(MigrationName(files[i]), MigrationName(files[j]))
  }

  /** The first `k` migrations are recorded, and the schema is what they make of an empty database. */
  ghost predicate Reached<S(!new)>(dir: Directory<S>, files: seq<string>, empty: S, db: Contents<S>, k: nat) {
    k <= |files| && ApplyAll(dir, Contents(empty, {}), files[..k]) == Some(db)
  }

  /** What `migrate`, crashing or failing anywhere or nowhere, or `rollback` may do. */
  ghost predicate CanStep<S(!new)>(dir: Directory<S>, d: Dialect, files: seq<string>, db: Contents<S>, db': Contents<S>) {
    || (exists j: nat :: MigratesTo(dir, files, db, j, db'))
    || (exists rolled :: RollbackIs(dir, d, db, rolled, db'))
  }

  ghost predicate MigratesTo<S(!new)>(dir: Directory<S>, files: seq<string>, db: Contents<S>, j: nat, db': Contents<S>) {
    j <= |Pending(files, db.applied)| && ApplyAll(dir, db, Pending(files, db.applied)[..j]) == Some(db')
  }

  ghost predicate IsRun<S(!new)>(dir: Directory<S>, d: Dialect, files: seq<string>, empty: S, run: seq<Contents<S>>) {
    && |run| > 0
    && run[0] == Contents(empty, {})
    && forall i | 0 <= i < |run| - 1 :: CanStep(dir, d, files, run[i], run[i + 1])
  }

  lemma MigrateKeepsPrefix<S(!new)>(dir: Directory<S>, files: seq<string>, empty: S, db: Contents<S>,
                                    k: nat, j: nat, db': Contents<S>)
    requires NamedApart(files) && Reached(dir, files, empty, db, k) && MigratesTo(dir, files, db, j, db')
    ensures Pending(files, db.applied) == files[k..] && Reached(dir, files, empty, db', k + j)
  {
    ReachedRecords(dir, files, empty, db, k);
    RestIsPending(files, k);
    ApplyAllFurther(dir, files, Contents(empty, {}), db, k, j);
  }

  lemma ApplyAllFurther<S>(dir: Directory<S>, files: seq<string>, start: Contents<S>, db: Contents<S>, k: nat, j: nat)
    requires k + j <= |files| && ApplyAll(dir, start, files[..k]) == Some(db)
    ensures ApplyAll(dir, start, files[..k + j]) == ApplyAll(dir, db, files[k..][..j])
  {
    ApplyAllConcat(dir, start, files[..k], files[k..][..j]);
    assert files[k..][..j] == files[k..k + j];
    assert files[..k] + files[k..k + j] == files[..k + j];
  }

  lemma ReachedRecords<S(!new)>(dir: Directory<S>, files: seq<string>, empty: S, db: Contents<S>, k: nat)
    requires Reached(dir, files, empty, db, k)
    ensures db.applied == NamesOf(files[..k])
  {
    ApplyAllRecords(dir, Contents(empty, {}), files[..k]);
  }

  lemma LastInStep(files: seq<string>, k: nat)
    requires InStep(files) && 0 < k <= |files|
    ensures IsLast(NamesOf(files[..k]), MigrationName(files[k - 1]))
  {
    assert files[..k][k - 1] == files[k - 1];
    forall name <- NamesOf(files[..k]) ensures AtMost(name, MigrationName(files[k - 1])) {
      var i :| 0 <= i < k && MigrationName(files[i]) == name;
    }
  }

  /** `rollback` undoes exactly the last of the applied migrations, or changes nothing. */
  lemma RollbackUndoesLast<S(!new)>(dir: Directory<S>, d: Dialect, files: seq<string>, empty: S, db: Contents<S>,
                                    k: nat, rolled: Rolled, db': Contents<S>)
    requires IsFileList(d, files) && InStep(files) && DownInvertsUp(dir, d, files)
    requires Reached(dir, files, empty, db, k) && RollbackIs(dir, d, db, rolled, db')
    ensures rolled == Nothing <==> k == 0
    ensures !rolled.Refused?
    ensures rolled.Nothing? || rolled.name == MigrationName(files[k - 1])
    ensures if rolled.RolledBack? then Reached(dir, files, empty, db', k - 1) else db' == db
  {
    ReachedRecords(dir, files, empty, db, k);
    if k > 0 {
      var last := files[k - 1];
      LastInStep(files, k);
      LastIsUnique(db.applied, MigrationName(last), if rolled.Nothing? then MigrationName(last) else rolled.name);
      UndoLast(dir, d, files, empty, db, k);
    }
  }

  lemma UndoLast<S(!new)>(dir: Directory<S>, d: Dialect, files: seq<string>, empty: S, db: Contents<S>, k: nat)
    requires DownInvertsUp(dir, d, files)
    requires Reached(dir, files, empty, db, k) && k > 0
    ensures var name := MigrationName(files[k - 1]);
            name + DownSuffix(d) in dir.scripts ==>
              var schema := dir.scripts[name + DownSuffix(d)](db.schema);
              schema.Some? && Reached(dir, files, empty, Contents(schema.value, db.applied - {name}), k - 1)
  {
    assert files[..k][..k - 1] == files[..k - 1] && files[..k][k - 1] == files[k - 1];
    var before := ApplyAll(dir, Contents(empty, {}), files[..k - 1]).value;
    assert ApplyOne(dir, before, files[k - 1]) == Some(db);
    assert db.applied - {MigrationName(files[k - 1])} == before.applied;
  }

  lemma StepKeepsPrefix<S(!new)>(dir: Directory<S>, d: Dialect, files: seq<string>, empty: S, db: Contents<S>,
                                 k: nat, db': Contents<S>) returns (k': nat)
    requires IsFileList(d, files) && InStep(files) && DownInvertsUp(dir, d, files)
    requires Reached(dir, files, empty, db, k) && CanStep(dir, d, files, db, db')
    ensures Reached(dir, files, empty, db', k')
  {
    if exists j: nat :: MigratesTo(dir, files, db, j, db') {
      var j: nat :| MigratesTo(dir, files, db, j, db');
      k' := k + j;
      MigratingKeepsPrefix(dir, d, files, empty, db, k, j, db');
    } else {
      k' := RollbackKeepsPrefix(dir, d, files, empty, db, k, db');
    }
  }

  lemma MigratingKeepsPrefix<S(!new)>(dir: Directory<S>, d: Dialect, files: seq<string>, empty: S, db: Contents<S>,
                                      k: nat, j: nat, db': Contents<S>)
    requires IsFileList(d, files) && Reached(dir, files, empty, db, k) && MigratesTo(dir, files, db, j, db')
    ensures Reached(dir, files, empty, db', k + j)
  {
    FilesAreNamedApart(d, files);
    MigrateKeepsPrefix(dir, files, empty, db, k, j, db');
  }

  lemma RollbackKeepsPrefix<S(!new)>(dir: Directory<S>, d: Dialect, files: seq<string>, empty: S, db: Contents<S>,
                                     k: nat, db': Contents<S>) returns (k': nat)
    requires IsFileList(d, files) && InStep(files) && DownInvertsUp(dir, d, files)
    requires Reached(dir, files, empty, db, k) && exists rolled :: RollbackIs(dir, d, db, rolled, db')
    ensures Reached(dir, files, empty, db', k')
  {
    var rolled :| RollbackIs(dir, d, db, rolled, db');
    RollbackUndoesLast(dir, d, files, empty, db, k, rolled, db');
    k' := if rolled.RolledBack? then k - 1 else k;
  }

  lemma FrontIsRun<S(!new)>(dir: Directory<S>, d: Dialect, files: seq<string>, empty: S, run: seq<Contents<S>>)
    requires IsRun(dir, d, files, empty, run) && |run| > 1
    ensures IsRun(dir, d, files, empty, run[..|run| - 1])
    ensures CanStep(dir, d, files, run[|run| - 2], run[|run| - 1])
  {
    assert CanStep(dir, d, files, run[|run| - 2], run[|run| - 2 + 1]);
  }

  /** Every run of migrates, crashes and rollbacks keeps the applied migrations a prefix of the list. */
  lemma {:induction false} RunKeepsPrefix<S(!new)>(dir: Directory<S>, d: Dialect, files: seq<string>, empty: S, run: seq<Contents<S>>)
    returns (k: nat)
    requires IsFileList(d, files) && InStep(files) && DownInvertsUp(dir, d, files)
    requires IsRun(dir, d, files, empty, run)
    ensures Reached(dir, files, empty, run[|run| - 1], k)
    ensures run[|run| - 1].applied == NamesOf(files[..k])
  {
    if |run| == 1 {
      k := 0;
    } else {
      var n := |run| - 2;
      FrontIsRun(dir, d, files, empty, run);
      k := RunKeepsPrefix(dir, d, files, empty, run[..n + 1]);
      k := StepKeepsPrefix(dir, d, files, empty, run[n], k, run[n + 1]);
    }
    ReachedRecords(dir, files, empty, run[|run| - 1], k);
  }

  /** Both commands are steps of such runs. */
  method MigrateOrRollback<S(!new, ==)>(dir: Directory<S>, d: Dialect, db: Database<S>, migrate: bool, survives: nat)
    requires IsDirectory(dir)
    modifies db
    ensures CanStep(dir, d, ListMigrationFiles(d, dir.entries), old(db.Now()), db.Now())
  {
    if migrate {
      var ending, count := Migrate(dir, d, db, survives);
      assert MigratesTo(dir, ListMigrationFiles(d, dir.entries), old(db.Now()), count, db.Now());
    } else {
      var rolled := Rollback(dir, d, db);
    }
  }

  // ---------- file order and name order ----------

  /** `n` continues `m`, with something that comes before the suffix. */
  predicate SlipsAhead(n: string, m: string, suffix: string) {
    |m| < |n| && n[..|m|] == m && Less(n[|m|..] + suffix, suffix)
  }

  /** Adding a suffix to two names reverses their order exactly when the longer one slips ahead. */
  lemma {:induction false} SuffixOrder(m: string, n: string, suffix: string)
    requires Less(m, n)
    ensures Less(m + suffix, n + suffix) <==> !SlipsAhead(n, m, suffix)
    decreases |m|
  {
    if m == [] {
      assert m + suffix == suffix && n[0..] == n;
      Total(suffix, n + suffix);
      if Less(n + suffix, suffix) && Less(suffix, n + suffix) {
        Transitive(suffix, n + suffix, suffix);
        Irreflexive(suffix);
      }
      assert |n + suffix| > |suffix|;
    } else {
      assert (m + suffix)[0] == m[0] && (n + suffix)[0] == n[0];
      assert (m + suffix)[1..] == m[1..] + suffix && (n + suffix)[1..] == n[1..] + suffix;
      if m[0] == n[0] {
        SuffixOrder(m[1..], n[1..], suffix);
        assert m == [m[0]] + m[1..] && n == [n[0]] + n[1..];
        if |m| < |n| {
          assert n[..|m|] == [n[0]] + n[1..][..|m| - 1];
          assert n[|m|..] == n[1..][|m| - 1..];
        }
      } else if |m| < |n| {
        assert n[..|m|][0] == n[0];
      }
    }
  }

  /** When the names follow the file order, as a test on the names alone. */
  lemma InStepExactly(d: Dialect, files: seq<string>)
    requires IsFileList(d, files)
    ensures InStep(files) <==>
            forall i, j | 0 <= i < j < |files| :: !SlipsAhead(MigrationName(files[i]), MigrationName(files[j]), Suffix(d))
  {
    FilesAreNamedApart(d, files);
    forall i, j | 0 <= i < j < |files|
      ensures Less(MigrationName(files[i]), MigrationName(files[j]))
              <==> !SlipsAhead(MigrationName(files[i]), MigrationName(files[j]), Suffix(d))
    {
      var a, b := MigrationName(files[i]), MigrationName(files[j]);
      NameOfFile(d, files[i]);
      NameOfFile(d, files[j]);
      Total(a, b);
      if Less(a, b) {
        NoLongerPrefix(a, b);
      } else {
        SuffixOrder(b, a, Suffix(d));
        if Less(files[j], files[i]) {
          Transitive(files[i], files[j], files[i]);
          Irreflexive(files[i]);
        }
      }
    }
  }

  lemma NoLongerPrefix(a: string, b: string)
    requires Less(a, b)
    ensures !(|b| < |a| && a[..|b|] == b)
  {
    if |b| < |a| && a[..|b|] == b {
      assert a == b + a[|b|..] && b + [] == b;
      LessByTail(b, a[|b|..], []);
    }
  }

  /** Names that start with distinct parts of one width, as numbered migrations do, are in step. */
  lemma FixedWidthIsInStep(d: Dialect, files: seq<string>, width: nat)
    requires IsFileList(d, files)
    requires forall i | 0 <= i < |files| :: |MigrationName(files[i])| >= width
    requires forall i, j | 0 <= i < j < |files| :: MigrationName(files[i])[..width] != MigrationName(files[j])[..width]
    ensures InStep(files)
  {
    forall i, j | 0 <= i < j < |files|
      ensures !SlipsAhead(MigrationName(files[i]), MigrationName(files[j]), Suffix(d))
    {
      var a, b := MigrationName(files[i]), MigrationName(files[j]);
      assert |b| < |a| ==> a[..|b|][..width] == a[..width];
    }
    InStepExactly(d, files);
  }

  /** Rolling back undoes the migration applied last, whatever was applied, exactly when the names are in step. */
  lemma RollbackOrderExactly(files: seq<string>)
    ensures InStep(files) <==>
            && (forall k | 0 < k <= |files| :: IsLast(NamesOf(files[..k]), MigrationName(files[k - 1])))
            && (forall i, j | 0 <= i < j < |files| :: MigrationName(files[i]) != MigrationName(files[j]))
  {
    if InStep(files) {
      forall k | 0 < k <= |files| ensures IsLast(NamesOf(files[..k]), MigrationName(files[k - 1])) {
        LastInStep(files, k);
      }
      forall i, j | 0 <= i < j < |files| ensures MigrationName(files[i]) != MigrationName(files[j]) {
        Irreflexive(MigrationName(files[i]));
      }
    } else {
      var i, j :| 0 <= i < j < |files| && !Less(MigrationName(files[i]), MigrationName(files[j]));
      assert files[..j + 1][i] == files[i];
      assert MigrationName(files[i]) in NamesOf(files[..j + 1]);
      if IsLast(NamesOf(files[..j + 1]), MigrationName(files[j + 1 - 1])) {
        assert AtMost(MigrationName(files[i]), MigrationName(files[j]));
      }
    }
  }

  function Grow(s: int): Option<int> {
    Some(s + 1)
  }

  function Shrink(s: int): Option<int> {
    Some(s - 1)
  }

  const LONG := "a-b.sqlite.sql"
  const SHORT := "a.sqlite.sql"

  const MISNAMED := Directory([SHORT, LONG, "a.sqlite.down.sql", "a-b.sqlite.down.sql"],
                              map[SHORT := Grow, LONG := Grow, "a.sqlite.down.sql" := Shrink, "a-b.sqlite.down.sql" := Shrink])

  lemma MisnamedFiles()
    ensures IsFileList(Sqlite, [LONG, SHORT]) && EndsWith(LONG, ".sqlite.sql") && EndsWith(SHORT, ".sqlite.sql")
    ensures MigrationName(LONG) == "a-b" && MigrationName(SHORT) == "a"
    ensures LONG in MISNAMED.scripts && SHORT in MISNAMED.scripts
    ensures MISNAMED.scripts[LONG] == Grow && MISNAMED.scripts[SHORT] == Grow
  {
    assert LONG[3..] == ".sqlite.sql" && SHORT[1..] == ".sqlite.sql";
    assert LONG[1] == '-' && SHORT[1] == '.';
    assert LONG[1..][0] == '-' && SHORT[1..][0] == '.';
    assert LONG != "a.sqlite.down.sql" && |LONG| != |SHORT|;
    assert |LONG| != |"a.sqlite.down.sql"| && |LONG| != |"a-b.sqlite.down.sql"|;
  }

  /** Names out of step: "a-b" is applied first and "a" second, and the rollback then undoes "a-b". */
  lemma OutOfStep(s: int)
    ensures var files := [LONG, SHORT];
            && IsFileList(Sqlite, files)
            && Reached(MISNAMED, files, s, Contents(s + 2, {"a", "a-b"}), 2)
            && RollbackIs(MISNAMED, Sqlite, Contents(s + 2, {"a", "a-b"}), RolledBack("a-b"), Contents(s + 1, {"a"}))
            && forall k: nat | k <= 2 :: NamesOf(files[..k]) != {"a"}
  {
    MisnamedFiles();
    MisnamedReached(s);
    assert Less("a", "a-b") by {
      assert "a"[1..] == [] && "a-b"[1..] == "-b";
    }
    assert "a-b" + ".sqlite.down.sql" == "a-b.sqlite.down.sql";
    assert {"a", "a-b"} - {"a-b"} == {"a"};
    assert forall k: nat | 0 < k <= 2 :: [LONG, SHORT][..k][0] == LONG;
    assert forall k: nat | 0 < k <= 2 :: MigrationName(LONG) in NamesOf([LONG, SHORT][..k]);
  }

  lemma MisnamedReached(s: int)
    ensures Reached(MISNAMED, [LONG, SHORT], s, Contents(s + 2, {"a", "a-b"}), 2)
  {
    MisnamedFiles();
    var files, start := [LONG, SHORT], Contents(s, {});
    assert files[..2] == files && files[..1] == [LONG] && [LONG][..0] == [];
    assert ApplyAll(MISNAMED, start, []) == Some(start);
    assert start.applied + {"a-b"} == {"a-b"};
    assert ApplyOne(MISNAMED, start, LONG) == Some(Contents(s + 1, {"a-b"}));
    assert ApplyAll(MISNAMED, start, [LONG]) == Some(Contents(s + 1, {"a-b"}));
    assert {"a-b"} + {"a"} == {"a", "a-b"};
    assert "a" !in {"a-b"};
    assert ApplyOne(MISNAMED, Contents(s + 1, {"a-b"}), SHORT) == Some(Contents(s + 2, {"a", "a-b"}));
  }
}
