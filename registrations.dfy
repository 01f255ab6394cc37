/**
 * The registration backend (server.ts): the `registrations` table, the
 * insert performed by POST /api/registrations, the newest-first listing of
 * GET /api/registrations, and the start-up steps that create the upload
 * directory and the table when they are missing.
 *
 * The SQLite file and the upload directory are modelled in memory: the
 * table as a sequence of rows plus the AUTOINCREMENT counter, the directory
 * as a map from stored path to file content. Clocks are parameters.
 */
module Registrations {
  import opened Wrappers
  import opened UploadNaming

  /** Default of the `status` column ("in progress"). */
  const DefaultStatus := "በሂደት ላይ"
  const SaveError := "Failed to save registration"
  const FetchError := "Failed to fetch registrations"

  /** Largest rowid SQLite hands out; AUTOINCREMENT fails once it is used. */
  const MaxRowId: nat := 0x7FFF_FFFF_FFFF_FFFF

  /** Seconds since the epoch; `CURRENT_TIMESTAMP` has one-second resolution. */
  type Timestamp = int

  /** One row of `registrations`; NOT NULL columns are plain strings. */
  datatype Row = Row(
    id: nat,
    fullName: string,
    phoneNumber: string,
    subcityKebele: Option<string>,
    houseNumber: Option<string>,
    areaSqm: Option<string>,        // kept opaque: SQLite's REAL affinity is not modelled
    documentPath: Option<string>,
    status: string,
    createdAt: Timestamp)

  /** The table's rows in rowid order and the AUTOINCREMENT counter (`sqlite_sequence`). */
  datatype Table = Table(rows: seq<Row>, lastId: nat)

  const EmptyTable := Table([], 0)

  /** What SQLite maintains for an AUTOINCREMENT key. */
  predicate WellFormed(t: Table)
  {
    && t.lastId <= MaxRowId
    && (forall i :: 0 <= i < |t.rows| ==> 1 <= t.rows[i].id <= t.lastId)
    && (forall i, j :: 0 <= i < j < |t.rows| ==> t.rows[i].id < t.rows[j].id)
  }

  /** The multipart text fields; each is absent when the client did not send it. */
  datatype Form = Form(
    fullName: Option<string>,
    phoneNumber: Option<string>,
    subcityKebele: Option<string>,
    houseNumber: Option<string>,
    areaSqm: Option<string>)

  datatype InsertOutcome = Inserted(table: Table, id: nat) | InsertFailed

  /**
   * The prepared INSERT: the NOT NULL columns reject an absent name or
   * phone number; `status` and `created_at` take their defaults.
   */
  function InsertRow(t: Table, form: Form, documentPath: Option<string>, now: Timestamp): (r: InsertOutcome)
    requires WellFormed(t)
    ensures r.Inserted? <==> form.fullName.Some? && form.phoneNumber.Some? && t.lastId < MaxRowId
    ensures r.Inserted? ==> r.id == t.lastId + 1
    ensures r.Inserted? ==> WellFormed(r.table) && r.table.lastId == r.id
    ensures r.Inserted? ==> forall row :: row in t.rows ==> row.id < r.id
    ensures r.Inserted? ==> r.table.rows == t.rows + [Row(r.id, form.fullName.value, form.phoneNumber.value,
                                                          form.subcityKebele, form.houseNumber, form.areaSqm,
                                                          documentPath, DefaultStatus, now)]
  {
    if form.fullName.None? || form.phoneNumber.None? || t.lastId == MaxRowId then InsertFailed
    else
      var id := t.lastId + 1;
      var row := Row(id, form.fullName.value, form.phoneNumber.value, form.subcityKebele,
                     form.houseNumber, form.areaSqm, documentPath, DefaultStatus, now);
      Inserted(Table(t.rows + [row], id), id)
  }

  // ---------------------------------------------------------------------
  // ORDER BY created_at DESC
  // ---------------------------------------------------------------------

  predicate NewestFirst(rows: seq<Row>)
  {
    forall i, j :: 0 <= i < j < |rows| ==> rows[i].createdAt >= rows[j].createdAt
  }

  /** Each row is at least as new as the next one. */
  predicate StepwiseNewestFirst(rows: seq<Row>)
  {
    forall i :: 0 <= i < |rows| - 1 ==> rows[i].createdAt >= rows[i + 1].createdAt
  }

  lemma {:induction false} StepwiseIsNewestFirst(rows: seq<Row>)
    requires StepwiseNewestFirst(rows)
    ensures NewestFirst(rows)
  {
    if rows != [] {
      StepwiseIsNewestFirst(rows[1..]);
      forall j | 0 < j < |rows| ensures rows[0].createdAt >= rows[j].createdAt {
        assert rows[0].createdAt >= rows[1].createdAt;
        if j > 1 {
          assert rows[1..][0] == rows[1] && rows[1..][j - 1] == rows[j];
        }
      }
    }
  }

  /** Puts `x` before the first row that is not newer than it. */
  function InsertByTime(x: Row, rows: seq<Row>): (r: seq<Row>)
    ensures multiset(r) == multiset(rows) + multiset{x}
    ensures |r| == |rows| + 1
    ensures rows == [] ==> r == [x]
    ensures rows != [] ==> r[0] == x || r[0] == rows[0]
    ensures StepwiseNewestFirst(rows) ==> StepwiseNewestFirst(r)
  {
    if rows == [] || x.createdAt >= rows[0].createdAt then
      assert multiset([x] + rows) == multiset{x} + multiset(rows);
      assert forall i :: 0 < i < |rows| + 1 ==> ([x] + rows)[i] == rows[i - 1];
      [x] + rows
    else
      var rest := InsertByTime(x, rows[1..]);
      assert rows == [rows[0]] + rows[1..];
      var r := [rows[0]] + rest;
      assert multiset(r) == multiset{rows[0]} + multiset(rest);
      assert multiset(rows) == multiset{rows[0]} + multiset(rows[1..]);
      assert forall i :: 0 < i < |r| ==> r[i] == rest[i - 1];
      assert StepwiseNewestFirst(rows) ==> StepwiseNewestFirst(r) by {
        if StepwiseNewestFirst(rows) {
          assert forall i :: 0 <= i < |rows| - 1 ==> rows[1..][i] == rows[i + 1];
          assert StepwiseNewestFirst(rows[1..]);
        }
      }
      r
  }

  /**
   * One ordering SQLite may produce. Rows with equal timestamps have no
   * guaranteed order; this one keeps them in rowid order.
   */
  function SortNewestFirst(rows: seq<Row>): (r: seq<Row>)
    ensures multiset(r) == multiset(rows)
    ensures StepwiseNewestFirst(r)
  {
    if rows == [] then []
    else
      assert rows == [rows[0]] + rows[1..];
      InsertByTime(rows[0], SortNewestFirst(rows[1..]))
  }

  /** Strictly increasing ids mean that no row occurs twice. */
  lemma {:induction false} IncreasingIdsNoDuplicates(rows: seq<Row>)
    requires forall i, j :: 0 <= i < j < |rows| ==> rows[i].id < rows[j].id
    ensures forall x :: x in rows ==> multiset(rows)[x] == 1
  {
    if rows != [] {
      IncreasingIdsNoDuplicates(rows[1..]);
      assert rows == [rows[0]] + rows[1..];
      assert rows[0] !in rows[1..];
    }
  }

  /** The listing holds every row of the table exactly once and nothing else. */
  lemma ListingExactlyOnce(t: Table)
    requires WellFormed(t)
    ensures |SortNewestFirst(t.rows)| == |t.rows|
    ensures forall x :: x in t.rows ==> multiset(SortNewestFirst(t.rows))[x] == 1
    ensures forall x :: x in SortNewestFirst(t.rows) ==> x in t.rows
  {
    IncreasingIdsNoDuplicates(t.rows);
    var l := SortNewestFirst(t.rows);
    assert |multiset(l)| == |multiset(t.rows)|;
    forall x | x in l ensures x in t.rows {
      assert x in multiset(l);
    }
  }

  /** Rows are in creation order when every insert reads a clock that has not gone back. */
  predicate Chronological(rows: seq<Row>)
  {
    forall i, j :: 0 <= i < j < |rows| ==> rows[i].createdAt <= rows[j].createdAt
  }

  lemma InsertKeepsChronological(t: Table, form: Form, documentPath: Option<string>, now: Timestamp)
    requires WellFormed(t) && Chronological(t.rows)
    requires forall row :: row in t.rows ==> row.createdAt <= now
    ensures InsertRow(t, form, documentPath, now).Inserted? ==> Chronological(InsertRow(t, form, documentPath, now).table.rows)
  {
  }

  // ---------------------------------------------------------------------
  // Concrete scenarios
  // ---------------------------------------------------------------------

  /** A first submission without a document gets id 1 and the default status. */
  lemma FirstSubmission(now: Timestamp)
    ensures
      var form := Form(Some("Abebe Kebede"), Some("0911000000"), None, None, None);
      var r := InsertRow(EmptyTable, form, None, now);
      && r == Inserted(Table([Row(1, "Abebe Kebede", "0911000000", None, None, None, None, DefaultStatus, now)], 1), 1)
      && SortNewestFirst(r.table.rows) == r.table.rows
  {
  }

  /** Two identical submissions in a row get two distinct, increasing ids. */
  lemma RepeatedSubmission(t: Table, form: Form, now1: Timestamp, now2: Timestamp)
    requires WellFormed(t) && t.lastId + 2 <= MaxRowId
    requires form.fullName.Some? && form.phoneNumber.Some?
    ensures
      var r1 := InsertRow(t, form, None, now1);
      && r1.Inserted?
      && var r2 := InsertRow(r1.table, form, None, now2);
      && r2.Inserted? && r1.id < r2.id && |r2.table.rows| == |t.rows| + 2
  {
  }

  // ---------------------------------------------------------------------
  // The server process
  // ---------------------------------------------------------------------

  /** A file part of the multipart request. */
  datatype Upload = Upload(originalName: string, content: seq<bv8>)

  datatype PostResponse =
    | Saved(id: nat)              // 200 {success: true, id}
    | Failed(error: string)       // 500 {success: false, error}
    | UploadFailed                // the middleware could not write the file; the handler never ran

  datatype ListResponse =
    | Listed(rows: seq<Row>)      // 200 [rows...]
    | ListFailed(error: string)   // 500 {success: false, error}

  /**
   * The process's persistent state. Two directory names are involved:
   * start-up creates `uploads` next to the server script, while the disk
   * storage writes to `uploads/` relative to the working directory. They
   * are the same directory exactly when the process runs from the script's
   * own directory.
   */
  class Server {
    const cwdIsScriptDir: bool
    var uploadDirExists: bool       // `path.join(__dirname, "uploads")`
    var destinationExists: bool     // `"uploads/"`, relative to the working directory
    var files: map<string, seq<bv8>>
    var tableExists: bool
    var table: Table

    predicate Valid()
      reads this
    {
      && WellFormed(table)
      && (!tableExists ==> table == EmptyTable)
      && (cwdIsScriptDir ==> destinationExists == uploadDirExists)
    }

    /** Process start-up over whatever an earlier run left on disk. */
    constructor Start(cwdIsScriptDir: bool, scriptDirExists: bool, cwdDirExists: bool,
                      existingFiles: map<string, seq<bv8>>, existingTable: Option<Table>)
      requires cwdIsScriptDir ==> scriptDirExists == cwdDirExists
      requires existingTable.Some? ==> WellFormed(existingTable.value)
      ensures Valid() && uploadDirExists && tableExists
      ensures this.cwdIsScriptDir == cwdIsScriptDir
      ensures destinationExists == (cwdDirExists || cwdIsScriptDir)
      ensures files == existingFiles
      ensures table == if existingTable.Some? then existingTable.value else EmptyTable
    {
      this.cwdIsScriptDir := cwdIsScriptDir;
      uploadDirExists := scriptDirExists;
      destinationExists := cwdDirExists;
      files := existingFiles;
      tableExists := existingTable.Some?;
      table := if existingTable.Some? then existingTable.value else EmptyTable;
      new;
      EnsureUploadDir();
      CreateTableIfMissing();
    }

    /**
     * `mkdirSync` guarded by `existsSync`: creates the script-relative
     * directory only if it is missing. The storage destination comes into
     * being with it only when it names the same directory.
     */
    method EnsureUploadDir()
      requires Valid()
      modifies this`uploadDirExists, this`destinationExists
      ensures Valid() && uploadDirExists
      ensures destinationExists == (old(destinationExists) || cwdIsScriptDir)
      ensures old(uploadDirExists) ==> unchanged(this)
    {
      if !uploadDirExists {
        uploadDirExists := true;
        if cwdIsScriptDir {
          destinationExists := true;
        }
      }
    }

    /** CREATE TABLE IF NOT EXISTS: an existing table keeps its rows and counter. */
    method CreateTableIfMissing()
      requires Valid()
      modifies this`tableExists, this`table
      ensures Valid() && tableExists
      ensures table == old(table)
      ensures old(tableExists) ==> unchanged(this)
    {
      if !tableExists {
        tableExists := true;
        table := EmptyTable;
      }
    }

    /**
     * POST /api/registrations. The upload middleware stores the file first;
     * the handler then runs the INSERT. A failed insert leaves the file.
     */
    method PostRegistration(form: Form, file: Option<Upload>, nowMillis: nat, now: Timestamp)
      returns (resp: PostResponse)
      requires Valid()
      modifies this`files, this`table
      ensures Valid()
      ensures resp.UploadFailed? <==> file.Some? && !destinationExists
      ensures resp.UploadFailed? ==> unchanged(this)
      ensures file.Some? && destinationExists ==>
        files == old(files)[StoredPath(nowMillis, file.value.originalName) := file.value.content]
      ensures file.None? ==> files == old(files)
      ensures resp.Saved? <==> (file.None? || destinationExists) && tableExists
                               && form.fullName.Some? && form.phoneNumber.Some? && old(table).lastId < MaxRowId
      ensures resp.Saved? ==>
        var docPath := if file.Some? then Some(StoredPath(nowMillis, file.value.originalName)) else None;
        InsertRow(old(table), form, docPath, now) == Inserted(table, resp.id)
      ensures resp.Failed? <==> (file.None? || destinationExists) && !resp.Saved?
      ensures resp.Failed? ==> resp.error == SaveError
      ensures !resp.Saved? ==> table == old(table)
    {
      var documentPath: Option<string> := None;
      if file.Some? {
        if !destinationExists {
          return UploadFailed;
        }
        var path := StoredPath(nowMillis, file.value.originalName);
        files := files[path := file.value.content];
        documentPath := Some(path);
      }
      if !tableExists {
        return Failed(SaveError);
      }
      var outcome := InsertRow(table, form, documentPath, now);
      if outcome.Inserted? {
        table := outcome.table;
        resp := Saved(outcome.id);
      } else {
        resp := Failed(SaveError);
      }
    }

    /** GET /api/registrations: every row once, newest first; the table is not changed. */
    method ListRegistrations() returns (resp: ListResponse)
      requires Valid()
      ensures resp.Listed? <==> tableExists
      ensures resp.Listed? ==> NewestFirst(resp.rows) && multiset(resp.rows) == multiset(table.rows)
      ensures resp.ListFailed? ==> resp.error == FetchError
    {
      if !tableExists {
        return ListFailed(FetchError);
      }
      StepwiseIsNewestFirst(SortNewestFirst(table.rows));
      resp := Listed(SortNewestFirst(table.rows));
    }
  }

  /**
   * A client of the server: a submission without a file and without a full
   * name is answered with the save error and adds no row.
   */
  method RejectedSubmissionClient(existingTable: Option<Table>)
    requires existingTable.Some? ==> WellFormed(existingTable.value)
  {
    var server := new Server.Start(true, false, false, map[], existingTable);
    var before := server.table;
    var form := Form(None, Some("0911000000"), None, None, None);
    var resp := server.PostRegistration(form, None, 0, 0);
    assert resp == Failed(SaveError);
    assert server.table == before;
  }
}
