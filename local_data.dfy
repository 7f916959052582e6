/**
 * The local sync index: the SQLite catalog of synced files, albums, album
 * membership, the Drive folder-path cache and the global scan cursors, held
 * here as in-memory tables. The pure functions at the top of the module are
 * the queries over those tables; the class `LocalData` owns the tables and
 * changes them in place.
 */
module LocalData {
  import opened Wrappers
  import opened Strings

  /** Timestamps are modelled by a totally ordered integer. */
  type Date = int

  /** The schema version this code supports (a number compared by order only). */
  const VERSION: real := 2.3
  const DB_FILE_NAME: string := "gphotos.sqlite"
  const PREVIOUS_SUFFIX: string := ".previous"

  // ---------------------------------------------------------------------------
  // db_row: the column list and the parameter list of a row class

  /**
   * The columns of the SyncFiles table in the order `cols_def.keys()` yields
   * them, which for an insertion-ordered dict is the order of SyncRow's
   * definition.
   */
  const SYNC_ROW_COLUMNS: seq<string> :=
    ["RemoteId", "Url", "Path", "FileName", "OrigFileName", "DuplicateNo", "MediaType",
     "FileSize", "Checksum", "Description", "ModifyDate", "CreateDate", "SyncDate", "SymLink"]

  /** `query`: the column names joined by commas. */
  function RowQuery(columns: seq<string>): string
  {
    Join(columns, ",")
  }

  /** `params`: a colon followed by the column names joined by ",:". */
  function RowParams(columns: seq<string>): string
  {
    ":" + Join(columns, ",:")
  }

  /** The named SQL placeholder of each column. */
  function Placeholders(columns: seq<string>): (r: seq<string>)
    ensures |r| == |columns|
    ensures forall i :: 0 <= i < |columns| ==> r[i] == ":" + columns[i]
  {
    seq(|columns|, i requires 0 <= i < |columns| => ":" + columns[i])
  }

  /** For a non-empty column list, `params` is the placeholders of `query`'s columns joined by commas. */
  lemma {:induction false} RowParamsArePlaceholders(columns: seq<string>)
    requires |columns| > 0
    ensures RowParams(columns) == Join(Placeholders(columns), ",")
  {
    if |columns| > 1 {
      var rest := columns[1..];
      RowParamsArePlaceholders(rest);
      assert Placeholders(columns) == [":" + columns[0]] + Placeholders(rest);
      assert Placeholders(columns)[1..] == Placeholders(rest);
      calc {
        RowParams(columns);
        ":" + (columns[0] + ",:" + Join(rest, ",:"));
        (":" + columns[0]) + "," + RowParams(rest);
        (":" + columns[0]) + "," + Join(Placeholders(rest), ",");
        Join(Placeholders(columns), ",");
      }
    }
  }

  /**
   * Splitting `query` and `params` at the commas gives the same columns in the
   * same order, bare in `query` and as placeholders in `params`.
   */
  lemma ColumnListsAgree(columns: seq<string>)
    requires |columns| > 0
    requires forall i :: 0 <= i < |columns| ==> ',' !in columns[i]
    ensures Split(RowQuery(columns), ',') == columns
    ensures Split(RowParams(columns), ',') == Placeholders(columns)
    ensures |Split(RowQuery(columns), ',')| == |Split(RowParams(columns), ',')|
  {
    SplitJoin(columns, ',');
    RowParamsArePlaceholders(columns);
    var ph := Placeholders(columns);
    forall i | 0 <= i < |ph| ensures ',' !in ph[i] {
      assert ph[i] == ":" + columns[i];
    }
    SplitJoin(ph, ',');
  }

  /** The SyncRow columns give a query of fourteen names and fourteen matching placeholders. */
  lemma SyncRowColumnLists()
    ensures Split(RowQuery(SYNC_ROW_COLUMNS), ',') == SYNC_ROW_COLUMNS
    ensures Split(RowParams(SYNC_ROW_COLUMNS), ',') == Placeholders(SYNC_ROW_COLUMNS)
    ensures |Placeholders(SYNC_ROW_COLUMNS)| == 14
  {
    ColumnListsAgree(SYNC_ROW_COLUMNS);
  }

  // ---------------------------------------------------------------------------
  // Rows of the tables

  /** A row of SyncFiles. The three timestamps may be NULL (None). */
  datatype SyncRow = SyncRow(
    remoteId: string, url: string, path: string, fileName: string, origFileName: string,
    duplicateNo: int, mediaType: int, fileSize: int, checksum: string, description: string,
    modifyDate: Option<Date>, createDate: Option<Date>, syncDate: Option<Date>, symLink: int)

  /** A row of Albums, keyed by its AlbumId; each of its columns may be NULL (None). */
  datatype Album = Album(name: Option<string>, startDate: Option<Date>, endDate: Option<Date>, syncDate: Option<Date>)

  /** A row of AlbumFiles: an album id and a SyncFiles row id. */
  datatype AlbumFile = AlbumFile(albumRec: string, driveRec: int)

  /** A row of DriveFolders; Path is NULL (None) until it is computed. */
  datatype DriveFolder = DriveFolder(folderId: string, parentId: string, folderName: string, path: Option<string>)

  /** The singleton Globals row. */
  datatype Globals = Globals(version: real, lastIndexDrive: Option<Date>, lastIndexPicasa: Option<Date>)

  /** The content of one database file. */
  datatype Store = Store(
    syncFiles: seq<SyncRow>, albums: map<string, Album>, albumFiles: set<AlbumFile>,
    driveFolders: seq<DriveFolder>, globals: Globals)

  datatype DbError =
    | NewerSchema        // the ValueError of the schema check
    | DuplicateRemoteId  // the integrity error of an insert whose RemoteId is already present

  /** What the creation script leaves: every table empty and a Globals row at VERSION. */
  function EmptyStore(): Store
  {
    Store([], map[], {}, [], Globals(VERSION, None, None))
  }

  ghost predicate UniqueRemoteIds(rows: seq<SyncRow>)
  {
    forall i, j :: 0 <= i < j < |rows| ==> rows[i].remoteId != rows[j].remoteId
  }

  ghost predicate UniqueFolderIds(folders: seq<DriveFolder>)
  {
    forall i, j :: 0 <= i < j < |folders| ==> folders[i].folderId != folders[j].folderId
  }

  /** The key constraints of the schema: RemoteId is unique in SyncFiles, FolderId in DriveFolders. */
  ghost predicate StoreValid(s: Store)
  {
    UniqueRemoteIds(s.syncFiles) && UniqueFolderIds(s.driveFolders)
  }

  // ---------------------------------------------------------------------------
  // Point lookups (fetchone answers with the first row in table order)

  /** `SELECT ... FROM SyncFiles WHERE RemoteId = ?` */
  function FileById(rows: seq<SyncRow>, remoteId: string): (r: Option<SyncRow>)
    ensures r.None? <==> forall i :: 0 <= i < |rows| ==> rows[i].remoteId != remoteId
    ensures r.Some? ==> r.value in rows && r.value.remoteId == remoteId
  {
    if rows == [] then None
    else
      var before := rows[..|rows| - 1];
      assert forall i :: 0 <= i < |before| ==> before[i] == rows[i];
      match FileById(before, remoteId)
      case Some(row) => Some(row)
      case None => if rows[|rows| - 1].remoteId == remoteId then Some(rows[|rows| - 1]) else None
  }

  /** The row found is the first row with that id. */
  lemma {:induction false} FileByIdIsFirst(rows: seq<SyncRow>, remoteId: string, i: nat)
    requires i < |rows| && rows[i].remoteId == remoteId
    requires forall j :: 0 <= j < i ==> rows[j].remoteId != remoteId
    ensures FileById(rows, remoteId) == Some(rows[i])
  {
    var before := rows[..|rows| - 1];
    if i < |before| {
      FileByIdIsFirst(before, remoteId, i);
    } else {
      assert forall j :: 0 <= j < |before| ==> before[j] == rows[j];
    }
  }

  /** `SELECT ... FROM SyncFiles WHERE Path = ? AND FileName = ?` */
  function FileByPath(rows: seq<SyncRow>, folder: string, name: string): (r: Option<SyncRow>)
    ensures r.None? <==> forall i :: 0 <= i < |rows| ==> !(rows[i].path == folder && rows[i].fileName == name)
    ensures r.Some? ==> r.value in rows && r.value.path == folder && r.value.fileName == name
  {
    if rows == [] then None
    else
      var before := rows[..|rows| - 1];
      var last := rows[|rows| - 1];
      assert forall i :: 0 <= i < |before| ==> before[i] == rows[i];
      match FileByPath(before, folder, name)
      case Some(row) => Some(row)
      case None => if last.path == folder && last.fileName == name then Some(last) else None
  }

  /** Appending one row after a row with the id does not change which row the id finds. */
  lemma FileByIdSnoc(rows: seq<SyncRow>, last: SyncRow, remoteId: string)
    requires FileById(rows, remoteId).Some?
    ensures FileById(rows + [last], remoteId) == FileById(rows, remoteId)
  {
    assert (rows + [last])[..|rows|] == rows;
  }

  /** Once some row has the id, appending more rows does not change which row the id finds. */
  lemma {:induction false} FileByIdAppend(rows: seq<SyncRow>, extra: seq<SyncRow>, remoteId: string)
    requires FileById(rows, remoteId).Some?
    ensures FileById(rows + extra, remoteId) == FileById(rows, remoteId)
  {
    if extra == [] {
      assert rows + extra == rows;
    } else {
      var shorter := extra[..|extra| - 1];
      var last := extra[|extra| - 1];
      FileByIdAppend(rows, shorter, remoteId);
      assert rows + extra == (rows + shorter) + [last] by {
        assert extra == shorter + [last];
      }
      FileByIdSnoc(rows + shorter, last, remoteId);
    }
  }

  // ---------------------------------------------------------------------------
  // file_duplicate_no

  /** A row belongs to the duplicate group of (Path, OrigFileName). */
  predicate InGroup(row: SyncRow, path: string, name: string)
  {
    row.path == path && row.origFileName == name
  }

  /** `SELECT MAX(DuplicateNo) FROM SyncFiles WHERE Path = ? AND OrigFileName = ?`; None is SQL NULL. */
  function MaxDuplicateNo(rows: seq<SyncRow>, path: string, name: string): (m: Option<int>)
    ensures m.None? <==> forall i :: 0 <= i < |rows| ==> !InGroup(rows[i], path, name)
    ensures m.Some? ==> forall i :: 0 <= i < |rows| && InGroup(rows[i], path, name) ==> rows[i].duplicateNo <= m.value
    ensures m.Some? ==> exists i :: 0 <= i < |rows| && InGroup(rows[i], path, name) && rows[i].duplicateNo == m.value
  {
    if rows == [] then None
    else
      var before := rows[..|rows| - 1];
      var last := rows[|rows| - 1];
      assert forall i :: 0 <= i < |before| ==> before[i] == rows[i];
      var m := MaxDuplicateNo(before, path, name);
      if !InGroup(last, path, name) then m
      else match m
        case None => Some(last.duplicateNo)
        case Some(k) => Some(if last.duplicateNo > k then last.duplicateNo else k)
  }

  /** The number a new member of the group gets: one past the group's maximum, or 0 for an empty group. */
  function NextDuplicateNo(rows: seq<SyncRow>, path: string, name: string): (n: int)
    ensures forall i :: 0 <= i < |rows| && InGroup(rows[i], path, name) ==> rows[i].duplicateNo < n
  {
    match MaxDuplicateNo(rows, path, name)
    case Some(m) => m + 1
    case None => 0
  }

  /**
   * The duplicate number for remote item `remoteId` whose file would be
   * `name` in folder `path`: the stored number when the item is already
   * indexed, otherwise the next free number of its group.
   */
  function DuplicateNo(rows: seq<SyncRow>, remoteId: string, path: string, name: string): int
  {
    match FileById(rows, remoteId)
    case Some(row) => row.duplicateNo
    case None => NextDuplicateNo(rows, path, name)
  }

  /** The rule of file_duplicate_no. */
  lemma DuplicateNoRule(rows: seq<SyncRow>, remoteId: string, path: string, name: string)
    // an indexed item keeps the number stored on its row, whatever else is in its group
    ensures FileById(rows, remoteId).Some? ==> DuplicateNo(rows, remoteId, path, name) == FileById(rows, remoteId).value.duplicateNo
    // a new item gets a number above every number used in its group ...
    ensures (forall i :: 0 <= i < |rows| ==> rows[i].remoteId != remoteId) ==>
              forall i :: 0 <= i < |rows| && InGroup(rows[i], path, name) ==> rows[i].duplicateNo < DuplicateNo(rows, remoteId, path, name)
    // ... exactly one above the group's maximum ...
    ensures ((forall i :: 0 <= i < |rows| ==> rows[i].remoteId != remoteId) &&
             (exists i :: 0 <= i < |rows| && InGroup(rows[i], path, name))) ==>
              exists i :: 0 <= i < |rows| && InGroup(rows[i], path, name) && rows[i].duplicateNo == DuplicateNo(rows, remoteId, path, name) - 1
    // ... and 0 when the group is empty
    ensures ((forall i :: 0 <= i < |rows| ==> rows[i].remoteId != remoteId) &&
             (forall i :: 0 <= i < |rows| ==> !InGroup(rows[i], path, name))) ==> DuplicateNo(rows, remoteId, path, name) == 0
  {
  }

  /** An id not yet indexed gets the next number of its group. */
  lemma NewIdGetsNextNumber(rows: seq<SyncRow>, remoteId: string, path: string, name: string)
    requires forall i :: 0 <= i < |rows| ==> rows[i].remoteId != remoteId
    ensures DuplicateNo(rows, remoteId, path, name) == NextDuplicateNo(rows, path, name)
  {
  }

  /** In a table with unique ids, an indexed item's number is the number on its row. */
  lemma DuplicateNoOfIndexedItem(rows: seq<SyncRow>, i: nat, path: string, name: string)
    requires UniqueRemoteIds(rows)
    requires i < |rows|
    ensures DuplicateNo(rows, rows[i].remoteId, path, name) == rows[i].duplicateNo
  {
    FileByIdIsFirst(rows, rows[i].remoteId, i);
  }

  /** An indexed item keeps its number however many rows are added after it. */
  lemma DuplicateNoStable(rows: seq<SyncRow>, extra: seq<SyncRow>, remoteId: string, path: string, name: string)
    requires exists i :: 0 <= i < |rows| && rows[i].remoteId == remoteId
    ensures DuplicateNo(rows + extra, remoteId, path, name) == DuplicateNo(rows, remoteId, path, name)
  {
    FileByIdAppend(rows, extra, remoteId);
  }

  /**
   * The sync loop over incoming items: number each incoming row with
   * file_duplicate_no against the table so far, then put_file it. As in
   * PutFile, a row whose RemoteId the table already holds is refused and
   * the table is left as it was.
   */
  function NumberAndInsert(rows: seq<SyncRow>, incoming: seq<SyncRow>): (r: seq<SyncRow>)
    ensures |rows| <= |r| <= |rows| + |incoming|
    ensures r[..|rows|] == rows
    decreases |incoming|
  {
    if incoming == [] then rows
    else
      var r := incoming[0];
      if FileById(rows, r.remoteId).Some? then NumberAndInsert(rows, incoming[1..])
      else
        var d := DuplicateNo(rows, r.remoteId, r.path, r.origFileName);
        var inserted := NumberAndInsert(rows + [r.(duplicateNo := d)], incoming[1..]);
        assert inserted[..|rows|] == inserted[..|rows| + 1][..|rows|];
        inserted
  }

  /** Numbering and inserting never gives two rows the same RemoteId. */
  lemma {:induction false} NumberAndInsertKeepsIdsUnique(rows: seq<SyncRow>, incoming: seq<SyncRow>)
    requires UniqueRemoteIds(rows)
    ensures UniqueRemoteIds(NumberAndInsert(rows, incoming))
    decreases |incoming|
  {
    if incoming != [] {
      var r := incoming[0];
      if FileById(rows, r.remoteId).Some? {
        NumberAndInsertKeepsIdsUnique(rows, incoming[1..]);
      } else {
        var d := DuplicateNo(rows, r.remoteId, r.path, r.origFileName);
        var rows' := rows + [r.(duplicateNo := d)];
        forall i, j | 0 <= i < j < |rows'| ensures rows'[i].remoteId != rows'[j].remoteId {
          if j < |rows| {
            assert rows'[i] == rows[i] && rows'[j] == rows[j];
          } else {
            assert rows'[i] == rows[i];
          }
        }
        NumberAndInsertKeepsIdsUnique(rows', incoming[1..]);
      }
    }
  }

  /** Incoming rows whose RemoteIds the table already holds are all refused, as PutFile refuses them. */
  lemma {:induction false} NumberAndInsertRefusesIndexed(rows: seq<SyncRow>, incoming: seq<SyncRow>)
    requires forall k :: 0 <= k < |incoming| ==> FileById(rows, incoming[k].remoteId).Some?
    ensures NumberAndInsert(rows, incoming) == rows
    decreases |incoming|
  {
    if incoming != [] {
      assert FileById(rows, incoming[0].remoteId).Some?;
      assert forall k :: 0 <= k < |incoming[1..]| ==> incoming[1..][k] == incoming[k + 1];
      NumberAndInsertRefusesIndexed(rows, incoming[1..]);
    }
  }

  /** Adding a member numbered one past the group's maximum moves the next number up by one. */
  lemma NextDuplicateNoAfterInsert(rows: seq<SyncRow>, r: SyncRow, path: string, name: string)
    requires InGroup(r, path, name)
    requires r.duplicateNo == NextDuplicateNo(rows, path, name)
    ensures NextDuplicateNo(rows + [r], path, name) == r.duplicateNo + 1
  {
    assert (rows + [r])[..|rows|] == rows;
  }

  /**
   * Regrouping a concatenation, stated on its own so that NumberingIsConsecutive
   * does not have to find it among its other facts.
   */
  lemma AppendAssociates(a: seq<SyncRow>, b: seq<SyncRow>, c: seq<SyncRow>)
    ensures (a + b) + c == a + (b + c)
  {
  }

  /** The incoming rows numbered `start`, `start + 1`, ... in order. */
  function Numbered(incoming: seq<SyncRow>, start: int): (r: seq<SyncRow>)
    ensures |r| == |incoming|
  {
    if incoming == [] then [] else [incoming[0].(duplicateNo := start)] + Numbered(incoming[1..], start + 1)
  }

  /** One unfolding of Numbered, stated on its own for the same reason. */
  lemma NumberedCons(incoming: seq<SyncRow>, start: int)
    requires |incoming| > 0
    ensures Numbered(incoming, start) == [incoming[0].(duplicateNo := start)] + Numbered(incoming[1..], start + 1)
  {
  }

  /** Row k of the numbered rows is incoming row k with number `start + k`. */
  lemma {:induction false} NumberedAt(incoming: seq<SyncRow>, start: int, k: nat)
    requires k < |incoming|
    ensures Numbered(incoming, start)[k] == incoming[k].(duplicateNo := start + k)
  {
    if k > 0 {
      NumberedAt(incoming[1..], start + 1, k - 1);
    }
  }

  /**
   * Numbering N new items of one group, with distinct ids that are not yet
   * indexed, appends them with consecutive numbers from the group's next number.
   */
  lemma {:induction false} NumberingIsConsecutive(rows: seq<SyncRow>, incoming: seq<SyncRow>, path: string, name: string)
    requires forall k :: 0 <= k < |incoming| ==> InGroup(incoming[k], path, name)
    requires forall k, l :: 0 <= k < l < |incoming| ==> incoming[k].remoteId != incoming[l].remoteId
    requires forall k, i :: 0 <= k < |incoming| && 0 <= i < |rows| ==> incoming[k].remoteId != rows[i].remoteId
    ensures NumberAndInsert(rows, incoming) == rows + Numbered(incoming, NextDuplicateNo(rows, path, name))
    decreases |incoming|
  {
    if incoming != [] {
      var r := incoming[0];
      var rest := incoming[1..];
      var d := NextDuplicateNo(rows, path, name);
      var rows' := rows + [r.(duplicateNo := d)];
      assert NumberAndInsert(rows, incoming) == NumberAndInsert(rows', rest) by {
        assert InGroup(r, path, name);
        assert FileById(rows, r.remoteId).None?;
        NewIdGetsNextNumber(rows, r.remoteId, r.path, r.origFileName);
      }
      assert NextDuplicateNo(rows', path, name) == d + 1 by {
        assert InGroup(r, path, name);
        NextDuplicateNoAfterInsert(rows, r.(duplicateNo := d), path, name);
      }
      RestStaysNew(rows, r.(duplicateNo := d), incoming, rows', rest);
      assert forall k :: 0 <= k < |rest| ==> InGroup(rest[k], path, name);
      NumberingIsConsecutive(rows', rest, path, name);
      NumberedCons(incoming, d);
      AppendAssociates(rows, [r.(duplicateNo := d)], Numbered(rest, d + 1));
    }
  }

  /** After the first incoming row is inserted, the remaining ones are still new to the table, and distinct. */
  lemma RestStaysNew(rows: seq<SyncRow>, first: SyncRow, incoming: seq<SyncRow>, rows': seq<SyncRow>, rest: seq<SyncRow>)
    requires |incoming| > 0 && rest == incoming[1..]
    requires rows' == rows + [first] && first.remoteId == incoming[0].remoteId
    requires forall k, l :: 0 <= k < l < |incoming| ==> incoming[k].remoteId != incoming[l].remoteId
    requires forall k, i :: 0 <= k < |incoming| && 0 <= i < |rows| ==> incoming[k].remoteId != rows[i].remoteId
    ensures forall k, l :: 0 <= k < l < |rest| ==> rest[k].remoteId != rest[l].remoteId
    ensures forall k, i :: 0 <= k < |rest| && 0 <= i < |rows'| ==> rest[k].remoteId != rows'[i].remoteId
  {
    forall k, l | 0 <= k < l < |rest| ensures rest[k].remoteId != rest[l].remoteId {
      assert rest[k] == incoming[k + 1] && rest[l] == incoming[l + 1];
    }
    forall k, i | 0 <= k < |rest| && 0 <= i < |rows'| ensures rest[k].remoteId != rows'[i].remoteId {
      assert rest[k] == incoming[k + 1];
      if i < |rows| { assert rows'[i] == rows[i]; } else { assert rows'[i].remoteId == incoming[0].remoteId; }
    }
  }

  /** First assignment in an empty group: N new items are numbered 0, 1, ..., N-1, after the existing rows. */
  lemma NumberingStartsAtZero(rows: seq<SyncRow>, incoming: seq<SyncRow>, path: string, name: string)
    requires forall i :: 0 <= i < |rows| ==> !InGroup(rows[i], path, name)
    requires forall k :: 0 <= k < |incoming| ==> InGroup(incoming[k], path, name)
    requires forall k, l :: 0 <= k < l < |incoming| ==> incoming[k].remoteId != incoming[l].remoteId
    requires forall k, i :: 0 <= k < |incoming| && 0 <= i < |rows| ==> incoming[k].remoteId != rows[i].remoteId
    ensures |NumberAndInsert(rows, incoming)| == |rows| + |incoming|
    ensures NumberAndInsert(rows, incoming)[..|rows|] == rows
    ensures forall k :: |rows| <= k < |rows| + |incoming| ==>
              NumberAndInsert(rows, incoming)[k] == incoming[k - |rows|].(duplicateNo := k - |rows|)
  {
    var result := NumberAndInsert(rows, incoming);
    var numbered := Numbered(incoming, 0);
    assert result == rows + numbered by {
      assert NextDuplicateNo(rows, path, name) == 0;
      NumberingIsConsecutive(rows, incoming, path, name);
    }
    forall k | |rows| <= k < |rows| + |incoming|
      ensures result[k] == incoming[k - |rows|].(duplicateNo := k - |rows|)
    {
      assert result[k] == numbered[k - |rows|];
      NumberedAt(incoming, 0, k - |rows|);
    }
  }

  /** No two rows of one (Path, OrigFileName) group share a duplicate number. */
  ghost predicate GroupNumbersDistinct(rows: seq<SyncRow>)
  {
    forall i, j :: 0 <= i < j < |rows| && InGroup(rows[j], rows[i].path, rows[i].origFileName) ==>
      rows[i].duplicateNo != rows[j].duplicateNo
  }

  /** Inserting a new item under the number file_duplicate_no gives it keeps group numbers distinct. */
  lemma NumberingKeepsGroupsDistinct(rows: seq<SyncRow>, r: SyncRow)
    requires GroupNumbersDistinct(rows)
    requires forall i :: 0 <= i < |rows| ==> rows[i].remoteId != r.remoteId
    ensures GroupNumbersDistinct(rows + [r.(duplicateNo := DuplicateNo(rows, r.remoteId, r.path, r.origFileName))])
  {
    var d := DuplicateNo(rows, r.remoteId, r.path, r.origFileName);
    DuplicateNoRule(rows, r.remoteId, r.path, r.origFileName);
    var rows' := rows + [r.(duplicateNo := d)];
    forall i, j | 0 <= i < j < |rows'| && InGroup(rows'[j], rows'[i].path, rows'[i].origFileName)
      ensures rows'[i].duplicateNo != rows'[j].duplicateNo
    {
      if j == |rows| {
        assert InGroup(rows[i], r.path, r.origFileName);
      } else {
        assert rows'[i] == rows[i] && rows'[j] == rows[j];
      }
    }
  }

  // ---------------------------------------------------------------------------
  // get_files_by_search

  /** SQLite's LIKE folds the ASCII upper-case letters to lower case and no other character. */
  function FoldCase(c: char): char
  {
    if 'A' <= c <= 'Z' then (c as int + 32) as char else c
  }

  /**
   * SQLite's `value LIKE pattern` with no ESCAPE clause: `%` matches any run
   * of characters, `_` any one character, and every other character matches
   * itself up to ASCII case.
   */
  predicate Like(pattern: string, value: string)
    decreases |pattern| + |value|
  {
    if pattern == [] then value == []
    else if pattern[0] == '%' then
      Like(pattern[1..], value) || (value != [] && Like(pattern, value[1..]))
    else
      && value != []
      && (pattern[0] == '_' || FoldCase(pattern[0]) == FoldCase(value[0]))
      && Like(pattern[1..], value[1..])
  }

  /** The default argument `%` matches every value. */
  lemma {:induction false} LikeAnything(value: string)
    ensures Like("%", value)
  {
    if value != [] {
      LikeAnything(value[1..]);
    }
  }

  /** Every string, wildcards included, matches itself. */
  lemma {:induction false} LikeItself(s: string)
    ensures Like(s, s)
  {
    if s != [] {
      LikeItself(s[1..]);
      if s[0] == '%' {
        assert Like(s[1..], s[1..]);
        assert Like(s, s[1..]);
      }
    }
  }

  /**
   * A pattern free of `%` and `_` matches exactly the values of its length
   * that agree with it character by character up to ASCII case.
   */
  lemma {:induction false} LikeWithoutWildcards(pattern: string, value: string)
    requires '%' !in pattern && '_' !in pattern
    ensures Like(pattern, value) <==>
              |pattern| == |value| && forall i :: 0 <= i < |pattern| ==> FoldCase(pattern[i]) == FoldCase(value[i])
  {
    if pattern != [] && value != [] {
      assert pattern[0] in pattern;
      assert forall c :: c in pattern[1..] ==> c in pattern;
      LikeWithoutWildcards(pattern[1..], value[1..]);
      if |pattern| == |value| && FoldCase(pattern[0]) == FoldCase(value[0]) &&
         forall i :: 0 <= i < |pattern| - 1 ==> FoldCase(pattern[1..][i]) == FoldCase(value[1..][i]) {
        forall i | 0 <= i < |pattern| ensures FoldCase(pattern[i]) == FoldCase(value[i]) {
          if i > 0 {
            assert pattern[i] == pattern[1..][i - 1] && value[i] == value[1..][i - 1];
          }
        }
      }
    } else if pattern != [] {
      assert pattern[0] in pattern;
    }
  }

  /**
   * The media-type argument: `%`, which matches every type, or a number,
   * which as LIKE compares the two decimal texts matches just that type.
   */
  datatype TypeArg = AnyType | TypeIs(value: int)

  predicate TypeLike(arg: TypeArg, mediaType: int)
  {
    arg.AnyType? || arg.value == mediaType
  }

  /** A comparison with a NULL timestamp is never true. */
  predicate OnOrAfter(d: Option<Date>, bound: Date)
  {
    d.Some? && d.value >= bound
  }

  predicate OnOrBefore(d: Option<Date>, bound: Date)
  {
    d.Some? && d.value <= bound
  }

  /**
   * The WHERE clause of the search: id and media type match; with a start
   * date, the row was modified OR created on or after it; with an end date,
   * it was modified on or before it.
   */
  predicate SearchMatches(row: SyncRow, remoteId: string, mediaType: TypeArg,
                          startDate: Option<Date>, endDate: Option<Date>)
  {
    && Like(remoteId, row.remoteId)
    && TypeLike(mediaType, row.mediaType)
    && (startDate.Some? ==> OnOrAfter(row.modifyDate, startDate.value) || OnOrAfter(row.createDate, startDate.value))
    && (endDate.Some? ==> OnOrBefore(row.modifyDate, endDate.value))
  }

  /** The rows of the table that satisfy the search, in table order. */
  function Search(rows: seq<SyncRow>, remoteId: string, mediaType: TypeArg,
                  startDate: Option<Date>, endDate: Option<Date>): (found: seq<SyncRow>)
    ensures |found| <= |rows|
  {
    if rows == [] then []
    else
      var before := rows[..|rows| - 1];
      var last := rows[|rows| - 1];
      Search(before, remoteId, mediaType, startDate, endDate) +
        (if SearchMatches(last, remoteId, mediaType, startDate, endDate) then [last] else [])
  }

  /**
   * The search yields exactly the matching rows: each matching row as often
   * as the table holds it, and no other row.
   */
  lemma {:induction false} SearchIsExact(rows: seq<SyncRow>, remoteId: string, mediaType: TypeArg,
                                         startDate: Option<Date>, endDate: Option<Date>)
    ensures forall row :: multiset(Search(rows, remoteId, mediaType, startDate, endDate))[row] ==
              if SearchMatches(row, remoteId, mediaType, startDate, endDate) then multiset(rows)[row] else 0
    ensures forall row :: row in Search(rows, remoteId, mediaType, startDate, endDate) <==>
              row in rows && SearchMatches(row, remoteId, mediaType, startDate, endDate)
  {
    if rows != [] {
      var before := rows[..|rows| - 1];
      var last := rows[|rows| - 1];
      assert rows == before + [last];
      SearchIsExact(before, remoteId, mediaType, startDate, endDate);
      var kept := if SearchMatches(last, remoteId, mediaType, startDate, endDate) then [last] else [];
      assert Search(rows, remoteId, mediaType, startDate, endDate) == Search(before, remoteId, mediaType, startDate, endDate) + kept;
    }
  }

  // ---------------------------------------------------------------------------
  // Albums

  /**
   * get_album: the stored (name, start, end, sync) of an album, or four Nones.
   * The four Nones therefore answer both for an absent album and for one
   * whose four columns are NULL.
   */
  function AlbumInfo(albums: map<string, Album>, albumId: string): (r: (Option<string>, Option<Date>, Option<Date>, Option<Date>))
    ensures albumId in albums ==> r == (albums[albumId].name, albums[albumId].startDate, albums[albumId].endDate, albums[albumId].syncDate)
    ensures r == (None, None, None, None) <==> albumId !in albums || albums[albumId] == Album(None, None, None, None)
  {
    if albumId in albums then
      var a := albums[albumId];
      (a.name, a.startDate, a.endDate, a.syncDate)
    else (None, None, None, None)
  }

  // ---------------------------------------------------------------------------
  // DriveFolders

  /** get_drive_folder_path: the Path of the folder's row; None when absent or NULL. */
  function FolderPath(folders: seq<DriveFolder>, folderId: string): (p: Option<string>)
    ensures (forall i :: 0 <= i < |folders| ==> folders[i].folderId != folderId) ==> p.None?
    ensures forall i :: (0 <= i < |folders| && folders[i].folderId == folderId &&
                         forall j :: 0 <= j < i ==> folders[j].folderId != folderId) ==> p == folders[i].path
  {
    if folders == [] then None
    else if folders[0].folderId == folderId then folders[0].path
    else
      assert forall i :: 1 <= i < |folders| ==> folders[1..][i - 1] == folders[i];
      FolderPath(folders[1..], folderId)
  }

  /** The table less the row of `folderId` (the delete half of INSERT OR REPLACE). */
  function WithoutFolder(folders: seq<DriveFolder>, folderId: string): (r: seq<DriveFolder>)
    ensures forall f :: f in r <==> f in folders && f.folderId != folderId
    ensures forall i :: 0 <= i < |r| ==> r[i].folderId != folderId
    ensures UniqueFolderIds(folders) ==> UniqueFolderIds(r)
  {
    if folders == [] then []
    else
      var rest := WithoutFolder(folders[1..], folderId);
      assert forall f :: f in folders[1..] ==> f in folders;
      assert UniqueFolderIds(folders) ==> forall f :: f in rest ==> f.folderId != folders[0].folderId;
      if folders[0].folderId == folderId then rest else [folders[0]] + rest
  }

  /** The (FolderId, FolderName) of the rows whose ParentId is `parentId`, in table order. */
  function Children(folders: seq<DriveFolder>, parentId: string): (children: seq<(string, string)>)
    ensures |children| <= |folders|
    ensures forall id, name :: (id, name) in children <==>
              exists i :: 0 <= i < |folders| && folders[i].parentId == parentId &&
                          folders[i].folderId == id && folders[i].folderName == name
  {
    if folders == [] then []
    else
      var before := folders[..|folders| - 1];
      var last := folders[|folders| - 1];
      assert forall i :: 0 <= i < |before| ==> before[i] == folders[i];
      Children(before, parentId) + (if last.parentId == parentId then [(last.folderId, last.folderName)] else [])
  }

  /** Setting Path of some rows leaves the children of every folder as they were. */
  lemma {:induction false} ChildrenIgnorePaths(folders: seq<DriveFolder>, folders': seq<DriveFolder>, parentId: string)
    requires |folders'| == |folders|
    requires forall i :: 0 <= i < |folders| ==> folders'[i] == folders[i].(path := folders'[i].path)
    ensures Children(folders', parentId) == Children(folders, parentId)
  {
    if folders != [] {
      ChildrenIgnorePaths(folders[..|folders| - 1], folders'[..|folders| - 1], parentId);
    }
  }

  // ---------------------------------------------------------------------------
  // The index object

  class LocalData {
    /** The database file, under the root folder. */
    const fileName: string
    var syncFiles: seq<SyncRow>
    var albums: map<string, Album>
    var albumFiles: set<AlbumFile>
    var driveFolders: seq<DriveFolder>
    var globals: Globals
    /** Database files that the schema gate renamed aside, by file name. */
    var setAside: map<string, Store>

    ghost predicate Valid()
      reads this
    {
      StoreValid(Snapshot())
    }

    /** The content of the open database. */
    function Snapshot(): Store
      reads this
    {
      Store(syncFiles, albums, albumFiles, driveFolders, globals)
    }

    /**
     * Connects to `root_folder/gphotos.sqlite`, whose content is `onDisk`
     * (None when the file does not exist); creates the schema when the file
     * is new or `flushIndex` is set. The schema check is `Open`'s second step.
     */
    constructor (rootFolder: string, onDisk: Option<Store>, flushIndex: bool)
      requires onDisk.Some? ==> StoreValid(onDisk.value)
      ensures fileName == PathJoin(rootFolder, DB_FILE_NAME)
      ensures Snapshot() == if onDisk.None? || flushIndex then EmptyStore() else onDisk.value
      ensures setAside == map[]
      ensures Valid()
    {
      fileName := PathJoin(rootFolder, DB_FILE_NAME);
      setAside := map[];
      var s := if onDisk.None? || flushIndex then EmptyStore() else onDisk.value;
      syncFiles, albums, albumFiles, driveFolders, globals :=
        s.syncFiles, s.albums, s.albumFiles, s.driveFolders, s.globals;
    }

    /** clean_db: runs the creation script, leaving empty tables at VERSION. */
    method CleanDb()
      modifies this
      ensures Snapshot() == EmptyStore()
      ensures setAside == old(setAside)
      ensures Valid()
    {
      var s := EmptyStore();
      syncFiles, albums, albumFiles, driveFolders, globals :=
        s.syncFiles, s.albums, s.albumFiles, s.driveFolders, s.globals;
    }

    /**
     * check_schema_version: a newer stored version fails and touches nothing;
     * an older one moves the database file aside under `.previous` and starts
     * an empty one; the supported version changes nothing.
     */
    method CheckSchemaVersion() returns (r: Outcome<DbError>)
      requires Valid()
      modifies this
      ensures Valid()
      ensures old(globals.version) > VERSION ==>
        r == Fail(NewerSchema) && Snapshot() == old(Snapshot()) && setAside == old(setAside)
      ensures old(globals.version) < VERSION ==>
        r == Pass && Snapshot() == EmptyStore() &&
        setAside == old(setAside)[fileName + PREVIOUS_SUFFIX := old(Snapshot())]
      ensures old(globals.version) == VERSION ==>
        r == Pass && Snapshot() == old(Snapshot()) && setAside == old(setAside)
      ensures r == Pass ==> globals.version == VERSION
    {
      var version := globals.version;
      if version > VERSION {
        return Fail(NewerSchema);
      } else if version < VERSION {
        setAside := setAside[fileName + PREVIOUS_SUFFIX := Snapshot()];
        CleanDb();
      }
      r := Pass;
    }

    /** set_scan_dates: writes only the cursors that are given. */
    method SetScanDates(picasaLastDate: Option<Date>, driveLastDate: Option<Date>)
      modifies this`globals
      ensures globals.version == old(globals.version)
      ensures GetScanDates() ==
        (if driveLastDate.Some? then driveLastDate else old(globals.lastIndexDrive),
         if picasaLastDate.Some? then picasaLastDate else old(globals.lastIndexPicasa))
    {
      if driveLastDate.Some? {
        globals := globals.(lastIndexDrive := driveLastDate);
      }
      if picasaLastDate.Some? {
        globals := globals.(lastIndexPicasa := picasaLastDate);
      }
    }

    /** get_scan_dates: the (drive, picasa) cursors. */
    function GetScanDates(): (Option<Date>, Option<Date>)
      reads this
    {
      (globals.lastIndexDrive, globals.lastIndexPicasa)
    }

    /** get_files_by_search: drains the matching rows batch by batch. */
    method GetFilesBySearch(remoteId: string, mediaType: TypeArg,
                            startDate: Option<Date>, endDate: Option<Date>) returns (found: seq<SyncRow>)
      ensures found == Search(syncFiles, remoteId, mediaType, startDate, endDate)
    {
      found := [];
      var i := 0;
      while i < |syncFiles|
        invariant 0 <= i <= |syncFiles|
        invariant found == Search(syncFiles[..i], remoteId, mediaType, startDate, endDate)
      {
        assert syncFiles[..i + 1][..i] == syncFiles[..i];
        if SearchMatches(syncFiles[i], remoteId, mediaType, startDate, endDate) {
          found := found + [syncFiles[i]];
        }
        i := i + 1;
      }
      assert syncFiles[..i] == syncFiles;
    }

    /** get_file_by_path: a row with that Path and FileName, None when there is none. */
    function GetFileByPath(folder: string, name: string): (r: Option<SyncRow>)
      reads this
      ensures r.None? <==> forall i :: 0 <= i < |syncFiles| ==> !(syncFiles[i].path == folder && syncFiles[i].fileName == name)
      ensures r.Some? ==> r.value in syncFiles && r.value.path == folder && r.value.fileName == name
    {
      FileByPath(syncFiles, folder, name)
    }

    /** get_file_by_id: the row with that RemoteId, None when there is none. */
    function GetFileById(remoteId: string): (r: Option<SyncRow>)
      reads this
      ensures r.None? <==> forall i :: 0 <= i < |syncFiles| ==> syncFiles[i].remoteId != remoteId
      ensures r.Some? ==> r.value in syncFiles && r.value.remoteId == remoteId
    {
      FileById(syncFiles, remoteId)
    }

    /** put_file: inserts the row and answers its row id; an id already indexed is refused. */
    method PutFile(row: SyncRow) returns (r: Result<nat, DbError>)
      requires Valid()
      modifies this`syncFiles
      ensures Valid()
      ensures old(FileById(syncFiles, row.remoteId)).Some? ==>
        r == Failure(DuplicateRemoteId) && syncFiles == old(syncFiles)
      ensures old(FileById(syncFiles, row.remoteId)).None? ==>
        r == Success(|old(syncFiles)| + 1) && syncFiles == old(syncFiles) + [row]
    {
      if FileById(syncFiles, row.remoteId).Some? {
        return Failure(DuplicateRemoteId);
      }
      syncFiles := syncFiles + [row];
      r := Success(|syncFiles|);
    }

    /** get_album: four Nones for an absent album or one whose columns are all NULL. */
    function GetAlbum(albumId: string): (r: (Option<string>, Option<Date>, Option<Date>, Option<Date>))
      reads this
      ensures r == (None, None, None, None) <==> albumId !in albums || albums[albumId] == Album(None, None, None, None)
    {
      AlbumInfo(albums, albumId)
    }

    /** put_album: insert or replace; get_album then answers what was written. */
    method PutAlbum(albumId: string, name: Option<string>, startDate: Option<Date>, endDate: Option<Date>, syncDate: Option<Date>)
      modifies this`albums
      ensures albums == old(albums)[albumId := Album(name, startDate, endDate, syncDate)]
      ensures GetAlbum(albumId) == (name, startDate, endDate, syncDate)
      ensures forall other :: other != albumId ==> GetAlbum(other) == old(GetAlbum(other))
    {
      albums := albums[albumId := Album(name, startDate, endDate, syncDate)];
    }

    /** put_album_file: insert or replace of the (album, file) pair, so writing it twice is writing it once. */
    method PutAlbumFile(albumRec: string, fileRec: int)
      modifies this`albumFiles
      ensures albumFiles == old(albumFiles) + {AlbumFile(albumRec, fileRec)}
    {
      albumFiles := albumFiles + {AlbumFile(albumRec, fileRec)};
    }

    /** get_drive_folder_path: the Path of the folder's row; None when there is no row. */
    function GetDriveFolderPath(folderId: string): (p: Option<string>)
      reads this
      ensures (forall i :: 0 <= i < |driveFolders| ==> driveFolders[i].folderId != folderId) ==> p.None?
      ensures forall i :: (0 <= i < |driveFolders| && driveFolders[i].folderId == folderId &&
                           forall j :: 0 <= j < i ==> driveFolders[j].folderId != folderId) ==> p == driveFolders[i].path
    {
      FolderPath(driveFolders, folderId)
    }

    /**
     * put_drive_folder: insert or replace on FolderId. The new row carries no
     * Path, so a cached path of the same folder is cleared.
     */
    method PutDriveFolder(driveId: string, parentId: string, folderName: string)
      requires Valid()
      modifies this`driveFolders
      ensures Valid()
      ensures driveFolders == WithoutFolder(old(driveFolders), driveId) + [DriveFolder(driveId, parentId, folderName, None)]
      ensures GetDriveFolderPath(driveId) == None
    {
      driveFolders := WithoutFolder(driveFolders, driveId) + [DriveFolder(driveId, parentId, folderName, None)];
    }

    /**
     * update_drive_folder_path: sets Path on every row whose ParentId is
     * `parentId`, leaves the others, and answers those rows' (FolderId, FolderName).
     */
    method UpdateDriveFolderPath(path: string, parentId: string) returns (children: seq<(string, string)>)
      requires Valid()
      modifies this`driveFolders
      ensures Valid()
      ensures |driveFolders| == |old(driveFolders)|
      ensures forall i :: 0 <= i < |driveFolders| ==>
        driveFolders[i] == if old(driveFolders[i]).parentId == parentId
                           then old(driveFolders[i]).(path := Some(path)) else old(driveFolders[i])
      ensures children == Children(old(driveFolders), parentId)
    {
      ghost var before := driveFolders;
      var i := 0;
      while i < |driveFolders|
        invariant 0 <= i <= |driveFolders| == |before|
        invariant forall k :: 0 <= k < i ==>
          driveFolders[k] == if before[k].parentId == parentId then before[k].(path := Some(path)) else before[k]
        invariant forall k :: i <= k < |driveFolders| ==> driveFolders[k] == before[k]
      {
        if driveFolders[i].parentId == parentId {
          driveFolders := driveFolders[i := driveFolders[i].(path := Some(path))];
        }
        i := i + 1;
      }
      assert forall k :: 0 <= k < |driveFolders| ==> driveFolders[k].folderId == before[k].folderId;
      ChildrenIgnorePaths(before, driveFolders, parentId);
      children := SelectChildren(parentId);
    }

    /** The SELECT of update_drive_folder_path: the (FolderId, FolderName) of the rows under `parentId`. */
    method SelectChildren(parentId: string) returns (children: seq<(string, string)>)
      ensures children == Children(driveFolders, parentId)
    {
      children := [];
      var j := 0;
      while j < |driveFolders|
        invariant 0 <= j <= |driveFolders|
        invariant children == Children(driveFolders[..j], parentId)
      {
        assert driveFolders[..j + 1][..j] == driveFolders[..j];
        var f := driveFolders[j];
        if f.parentId == parentId {
          children := children + [(f.folderId, f.folderName)];
        }
        j := j + 1;
      }
      assert driveFolders[..j] == driveFolders;
    }

    /**
     * file_duplicate_no: an indexed file's stored number; for a new file a
     * number above every number of its (Path, OrigFileName) group.
     */
    function FileDuplicateNo(fileId: string, path: string, name: string): (n: int)
      reads this
      ensures FileById(syncFiles, fileId).Some? ==> n == FileById(syncFiles, fileId).value.duplicateNo
      ensures (forall i :: 0 <= i < |syncFiles| ==> syncFiles[i].remoteId != fileId) ==>
                forall i :: 0 <= i < |syncFiles| && InGroup(syncFiles[i], path, name) ==> syncFiles[i].duplicateNo < n
    {
      DuplicateNoRule(syncFiles, fileId, path, name);
      DuplicateNo(syncFiles, fileId, path, name)
    }
  }

  /**
   * The whole of opening the index: connect (creating the schema when asked
   * or when there is no file), then run the schema check.
   */
  method Open(rootFolder: string, onDisk: Option<Store>, flushIndex: bool) returns (r: Result<LocalData, DbError>)
    requires onDisk.Some? ==> StoreValid(onDisk.value)
    ensures r.Failure? <==> onDisk.Some? && !flushIndex && onDisk.value.globals.version > VERSION
    ensures r.Failure? ==> r.error == NewerSchema
    ensures r.Success? ==> fresh(r.value) && r.value.Valid() && r.value.Snapshot().globals.version == VERSION
    ensures r.Success? ==> r.value.fileName == PathJoin(rootFolder, DB_FILE_NAME)
    ensures r.Success? && (onDisk.None? || flushIndex) ==>
      r.value.Snapshot() == EmptyStore() && r.value.setAside == map[]
    ensures r.Success? && onDisk.Some? && !flushIndex && onDisk.value.globals.version == VERSION ==>
      r.value.Snapshot() == onDisk.value && r.value.setAside == map[]
    ensures r.Success? && onDisk.Some? && !flushIndex && onDisk.value.globals.version < VERSION ==>
      r.value.Snapshot() == EmptyStore() &&
      r.value.setAside == map[PathJoin(rootFolder, DB_FILE_NAME) + PREVIOUS_SUFFIX := onDisk.value]
  {
    var db := new LocalData(rootFolder, onDisk, flushIndex);
    var gate := db.CheckSchemaVersion();
    if gate.Fail? {
      return Failure(gate.error);
    }
    r := Success(db);
  }
}
