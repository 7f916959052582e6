# gphotos-sync index bookkeeping in Dafny

This project models the two pieces of bookkeeping that gphotos-sync keeps while it
mirrors Google Drive / Google Photos to a local folder, and proves their rules.

* **The local sync index** (`LocalData`). It is a SQLite catalog with these tables:
  * `SyncFiles`: the synced media rows;
  * `Albums` and `AlbumFiles`;
  * `DriveFolders`: the cache of Drive folder paths;
  * the singleton `Globals` row: schema version and scan cursors.

  The model holds the tables as fields of the class `LocalData.LocalData`. The
  reading queries are pure functions over those fields. The writing statements
  are methods that reassign the fields. The proved properties are:
  * the duplicate-number rule of `file_duplicate_no`;
  * the date window of `get_files_by_search`;
  * the three-way schema-version gate;
  * the partial update of the scan cursors;
  * the insert-or-replace album and folder writes;
  * the one-level folder path update;
  * the column and parameter strings that `db_row` builds.
* **The sync-side index** (`GooglePhotosSync`). It is a key-value store (pickledb).
  * Forward records are keyed by remote id: `filename`, `description`, `checksum`.
  * Reverse records are keyed by local path: `id`.

  The model covers:
  * the duplicate probes `is_indexed` and `has_local_version`, which bump a media
    item's duplicate number until they reach a free or matching file name;
  * `download_media`, i.e. its bounded retry loop through a fixed temporary file
    and its index writes;
  * the query-string date filter;
  * the video filter of the remote listing;
  * the `/`-segment walk that resolves a remote folder path.

Modules:

* `Wrappers` holds `Option`, `Result` and `Outcome`.
* `Strings` holds Python's `join`, `split` and `split(c, 1)`, decimal formatting and
  POSIX `os.path.join`. It proves the split/join round trip and injectivity lemmas.
* `PhotosMedia` holds the media item: a class with a mutable duplicate number.
  * `NumberedName` is an injective naming scheme that stands in for its `filename`
    property.
  * It defines the ghost measure `Pending`, the existing keys a probe can still
    reach, which makes the probes terminate.
* `LocalData` is the catalog.
* `GooglePhotosSync` is the sync object and the pure specifications of its
  operations.

The remote service and the filesystem are parameters:
* a listing is a sequence of pages;
* a folder lookup is a function from query text to an optional id;
* a transfer is a sequence of attempt outcomes (`true` = the attempt did not raise);
* the local filesystem is a set of file paths, a set of directories and a log of
  filesystem operations.

Two behaviours of the code that the model keeps as written:

* `download_media` writes both index records after the retry loop whether or not
  an attempt succeeded (GooglePhotosSync.py:159-191). When all ten attempts fail,
  the item is indexed under a target file that this call did not create.
  `DownloadMedia` states the records in every case.
* `add_date_filter` uses `elif` (GooglePhotosSync.py:67-72). With a start date the
  end date is dropped, so the listing is never narrowed to a two-sided window.
  `EndDateIgnoredWithStartDate` states this.

## Model

| member | source | states |
|---|---|---|
| LocalData.RowQuery | LocalData.py:38 | `query`: the column names joined by `,`; ColumnListsAgree states what it gives back |
| LocalData.RowParams | LocalData.py:39 | `params`: `:` followed by the column names joined by `,:`; RowParamsArePlaceholders and ColumnListsAgree state its meaning |
| LocalData.RowParamsArePlaceholders | LocalData.py:38-39 | `params` equals the `:`-prefixed column names joined by `,` |
| LocalData.ColumnListsAgree | LocalData.py:38-39 | when no column name holds a comma, splitting `query` and `params` at commas gives the same columns in the same order: bare names in one, placeholders in the other, equally many |
| LocalData.SyncRowColumnLists | LocalData.py:104-108 | for the fourteen SyncRow columns, `query` gives back the column list and `params` the fourteen placeholders |
| LocalData.FileById | LocalData.py:207-215 | None exactly when no row has the RemoteId; otherwise a row of the table with that id |
| LocalData.FileByIdIsFirst | LocalData.py:207-215 | the row answered is the first row with that id (fetchone) |
| LocalData.FileByPath | LocalData.py:192-205 | None exactly when no row has that Path and FileName; otherwise a row with both |
| LocalData.FileByIdAppend | LocalData.py:207-215 | once some row has an id, rows inserted later do not change which row the id finds |
| LocalData.MaxDuplicateNo | LocalData.py:328-331 | SQL NULL exactly for an empty group; otherwise a bound on every DuplicateNo of the group that some group row attains |
| LocalData.NextDuplicateNo | LocalData.py:328-338 | one past the group's MAX(DuplicateNo), or 0 for SQL NULL: above every number of the group |
| LocalData.DuplicateNo | LocalData.py:319-338 | the stored number of an indexed id, else NextDuplicateNo; DuplicateNoRule states its rule |
| LocalData.DuplicateNoRule | LocalData.py:319-338 | an indexed id gets its row's number, whatever its group holds; a new id gets a number above every number in its group and exactly one above the group's maximum; in an empty group it gets 0 |
| LocalData.DuplicateNoOfIndexedItem | LocalData.py:319-326 | with unique RemoteIds, the number of an indexed item is the DuplicateNo on its own row |
| LocalData.DuplicateNoStable | LocalData.py:319-326 | an indexed item keeps its number however many rows are inserted after it |
| LocalData.NextDuplicateNoAfterInsert | LocalData.py:328-335 | inserting a group member at the next number moves the next number up by one |
| LocalData.NewIdGetsNextNumber | LocalData.py:328-338 | an id that no row has gets the next number of its group |
| LocalData.NumberAndInsert | LocalData.py:217-338 | numbering each incoming row with file_duplicate_no and putting it keeps the existing rows as the prefix and appends at most one row per incoming row |
| LocalData.NumberAndInsertRefusesIndexed | LocalData.py:217-221 | incoming rows whose RemoteIds are already in the table are refused, as PutFile refuses them, and leave the table as it was |
| LocalData.NumberAndInsertKeepsIdsUnique | LocalData.py:217-338 | numbering and putting never gives two rows the same RemoteId |
| LocalData.NumberingIsConsecutive | LocalData.py:319-338 | numbering N new distinct ids of one group and putting each appends them, unchanged except for their numbers, with consecutive numbers from the group's next number |
| LocalData.NumberingStartsAtZero | LocalData.py:332-338 | in an empty group N new distinct ids are appended after the existing rows with numbers 0, 1, ..., N-1 |
| LocalData.NumberingKeepsGroupsDistinct | LocalData.py:319-338 | inserting a new id at the number file_duplicate_no gives keeps every group's numbers pairwise distinct |
| LocalData.Like | LocalData.py:180-181 | SQLite's `LIKE` without ESCAPE: `%` any run, `_` any one character, other characters equal up to ASCII case |
| LocalData.LikeAnything | LocalData.py:159 | the default `drive_id='%'` matches every RemoteId |
| LocalData.LikeItself | LocalData.py:180-181 | every RemoteId, wildcards and all, matches itself used as the pattern |
| LocalData.LikeWithoutWildcards | LocalData.py:180-181 | a pattern without `%` and `_` matches exactly the values of its length equal to it up to ASCII case |
| LocalData.SearchMatches | LocalData.py:168-182 | the WHERE clause: RemoteId LIKE the id, MediaType LIKE the type, with a start date ModifyDate >= start OR CreateDate >= start, with an end date ModifyDate <= end; a NULL date compares false |
| LocalData.Search | LocalData.py:159-190 | the search yields no more rows than the table holds |
| LocalData.SearchIsExact | LocalData.py:159-190 | the search yields exactly the rows that satisfy SearchMatches, each as often as the table holds it, and no other row |
| LocalData.AlbumInfo | LocalData.py:245-251 | a present album answers its four stored columns; four Nones answer exactly an absent album or one whose four columns are NULL |
| LocalData.FolderPath | LocalData.py:279-287 | the Path of the first row with that FolderId; None when no row has it |
| LocalData.WithoutFolder | LocalData.py:289-293 | the delete half of INSERT OR REPLACE removes exactly the rows with that FolderId and keeps FolderId unique |
| LocalData.Children | LocalData.py:302-308 | the (FolderId, FolderName) pairs listed are exactly those of rows with that ParentId |
| LocalData.ChildrenIgnorePaths | LocalData.py:296-308 | setting Path on some rows does not change which rows the SELECT lists |
| LocalData.LocalData.constructor | LocalData.py:74-86 | the file is root_folder/gphotos.sqlite; a missing file or flush_index gives the empty schema, otherwise the stored content |
| LocalData.LocalData.CleanDb | LocalData.py:126-130 | every table empty, Globals at VERSION |
| LocalData.LocalData.CheckSchemaVersion | LocalData.py:110-124 | a newer stored version fails and changes nothing; an older one puts the old database under file_name + `.previous` and leaves an empty one at VERSION; an equal one changes nothing |
| LocalData.LocalData.GetScanDates | LocalData.py:143-157 | the (drive, picasa) cursors of the Globals row, None where NULL; SetScanDates states what it reads back |
| LocalData.LocalData.SetScanDates | LocalData.py:132-157 | get_scan_dates then reads back each cursor that was given; a cursor not given keeps its value; the version is untouched |
| LocalData.LocalData.GetFilesBySearch | LocalData.py:159-190 | the `while True` drain yields Search of the whole table |
| LocalData.LocalData.SelectChildren | LocalData.py:302-308 | the SELECT lists Children of the current folder rows |
| LocalData.LocalData.GetFileByPath | LocalData.py:192-205 | None exactly when no row has that Path and FileName; otherwise a row of the table with both |
| LocalData.LocalData.GetFileById | LocalData.py:207-215 | None exactly when no row has that RemoteId; otherwise a row of the table with it |
| LocalData.LocalData.PutFile | LocalData.py:217-221 | a new RemoteId is appended and its rowid returned; a RemoteId already present is refused and the table unchanged; ids stay unique |
| LocalData.LocalData.PutAlbum | LocalData.py:253-258 | insert or replace: get_album answers the written (name, start, end, sync); every other album is unchanged |
| LocalData.LocalData.GetAlbum | LocalData.py:245-251 | four Nones exactly for an absent album or one whose columns are all NULL |
| LocalData.LocalData.PutAlbumFile | LocalData.py:272-276 | insert or replace of the (album, file) pair: the pair set gains that pair |
| LocalData.LocalData.GetDriveFolderPath | LocalData.py:279-287 | None when no row has the FolderId; otherwise the Path, possibly NULL, of the first such row |
| LocalData.LocalData.PutDriveFolder | LocalData.py:289-293 | the row of that FolderId is replaced by one with the new parent and name and no Path, so get_drive_folder_path answers None; FolderId stays unique |
| LocalData.LocalData.UpdateDriveFolderPath | LocalData.py:296-308 | Path is set on exactly the rows with that ParentId; every other row is unchanged; the answer is those rows' (FolderId, FolderName) |
| LocalData.LocalData.FileDuplicateNo | LocalData.py:319-338 | an indexed file's stored number; for a new file, a number above every number in its (Path, OrigFileName) group |
| LocalData.Open | LocalData.py:74-124 | for a file that holds a Globals row with a Version, opening fails exactly for an existing, unflushed file with a newer version; otherwise the database is at VERSION: either the stored one, or an empty one with the old one set aside under `.previous` |
| Strings.SplitOnce | GooglePhotosSync.py:76 | `split('/', 1)`: the text before the first `/`, and the text after it when there is one |
| Strings.SplitOnceIsFirstPiece | GooglePhotosSync.py:76 | `split('/', 1)` takes the first piece off `split('/')` |
| PhotosMedia.CandidateInjective | GooglePhotosSync.py:129 | different duplicate numbers probe different local paths |
| PhotosMedia.PendingShrinks | GooglePhotosSync.py:132-136 | stepping past an existing candidate leaves strictly fewer existing keys to reach, so the probes terminate |
| PhotosMedia.Media.constructor | GooglePhotosSync.py:101 | a new media item starts at duplicate number 0 |
| GooglePhotosSync.Indexed | GooglePhotosSync.py:128-137 | the duplicate number only grows; every candidate skipped holds another id's reverse record, and the probe stops at the first that does not; False exactly at a candidate with no record; True exactly when its record's id is this item's; the only error is KeyError `id`, exactly for a record without `id` |
| GooglePhotosSync.LocalVersion | GooglePhotosSync.py:139-150 | the duplicate number only grows; every candidate skipped is an existing file that the forward record does not name, and the probe stops at the first that is not; False exactly at a candidate that is not a file; True exactly when the forward record names it; the only error is KeyError `filename`, exactly for a forward record without `filename` |
| GooglePhotosSync.GooglePhotosSync.IsIndexed | GooglePhotosSync.py:128-137 | the recursive method answers, and leaves on the media item, Indexed from its starting number |
| GooglePhotosSync.GooglePhotosSync.HasLocalVersion | GooglePhotosSync.py:139-150 | the recursive method answers, and leaves on the media item, LocalVersion from its starting number |
| GooglePhotosSync.IndexWrite | GooglePhotosSync.py:185-191 | the index gains exactly the keys id and target, and the reverse record, written last, is `{id: id}` even when the id is the target |
| GooglePhotosSync.IndexWriteAgrees | GooglePhotosSync.py:185-191 | after the index writes the forward record names the target, the reverse record names the id, description and checksum are stored, and no other record changes |
| GooglePhotosSync.DownloadedItemIsIndexed | GooglePhotosSync.py:128-137 | right after download_media, is_indexed finds the item at the number it was stored under, with no bump |
| GooglePhotosSync.DownloadedItemHasLocalVersion | GooglePhotosSync.py:139-150 | right after download_media, with the file in place, has_local_version finds it at that number |
| GooglePhotosSync.FirstSuccess | GooglePhotosSync.py:161-181 | the first of the ten attempts that does not raise, with every earlier attempt raising; None exactly when all ten raise |
| GooglePhotosSync.FirstSuccessAt | GooglePhotosSync.py:161-181 | an attempt that succeeds after only failures is the first success |
| GooglePhotosSync.TransferOps | GooglePhotosSync.py:161-181 | with a first success at attempt k, k+1 temp writes and then the rename; with none, exactly ten operations, all temp writes, and no rename |
| GooglePhotosSync.TransferFiles | GooglePhotosSync.py:161-181 | on success the target exists and the temporary file does not; on failure the temporary file is left behind and the target is present exactly when it was before; no other file changes |
| GooglePhotosSync.TransferTouchesOnlyTemp | GooglePhotosSync.py:157-181 | the retry loop performs 1 to 11 operations; each writes `path/.temp-gphotos` or renames it to the target; a rename is the last operation and follows an attempt that succeeded |
| GooglePhotosSync.GooglePhotosSync.Transfer | GooglePhotosSync.py:161-181 | the loop's log is one temp write per attempt up to the first success, then the rename (ten writes when all fail); the temp file is replaced by the target on success |
| GooglePhotosSync.GooglePhotosSync.WriteIndex | GooglePhotosSync.py:185-191 | dcreate and dadd leave the forward and reverse records of IndexWrite |
| GooglePhotosSync.GooglePhotosSync.DownloadMedia | GooglePhotosSync.py:152-192 | the folder is created if missing; the target is `path/filename`; with index_only nothing is transferred; otherwise the retry loop's operations and files; in every case both index records are written |
| GooglePhotosSync.GooglePhotosSync.AddDateFilter | GooglePhotosSync.py:66-72 | `q` is extended by the date clause and nothing else |
| GooglePhotosSync.DateFilter | GooglePhotosSync.py:66-72 | the clause appended is nothing, the after-clause of a given start date, or the before-clause of a given end date |
| GooglePhotosSync.EndDateIgnoredWithStartDate | GooglePhotosSync.py:66-72 | with a start date the clause is the after-clause whatever the end date: the two are never both appended |
| GooglePhotosSync.NoDatesNoFilter | GooglePhotosSync.py:66-72 | `q` is left unchanged exactly when neither date is given |
| GooglePhotosSync.Kept | GooglePhotosSync.py:96-102 | the filter yields no more files than the listing |
| GooglePhotosSync.KeptIsExact | GooglePhotosSync.py:96-102 | the listing yields every file as often as it is listed, except the `video/` files when videos are excluded, and no other file |
| GooglePhotosSync.KeptAppend | GooglePhotosSync.py:96-102 | one more listed file is yielded after the earlier ones, unless it is a video and videos are excluded |
| GooglePhotosSync.KeptKeepsOrder | GooglePhotosSync.py:96-102 | the filter keeps the listing's order: filtering a concatenation concatenates the filtered parts; with videos included nothing is dropped |
| GooglePhotosSync.GooglePhotosSync.GetRemoteMedias | GooglePhotosSync.py:87-102 | the query is the folder's media query plus the date clause; the items yielded are the video-filtered files of all pages in order |
| GooglePhotosSync.GooglePhotosSync.MediaListingQuery | GooglePhotosSync.py:88-94 | the media query of the folder followed by the date clause |
| GooglePhotosSync.GetRemoteFolder | GooglePhotosSync.py:74-85 | at least one query, the first for the text before the first `/` under the given parent; the answer is the lookup of the last query |
| GooglePhotosSync.ResolveSegments | GooglePhotosSync.py:74-85 | the reference walk issues one query per segment: the first under the given parent, each later one for its segment under the folder the previous query found; it answers the last lookup |
| GooglePhotosSync.RemoteFolderFollowsSegments | GooglePhotosSync.py:74-85 | get_remote_folder is the walk over `folder_name.split('/')`: one lookup per segment, each under the folder the previous one found |

## Left out

- SQLite connections, cursors, `commit`/`store`, `fetchmany` batching, and creating the root folder (LocalData.py:76-77, 82-95, 185-188, 310-313). The tables are fields, and batching does not change what is yielded.
- LocalData.LocalData.GetFilesBySearch, LocalData.LocalData.UpdateDriveFolderPath: the source functions are generators (LocalData.py:190, 308). Their bodies run lazily as the caller iterates, and a caller that runs another query on the shared cursor meanwhile changes what `fetchmany` returns. The model drains each generator at once, without interruption.
- `clean_db`'s reading of the creation script: it is modelled as its effect, empty tables and a Globals row at VERSION.
- The `SyncRow` constructor called with no record, which sets every attribute to None, and the `Utils.string_to_date`/`date_to_string` conversions, which are not part of this model. Rows are values read from the table, and dates are integers with `NULL` as None.
- LocalData.Like: SQLite's case folding of non-ASCII letters under ICU and the ESCAPE clause are not modelled; the code uses neither.
- LocalData.TypeLike: `MediaType LIKE ?` is modelled for the two arguments the code passes, `%` and a number; a media type given as a text pattern is not modelled.
- `find_file_ids_dates` and the `get_album_files` join: neither is part of the modelled core.
- A floating-point `VERSION`. It is a `real` constant compared by order only.
- LocalData.LocalData.PutFile: the uniqueness of RemoteId comes from the creation script, which is not part of this model. A repeated RemoteId is modelled as a refused insert, and the rowid as the table length after the insert.
- LocalData.LocalData.PutAlbum, LocalData.LocalData.PutAlbumFile, LocalData.LocalData.PutDriveFolder: their `INSERT OR REPLACE` only replaces because of key constraints in the creation script, which is not part of this model. The model assumes AlbumId is the key of Albums, the pair (AlbumRec, DriveRec) is unique in AlbumFiles (so AlbumFiles is a set), and FolderId is the key of DriveFolders with Path defaulting to NULL. Without those constraints each would be a plain insert.
- LocalData.Open, LocalData.LocalData.CheckSchemaVersion: a database file without a Globals table, row or Version is not modelled; the stored database always holds a Globals row with a Version. The code can leave such a file behind when it is stopped after `lite.connect` creates the file (LocalData.py:82, 120-123) and before `clean_db` fills it; the next open without a flush skips `clean_db` and raises at LocalData.py:111-113 ("no such table", indexing None, or `float(None)`). That failure is not modelled.
- LocalData.LocalData.PutAlbum: the `lastrowid` it returns is not modelled.
- Google authentication and client setup, `get_photos_folder_id`, `get_remote_media_by_name`, `upload_media`, and the chunked transfer with its progress reports: these are network and foreign-library calls. A transfer attempt is only an outcome, true or false.
- `ListFile` paging. A listing is given as its sequence of pages, and a folder lookup as a function of the query text.
- The `print` of a retry and the contents written to the temporary file. Only the operations on paths are logged.
- `get_local_medias` and `get_target_folder`: they use `os.walk`, MIME guessing and date formatting.
- pickledb persistence (`dump`/`load`). The store is an in-memory map.
- GooglePhotosSync.Indexed, GooglePhotosSync.LocalVersion: `is_indexed` and `has_local_version` recurse once per skipped candidate (GooglePhotosSync.py:136, 149), so Python raises RecursionError after about a thousand. The model's probes always answer.
- PhotosMedia.NumberedName: the media class's real `filename` property is not part of this model. It is replaced by an injective naming scheme, `name` or `name (n)`, which is the only property the probes rely on. PhotosMedia.Media.constructor's duplicate number 0 for a new item is likewise an assumption about that unshown class; GooglePhotosSync.py:101 only constructs it.
- GooglePhotosSync.GetRemoteFolder: a page whose result list is empty, where `results[0]` raises IndexError, is not modelled. The lookup answers an id or None.
