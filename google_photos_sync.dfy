/**
 * The index bookkeeping of the sync: the key-value index (forward records keyed
 * by remote id, reverse records keyed by local path), the duplicate probes that
 * consult it and the filesystem, the download with its bounded retry loop and
 * temporary file, the date and video filters of the remote listing, and the
 * resolution of a `/`-separated folder path against the remote folder tree.
 * The remote service and the filesystem are parameters: a lookup function, the
 * outcomes of transfer attempts, and sets of existing paths.
 */
module GooglePhotosSync {
  import opened Wrappers
  import opened Strings
  import opened PhotosMedia

  // ---------------------------------------------------------------------------
  // The key-value index

  /** A value stored in a record: a string or null. */
  datatype Value = Null | Text(text: string)

  type Record = map<string, Value>

  /** Record name to record; forward records are keyed by remote id, reverse records by local path. */
  type Db = map<string, Record>

  datatype SyncError = KeyError(key: string)

  function AsValue(s: Option<string>): Value
  {
    if s.Some? then Text(s.value) else Null
  }

  /** `db.get(key)` is truthy: the record exists and is not empty. */
  predicate Live(db: Db, key: string)
  {
    key in db && db[key] != map[]
  }

  /** The reverse record at `key` names remote item `id`. */
  predicate ReverseMatch(db: Db, key: string, id: string)
  {
    Live(db, key) && "id" in db[key] && db[key]["id"] == Text(id)
  }

  /** The reverse record at `key` names some other item. */
  predicate ReverseOther(db: Db, key: string, id: string)
  {
    Live(db, key) && "id" in db[key] && db[key]["id"] != Text(id)
  }

  /** The forward record of `id` names `path` as its file. */
  predicate ForwardMatch(db: Db, id: string, path: string)
  {
    Live(db, id) && "filename" in db[id] && db[id]["filename"] == Text(path)
  }

  /** The forward record of `id` is absent, or names a file other than `path`. */
  predicate ForwardOther(db: Db, id: string, path: string)
  {
    !Live(db, id) || ("filename" in db[id] && db[id]["filename"] != Text(path))
  }

  /** The answer of a probe and the duplicate number it leaves on the media item. */
  datatype Probe = Probe(outcome: Result<bool, SyncError>, duplicateNumber: nat)

  /**
   * is_indexed from duplicate number n: skips every candidate whose reverse
   * record belongs to another item, then answers at the first candidate that
   * has no record (false) or whose record is this item's (true).
   */
  function Indexed(db: Db, path: string, id: string, base: string, n: nat): (p: Probe)
    ensures p.duplicateNumber >= n
    ensures forall m :: n <= m < p.duplicateNumber ==> ReverseOther(db, Candidate(path, base, m), id)
    ensures p.outcome == Success(false) <==> !Live(db, Candidate(path, base, p.duplicateNumber))
    ensures p.outcome == Success(true) <==> ReverseMatch(db, Candidate(path, base, p.duplicateNumber), id)
    ensures p.outcome == Failure(KeyError("id")) <==>
              Live(db, Candidate(path, base, p.duplicateNumber)) && "id" !in db[Candidate(path, base, p.duplicateNumber)]
    ensures p.outcome.Failure? ==> p.outcome == Failure(KeyError("id"))
    ensures !ReverseOther(db, Candidate(path, base, p.duplicateNumber), id)
    decreases |Pending(db.Keys, path, base, n)|
  {
    var c := Candidate(path, base, n);
    if !Live(db, c) then Probe(Success(false), n)
    else if "id" !in db[c] then Probe(Failure(KeyError("id")), n)
    else if db[c]["id"] == Text(id) then Probe(Success(true), n)
    else
      PendingShrinks(db.Keys, path, base, n);
      Indexed(db, path, id, base, n + 1)
  }

  /**
   * has_local_version from duplicate number n: skips every candidate file that
   * exists but is not the file the item's forward record names, then answers
   * at the first candidate that does not exist (false) or that the forward
   * record names (true).
   */
  function LocalVersion(db: Db, files: set<string>, path: string, id: string, base: string, n: nat): (p: Probe)
    ensures p.duplicateNumber >= n
    ensures forall m :: n <= m < p.duplicateNumber ==>
              Candidate(path, base, m) in files && ForwardOther(db, id, Candidate(path, base, m))
    ensures p.outcome == Success(false) <==> Candidate(path, base, p.duplicateNumber) !in files
    ensures p.outcome == Success(true) <==>
              Candidate(path, base, p.duplicateNumber) in files && ForwardMatch(db, id, Candidate(path, base, p.duplicateNumber))
    ensures p.outcome == Failure(KeyError("filename")) <==>
              Candidate(path, base, p.duplicateNumber) in files && Live(db, id) && "filename" !in db[id]
    ensures p.outcome.Failure? ==> p.outcome == Failure(KeyError("filename"))
    ensures !(Candidate(path, base, p.duplicateNumber) in files && ForwardOther(db, id, Candidate(path, base, p.duplicateNumber)))
    decreases |Pending(files, path, base, n)|
  {
    var c := Candidate(path, base, n);
    if c !in files then Probe(Success(false), n)
    else if Live(db, id) && "filename" !in db[id] then Probe(Failure(KeyError("filename")), n)
    else if ForwardMatch(db, id, c) then Probe(Success(true), n)
    else
      PendingShrinks(files, path, base, n);
      LocalVersion(db, files, path, id, base, n + 1)
  }

  /** The two index records download_media writes: the forward one, then the reverse one. */
  function IndexWrite(db: Db, id: string, target: string, description: Value, checksum: Value): (written: Db)
    ensures written.Keys == db.Keys + {id, target}
    ensures written[target] == map["id" := Text(id)]
  {
    db[id := map["filename" := Text(target), "description" := description, "checksum" := checksum]]
      [target := map["id" := Text(id)]]
  }

  /**
   * After the index write the forward and reverse records agree (when the id
   * is not itself the target path), and no other record changes.
   */
  lemma IndexWriteAgrees(db: Db, id: string, target: string, description: Value, checksum: Value)
    requires id != target
    ensures ForwardMatch(IndexWrite(db, id, target, description, checksum), id, target)
    ensures ReverseMatch(IndexWrite(db, id, target, description, checksum), target, id)
    ensures IndexWrite(db, id, target, description, checksum)[id]["description"] == description
    ensures IndexWrite(db, id, target, description, checksum)[id]["checksum"] == checksum
    ensures forall k :: k != id && k != target ==>
              (k in IndexWrite(db, id, target, description, checksum) <==> k in db)
    ensures forall k :: k != id && k != target && k in db ==>
              IndexWrite(db, id, target, description, checksum)[k] == db[k]
  {
    var written := IndexWrite(db, id, target, description, checksum);
    var forward: Record := map["filename" := Text(target), "description" := description, "checksum" := checksum];
    assert "filename" != "description" && "filename" != "checksum" && "description" != "checksum";
    assert forward["filename"] == Text(target) && forward != map[];
    assert written[id] == forward;
    var reverse: Record := map["id" := Text(id)];
    assert reverse["id"] == Text(id) && reverse != map[];
    assert target in written && written[target] == reverse;
  }

  /** A downloaded item is found by is_indexed at the number it was stored under, with no further bump. */
  lemma DownloadedItemIsIndexed(db: Db, path: string, id: string, base: string, n: nat, description: Value, checksum: Value)
    requires id != Candidate(path, base, n)
    ensures Indexed(IndexWrite(db, id, Candidate(path, base, n), description, checksum), path, id, base, n) ==
            Probe(Success(true), n)
  {
    IndexWriteAgrees(db, id, Candidate(path, base, n), description, checksum);
  }

  /** Once the file is in place, has_local_version finds it at the number it was stored under. */
  lemma DownloadedItemHasLocalVersion(db: Db, files: set<string>, path: string, id: string, base: string, n: nat,
                                      description: Value, checksum: Value)
    requires id != Candidate(path, base, n)
    requires Candidate(path, base, n) in files
    ensures LocalVersion(IndexWrite(db, id, Candidate(path, base, n), description, checksum), files, path, id, base, n) ==
            Probe(Success(true), n)
  {
    IndexWriteAgrees(db, id, Candidate(path, base, n), description, checksum);
  }

  // ---------------------------------------------------------------------------
  // The download retry loop

  const MAX_ATTEMPTS: nat := 10
  const TEMP_NAME: string := ".temp-gphotos"

  /** The fixed temporary file of a target folder. */
  function TempFile(path: string): string
  {
    PathJoin(path, TEMP_NAME)
  }

  /** A filesystem operation of the sync. */
  datatype FsOp = MakeDirs(dir: string) | WriteFile(file: string) | Rename(src: string, dst: string)

  /** Attempt number `attempt` of the transfer completes without raising. */
  predicate Succeeds(transfer: seq<bool>, attempt: nat)
  {
    attempt < |transfer| && transfer[attempt]
  }

  /** The first attempt from `from` on, within the bound, that succeeds. */
  function FirstSuccess(transfer: seq<bool>, from: nat): (k: Option<nat>)
    requires from <= MAX_ATTEMPTS
    ensures k.Some? ==> from <= k.value < MAX_ATTEMPTS && Succeeds(transfer, k.value)
    ensures k.Some? ==> forall j :: from <= j < k.value ==> !Succeeds(transfer, j)
    ensures k.None? <==> forall j :: from <= j < MAX_ATTEMPTS ==> !Succeeds(transfer, j)
    decreases MAX_ATTEMPTS - from
  {
    if from == MAX_ATTEMPTS then None
    else if Succeeds(transfer, from) then Some(from)
    else FirstSuccess(transfer, from + 1)
  }

  /** An attempt that succeeds after failures only is the first success. */
  lemma FirstSuccessAt(transfer: seq<bool>, k: nat)
    requires k < MAX_ATTEMPTS && Succeeds(transfer, k)
    requires forall j :: 0 <= j < k ==> !Succeeds(transfer, j)
    ensures FirstSuccess(transfer, 0) == Some(k)
  {
  }

  /** `k` writes of the temporary file. */
  function Writes(temp: string, k: nat): (ops: seq<FsOp>)
    ensures |ops| == k
    ensures forall i :: 0 <= i < k ==> ops[i] == WriteFile(temp)
  {
    if k == 0 then [] else Writes(temp, k - 1) + [WriteFile(temp)]
  }

  /**
   * The filesystem operations of the retry loop: each attempt writes the
   * temporary file; the first one that succeeds is followed by the rename to
   * the target, and no attempt comes after it.
   */
  function TransferOps(temp: string, target: string, transfer: seq<bool>): (ops: seq<FsOp>)
    ensures FirstSuccess(transfer, 0).Some? ==>
              |ops| == FirstSuccess(transfer, 0).value + 2 && ops[|ops| - 1] == Rename(temp, target)
    ensures FirstSuccess(transfer, 0).None? ==> |ops| == MAX_ATTEMPTS && Rename(temp, target) !in ops
    ensures FirstSuccess(transfer, 0).None? ==> forall i :: 0 <= i < |ops| ==> ops[i] == WriteFile(temp)
    ensures forall i :: 0 <= i < |ops| - 1 ==> ops[i] == WriteFile(temp)
  {
    match FirstSuccess(transfer, 0)
    case Some(k) => Writes(temp, k + 1) + [Rename(temp, target)]
    case None => Writes(temp, MAX_ATTEMPTS)
  }

  /** The files after the retry loop: the temporary file once written, renamed to the target on success. */
  function TransferFiles(files: set<string>, temp: string, target: string, transfer: seq<bool>): (after: set<string>)
    ensures FirstSuccess(transfer, 0).Some? ==> target in after && (temp != target ==> temp !in after)
    ensures FirstSuccess(transfer, 0).None? ==> temp in after
    ensures FirstSuccess(transfer, 0).None? ==> (target in after <==> target in files || target == temp)
    ensures forall f :: f != temp && (f != target || FirstSuccess(transfer, 0).None?) ==> (f in after <==> f in files)
  {
    if FirstSuccess(transfer, 0).Some? then files + {temp} - {temp} + {target} else files + {temp}
  }

  /** The operations of the retry loop write nothing but the temporary file and rename nothing but it to the target. */
  lemma TransferTouchesOnlyTemp(temp: string, target: string, transfer: seq<bool>)
    ensures var ops := TransferOps(temp, target, transfer);
      && 1 <= |ops| <= MAX_ATTEMPTS + 1
      && (forall i :: 0 <= i < |ops| ==> ops[i] == WriteFile(temp) || ops[i] == Rename(temp, target))
      && (forall i :: 0 <= i < |ops| && ops[i].Rename? ==> i == |ops| - 1 && Succeeds(transfer, i - 1))
  {
    var ops := TransferOps(temp, target, transfer);
    match FirstSuccess(transfer, 0)
    case Some(k) =>
      assert ops == Writes(temp, k + 1) + [Rename(temp, target)];
    case None =>
      assert ops == Writes(temp, MAX_ATTEMPTS);
  }

  // ---------------------------------------------------------------------------
  // The date filter, the media listing and folder resolution

  const MEDIA_QUERY_TAIL: string := "\" in parents and trashed=false "

  function MediaQuery(folderId: string): string
  {
    "\"" + folderId + MEDIA_QUERY_TAIL
  }

  function AfterQuery(date: string): string
  {
    " and modifiedDate >= '" + date + "T00:00:00'"
  }

  function BeforeQuery(date: string): string
  {
    " and modifiedDate <= '" + date + "T00:00:00'"
  }

  /** A command-line option is truthy: given and not empty. */
  predicate Truthy(option: Option<string>)
  {
    option.Some? && option.value != ""
  }

  /** What add_date_filter appends to the query: the start bound if any, else the end bound if any. */
  function DateFilter(startDate: Option<string>, endDate: Option<string>): (clause: string)
    ensures || clause == ""
            || (Truthy(startDate) && clause == AfterQuery(startDate.value))
            || (Truthy(endDate) && clause == BeforeQuery(endDate.value))
  {
    if Truthy(startDate) then AfterQuery(startDate.value)
    else if Truthy(endDate) then BeforeQuery(endDate.value)
    else ""
  }

  /** With a start date the end date plays no part, so the two bounds are never both applied. */
  lemma EndDateIgnoredWithStartDate(startDate: Option<string>, endDate: Option<string>, otherEnd: Option<string>)
    requires Truthy(startDate)
    ensures DateFilter(startDate, endDate) == DateFilter(startDate, otherEnd) == AfterQuery(startDate.value)
  {
  }

  /** Without either date the query is left as it was. */
  lemma NoDatesNoFilter(startDate: Option<string>, endDate: Option<string>)
    ensures DateFilter(startDate, endDate) == "" <==> !Truthy(startDate) && !Truthy(endDate)
  {
  }

  /** A file of a remote listing page. */
  datatype DriveFile = DriveFile(id: string, title: string, mimeType: string)

  predicate IsVideo(f: DriveFile)
  {
    StartsWith(f.mimeType, "video/")
  }

  /** The listing pages one after the other. */
  function Flatten(pages: seq<seq<DriveFile>>): seq<DriveFile>
  {
    if pages == [] then [] else Flatten(pages[..|pages| - 1]) + pages[|pages| - 1]
  }

  /** Extending a prefix by one element (a step the loop in GetRemoteMedias needs stated on its own). */
  lemma PrefixSnoc(page: seq<DriveFile>, i: nat)
    requires i < |page|
    ensures page[..i + 1] == page[..i] + [page[i]]
  {
  }

  lemma FlattenSnoc(pages: seq<seq<DriveFile>>, p: nat)
    requires p < |pages|
    ensures Flatten(pages[..p + 1]) == Flatten(pages[..p]) + pages[p]
  {
    assert pages[..p + 1][..p] == pages[..p];
  }

  /** The files that get_remote_medias yields: all of them, or the non-videos without include_video. */
  function Kept(files: seq<DriveFile>, includeVideo: bool): (kept: seq<DriveFile>)
    ensures |kept| <= |files|
  {
    if files == [] then []
    else
      var last := files[|files| - 1];
      Kept(files[..|files| - 1], includeVideo) + (if includeVideo || !IsVideo(last) then [last] else [])
  }

  /** The filter drops exactly the videos (when they are excluded) and keeps every other file as often as the listing holds it. */
  lemma {:induction false} KeptIsExact(files: seq<DriveFile>, includeVideo: bool)
    ensures forall f :: multiset(Kept(files, includeVideo))[f] ==
              if includeVideo || !IsVideo(f) then multiset(files)[f] else 0
    ensures forall f :: f in Kept(files, includeVideo) <==> f in files && (includeVideo || !IsVideo(f))
  {
    if files != [] {
      var before := files[..|files| - 1];
      assert files == before + [files[|files| - 1]];
      KeptIsExact(before, includeVideo);
    }
  }

  lemma KeptAppend(files: seq<DriveFile>, f: DriveFile, includeVideo: bool)
    ensures Kept(files + [f], includeVideo) == Kept(files, includeVideo) + (if includeVideo || !IsVideo(f) then [f] else [])
  {
    assert (files + [f])[..|files|] == files;
  }

  /**
   * The filter works file by file and keeps the listing's order: filtering
   * a concatenation is concatenating the filtered parts, and with videos
   * included nothing is dropped.
   */
  lemma {:induction false} KeptKeepsOrder(front: seq<DriveFile>, back: seq<DriveFile>, includeVideo: bool)
    ensures Kept(front + back, includeVideo) == Kept(front, includeVideo) + Kept(back, includeVideo)
    ensures includeVideo ==> Kept(back, includeVideo) == back
    decreases |back|
  {
    if back != [] {
      var shorter := back[..|back| - 1];
      var last := back[|back| - 1];
      KeptKeepsOrder(front, shorter, includeVideo);
      assert back == shorter + [last];
      assert front + back == (front + shorter) + [last];
      KeptAppend(front + shorter, last, includeVideo);
      KeptAppend(shorter, last, includeVideo);
    } else {
      assert front + back == front;
    }
  }

  function FolderQuery(name: string, parentId: string): string
  {
    "title = \"" + name + "\" and \"" + parentId + "\" in parents and trashed=false" +
    " and mimeType=\"application/vnd.google-apps.folder\""
  }

  /** `'%s' % folder_id`: an id, or the text None when the previous segment matched nothing. */
  function IdText(id: Option<string>): string
  {
    if id.Some? then id.value else "None"
  }

  /** The folder a path resolved to, and the listing queries issued on the way. */
  datatype Resolution = Resolution(folderId: Option<string>, queries: seq<string>)

  /**
   * get_remote_folder: looks up the first `/`-segment under `parentId`, then
   * resolves the rest of the path under what it found. `lookup` answers a
   * listing query with the id of the first result on its last page, or None.
   */
  function GetRemoteFolder(lookup: string -> Option<string>, parentId: string, folderName: string): (r: Resolution)
    ensures |r.queries| >= 1
    ensures r.queries[0] == FolderQuery(SplitOnce(folderName, '/').0, parentId)
    ensures r.folderId == lookup(r.queries[|r.queries| - 1])
    decreases |folderName|
  {
    var (head, tail) := SplitOnce(folderName, '/');
    var query := FolderQuery(head, parentId);
    var found := lookup(query);
    match tail
    case None => Resolution(found, [query])
    case Some(rest) =>
      var sub := GetRemoteFolder(lookup, IdText(found), rest);
      Resolution(sub.folderId, [query] + sub.queries)
  }

  /** Walking down the tree one name at a time: the reference reading of a folder path. */
  function ResolveSegments(lookup: string -> Option<string>, parentId: string, segments: seq<string>): (r: Resolution)
    requires |segments| > 0
    ensures |r.queries| == |segments|
    ensures r.queries[0] == FolderQuery(segments[0], parentId)
    ensures r.folderId == lookup(r.queries[|r.queries| - 1])
    ensures forall i :: 0 < i < |segments| ==> r.queries[i] == FolderQuery(segments[i], IdText(lookup(r.queries[i - 1])))
    decreases |segments|
  {
    var query := FolderQuery(segments[0], parentId);
    var found := lookup(query);
    if |segments| == 1 then Resolution(found, [query])
    else
      var sub := ResolveSegments(lookup, IdText(found), segments[1..]);
      assert forall i :: 1 < i < |segments| ==> segments[1..][i - 1] == segments[i];
      Resolution(sub.folderId, [query] + sub.queries)
  }

  /**
   * get_remote_folder walks the segments of `folderName.split('/')`: one
   * lookup per segment, each under the folder the previous one found.
   */
  lemma {:induction false} RemoteFolderFollowsSegments(lookup: string -> Option<string>, parentId: string, folderName: string)
    ensures GetRemoteFolder(lookup, parentId, folderName) == ResolveSegments(lookup, parentId, Split(folderName, '/'))
    ensures |GetRemoteFolder(lookup, parentId, folderName).queries| == |Split(folderName, '/')|
    decreases |folderName|
  {
    SplitOnceIsFirstPiece(folderName, '/');
    var (head, tail) := SplitOnce(folderName, '/');
    if tail.Some? {
      var found := lookup(FolderQuery(head, parentId));
      RemoteFolderFollowsSegments(lookup, IdText(found), tail.value);
      var segs := Split(folderName, '/');
      assert segs[0] == head && segs[1..] == Split(tail.value, '/');
    }
  }

  // ---------------------------------------------------------------------------
  // The sync object

  /** The query parameters of a remote listing; add_date_filter extends `q` in place. */
  class QueryParams {
    var q: string
    const maxResults: nat
    const orderBy: string

    constructor (q: string, maxResults: nat, orderBy: string)
      ensures this.q == q && this.maxResults == maxResults && this.orderBy == orderBy
    {
      this.q := q;
      this.maxResults := maxResults;
      this.orderBy := orderBy;
    }
  }

  const PAGE_SIZE: nat := 100

  class GooglePhotosSync {
    const includeVideo: bool
    const indexOnly: bool
    const startDate: Option<string>
    const endDate: Option<string>
    /** The key-value index. */
    var db: Db
    /** The regular files of the local filesystem. */
    var files: set<string>
    /** The directories of the local filesystem. */
    var dirs: set<string>
    /** The filesystem operations performed so far. */
    var fsLog: seq<FsOp>

    constructor (includeVideo: bool, indexOnly: bool, startDate: Option<string>, endDate: Option<string>,
                 db: Db, files: set<string>, dirs: set<string>)
      ensures this.includeVideo == includeVideo && this.indexOnly == indexOnly
      ensures this.startDate == startDate && this.endDate == endDate
      ensures this.db == db && this.files == files && this.dirs == dirs && fsLog == []
    {
      this.includeVideo := includeVideo;
      this.indexOnly := indexOnly;
      this.startDate := startDate;
      this.endDate := endDate;
      this.db := db;
      this.files := files;
      this.dirs := dirs;
      fsLog := [];
    }

    /** add_date_filter: appends the start bound, or else the end bound, to `q`. */
    method AddDateFilter(params: QueryParams)
      modifies params`q
      ensures params.q == old(params.q) + DateFilter(startDate, endDate)
    {
      if Truthy(startDate) {
        params.q := params.q + AfterQuery(startDate.value);
      } else if Truthy(endDate) {
        params.q := params.q + BeforeQuery(endDate.value);
      }
    }

    /**
     * get_remote_medias: the listing query for `folderId`, and the files of the
     * listing pages it returned, with videos skipped unless included.
     */
    method GetRemoteMedias(folderId: string, pages: seq<seq<DriveFile>>) returns (q: string, medias: seq<DriveFile>)
      ensures q == MediaQuery(folderId) + DateFilter(startDate, endDate)
      ensures medias == Kept(Flatten(pages), includeVideo)
    {
      q := MediaListingQuery(folderId);
      medias := [];
      var p := 0;
      while p < |pages|
        invariant 0 <= p <= |pages|
        invariant medias == Kept(Flatten(pages[..p]), includeVideo)
      {
        var page := pages[p];
        ghost var seen := Flatten(pages[..p]);
        ghost var scanned := seen;
        var i := 0;
        while i < |page|
          invariant 0 <= i <= |page|
          invariant scanned == seen + page[..i]
          invariant medias == Kept(scanned, includeVideo)
        {
          KeptAppend(scanned, page[i], includeVideo);
          PrefixSnoc(page, i);
          if includeVideo || !IsVideo(page[i]) {
            medias := medias + [page[i]];
          }
          scanned := scanned + [page[i]];
          i := i + 1;
        }
        assert page[..i] == page;
        FlattenSnoc(pages, p);
        p := p + 1;
      }
      assert pages[..p] == pages;
    }

    /** The query of get_remote_medias: the folder's media, narrowed by the date filter. */
    method MediaListingQuery(folderId: string) returns (q: string)
      ensures q == MediaQuery(folderId) + DateFilter(startDate, endDate)
    {
      var params := new QueryParams(MediaQuery(folderId), PAGE_SIZE, "title");
      AddDateFilter(params);
      q := params.q;
    }

    /** is_indexed: probes the reverse records, bumping the media item's duplicate number past other items' files. */
    method IsIndexed(path: string, media: Media) returns (r: Result<bool, SyncError>)
      modifies media
      ensures Probe(r, media.duplicateNumber) == Indexed(db, path, media.id, media.title, old(media.duplicateNumber))
      decreases |Pending(db.Keys, path, media.title, media.duplicateNumber)|
    {
      var localFilename := PathJoin(path, media.FileName());
      if !Live(db, localFilename) {
        return Success(false);
      }
      var fileRecord := db[localFilename];
      if "id" !in fileRecord {
        return Failure(KeyError("id"));
      }
      if fileRecord["id"] == Text(media.id) {
        return Success(true);
      }
      PendingShrinks(db.Keys, path, media.title, media.duplicateNumber);
      media.duplicateNumber := media.duplicateNumber + 1;
      r := IsIndexed(path, media);
    }

    /** has_local_version: probes the existing files, bumping the duplicate number past files that are not this item's. */
    method HasLocalVersion(path: string, media: Media) returns (r: Result<bool, SyncError>)
      modifies media
      ensures Probe(r, media.duplicateNumber) == LocalVersion(db, files, path, media.id, media.title, old(media.duplicateNumber))
      decreases |Pending(files, path, media.title, media.duplicateNumber)|
    {
      var localFilename := PathJoin(path, media.FileName());
      if localFilename !in files {
        return Success(false);
      }
      if Live(db, media.id) {
        var mediaRecord := db[media.id];
        if "filename" !in mediaRecord {
          return Failure(KeyError("filename"));
        }
        if mediaRecord["filename"] == Text(localFilename) {
          return Success(true);
        }
      }
      PendingShrinks(files, path, media.title, media.duplicateNumber);
      media.duplicateNumber := media.duplicateNumber + 1;
      r := HasLocalVersion(path, media);
    }

    /**
     * download_media: makes the folder, then (unless index_only) tries the
     * transfer up to MAX_ATTEMPTS times into the temporary file, renaming it
     * to the target after the first attempt that succeeds; finally writes the
     * forward and reverse index records, whatever the transfer did.
     */
    method DownloadMedia(media: Media, path: string, transfer: seq<bool>) returns (targetFilename: string)
      modifies this`db, this`files, this`dirs, this`fsLog
      ensures targetFilename == Candidate(path, media.title, media.duplicateNumber)
      ensures dirs == old(dirs) + {path}
      ensures fsLog == old(fsLog) + (if path in old(dirs) then [] else [MakeDirs(path)]) +
                       (if indexOnly then [] else TransferOps(TempFile(path), targetFilename, transfer))
      ensures files == if indexOnly then old(files) else TransferFiles(old(files), TempFile(path), targetFilename, transfer)
      ensures db == IndexWrite(old(db), media.id, targetFilename, AsValue(media.description), AsValue(media.checksum))
    {
      if path !in dirs {
        dirs := dirs + {path};
        fsLog := fsLog + [MakeDirs(path)];
      }
      targetFilename := PathJoin(path, media.FileName());
      var tempFilename := PathJoin(path, TEMP_NAME);
      if !indexOnly {
        Transfer(tempFilename, targetFilename, transfer);
      }
      WriteIndex(media.id, targetFilename, AsValue(media.description), AsValue(media.checksum));
    }

    /** The retry loop of download_media: write the temporary file, and on success rename it and stop. */
    method Transfer(tempFilename: string, targetFilename: string, transfer: seq<bool>)
      modifies this`files, this`fsLog
      ensures fsLog == old(fsLog) + TransferOps(tempFilename, targetFilename, transfer)
      ensures files == TransferFiles(old(files), tempFilename, targetFilename, transfer)
    {
      ghost var logBefore := fsLog;
      ghost var filesBefore := files;
      for retry := 0 to MAX_ATTEMPTS
        invariant fsLog == logBefore + Writes(tempFilename, retry)
        invariant forall j :: 0 <= j < retry ==> !Succeeds(transfer, j)
        invariant files == filesBefore + (if retry == 0 then {} else {tempFilename})
      {
        fsLog := fsLog + [WriteFile(tempFilename)];
        files := files + {tempFilename};
        if !Succeeds(transfer, retry) {
          continue;
        }
        fsLog := fsLog + [Rename(tempFilename, targetFilename)];
        files := files - {tempFilename} + {targetFilename};
        FirstSuccessAt(transfer, retry);
        return;
      }
      assert FirstSuccess(transfer, 0).None?;
    }

    /** The index writes of download_media: dcreate and dadd of the forward record, then of the reverse one. */
    method WriteIndex(id: string, targetFilename: string, description: Value, checksum: Value)
      modifies this`db
      ensures db == IndexWrite(old(db), id, targetFilename, description, checksum)
    {
      // dcreate and dadd of the forward record, keyed by remote id
      var forward: Record := map[];
      forward := forward["filename" := Text(targetFilename)];
      forward := forward["description" := description];
      forward := forward["checksum" := checksum];
      db := db[id := forward];
      // dcreate and dadd of the reverse record, keyed by local path
      var reverse: Record := map[];
      reverse := reverse["id" := Text(id)];
      db := db[targetFilename := reverse];
    }
  }
}
