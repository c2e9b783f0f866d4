/**
  The file store: a table of file rows keyed by the generated id, the upload
  directory as a map from stored name to content, and the access table that
  gates downloads. Disk faults and the random UUID are parameters; the service
  object reads the access table of the access service it was built with.
 */
module FileService {
  import opened Exceptions
  import opened Model
  import IdParsing
  import AccessService

  type AccessTable = AccessService.AccessTable

  /** A stored UserFile row; the owner is the uploading user's id. */
  datatype FileRow = FileRow(fileName: string, originalName: string, downloadCount: int, ownerId: int)

  /** An uploaded multipart file: its client-side name (possibly null) and its bytes. */
  datatype MultipartFile = MultipartFile(originalFilename: Option<string>, content: seq<bv8>)

  /** The resource handed back by a download: the stored name and its bytes. */
  datatype Resource = Resource(fileName: string, content: seq<bv8>)

  /** Everything the service changes: rows, the id generator, the disk and the upload directory. */
  datatype Store = Store(files: map<int, FileRow>, nextId: int, disk: map<string, seq<bv8>>, uploadDirExists: bool)

  /** Rows carry ids the generator has already handed out. */
  ghost predicate StoreValid(s: Store) {
    0 <= s.nextId && forall id | id in s.files :: 0 <= id < s.nextId
  }

  datatype Change = Change(outcome: Outcome, store: Store)
  datatype Fetch = Fetch(result: Result<Resource>, store: Store)

  const SelectFileMessage := "Select file!"
  const TransferMessage := "The file or path was not found!"
  const BadFileIdMessage := "The file id must not be null or character!"
  const NoPermissionMessage := "You need permission to perform this action!"
  const NotYourFileMessage := "You can not delete not your file!"
  const NotDeletedMessage := "The file was not deleted!"

  function NoFileMessage(id: nat): string {
    "There is no file with id " + IdParsing.Decimal(id)
  }

  function CouldNotReadMessage(fileName: string): string {
    "Could not read file: " + fileName
  }

  // ------------------------------------------------------------ pure helpers

  /** The stored name of an upload: the UUID, a dot, then the original name. */
  function CreateUniqueFileName(uuid: string, originalFileName: string): (name: string)
    ensures |name| == |uuid| + 1 + |originalFileName|
    ensures name[..|uuid|] == uuid && name[|uuid|] == '.'
    ensures name[|uuid| + 1..] == originalFileName
  {
    uuid + "." + originalFileName
  }

  /** Different UUIDs of the same length (a UUID string always has 36) give different stored names. */
  lemma UniqueNamesFromUniqueIds(u1: string, u2: string, orig1: string, orig2: string)
    requires |u1| == |u2| && u1 != u2
    ensures CreateUniqueFileName(u1, orig1) != CreateUniqueFileName(u2, orig2)
  {
    assert CreateUniqueFileName(u1, orig1)[..|u1|] == u1;
    assert CreateUniqueFileName(u2, orig2)[..|u2|] == u2;
  }

  /** The stored name ends with "." followed by the original name. */
  lemma StoredNameEndsWithOriginal(uuid: string, orig: string)
    ensures var name := CreateUniqueFileName(uuid, orig);
            |name| > |orig| && name[|name| - |orig| - 1..] == "." + orig
  {
    var name := CreateUniqueFileName(uuid, orig);
    assert name[|name| - |orig| - 1..] == name[|uuid|..];
    assert name[|uuid|..] == [name[|uuid|]] + name[|uuid| + 1..];
  }

  function TransformStringIdToInteger(fileId: Option<string>): Result<int> {
    IdParsing.Transform(fileId, BadFileIdMessage)
  }

  /** isFileOwner: the ids are equal. */
  predicate IsFileOwner(currentUser: int, fileOwner: int): (r: bool)
    ensures r <==> fileOwner == currentUser
  {
    currentUser == fileOwner
  }

  /** The download gate: the owner, or a subscriber whose download is granted by that owner. */
  predicate MayDownload(accesses: AccessTable, currentUser: int, fileOwner: int): (r: bool)
    ensures IsFileOwner(currentUser, fileOwner) ==> r
    ensures r && currentUser != fileOwner ==>
              var id := AccessId(fileOwner, currentUser);
              id in accesses && accesses[id].downloadAccess && !accesses[id].downloadRequest
  {
    || IsFileOwner(currentUser, fileOwner)
    || (AccessId(fileOwner, currentUser) in accesses && accesses[AccessId(fileOwner, currentUser)].DownloadGranted())
  }

  /** Read-only or pending access never lets a non-owner download. */
  lemma ReadOnlyOrPendingIsDenied(accesses: AccessTable, currentUser: int, fileOwner: int)
    requires currentUser != fileOwner
    requires AccessId(fileOwner, currentUser) !in accesses
             || !accesses[AccessId(fileOwner, currentUser)].downloadAccess
             || accesses[AccessId(fileOwner, currentUser)].downloadRequest
    ensures !MayDownload(accesses, currentUser, fileOwner)
  {
  }

  // ------------------------------------------------------------ the operations on values

  /** uploadFile(currentUser, file, …) with the UUID and the transfer's failure as parameters. */
  function Upload(s: Store, currentUser: int, file: Option<MultipartFile>, uuid: string, transferFails: bool): (c: Change)
    ensures c.outcome.Failed? ==> c.store.files == s.files && c.store.disk == s.disk && c.store.nextId == s.nextId
    ensures c.outcome.Done? ==>
              && c.store.nextId == s.nextId + 1 && c.store.uploadDirExists
              && c.store.files.Keys == s.files.Keys + {s.nextId} && c.store.files[s.nextId].ownerId == currentUser
  {
    if file.None? || file.value.originalFilename.None? || file.value.originalFilename.value == "" then
      Change(Failed(NotFound(SelectFileMessage)), s)
    else
      var orig := file.value.originalFilename.value;
      var name := CreateUniqueFileName(uuid, orig);
      var s1 := s.(uploadDirExists := true);
      if transferFails then Change(Failed(NotFound(TransferMessage)), s1)
      else Change(Done, s1.(disk := s.disk[name := file.value.content],
                            files := s.files[s.nextId := FileRow(name, orig, 0, currentUser)],
                            nextId := s.nextId + 1))
  }

  /**
    downloadFile(currentUser, fileId): parse, find the row, authorise, read the
    disk, count; readFails stands for a stored file the resource cannot read.
   */
  function Download(s: Store, accesses: AccessTable, currentUser: int, fileId: Option<string>, readFails: bool): (f: Fetch)
    ensures f.result.Err? ==> f.store == s
    ensures f.store.disk == s.disk && f.store.files.Keys == s.files.Keys
    ensures f.store.nextId == s.nextId && f.store.uploadDirExists == s.uploadDirExists
    ensures f.result.Ok? ==> !readFails && f.result.value.fileName in s.disk
  {
    match TransformStringIdToInteger(fileId)
    case Err(e) => Fetch(Err(e), s)
    case Ok(id) =>
      if id !in s.files then Fetch(Err(NotFound(NoFileMessage(id))), s)
      else
        var row := s.files[id];
        if !MayDownload(accesses, currentUser, row.ownerId) then Fetch(Err(AccessDenied(NoPermissionMessage)), s)
        else if row.fileName !in s.disk || readFails then Fetch(Err(NotFound(CouldNotReadMessage(row.fileName))), s)
        else Fetch(Ok(Resource(row.fileName, s.disk[row.fileName])),
                   s.(files := s.files[id := row.(downloadCount := Wrap(row.downloadCount + 1))]))
  }

  /** deleteFile(currentUser, fileId) with the disk delete's failure as a parameter. */
  function Delete(s: Store, currentUser: int, fileId: Option<string>, deleteFails: bool): (c: Change)
    ensures c.outcome.Failed? ==> c.store == s
    ensures c.store.files.Keys <= s.files.Keys && c.store.disk.Keys <= s.disk.Keys
    ensures c.outcome.Done? ==> !deleteFails && c.store.files.Keys < s.files.Keys
  {
    match TransformStringIdToInteger(fileId)
    case Err(e) => Change(Failed(e), s)
    case Ok(id) =>
      if id !in s.files then Change(Failed(NotFound(NoFileMessage(id))), s)
      else
        var row := s.files[id];
        if !IsFileOwner(currentUser, row.ownerId) then Change(Failed(AccessDenied(NotYourFileMessage)), s)
        else if row.fileName !in s.disk || deleteFails then Change(Failed(NotFound(NotDeletedMessage)), s)
        else Change(Done, s.(disk := s.disk - {row.fileName}, files := s.files - {id}))
  }

  // ------------------------------------------------------------ properties

  /** An upload without a file or without a name changes nothing, not even the directory. */
  lemma UploadNeedsAName(s: Store, currentUser: int, file: Option<MultipartFile>, uuid: string, transferFails: bool)
    requires file.None? || file.value.originalFilename.None? || file.value.originalFilename == Some("")
    ensures Upload(s, currentUser, file, uuid, transferFails) == Change(Failed(NotFound(SelectFileMessage)), s)
  {
  }

  /**
    A named upload creates the directory; it saves exactly one row, owned by the
    uploader, counted 0 and named uuid.original, exactly when the transfer succeeded.
   */
  lemma UploadEffect(s: Store, currentUser: int, file: MultipartFile, uuid: string, transferFails: bool)
    requires StoreValid(s)
    requires file.originalFilename.Some? && file.originalFilename.value != ""
    ensures var c := Upload(s, currentUser, Some(file), uuid, transferFails);
            var name := CreateUniqueFileName(uuid, file.originalFilename.value);
            && c.store.uploadDirExists
            && StoreValid(c.store)
            && (c.outcome.Failed? <==> transferFails)
            && (c.outcome.Failed? ==>
                  c.outcome.error == NotFound(TransferMessage) && c.store.files == s.files && c.store.disk == s.disk)
            && (c.outcome.Done? ==>
                  && s.nextId !in s.files
                  && c.store.files == s.files[s.nextId := FileRow(name, file.originalFilename.value, 0, currentUser)]
                  && c.store.disk == s.disk[name := file.content])
  {
  }

  /** A file id the parser refuses fails before any row, directory or disk is touched. */
  lemma BadIdsTouchNothing(s: Store, accesses: AccessTable, currentUser: int, fileId: Option<string>, fails: bool)
    requires TransformStringIdToInteger(fileId).Err?
    ensures Download(s, accesses, currentUser, fileId, fails) == Fetch(Err(TransformStringIdToInteger(fileId).error), s)
    ensures Delete(s, currentUser, fileId, fails) == Change(Failed(TransformStringIdToInteger(fileId).error), s)
  {
  }

  /** An unknown id fails with a message naming the parsed id, in both download and delete. */
  lemma UnknownIdNamesTheId(s: Store, accesses: AccessTable, currentUser: int, id: nat, fails: bool)
    requires id <= IdParsing.IntMax && id !in s.files
    ensures Download(s, accesses, currentUser, Some(IdParsing.Decimal(id)), fails) == Fetch(Err(NotFound(NoFileMessage(id))), s)
    ensures Delete(s, currentUser, Some(IdParsing.Decimal(id)), fails) == Change(Failed(NotFound(NoFileMessage(id))), s)
  {
    IdParsing.TransformDecimal(id, BadFileIdMessage);
  }

  /**
    For a stored file, the download is refused with AccessDenied exactly when
    the gate is closed; when the gate is open it fails, naming the stored file,
    exactly when that file is missing or unreadable, and a success returns the
    stored bytes and raises the counter by one (at 32-bit width), changing
    nothing else.
   */
  lemma DownloadEffect(s: Store, accesses: AccessTable, currentUser: int, id: nat, readFails: bool)
    requires id <= IdParsing.IntMax && id in s.files
    ensures var row := s.files[id];
            var f := Download(s, accesses, currentUser, Some(IdParsing.Decimal(id)), readFails);
            && (f.result == Err(AccessDenied(NoPermissionMessage)) <==> !MayDownload(accesses, currentUser, row.ownerId))
            && (MayDownload(accesses, currentUser, row.ownerId) && (row.fileName !in s.disk || readFails) ==>
                  f.result == Err(NotFound(CouldNotReadMessage(row.fileName))))
            && (f.result.Ok? <==> MayDownload(accesses, currentUser, row.ownerId) && row.fileName in s.disk && !readFails)
            && (f.result.Err? ==> f.store == s)
            && (f.result.Ok? ==>
                  && f.result.value == Resource(row.fileName, s.disk[row.fileName])
                  && f.store.disk == s.disk && f.store.files.Keys == s.files.Keys
                  && f.store.files[id].downloadCount == Wrap(row.downloadCount + 1)
                  && (IsInt(row.downloadCount + 1) ==> f.store.files[id].downloadCount == row.downloadCount + 1)
                  && f.store.files[id] == row.(downloadCount := f.store.files[id].downloadCount)
                  && (forall k | k in s.files && k != id :: f.store.files[k] == s.files[k]))
  {
    IdParsing.TransformDecimal(id, BadFileIdMessage);
  }

  /**
    Deleting a stored file succeeds exactly for its owner when the disk delete
    succeeds; the owner whose disk file is missing or will not delete gets
    NotFound; on success both the disk file and the row are gone, and on any
    failure both are kept.
   */
  lemma DeleteEffect(s: Store, currentUser: int, id: nat, deleteFails: bool)
    requires id <= IdParsing.IntMax && id in s.files
    ensures var row := s.files[id];
            var c := Delete(s, currentUser, Some(IdParsing.Decimal(id)), deleteFails);
            && (c.outcome == Failed(AccessDenied(NotYourFileMessage)) <==> currentUser != row.ownerId)
            && (currentUser == row.ownerId && (row.fileName !in s.disk || deleteFails) ==>
                  c.outcome == Failed(NotFound(NotDeletedMessage)))
            && (c.outcome.Done? <==> currentUser == row.ownerId && row.fileName in s.disk && !deleteFails)
            && (c.outcome.Failed? ==> c.store == s)
            && (c.outcome.Done? ==> c.store.files == s.files - {id} && c.store.disk == s.disk - {row.fileName})
  {
    IdParsing.TransformDecimal(id, BadFileIdMessage);
  }

  /**
    Any spelling of an id the parser accepts, "007" as well as "7", downloads
    and deletes exactly as the decimal spelling does, so DownloadEffect and
    DeleteEffect hold for every accepted spelling.
   */
  lemma AnySpellingActsAlike(s: Store, accesses: AccessTable, currentUser: int, fileId: Option<string>, fails: bool)
    requires TransformStringIdToInteger(fileId).Ok?
    ensures var id := TransformStringIdToInteger(fileId).value;
            && 0 <= id <= IdParsing.IntMax
            && Download(s, accesses, currentUser, fileId, fails)
               == Download(s, accesses, currentUser, Some(IdParsing.Decimal(id)), fails)
            && Delete(s, currentUser, fileId, fails) == Delete(s, currentUser, Some(IdParsing.Decimal(id)), fails)
  {
    IdParsing.TransformDecimal(TransformStringIdToInteger(fileId).value, BadFileIdMessage);
  }

  /** Every operation keeps the row ids below the generator. */
  lemma OperationsKeepStoreValid(s: Store, accesses: AccessTable, currentUser: int, file: Option<MultipartFile>,
                                 uuid: string, fileId: Option<string>, fails: bool)
    requires StoreValid(s)
    ensures StoreValid(Upload(s, currentUser, file, uuid, fails).store)
    ensures StoreValid(Download(s, accesses, currentUser, fileId, fails).store)
    ensures StoreValid(Delete(s, currentUser, fileId, fails).store)
  {
  }

  /** The uploader downloads the bytes it sent, under the next generated id, and the count becomes 1. */
  lemma UploadThenDownload(s: Store, accesses: AccessTable, owner: int, file: MultipartFile, uuid: string)
    requires StoreValid(s) && s.nextId <= IdParsing.IntMax
    requires file.originalFilename.Some? && file.originalFilename.value != ""
    ensures var up := Upload(s, owner, Some(file), uuid, false);
            var down := Download(up.store, accesses, owner, Some(IdParsing.Decimal(s.nextId)), false);
            && up.outcome.Done?
            && down.result == Ok(Resource(CreateUniqueFileName(uuid, file.originalFilename.value), file.content))
            && down.store.files[s.nextId].downloadCount == 1
  {
    DownloadEffect(Upload(s, owner, Some(file), uuid, false).store, accesses, owner, s.nextId, false);
  }

  /**
    Upload and delete are inverse: when the stored name was free, deleting the
    upload restores rows and disk; only the directory and the id generator move on.
   */
  lemma UploadThenDeleteRestores(s: Store, owner: int, file: MultipartFile, uuid: string)
    requires StoreValid(s) && s.nextId <= IdParsing.IntMax
    requires file.originalFilename.Some? && file.originalFilename.value != ""
    requires CreateUniqueFileName(uuid, file.originalFilename.value) !in s.disk
    ensures var up := Upload(s, owner, Some(file), uuid, false);
            var del := Delete(up.store, owner, Some(IdParsing.Decimal(s.nextId)), false);
            del == Change(Done, s.(uploadDirExists := true, nextId := s.nextId + 1))
  {
    var up := Upload(s, owner, Some(file), uuid, false);
    var name := CreateUniqueFileName(uuid, file.originalFilename.value);
    DeleteEffect(up.store, owner, s.nextId, false);
    var del := Delete(up.store, owner, Some(IdParsing.Decimal(s.nextId)), false);
    assert del.store.files == s.files;
    assert del.store.disk == s.disk;
  }

  // ------------------------------------------------------------ the service object

  /**
    FileServiceImpl over the file repository and the upload directory; the
    access repository is the table of the access service it shares.
   */
  class FileServiceImpl {
    var files: map<int, FileRow>
    var nextId: int
    var disk: map<string, seq<bv8>>
    var uploadDirExists: bool
    const accessService: AccessService.AccessServiceImpl

    function State(): Store
      reads this
    {
      Store(files, nextId, disk, uploadDirExists)
    }

    ghost predicate Valid()
      reads this
    {
      StoreValid(State())
    }

    constructor (accessService: AccessService.AccessServiceImpl)
      ensures Valid() && this.accessService == accessService
      ensures files == map[] && nextId == 0 && disk == map[] && !uploadDirExists
    {
      this.accessService := accessService;
      files := map[];
      nextId := 0;
      disk := map[];
      uploadDirExists := false;
    }

    /** Writes a new UserFile as the next row. */
    method SaveNew(file: UserFile)
      requires file.ownerId.Some?
      modifies this`files, this`nextId
      ensures files == old(files)[old(nextId) := FileRow(file.fileName, file.originalName, file.downloadCount, file.ownerId.value)]
      ensures nextId == old(nextId) + 1
    {
      files := files[nextId := FileRow(file.fileName, file.originalName, file.downloadCount, file.ownerId.value)];
      nextId := nextId + 1;
    }

    /** findAllFiles: the whole catalogue. */
    method FindAllFiles() returns (rows: map<int, FileRow>)
      ensures rows == files
    {
      rows := files;
    }

    method UploadFile(currentUser: int, file: Option<MultipartFile>, uuid: string, transferFails: bool) returns (o: Outcome)
      requires Valid()
      modifies this
      ensures Valid()
      ensures Change(o, State()) == Upload(old(State()), currentUser, file, uuid, transferFails)
    {
      if file.None? || file.value.originalFilename.None? || file.value.originalFilename.value == "" {
        return Failed(NotFound(SelectFileMessage));
      }
      if !uploadDirExists {
        uploadDirExists := true;
      }
      var resultFilename := CreateUniqueFileName(uuid, file.value.originalFilename.value);
      if transferFails {
        return Failed(NotFound(TransferMessage));
      }
      disk := disk[resultFilename := file.value.content];
      var userFile := new UserFile.Empty();
      userFile.SetOriginalName(file.value.originalFilename.value);
      userFile.SetFileName(resultFilename);
      userFile.SetUser(Some(currentUser));
      userFile.SetDownloadCount(0);
      SaveNew(userFile);
      o := Done;
    }

    method DownloadFile(currentUser: int, fileId: Option<string>, readFails: bool) returns (r: Result<Resource>)
      requires Valid()
      modifies this`files
      ensures Valid()
      ensures Fetch(r, State()) == Download(old(State()), accessService.accesses, currentUser, fileId, readFails)
    {
      var parsed := TransformStringIdToInteger(fileId);
      if parsed.Err? { return Err(parsed.error); }
      var id := parsed.value;
      if id !in files { return Err(NotFound(NoFileMessage(id))); }
      var row := files[id];
      var userFile := new UserFile(Some(id), row.fileName, row.originalName, row.downloadCount);
      userFile.SetUser(Some(row.ownerId));
      if !MayDownload(accessService.accesses, currentUser, userFile.ownerId.value) {
        return Err(AccessDenied(NoPermissionMessage));
      }
      if userFile.fileName !in disk || readFails {
        return Err(NotFound(CouldNotReadMessage(userFile.fileName)));
      }
      var resource := Resource(userFile.fileName, disk[userFile.fileName]);
      userFile.SetDownloadCount(Wrap(userFile.downloadCount + 1));
      files := files[id := FileRow(userFile.fileName, userFile.originalName, userFile.downloadCount, userFile.ownerId.value)];
      r := Ok(resource);
    }

    method DeleteFile(currentUser: int, fileId: Option<string>, deleteFails: bool) returns (o: Outcome)
      requires Valid()
      modifies this`files, this`disk
      ensures Valid()
      ensures Change(o, State()) == Delete(old(State()), currentUser, fileId, deleteFails)
    {
      var parsed := TransformStringIdToInteger(fileId);
      if parsed.Err? { return Failed(parsed.error); }
      var id := parsed.value;
      if id !in files { return Failed(NotFound(NoFileMessage(id))); }
      var row := files[id];
      if !IsFileOwner(currentUser, row.ownerId) {
        return Failed(AccessDenied(NotYourFileMessage));
      }
      if row.fileName !in disk || deleteFails {
        return Failed(NotFound(NotDeletedMessage));
      }
      disk := disk - {row.fileName};
      files := files - {id};
      o := Done;
    }
  }
}
