/**
  The decision behind the "files of another user" page: whom the visitor is,
  and which access record the owner gave them, decide whether the owner's
  files are listed, whether they are listed read-only, and what note is shown.
 */
module AccessController {
  import opened Exceptions
  import opened Model
  import AccessService
  import FileService
  import IdParsing

  type AccessTable = AccessService.AccessTable
  type FileRow = FileService.FileRow

  const NoFilesMessage := "No files available for you"

  /** The return statements of showUserFiles, in source order. */
  datatype Branch =
    | OwnerFiles        // the visitor is the owner
    | DownloadableFiles // download granted
    | ReadableFiles     // read granted, download not
    | ReadFallThrough   // read granted but the inner test fails: falls to the last return
    | NotGranted        // a record, but neither capability granted
    | NoRecord          // no record at all

  /**
    The nested tests of showUserFiles as written. The download test comes first,
    so by the time the read branch's inner test runs it always holds: the
    fall-through is unreachable.
   */
  function Decide(isOwner: bool, access: Option<AccessFlags>): (b: Branch)
    ensures b == OwnerFiles <==> isOwner
    ensures b == DownloadableFiles <==> !isOwner && access.Some? && access.value.DownloadGranted()
    ensures b == ReadableFiles <==>
              !isOwner && access.Some? && !access.value.DownloadGranted() && access.value.ReadGranted()
    ensures b == NotGranted <==>
              !isOwner && access.Some? && !access.value.DownloadGranted() && !access.value.ReadGranted()
    ensures b == NoRecord <==> !isOwner && access.None?
    ensures b != ReadFallThrough
  {
    if isOwner then OwnerFiles
    else if access.Some? then
      var a := access.value;
      if !a.downloadRequest && a.downloadAccess then DownloadableFiles
      else if !a.readRequest && a.readAccess then
        if (!a.downloadRequest && !a.downloadAccess) || a.downloadRequest then ReadableFiles
        else ReadFallThrough
      else NotGranted
    else NoRecord
  }

  /** The model attributes of the userFiles page; readAccess is None when the branch does not set it. */
  datatype UserFilesView = UserFilesView(files: map<int, FileRow>, fileOwner: int, isFileOwner: bool,
                                         readAccess: Option<bool>, info: Option<string>)

  /** fileOwner.getFiles(): the rows whose owner is the given user. */
  function OwnedFiles(files: map<int, FileRow>, owner: int): (r: map<int, FileRow>)
    ensures forall id :: id in r <==> id in files && files[id].ownerId == owner
    ensures forall id | id in r :: r[id] == files[id]
  {
    map id | id in files && files[id].ownerId == owner :: files[id]
  }

  function Render(b: Branch, files: map<int, FileRow>, owner: int): UserFilesView {
    match b
    case OwnerFiles => UserFilesView(OwnedFiles(files, owner), owner, true, Some(false), None)
    case DownloadableFiles => UserFilesView(OwnedFiles(files, owner), owner, false, Some(false), None)
    case ReadableFiles => UserFilesView(OwnedFiles(files, owner), owner, false, Some(true), None)
    case _ => UserFilesView(map[], owner, false, None, Some(NoFilesMessage))
  }

  /**
    showUserFiles(currentUser, fileOwnerId): look the owner up (its failures
    propagate), then, for a visitor who is not the owner, the owner→visitor
    access record.
   */
  function ShowUserFiles(users: set<int>, accesses: AccessTable, files: map<int, FileRow>,
                         currentUser: int, fileOwnerId: Option<string>): (r: Result<UserFilesView>)
    ensures r.Err? <==> AccessService.FindUserById(users, fileOwnerId).Err?
    ensures r.Ok? ==> r.value.fileOwner == AccessService.FindUserById(users, fileOwnerId).value
    ensures r.Ok? ==> (r.value.isFileOwner <==> currentUser == r.value.fileOwner)
    ensures r.Ok? && r.value.info.None? ==> r.value.files == OwnedFiles(files, r.value.fileOwner)
  {
    match AccessService.FindUserById(users, fileOwnerId)
    case Err(e) => Err(e)
    case Ok(owner) =>
      var isOwner := FileService.IsFileOwner(currentUser, owner);
      var access := if isOwner then None
                    else AccessService.FindAccess(users, accesses, fileOwnerId, Some(currentUser)).value;
      Ok(Render(Decide(isOwner, access), files, owner))
  }

  /** The record the page consults: the one the owner gave the visitor. */
  function RecordFor(accesses: AccessTable, owner: int, visitor: int): Option<AccessFlags> {
    if AccessId(owner, visitor) in accesses then Some(accesses[AccessId(owner, visitor)]) else None
  }

  /** The page fails exactly as the owner lookup does. */
  lemma ShowUserFilesErrors(users: set<int>, accesses: AccessTable, files: map<int, FileRow>,
                            currentUser: int, fileOwnerId: Option<string>)
    ensures var r := ShowUserFiles(users, accesses, files, currentUser, fileOwnerId);
            && (r.Err? <==> AccessService.FindUserById(users, fileOwnerId).Err?)
            && (r.Err? ==> r.error == AccessService.FindUserById(users, fileOwnerId).error)
            && (r.Ok? ==> r.value.fileOwner == AccessService.FindUserById(users, fileOwnerId).value)
  {
  }

  /**
    For a found owner: isFileOwner holds exactly for the owner; the owner's files
    are listed exactly when the visitor is the owner or holds a granted
    capability, and otherwise the page is empty with the note; the list is
    read-only exactly for a visitor with read but not download granted.
   */
  lemma ShowUserFilesVisibility(users: set<int>, accesses: AccessTable, files: map<int, FileRow>,
                                currentUser: int, fileOwnerId: Option<string>)
    requires AccessService.FindUserById(users, fileOwnerId).Ok?
    ensures var owner := AccessService.FindUserById(users, fileOwnerId).value;
            var record := RecordFor(accesses, owner, currentUser);
            var granted := record.Some? && (record.value.ReadGranted() || record.value.DownloadGranted());
            var v := ShowUserFiles(users, accesses, files, currentUser, fileOwnerId).value;
            && (v.isFileOwner <==> currentUser == owner)
            && (v.info.None? <==> currentUser == owner || granted)
            && (v.info.None? ==> v.files == OwnedFiles(files, owner))
            && (v.info.Some? ==> v.files == map[] && v.info == Some(NoFilesMessage) && v.readAccess.None?)
            && (v.readAccess == Some(true) <==>
                  currentUser != owner && record.Some? && record.value.ReadGranted() && !record.value.DownloadGranted())
  {
  }

  /**
    The page and the download gate agree: a list shown without the read-only
    mark belongs to someone the file service lets download, and a read-only list
    to someone it refuses.
   */
  lemma ViewAgreesWithDownloadGate(users: set<int>, accesses: AccessTable, files: map<int, FileRow>,
                                   currentUser: int, fileOwnerId: Option<string>)
    requires ShowUserFiles(users, accesses, files, currentUser, fileOwnerId).Ok?
    ensures var v := ShowUserFiles(users, accesses, files, currentUser, fileOwnerId).value;
            && (v.readAccess == Some(false) ==> FileService.MayDownload(accesses, currentUser, v.fileOwner))
            && (v.readAccess == Some(true) ==> !FileService.MayDownload(accesses, currentUser, v.fileOwner))
  {
    ShowUserFilesVisibility(users, accesses, files, currentUser, fileOwnerId);
  }

  /** Every file on a read-only page is refused for download, with the file service's own error. */
  lemma ReadOnlyFilesAreNotDownloadable(users: set<int>, accesses: AccessTable, s: FileService.Store,
                                        currentUser: int, fileOwnerId: Option<string>, id: nat, readFails: bool)
    requires ShowUserFiles(users, accesses, s.files, currentUser, fileOwnerId).Ok?
    requires ShowUserFiles(users, accesses, s.files, currentUser, fileOwnerId).value.readAccess == Some(true)
    requires id in ShowUserFiles(users, accesses, s.files, currentUser, fileOwnerId).value.files
    requires id <= IdParsing.IntMax
    ensures FileService.Download(s, accesses, currentUser, Some(IdParsing.Decimal(id)), readFails)
            == FileService.Fetch(Err(AccessDenied(FileService.NoPermissionMessage)), s)
  {
    ViewAgreesWithDownloadGate(users, accesses, s.files, currentUser, fileOwnerId);
    FileService.DownloadEffect(s, accesses, currentUser, id, readFails);
  }
}
