/**
  The sharing workflow end to end: Maria (user 1) uploads test.txt, John
  (user 2) asks for access, is refused while the request is pending, is
  granted, and downloads.
 */
module Scenario {
  import opened Exceptions
  import opened Model
  import IdParsing
  import AccessService
  import FileService
  import AccessController

  const Maria := 1
  const John := 2
  const Users: set<int> := {Maria, John}
  const Text: seq<bv8> := [0x68, 0x69]
  const Upload := FileService.MultipartFile(Some("test.txt"), Text)

  /** The two ids spelled as the path parameters carry them. */
  lemma IdsParse()
    ensures AccessService.FindUserById(Users, Some("1")) == Ok(Maria)
    ensures AccessService.FindUserById(Users, Some("2")) == Ok(John)
    ensures FileService.TransformStringIdToInteger(Some("1")) == Ok(1)
  {
    assert IdParsing.Decimal(1) == "1" && IdParsing.Decimal(2) == "2";
    AccessService.FindUserByDecimalId(Users, 1);
    AccessService.FindUserByDecimalId(Users, 2);
    IdParsing.TransformDecimal(1, FileService.BadFileIdMessage);
  }

  /** Maria's upload becomes file 1, counted 0, named uuid.test.txt. */
  lemma MariaUploads(uuid: string)
    ensures var up := FileService.Upload(FileService.Store(map[], 1, map[], false), Maria, Some(Upload), uuid, false);
            && up.outcome.Done?
            && up.store.files == map[1 := FileService.FileRow(uuid + ".test.txt", "test.txt", 0, Maria)]
            && up.store.disk == map[uuid + ".test.txt" := Text]
  {
    StoredName(uuid);
  }

  lemma StoredName(uuid: string)
    ensures FileService.CreateUniqueFileName(uuid, "test.txt") == uuid + ".test.txt"
  {
    assert uuid + "." + "test.txt" == uuid + ".test.txt";
  }

  /** John's download request on an empty table leaves download pending, and the download is refused. */
  lemma JohnAsksAndIsRefused(uuid: string)
    ensures var ask := AccessService.RequestDownload(Users, map[], Some("1"), Some(John));
            ask.outcome.Done? && ask.accesses == map[AccessId(Maria, John) := AccessFlags(false, false, true, true)]
    ensures var store := FileService.Upload(FileService.Store(map[], 1, map[], false), Maria, Some(Upload), uuid, false).store;
            var ask := AccessService.RequestDownload(Users, map[], Some("1"), Some(John));
            && AccessService.GetRequestingAccesses(Some(Maria), [AccessService.AccessRecord(AccessId(Maria, John), ask.accesses[AccessId(Maria, John)])])
               == Ok([AccessService.AccessRecord(AccessId(Maria, John), ask.accesses[AccessId(Maria, John)])])
            && FileService.Download(store, ask.accesses, John, Some("1"), false)
               == FileService.Fetch(Err(AccessDenied(FileService.NoPermissionMessage)), store)
            && AccessController.ShowUserFiles(Users, ask.accesses, store.files, John, Some("1"))
               == Ok(AccessController.UserFilesView(map[], Maria, false, None, Some(AccessController.NoFilesMessage)))
  {
    IdsParse();
    MariaUploads(uuid);
    var store := FileService.Upload(FileService.Store(map[], 1, map[], false), Maria, Some(Upload), uuid, false).store;
    var ask := AccessService.RequestDownload(Users, map[], Some("1"), Some(John));
    AccessService.RequestDownloadEffect(Users, map[], Some("1"), Some(John));
    assert ask.accesses == map[AccessId(Maria, John) := AccessFlags(false, false, true, true)];
    var listing := [AccessService.AccessRecord(AccessId(Maria, John), ask.accesses[AccessId(Maria, John)])];
    assert listing[1..] == [];
    assert AccessService.PendingOnly(listing) == listing;
    FileService.DownloadEffect(store, ask.accesses, John, 1, false);
    AccessController.ShowUserFilesVisibility(Users, ask.accesses, store.files, John, Some("1"));
  }

  /** Once Maria allows it, John downloads test.txt and the counter reaches 1. */
  lemma JohnIsGrantedAndDownloads(uuid: string)
    ensures var store := FileService.Upload(FileService.Store(map[], 1, map[], false), Maria, Some(Upload), uuid, false).store;
            var asked := AccessService.RequestDownload(Users, map[], Some("1"), Some(John)).accesses;
            var grant := AccessService.GrantDownload(Users, asked, Some(Maria), Some("2"));
            var down := FileService.Download(store, grant.accesses, John, Some("1"), false);
            && grant.outcome.Done?
            && grant.accesses == map[AccessId(Maria, John) := AccessFlags(false, false, true, false)]
            && down.result == Ok(FileService.Resource(uuid + ".test.txt", Text))
            && down.store.files[1].downloadCount == 1
            && AccessController.ShowUserFiles(Users, grant.accesses, store.files, John, Some("1")).Ok?
            && AccessController.ShowUserFiles(Users, grant.accesses, store.files, John, Some("1")).value.readAccess == Some(false)
  {
    IdsParse();
    MariaUploads(uuid);
    var store := FileService.Upload(FileService.Store(map[], 1, map[], false), Maria, Some(Upload), uuid, false).store;
    AccessService.RequestDownloadEffect(Users, map[], Some("1"), Some(John));
    var asked := AccessService.RequestDownload(Users, map[], Some("1"), Some(John)).accesses;
    assert asked == map[AccessId(Maria, John) := AccessFlags(false, false, true, true)];
    AccessService.GrantDownloadEffect(Users, asked, Some(Maria), Some("2"));
    var grant := AccessService.GrantDownload(Users, asked, Some(Maria), Some("2"));
    assert grant.accesses == map[AccessId(Maria, John) := AccessFlags(false, false, true, false)];
    AccessController.ShowUserFilesVisibility(Users, grant.accesses, store.files, John, Some("1"));
  }

  /**
    The same workflow on the service objects: the file service reads the table
    of the access service it was built with, so Maria's grant through the access
    service is what lets John's download through the file service succeed.
   */
  method GrantThroughServiceReachesDownload(uuid: string) returns (r: Result<FileService.Resource>)
    ensures r == Ok(FileService.Resource(uuid + ".test.txt", Text))
  {
    IdsParse();
    StoredName(uuid);
    IdParsing.TransformDecimal(0, FileService.BadFileIdMessage);
    assert IdParsing.Decimal(0) == "0";
    var access := new AccessService.AccessServiceImpl(Users, map[]);
    var files := new FileService.FileServiceImpl(access);
    var up := files.UploadFile(Maria, Some(Upload), uuid, false);
    assert files.files == map[0 := FileService.FileRow(uuid + ".test.txt", "test.txt", 0, Maria)];
    var asked := access.SaveRequestToDownload(Some("1"), Some(John));
    AccessService.RequestDownloadEffect(Users, map[], Some("1"), Some(John));
    assert access.accesses == map[AccessId(Maria, John) := AccessFlags(false, false, true, true)];
    AccessService.GrantDownloadEffect(Users, access.accesses, Some(Maria), Some("2"));
    var granted := access.AllowDownload(Some(Maria), Some("2"));
    assert access.accesses == map[AccessId(Maria, John) := AccessFlags(false, false, true, false)];
    r := files.DownloadFile(John, Some("0"), false);
  }
}
