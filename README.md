# File sharing: access control, file store and account activation

This project models the service core of a small file-sharing web application. Users upload files. An owner's files are private until another user, the subscriber, asks for access and the owner allows it.

**Access control.** There is one access record per ordered pair (owner, subscriber). Each record holds four flags: read access, read request, download access and download request.
- A request raises both flags of a capability.
- The owner's "allow" clears only the request flag.
- A capability is granted when its access flag is set and its request flag is clear.

**File store.** The store holds:
- the file rows;
- an upload directory, mapping stored names to bytes;
- a download counter per file.

A download is allowed for the owner, or for a subscriber whose download the owner has granted.

**Users page.** The page that lists another user's files decides from the same record what the visitor sees.

**Accounts.** Registration mails an activation link. The link expires after 24 hours; following an expired link mails a new one.

Modules:
- `Exceptions`: the error tags `NotFound`, `AlreadyExist`, `AccessDenied` and `ServiceFailure` (Java's `ServiceException`), plus `NumberFormat` for `Integer.valueOf` overflow.
- `IdParsing`: the shared id parser (`[\d]+` then `Integer.valueOf`).
- `Model`: the entities.
  - `AccessId` is a value.
  - `Access`, `UserFile` and `User` are classes, with the setters the services use.
  - It also holds the Java hash functions (`Objects.hash`, `String.hashCode`, 32-bit wrap-around).
- `AccessService`, `FileService`, `UserService`: the three service classes. Each service is a pure specification function on the repository tables plus a class whose methods do what the Java methods do step by step. The class loads an entity object from its row, changes it only through the entity's setters (`Access`: the four flag setters; `UserFile`: `SetDownloadCount`, `SetFileName`, `SetOriginalName`, `SetUser`; `User`: `SetActivationCode`, `SetRegistrationDate`, `SetIsConfirmed`, `SetPassword2`) and saves it back. Each method's `ensures` ties its outcome and new state to the specification function. The lemmas state the properties of the specification functions.
- `AccessController`: the decision of `showUserFiles`, as a function from the visitor, the owner and the access record to the page's attributes.
- `Scenario`: the sharing workflow end to end.

Parameters stand in for the environment:
- the clock `now` (milliseconds);
- the random UUID and activation codes;
- the failure of a disk transfer, read or delete.

Mail is an outbox sequence that only grows. Repositories are maps:
- accesses keyed by `AccessId`;
- file rows and user rows keyed by the generated id;
- the set of user ids for `findById`.

## Model

| member | source | states |
|---|---|---|
| Model.Wrap | src/main/java/ru/bellintegrator/filesharing/service/FileServiceImpl.java:104 | Java `int` arithmetic: the result is a 32-bit int congruent to the input modulo 2^32 and equal to it when it already fits |
| Model.AccessId.HashCode | src/main/java/ru/bellintegrator/filesharing/model/AccessId.java:59-62 | `Objects.hash(userId, subscriberId)` is a 32-bit int |
| Model.AccessIdIsOrderedPair | src/main/java/ru/bellintegrator/filesharing/model/AccessId.java:50-62 | the key is an ordered pair: (1,2) and (2,1) differ, and their hashes differ (994 and 1024) |
| Model.Access.constructor | src/main/java/ru/bellintegrator/filesharing/model/Access.java:53-81 | a new Access has id (user, subscriber), no version and all four flags false |
| Model.Access.Stored | src/main/java/ru/bellintegrator/filesharing/model/Access.java:74-75 | a record materialised from its row carries exactly the row's key, version and four flags |
| Model.Access.SetReadAccess | src/main/java/ru/bellintegrator/filesharing/model/Access.java:111-113 | changes the read-access flag only |
| Model.Access.SetReadRequest | src/main/java/ru/bellintegrator/filesharing/model/Access.java:119-121 | changes the read-request flag only |
| Model.Access.SetDownloadAccess | src/main/java/ru/bellintegrator/filesharing/model/Access.java:127-129 | changes the download-access flag only |
| Model.Access.SetDownloadRequest | src/main/java/ru/bellintegrator/filesharing/model/Access.java:135-137 | changes the download-request flag only |
| Model.Access.HashCode | src/main/java/ru/bellintegrator/filesharing/model/Access.java:151-154 | `Objects.hash` of the id and the four flags is a 32-bit int |
| Model.Access.Equals | src/main/java/ru/bellintegrator/filesharing/model/Access.java:140-149 | equality compares id and the four flags only, ignoring version and the user objects; equal records hash equally, and every record equals itself |
| Model.UserFile.Empty | src/main/java/ru/bellintegrator/filesharing/model/UserFile.java:53-54 | a blank file: no id, no version, no owner, empty names and count 0 |
| Model.UserFile.constructor | src/main/java/ru/bellintegrator/filesharing/model/UserFile.java:56-61 | stores id, fileName, originalName and downloadCount as given |
| Model.UserFile.SetDownloadCount | src/main/java/ru/bellintegrator/filesharing/model/UserFile.java:91-93 | changes only the count, so the file stays equal to itself and keeps its hash |
| Model.UserFile.SetFileName | src/main/java/ru/bellintegrator/filesharing/model/UserFile.java:83-85 | sets the stored name |
| Model.UserFile.SetOriginalName | src/main/java/ru/bellintegrator/filesharing/model/UserFile.java:99-101 | sets the original name |
| Model.UserFile.SetUser | src/main/java/ru/bellintegrator/filesharing/service/FileServiceImpl.java:81 | sets the owner and leaves the equality key alone |
| Model.UserFile.HashCode | src/main/java/ru/bellintegrator/filesharing/model/UserFile.java:113-116 | `Objects.hash(id, fileName, originalName)` is a 32-bit int |
| Model.UserFile.Equals | src/main/java/ru/bellintegrator/filesharing/model/UserFile.java:104-111 | equality compares id, fileName and originalName only; equal files hash equally, and every file equals itself |
| Model.User.Default | src/main/java/ru/bellintegrator/filesharing/model/User.java:101 | a new User is unconfirmed, hence not enabled, with no code, date, password2 or file set |
| Model.User.constructor | src/main/java/ru/bellintegrator/filesharing/model/User.java:132-139 | stores id, username, password, email, code and confirmation as given |
| Model.User.SetPassword2 | src/main/java/ru/bellintegrator/filesharing/model/User.java:179-181 | sets password2 and no other field |
| Model.User.SetActivationCode | src/main/java/ru/bellintegrator/filesharing/model/User.java:195-197 | sets the activation code and no other field |
| Model.User.SetRegistrationDate | src/main/java/ru/bellintegrator/filesharing/model/User.java:203-205 | sets the registration date and no other field |
| Model.User.SetIsConfirmed | src/main/java/ru/bellintegrator/filesharing/model/User.java:211-213 | sets the confirmation flag and no other field |
| Model.User.GetFiles | src/main/java/ru/bellintegrator/filesharing/model/User.java:215-220 | never null: installs an empty set the first time, and otherwise returns the set unchanged |
| Model.User.AddFiles | src/main/java/ru/bellintegrator/filesharing/model/User.java:226-229 | afterwards the set contains the file (an equal file already there is kept) and the file's owner is this user |
| Model.User.RemoveFile | src/main/java/ru/bellintegrator/filesharing/model/User.java:231-234 | afterwards the set no longer contains the file and the file has no owner |
| Model.User.IsAccountNonExpired | src/main/java/ru/bellintegrator/filesharing/model/User.java:252-255 | always true |
| Model.User.IsAccountNonLocked | src/main/java/ru/bellintegrator/filesharing/model/User.java:257-260 | always true |
| Model.User.IsCredentialsNonExpired | src/main/java/ru/bellintegrator/filesharing/model/User.java:262-265 | always true |
| Model.User.IsEnabled | src/main/java/ru/bellintegrator/filesharing/model/User.java:268-270 | an account is enabled for login exactly when its e-mail is confirmed |
| Model.User.HashCode | src/main/java/ru/bellintegrator/filesharing/model/User.java:289-292 | `Objects.hash(id, username, password, email, isConfirmed)` is a 32-bit int |
| Model.User.Equals | src/main/java/ru/bellintegrator/filesharing/model/User.java:278-287 | equality uses id, username, password, email and isConfirmed; equal users hash equally whatever their code, date or files, and every user equals itself |
| IdParsing.Decimal | src/main/java/ru/bellintegrator/filesharing/service/AccessServiceImpl.java:164-169 | the decimal spelling of a number is a non-empty digit string without a leading zero |
| IdParsing.Transform | src/main/java/ru/bellintegrator/filesharing/service/AccessServiceImpl.java:164-169 | succeeds iff the id is present, all ASCII digits and at most 2^31-1, with the digits' value; null or non-digits give NotFound with the caller's message; larger values give NumberFormat |
| IdParsing.ValueOfDecimal | src/main/java/ru/bellintegrator/filesharing/service/AccessServiceImpl.java:168 | parsing inverts printing: the value of the decimal spelling of n is n |
| IdParsing.TransformDecimal | src/main/java/ru/bellintegrator/filesharing/service/AccessServiceImpl.java:164-169 | every int id in range, spelled in decimal, is accepted as itself |
| IdParsing.ValueOfLeadingZero | src/main/java/ru/bellintegrator/filesharing/service/AccessServiceImpl.java:168 | a leading zero does not change the value |
| IdParsing.TransformLeadingZero | src/main/java/ru/bellintegrator/filesharing/service/AccessServiceImpl.java:165 | "0"+s is accepted exactly when s is, as the same id |
| IdParsing.TransformRefusesNonDigits | src/main/java/ru/bellintegrator/filesharing/service/FileServiceImpl.java:156-161 | null, empty, signed and mixed ids are refused with NotFound |
| IdParsing.TransformOverflow | src/main/java/ru/bellintegrator/filesharing/service/FileServiceImpl.java:160 | the digit string of 2^31 passes the pattern but fails with NumberFormat |
| AccessService.CheckUser | src/main/java/ru/bellintegrator/filesharing/service/AccessServiceImpl.java:152-156 | fails NotFound exactly for a missing user |
| AccessService.FindUserById | src/main/java/ru/bellintegrator/filesharing/service/AccessServiceImpl.java:138-145 | succeeds iff the id parses and names a stored user; a parse error is passed on; a parsed but unknown id is NotFound |
| AccessService.FindUserByDecimalId | src/main/java/ru/bellintegrator/filesharing/service/AccessServiceImpl.java:138-145 | the decimal id of a stored user finds that user; of any other, NotFound |
| AccessService.FindAccess | src/main/java/ru/bellintegrator/filesharing/service/AccessServiceImpl.java:127-131 | a missing subscriber or owner fails; otherwise the pair's record, or none (not an error) |
| AccessService.GetRequestingAccesses | src/main/java/ru/bellintegrator/filesharing/service/AccessServiceImpl.java:80-88 | fails NotFound iff there is no current user; otherwise exactly the listed records with a pending request |
| AccessService.PendingOnly | src/main/java/ru/bellintegrator/filesharing/service/AccessServiceImpl.java:84-87 | the filter never lengthens the list and every record it keeps has a pending request |
| AccessService.PendingOnlyMembers | src/main/java/ru/bellintegrator/filesharing/service/AccessServiceImpl.java:84-87 | the filter keeps a record iff it is listed and pending |
| AccessService.PendingOnlyKeepsOrder | src/main/java/ru/bellintegrator/filesharing/service/AccessServiceImpl.java:84-87 | the filter keeps the repository's order: filtering a concatenation is concatenating the filtered parts |
| AccessService.RequestingAccessesOfTable | src/main/java/ru/bellintegrator/filesharing/service/AccessServiceImpl.java:80-88 | on a faithful listing of the owner's records, the result is exactly the owner's pending records of the table |
| AccessService.RequestRead | src/main/java/ru/bellintegrator/filesharing/service/AccessServiceImpl.java:37-53 | a failure leaves the table unchanged and no call drops a record; a success needs a subscriber and a stored owner, and leaves that pair's record, the only one it may add, with read access and read request set |
| AccessService.RequestDownload | src/main/java/ru/bellintegrator/filesharing/service/AccessServiceImpl.java:60-73 | the same for download access and download request |
| AccessService.GrantRead | src/main/java/ru/bellintegrator/filesharing/service/AccessServiceImpl.java:95-104 | a failure leaves the table unchanged and no call adds or drops a record; a success needs a current user and a stored subscriber whose pair already has a record, and clears that record's read request, its other flags as before |
| AccessService.GrantDownload | src/main/java/ru/bellintegrator/filesharing/service/AccessServiceImpl.java:111-120 | the same for the download request |
| AccessService.FailuresChangeNothing | src/main/java/ru/bellintegrator/filesharing/service/AccessServiceImpl.java:37-120 | any failed request or allow leaves the access table unchanged |
| AccessService.RequestReadLookupFailures | src/main/java/ru/bellintegrator/filesharing/service/AccessServiceImpl.java:37-39 | a read request fails with a lookup error iff the subscriber is missing (checked first) or the owner id does not resolve |
| AccessService.RequestReadEffect | src/main/java/ru/bellintegrator/filesharing/service/AccessServiceImpl.java:40-52 | refused AlreadyExist iff download or read is granted, download first; otherwise read becomes requested, download flags and all other records stay, and a missing record starts all-false |
| AccessService.RequestDownloadEffect | src/main/java/ru/bellintegrator/filesharing/service/AccessServiceImpl.java:60-73 | refused AlreadyExist iff download is granted; otherwise download becomes requested and the read flags and other records stay |
| AccessService.RequestReadIdempotent | src/main/java/ru/bellintegrator/filesharing/service/AccessServiceImpl.java:47-52 | repeating a successful read request succeeds and changes nothing |
| AccessService.RequestDownloadIdempotent | src/main/java/ru/bellintegrator/filesharing/service/AccessServiceImpl.java:67-72 | repeating a successful download request succeeds and changes nothing |
| AccessService.GrantReadEffect | src/main/java/ru/bellintegrator/filesharing/service/AccessServiceImpl.java:95-104 | fails NotFound iff there is no record; otherwise only the read request is cleared (read becomes granted iff read access was set) and a second call changes nothing |
| AccessService.GrantDownloadEffect | src/main/java/ru/bellintegrator/filesharing/service/AccessServiceImpl.java:111-120 | the same for the download request |
| AccessService.GrantingClearsRequest | src/main/java/ru/bellintegrator/filesharing/service/AccessServiceImpl.java:86 | after both allows the record is no longer pending, so it leaves the requesting list |
| AccessService.ApplyPreserves | src/main/java/ru/bellintegrator/filesharing/service/AccessServiceImpl.java:50-118 | each call keeps "request implies access" for every record and never drops a record or lowers an access flag |
| AccessService.RunPreserves | src/main/java/ru/bellintegrator/filesharing/service/AccessServiceImpl.java:37-120 | the same for any sequence of calls |
| AccessService.Reachable | src/main/java/ru/bellintegrator/filesharing/service/AccessServiceImpl.java:40-43 | from an empty table, no record ever has a request flag without its access flag |
| AccessService.AccessServiceImpl.constructor | src/main/java/ru/bellintegrator/filesharing/service/AccessServiceImpl.java:27-30 | the service starts on the given repositories |
| AccessService.AccessServiceImpl.Load | src/main/java/ru/bellintegrator/filesharing/service/AccessServiceImpl.java:40-43 | the pair's stored record, or a new all-false Access |
| AccessService.AccessServiceImpl.SaveRequestToRead | src/main/java/ru/bellintegrator/filesharing/service/AccessServiceImpl.java:37-53 | outcome and new table are those of RequestRead on the old table |
| AccessService.AccessServiceImpl.SaveRequestToDownload | src/main/java/ru/bellintegrator/filesharing/service/AccessServiceImpl.java:60-73 | outcome and new table are those of RequestDownload |
| AccessService.AccessServiceImpl.AllowRead | src/main/java/ru/bellintegrator/filesharing/service/AccessServiceImpl.java:95-104 | outcome and new table are those of GrantRead |
| AccessService.AccessServiceImpl.AllowDownload | src/main/java/ru/bellintegrator/filesharing/service/AccessServiceImpl.java:111-120 | outcome and new table are those of GrantDownload |
| FileService.CreateUniqueFileName | src/main/java/ru/bellintegrator/filesharing/service/FileServiceImpl.java:146-149 | the name is the UUID, then '.', then the original name, which can be read back from it |
| FileService.UniqueNamesFromUniqueIds | src/main/java/ru/bellintegrator/filesharing/service/FileServiceImpl.java:146-149 | distinct UUIDs of the same length give distinct stored names |
| FileService.StoredNameEndsWithOriginal | src/main/java/ru/bellintegrator/filesharing/service/FileServiceImpl.java:146-149 | the stored name ends with "." plus the original name |
| FileService.IsFileOwner | src/main/java/ru/bellintegrator/filesharing/service/FileServiceImpl.java:170-172 | a user owns a file exactly when the two user ids are equal |
| FileService.MayDownload | src/main/java/ru/bellintegrator/filesharing/service/FileServiceImpl.java:95-97 | the owner always passes the gate; a non-owner passes only with a record from the owner whose download access is set and download request clear |
| FileService.ReadOnlyOrPendingIsDenied | src/main/java/ru/bellintegrator/filesharing/service/FileServiceImpl.java:95-97 | a non-owner without a record, without download access, or with a pending download request may not download |
| FileService.UploadNeedsAName | src/main/java/ru/bellintegrator/filesharing/service/FileServiceImpl.java:61-63 | no file or no name fails NotFound "Select file!" with no change at all |
| FileService.Upload | src/main/java/ru/bellintegrator/filesharing/service/FileServiceImpl.java:60-84 | a failure changes neither rows, nor disk, nor the id generator; a success creates the directory and adds exactly one row, under the next id, owned by the uploader |
| FileService.Download | src/main/java/ru/bellintegrator/filesharing/service/FileServiceImpl.java:91-116 | a failure changes nothing; no call touches the disk, the directory, the id generator or the set of rows; a success means the read did not fail and returns a file that is on disk |
| FileService.Delete | src/main/java/ru/bellintegrator/filesharing/service/FileServiceImpl.java:123-138 | a failure changes nothing; no call adds a row or a disk file; a success means the disk delete did not fail and removes a row |
| FileService.UploadEffect | src/main/java/ru/bellintegrator/filesharing/service/FileServiceImpl.java:64-83 | the directory exists afterwards; the call fails iff the transfer fails (no row, no bytes); on success exactly one new row (uuid.name, name, count 0, the uploader) and the bytes under that name |
| FileService.BadIdsTouchNothing | src/main/java/ru/bellintegrator/filesharing/service/FileServiceImpl.java:156-161 | an id the parser refuses fails download and delete with the parser's error and no change |
| FileService.UnknownIdNamesTheId | src/main/java/ru/bellintegrator/filesharing/service/FileServiceImpl.java:113-115 | an unknown id fails download and delete with "There is no file with id N" and no change |
| FileService.DownloadEffect | src/main/java/ru/bellintegrator/filesharing/service/FileServiceImpl.java:95-108 | AccessDenied iff the gate is closed; with the gate open, NotFound "Could not read file: " plus the stored name iff the file is missing or unreadable; success iff the gate is open and the file is on disk and readable; a failure changes nothing; a success returns the stored bytes and raises only that file's count by one (32-bit) |
| FileService.DeleteEffect | src/main/java/ru/bellintegrator/filesharing/service/FileServiceImpl.java:123-138 | AccessDenied iff not the owner; for the owner whose disk file is missing or will not delete, NotFound "The file was not deleted!"; success iff owner, file on disk and the delete succeeds; then the row and the disk file are both gone, otherwise both are kept |
| FileService.AnySpellingActsAlike | src/main/java/ru/bellintegrator/filesharing/service/FileServiceImpl.java:156-161 | every spelling of an id the parser accepts, leading zeros included, names an int id, and download and delete act on it exactly as on its decimal spelling, so DownloadEffect and DeleteEffect hold for it |
| FileService.OperationsKeepStoreValid | src/main/java/ru/bellintegrator/filesharing/service/FileServiceImpl.java:60-138 | upload, download and delete keep every row id below the id generator |
| FileService.UploadThenDownload | src/main/java/ru/bellintegrator/filesharing/service/FileServiceImpl.java:60-116 | the uploader downloads exactly the uploaded bytes under the new id, and the count becomes 1 |
| FileService.UploadThenDeleteRestores | src/main/java/ru/bellintegrator/filesharing/service/FileServiceImpl.java:60-138 | deleting a fresh upload restores the rows and the disk |
| FileService.FileServiceImpl.constructor | src/main/java/ru/bellintegrator/filesharing/service/FileServiceImpl.java:40-44 | an empty store, with the id generator at 0, that reads the access table of the given access service |
| FileService.FileServiceImpl.SaveNew | src/main/java/ru/bellintegrator/filesharing/service/FileServiceImpl.java:78-83 | the new UserFile becomes the row with the next id |
| FileService.FileServiceImpl.FindAllFiles | src/main/java/ru/bellintegrator/filesharing/service/FileServiceImpl.java:51-53 | all rows, unfiltered, with no change |
| FileService.FileServiceImpl.UploadFile | src/main/java/ru/bellintegrator/filesharing/service/FileServiceImpl.java:60-84 | outcome and new store are those of Upload |
| FileService.FileServiceImpl.DownloadFile | src/main/java/ru/bellintegrator/filesharing/service/FileServiceImpl.java:91-116 | result and new store are those of Download on the access service's current table, so a grant made through the access service takes effect at once |
| FileService.FileServiceImpl.DeleteFile | src/main/java/ru/bellintegrator/filesharing/service/FileServiceImpl.java:123-138 | outcome and new store are those of Delete |
| AccessController.Decide | src/main/java/ru/bellintegrator/filesharing/controller/AccessController.java:123-145 | owner branch iff owner; download branch iff download granted; read branch iff read but not download granted; the read branch's fall-through is never taken |
| AccessController.OwnedFiles | src/main/java/ru/bellintegrator/filesharing/controller/AccessController.java:125 | exactly the rows the owner owns |
| AccessController.ShowUserFiles | src/main/java/ru/bellintegrator/filesharing/controller/AccessController.java:116-146 | fails exactly when the owner lookup fails; otherwise shows that owner, marks isFileOwner iff the visitor is the owner, and any list it shows is exactly the owner's files |
| AccessController.ShowUserFilesErrors | src/main/java/ru/bellintegrator/filesharing/controller/AccessController.java:121 | the page fails exactly as the owner lookup does, and otherwise shows that owner |
| AccessController.ShowUserFilesVisibility | src/main/java/ru/bellintegrator/filesharing/controller/AccessController.java:116-146 | isFileOwner iff same id; files shown iff owner or a capability granted, otherwise empty with "No files available for you"; read-only iff read granted without download |
| AccessController.ViewAgreesWithDownloadGate | src/main/java/ru/bellintegrator/filesharing/controller/AccessController.java:130-138 | a list not marked read-only belongs to someone the file service lets download; a read-only one to someone it refuses |
| AccessController.ReadOnlyFilesAreNotDownloadable | src/main/java/ru/bellintegrator/filesharing/controller/AccessController.java:134-138 | every file on a read-only page is refused by downloadFile with AccessDenied |
| UserService.FindByUsername | src/main/java/ru/bellintegrator/filesharing/service/UserServiceImpl.java:59 | finds a row with the name iff one exists |
| UserService.FindByActivationCode | src/main/java/ru/bellintegrator/filesharing/service/UserServiceImpl.java:79 | finds a row with the code iff one exists |
| UserService.CodeFindsItsHolder | src/main/java/ru/bellintegrator/filesharing/service/UserServiceImpl.java:79-83 | in a valid repository the code finds the one user holding it |
| UserService.NameFindsItsHolder | src/main/java/ru/bellintegrator/filesharing/service/UserServiceImpl.java:40-42 | in a valid repository a username finds the one user with it |
| UserService.CheckRegDate | src/main/java/ru/bellintegrator/filesharing/service/UserServiceImpl.java:131-133 | a link is stale only after its registration time, and never within 24 hours of it |
| UserService.PutKeepsLookupsUnique | src/main/java/ru/bellintegrator/filesharing/service/UserServiceImpl.java:102-106 | saving a row whose name and code clash with no other keeps names and codes unique and codes dated |
| UserService.ExpiryIsStrict | src/main/java/ru/bellintegrator/filesharing/service/UserServiceImpl.java:131-133 | expired iff more than 86 400 000 ms have passed: valid at exactly 24 h, expired 1 ms later |
| UserService.MailCarriesTheLink | src/main/java/ru/bellintegrator/filesharing/service/UserServiceImpl.java:113-121 | the mail goes to the user's address with subject "Activation code" and ends with the activation link carrying the code |
| UserService.Register | src/main/java/ru/bellintegrator/filesharing/service/UserServiceImpl.java:58-67 | fails exactly when the name is taken, changing nothing; on success one new row under the next id and exactly one mail appended, the activation mail for that row and code |
| UserService.Activate | src/main/java/ru/bellintegrator/filesharing/service/UserServiceImpl.java:74-95 | never adds or removes a user or moves the id generator; success needs a code some user holds and mails nothing; every failure is NotFound "Activation code has not found!" or the expired-link ServiceFailure |
| UserService.RegisterEffect | src/main/java/ru/bellintegrator/filesharing/service/UserServiceImpl.java:58-67 | fails "User exists!" iff the name is taken, with no save and no mail; otherwise one new row with code and date (confirmation untouched), one mail, and the name finds it |
| UserService.RegisterKeepsValid | src/main/java/ru/bellintegrator/filesharing/service/UserServiceImpl.java:58-67 | with a fresh code, registration keeps names and codes unique and codes dated |
| UserService.ActivateUnknownCode | src/main/java/ru/bellintegrator/filesharing/service/UserServiceImpl.java:75-83 | a null or unknown code fails NotFound with no change |
| UserService.ActivateHolder | src/main/java/ru/bellintegrator/filesharing/service/UserServiceImpl.java:79-94 | in a valid repository, a code some row holds leads to that row, which has a date, and activation acts on that row alone |
| UserService.ActivateEffect | src/main/java/ru/bellintegrator/filesharing/service/UserServiceImpl.java:85-94 | fails iff the link expired, and then replaces the code, resets the date, mails the new link and leaves confirmation as it was; otherwise clears the code and confirms, mailing nothing; other users unchanged |
| UserService.ActivatePreservesValid | src/main/java/ru/bellintegrator/filesharing/service/UserServiceImpl.java:74-95 | with a fresh replacement code, activation keeps names and codes unique and codes dated |
| UserService.CodeIsSpent | src/main/java/ru/bellintegrator/filesharing/service/UserServiceImpl.java:91-94 | after a successful activation the same code no longer resolves |
| UserService.RegisterThenActivate | src/main/java/ru/bellintegrator/filesharing/service/UserServiceImpl.java:58-95 | registering and then activating within a day confirms the new account: its row is the registered user, confirmed, with no code and its registration date |
| UserService.ResentLinkActivates | src/main/java/ru/bellintegrator/filesharing/service/UserServiceImpl.java:85-89 | in the model, which keeps the expired path's writes, the newly mailed code activates within the next day after an expired link |
| UserService.ActivateAsCommitted | src/main/java/ru/bellintegrator/filesharing/service/UserServiceImpl.java:72-89 | activateUser as its transaction commits: the same outcome, but a failure keeps every user row (the expired path's save is rolled back) while its mail stays sent |
| UserService.ExpiredLinkIsLost | src/main/java/ru/bellintegrator/filesharing/service/UserServiceImpl.java:72-89 | as committed, the mail sent for an expired link carries a rolled-back code that is unknown at any later time, and the old link stays expired |
| UserService.UserServiceImpl.constructor | src/main/java/ru/bellintegrator/filesharing/service/UserServiceImpl.java:27-30 | an empty, valid user repository and outbox |
| UserService.UserServiceImpl.Save | src/main/java/ru/bellintegrator/filesharing/service/UserServiceImpl.java:94 | writes the user's fields as its row |
| UserService.UserServiceImpl.SetActivationCodeAndRegDate | src/main/java/ru/bellintegrator/filesharing/service/UserServiceImpl.java:102-106 | sets the code and the date on the user and saves it |
| UserService.UserServiceImpl.SendActivationCode | src/main/java/ru/bellintegrator/filesharing/service/UserServiceImpl.java:113-121 | appends exactly the activation mail for the user's code |
| UserService.UserServiceImpl.AddUser | src/main/java/ru/bellintegrator/filesharing/service/UserServiceImpl.java:58-67 | outcome and new state are those of Register; a refused user object is untouched |
| UserService.UserServiceImpl.ActivateUser | src/main/java/ru/bellintegrator/filesharing/service/UserServiceImpl.java:74-95 | outcome and new state are those of Activate, and the repository stays valid; on success the loaded User is enabled, its row is stored, and its transient password2 holds the password |
| UserService.UserServiceImpl.ActivateFound | src/main/java/ru/bellintegrator/filesharing/service/UserServiceImpl.java:85-94 | on the user the code led to, through its setters: renews code and date, saves and mails on an expired link; otherwise clears the code, confirms, copies the password into password2 and saves |
| Scenario.IdsParse | src/main/java/ru/bellintegrator/filesharing/service/AccessServiceImpl.java:138-145 | "1" and "2" resolve to Maria and John |
| Scenario.StoredName | src/main/java/ru/bellintegrator/filesharing/service/FileServiceImpl.java:148 | test.txt is stored as uuid.test.txt |
| Scenario.MariaUploads | src/main/java/ru/bellintegrator/filesharing/service/FileServiceImpl.java:60-84 | Maria's upload becomes file 1, owned by her, counted 0 |
| Scenario.JohnAsksAndIsRefused | src/main/java/ru/bellintegrator/filesharing/service/AccessServiceImpl.java:60-73 | John's request leaves download pending; it is listed for Maria, his download is denied and the page shows nothing |
| Scenario.JohnIsGrantedAndDownloads | src/main/java/ru/bellintegrator/filesharing/service/AccessServiceImpl.java:111-120 | after Maria allows it, John downloads the bytes, the count is 1 and the page lists the files for download |
| Scenario.GrantThroughServiceReachesDownload | src/main/java/ru/bellintegrator/filesharing/service/FileServiceImpl.java:91-107 | on the service objects, John's request and Maria's allow through the access service make John's download through the file service return the uploaded bytes |

## Left out

- HTTP routing, view rendering and the other controllers are not modelled. Of `AccessController`, only the decision in `showUserFiles` is modelled.
- JPA repositories are modelled as maps.
  - Entity references (`User` objects inside `Access` and `UserFile`) are represented by the users' ids.
  - Lazy `getOne` proxies are modelled by their outcome (the row, or the "no such entity" error).
  - `@Version` optimistic locking and concurrency are not modelled.
  - Transactions are modelled only for the expired-link path of `activateUser`; see "Findings". `UserService.Activate` keeps that path's writes as the method body makes them, and `UserService.ActivateAsCommitted` is the rolled-back variant.
- A null current user is not modelled in `FileService` and `AccessController`: they take the current user as an id. In Java, `uploadFile` would save an ownerless row and `isFileOwner` would throw `NullPointerException`. The web layer always supplies the authenticated user.
- The disk, `UUID.randomUUID`, `System.currentTimeMillis` and the mail sender are parameters or an outbox. Disk faults (a failed transfer, an unreadable file, a failed delete) are boolean parameters; a `MalformedURLException` from a stored name is not modelled, and it would give the same "Could not read file" error as an unreadable file.
- The `user` field of `UserFile` is modelled as an owner id. `UserFile.java` shows no such field, yet `FileServiceImpl` and `User` call `getUser`/`setUser`.
- Null strings: the `UserFile()` default constructor leaves `fileName`, `originalName` and `downloadCount` null. The model starts them as "" and 0, and `uploadFile` overwrites all three.
- `Model.User.Default`: `User()` leaves the id and the strings null. The model starts them as 0 and "", and a saved user is always given an id and its fields first.
- `password2` is `@Transient`, so `UserRow` does not hold it. Only the loaded `User` object of `UserService.UserServiceImpl.ActivateUser` carries the copied password.
- A `HashSet<UserFile>` is modelled as a map keyed by the fields `equals` compares.
- `String.hashCode` treats each character as one UTF-16 unit; characters outside the Basic Multilingual Plane are not split into surrogate pairs.
- `AccessId` setters are covered by datatype update; the services never call them.
- `AccessService.AccessServiceImpl.Load`: a loaded record gets no version, because the version column is not modelled.
- `UserService.Activate`: requires a valid repository.
  - In a valid repository codes are unique, because `findByActivationCode` would fail on a duplicate.
  - In a valid repository every stored code has a date, because a missing date would throw `NullPointerException` in `checkRegDate`.
  - `addUser` and `activateUser` keep this whenever the random code is fresh. Their methods ask for that freshness.
- `UserService.ActivateAsCommitted`: requires a valid repository, for the same reasons as `UserService.Activate`.
- `UserService.CheckRegDate`: the `long` subtraction is modelled on unbounded integers; overflow for dates near the ends of the `long` range is not modelled.
- `loadUserByUsername` and `findAll` of `UserServiceImpl` are repository lookups. They appear only as `FindByUsername`.
- Bean-validation annotations and logging aspects are evaluated outside the code and are not modelled.
- Id format: the code accepts any non-empty ASCII digit string, including "0" and leading zeros, and the model follows the code.

## Findings

| source | as written | input that shows it | evidently intended | confidence | as-written member | corrected member |
|---|---|---|---|---|---|---|
| src/main/java/ru/bellintegrator/filesharing/service/UserServiceImpl.java:72-89 | on an expired link, `activateUser` saves a new code and date and mails the new link, then throws `ServiceException`, a `RuntimeException`, out of the `@Transactional` method, so the save is rolled back while the mail is already sent | a user registered more than 24 hours ago follows the link: the mailed code was never stored, so following it fails "Activation code has not found!", and the old link stays expired and mails another dead link | the newly mailed link activates the account within the next 24 hours | medium, not executed; it relies on Spring's default rollback for unchecked exceptions | UserService.ExpiredLinkIsLost | UserService.ResentLinkActivates |
