/**
  The persistent entities: the composite key AccessId, the Access permission
  record, the uploaded UserFile and the User account, with the defaults,
  setters, equals and hashCode the services rely on.

  hashCode values are Java ints: every step of Objects.hash and String.hashCode
  wraps at 32 bits, which Wrap spells out.
 */
module Model {
  import opened Exceptions

  const TwoTo32: int := 0x1_0000_0000

  predicate IsInt(x: int) {
    -0x8000_0000 <= x < 0x8000_0000
  }

  /** Two's-complement truncation of a mathematical integer to a Java int. */
  function Wrap(x: int): (r: int)
    ensures IsInt(r)
    ensures (x - r) % TwoTo32 == 0
    ensures IsInt(x) ==> r == x
  {
    var m := x % TwoTo32;
    if m < 0x8000_0000 then m else m - TwoTo32
  }

  /** Objects.hash: Arrays.hashCode over the element hashes, starting from 1. */
  function HashAll(hs: seq<int>): (h: int)
    ensures IsInt(h)
  {
    if hs == [] then 1 else Wrap(31 * HashAll(hs[..|hs| - 1]) + hs[|hs| - 1])
  }

  /** Boolean.hashCode */
  function BoolHash(b: bool): int {
    if b then 1231 else 1237
  }

  /** Integer.hashCode, with 0 for null */
  function IntegerHash(x: Option<int>): (h: int)
    ensures IsInt(h)
  {
    if x.None? then 0 else Wrap(x.value)
  }

  /** String.hashCode over the characters of s (one UTF-16 unit per character). */
  function StringHash(s: string): (h: int)
    ensures IsInt(h)
  {
    if s == [] then 0 else Wrap(31 * StringHash(s[..|s| - 1]) + s[|s| - 1] as int)
  }

  // ---------------------------------------------------------------- AccessId

  /**
    Primary key of an access row: the owner of the files (userId) and the user
    asking for access (subscriberId). Equality is component-wise, so the key is an
    ordered pair.
   */
  datatype AccessId = AccessId(userId: int, subscriberId: int) {
    function HashCode(): (h: int)
      ensures IsInt(h)
    {
      HashAll([Wrap(userId), Wrap(subscriberId)])
    }
  }

  /** Equal keys hash equally, and the pair is ordered: (1, 2) and (2, 1) differ in both. */
  lemma AccessIdIsOrderedPair()
    ensures AccessId(1, 2) != AccessId(2, 1)
    ensures AccessId(1, 2).HashCode() == 994 && AccessId(2, 1).HashCode() == 1024
  {
    assert [1, 2][..1] == [1] && [1][..0] == [];
    assert [2, 1][..1] == [2] && [2][..0] == [];
    assert HashAll([1]) == 32 && HashAll([2]) == 33;
  }

  // ---------------------------------------------------------------- Access

  /** The four permission columns of an access row. */
  datatype AccessFlags = AccessFlags(readAccess: bool, readRequest: bool,
                                     downloadAccess: bool, downloadRequest: bool)
  {
    /** Read permission in force: granted and no longer waiting for the owner. */
    predicate ReadGranted() {
      readAccess && !readRequest
    }

    /** Download permission in force. */
    predicate DownloadGranted() {
      downloadAccess && !downloadRequest
    }

    /** Waiting for the owner on either capability. */
    predicate Pending() {
      readRequest || downloadRequest
    }

    /** A request flag is only ever raised together with its access flag. */
    predicate Consistent() {
      (readRequest ==> readAccess) && (downloadRequest ==> downloadAccess)
    }
  }

  /** The column defaults of a new Access. */
  const NoFlags: AccessFlags := AccessFlags(false, false, false, false)

  /**
    The permission record between a file owner and a subscriber. The owner and
    subscriber User references of the entity are represented by the ids in the key.
   */
  class Access {
    var id: AccessId
    var version: Option<int>
    var readAccess: bool
    var readRequest: bool
    var downloadAccess: bool
    var downloadRequest: bool

    function Flags(): AccessFlags
      reads this
    {
      AccessFlags(readAccess, readRequest, downloadAccess, downloadRequest)
    }

    /** new Access(user, subscriber): keyed by the two ids, every flag false. */
    constructor (userId: int, subscriberId: int)
      ensures id == AccessId(userId, subscriberId) && version == None
      ensures Flags() == NoFlags
    {
      id := AccessId(userId, subscriberId);
      version := None;
      readAccess, readRequest, downloadAccess, downloadRequest := false, false, false, false;
    }

    /** The entity the repository hands back for a stored row. */
    constructor Stored(id: AccessId, version: Option<int>, flags: AccessFlags)
      ensures this.id == id && this.version == version && Flags() == flags
    {
      this.id := id;
      this.version := version;
      readAccess, readRequest := flags.readAccess, flags.readRequest;
      downloadAccess, downloadRequest := flags.downloadAccess, flags.downloadRequest;
    }

    method SetReadAccess(b: bool)
      modifies this`readAccess
      ensures Flags() == old(Flags()).(readAccess := b)
    {
      readAccess := b;
    }

    method SetReadRequest(b: bool)
      modifies this`readRequest
      ensures Flags() == old(Flags()).(readRequest := b)
    {
      readRequest := b;
    }

    method SetDownloadAccess(b: bool)
      modifies this`downloadAccess
      ensures Flags() == old(Flags()).(downloadAccess := b)
    {
      downloadAccess := b;
    }

    method SetDownloadRequest(b: bool)
      modifies this`downloadRequest
      ensures Flags() == old(Flags()).(downloadRequest := b)
    {
      downloadRequest := b;
    }

    /**
      equals: the key and the four flags; version and the user objects are
      ignored. Equal accesses hash equally, and equality is reflexive.
     */
    predicate Equals(other: Access): (r: bool)
      reads this, other
      ensures r ==> HashCode() == other.HashCode()
      ensures this == other ==> r
    {
      id == other.id && Flags() == other.Flags()
    }

    function HashCode(): (h: int)
      reads this
      ensures IsInt(h)
    {
      HashAll([id.HashCode(), BoolHash(readAccess), BoolHash(readRequest),
               BoolHash(downloadAccess), BoolHash(downloadRequest)])
    }
  }

  // ---------------------------------------------------------------- UserFile

  /** The fields UserFile.equals compares, in order. */
  datatype FileKey = FileKey(id: Option<int>, fileName: string, originalName: string)

  /**
    An uploaded file: the generated storage name, the name the user gave it,
    the download counter and the owning user (by id; null after removal from
    the owner's set).
   */
  class UserFile {
    var id: Option<int>
    var version: Option<int>
    var fileName: string
    var originalName: string
    var downloadCount: int
    var ownerId: Option<int>

    function Key(): FileKey
      reads this
    {
      FileKey(id, fileName, originalName)
    }

    /** new UserFile(): no id, no owner; the strings and the counter are set before use. */
    constructor Empty()
      ensures id == None && version == None && ownerId == None
      ensures fileName == "" && originalName == "" && downloadCount == 0
    {
      id, version, ownerId := None, None, None;
      fileName, originalName, downloadCount := "", "", 0;
    }

    /** new UserFile(id, fileName, originalName, downloadCount) */
    constructor (id: Option<int>, fileName: string, originalName: string, downloadCount: int)
      ensures this.id == id && this.fileName == fileName && this.originalName == originalName
      ensures this.downloadCount == downloadCount
      ensures version == None && ownerId == None
    {
      this.id, this.fileName, this.originalName := id, fileName, originalName;
      this.downloadCount := downloadCount;
      version, ownerId := None, None;
    }

    /** Changes only the counter, so the file stays equal to, and hashes like, what it was. */
    method SetDownloadCount(n: int)
      modifies this`downloadCount
      ensures downloadCount == n
      ensures Key() == old(Key()) && HashCode() == old(HashCode())
    {
      downloadCount := n;
    }

    method SetFileName(name: string)
      modifies this`fileName
      ensures fileName == name
    {
      fileName := name;
    }

    method SetOriginalName(name: string)
      modifies this`originalName
      ensures originalName == name
    {
      originalName := name;
    }

    method SetUser(owner: Option<int>)
      modifies this`ownerId
      ensures ownerId == owner
      ensures Key() == old(Key())
    {
      ownerId := owner;
    }

    /**
      equals: id, fileName and originalName; the counter, version and owner are
      ignored. Equal files hash equally.
     */
    predicate Equals(other: UserFile): (r: bool)
      reads this, other
      ensures r ==> HashCode() == other.HashCode()
      ensures this == other ==> r
    {
      Key() == other.Key()
    }

    function HashCode(): (h: int)
      reads this
      ensures IsInt(h)
    {
      HashAll([IntegerHash(id), StringHash(fileName), StringHash(originalName)])
    }
  }

  // ---------------------------------------------------------------- User

  /**
    A HashSet<UserFile>: one element per equals-class of files, found by the
    fields equals compares. add keeps the element already present; remove drops
    the element equal to its argument.
   */
  type FileSet = map<FileKey, UserFile>

  /** A registered account, with its activation state and its set of files. */
  class User {
    var id: int
    var version: Option<int>
    var username: string
    var password: string
    var password2: Option<string>
    var email: string
    var activationCode: Option<string>
    var registrationDate: Option<int>  // milliseconds since the epoch
    var isConfirmed: bool
    var files: Option<FileSet>         // null until first asked for

    /** new User(): unconfirmed, with no code, no registration date and no file set yet. */
    constructor Default()
      ensures !isConfirmed && !IsEnabled()
      ensures activationCode == None && registrationDate == None && password2 == None
      ensures files == None && version == None
    {
      id, version := 0, None;
      username, password, password2, email := "", "", None, "";
      activationCode, registrationDate := None, None;
      isConfirmed, files := false, None;
    }

    /** new User(id, username, password, email, activationCode, isConfirmed) */
    constructor (id: int, username: string, password: string, email: string,
                 activationCode: Option<string>, isConfirmed: bool)
      ensures this.id == id && this.username == username && this.password == password
      ensures this.email == email && this.activationCode == activationCode
      ensures this.isConfirmed == isConfirmed
      ensures registrationDate == None && password2 == None && files == None && version == None
    {
      this.id, this.username, this.password, this.email := id, username, password, email;
      this.activationCode, this.isConfirmed := activationCode, isConfirmed;
      version, password2, registrationDate, files := None, None, None, None;
    }

    method SetPassword2(p: Option<string>)
      modifies this`password2
      ensures password2 == p
    {
      password2 := p;
    }

    method SetActivationCode(code: Option<string>)
      modifies this`activationCode
      ensures activationCode == code
    {
      activationCode := code;
    }

    method SetRegistrationDate(date: Option<int>)
      modifies this`registrationDate
      ensures registrationDate == date
    {
      registrationDate := date;
    }

    method SetIsConfirmed(confirmed: bool)
      modifies this`isConfirmed
      ensures isConfirmed == confirmed
    {
      isConfirmed := confirmed;
    }

    /** The set getFiles would return, before it is installed. */
    function CurrentFiles(): FileSet
      reads this
    {
      if files.Some? then files.value else map[]
    }

    /** Never null: installs an empty set the first time. */
    method GetFiles() returns (fs: FileSet)
      modifies this`files
      ensures files == Some(fs)
      ensures fs == old(CurrentFiles())
    {
      if files.None? {
        files := Some(map[]);
      }
      fs := files.value;
    }

    /** addFiles: the file joins the set (unless an equal one is there) and points back at this user. */
    method AddFiles(f: UserFile)
      modifies this`files, f`ownerId
      ensures f.Key() == old(f.Key())
      ensures files == Some(if f.Key() in old(CurrentFiles()) then old(CurrentFiles())
                            else old(CurrentFiles())[f.Key() := f])
      ensures Contains(f) && f.ownerId == Some(id)
    {
      var fs := GetFiles();
      if f.Key() !in fs {
        files := Some(fs[f.Key() := f]);
      }
      f.SetUser(Some(id));
    }

    /** removeFile: the file leaves the set and loses its owner. */
    method RemoveFile(f: UserFile)
      modifies this`files, f`ownerId
      ensures f.Key() == old(f.Key())
      ensures files == Some(old(CurrentFiles()) - {f.Key()})
      ensures !Contains(f) && f.ownerId == None
    {
      var fs := GetFiles();
      files := Some(fs - {f.Key()});
      f.SetUser(None);
    }

    /** getFiles().contains(f) */
    predicate Contains(f: UserFile)
      reads this, f
    {
      f.Key() in CurrentFiles()
    }

    /** An account is enabled for login exactly once its e-mail is confirmed. */
    predicate IsEnabled(): (r: bool)
      reads this
      ensures r <==> isConfirmed
    {
      isConfirmed
    }

    function IsAccountNonExpired(): (r: bool)
      ensures r
    {
      true
    }

    function IsAccountNonLocked(): (r: bool)
      ensures r
    {
      true
    }

    function IsCredentialsNonExpired(): (r: bool)
      ensures r
    {
      true
    }

    /** equals: id, username, password, email and isConfirmed; equal users hash equally. */
    predicate Equals(other: User): (r: bool)
      reads this, other
      ensures r ==> HashCode() == other.HashCode()
      ensures this == other ==> r
    {
      id == other.id && username == other.username && password == other.password &&
      email == other.email && isConfirmed == other.isConfirmed
    }

    function HashCode(): (h: int)
      reads this
      ensures IsInt(h)
    {
      HashAll([Wrap(id), StringHash(username), StringHash(password), StringHash(email),
               BoolHash(isConfirmed)])
    }
  }
}
