/**
  Access control between a file owner and a subscriber. The access repository
  is a table keyed by the ordered pair (owner id, subscriber id); the user
  repository is the set of stored user ids. A subscriber's request raises both
  the access flag and the request flag of a capability; the owner's "allow"
  clears the request flag. Nothing ever lowers an access flag.
 */
module AccessService {
  import opened Exceptions
  import opened Model
  import IdParsing

  type AccessTable = map<AccessId, AccessFlags>

  /** An access row as the repository lists it. */
  datatype AccessRecord = AccessRecord(id: AccessId, flags: AccessFlags)

  /** What a state-changing call reports, and the access table after it. */
  datatype Step = Step(outcome: Outcome, accesses: AccessTable)

  const NoUserMessage := "No user or subscriber"
  const BadIdMessage := "The user id must not be null or character!"
  const NoRequestMessage := "There is no requesting access"
  const HasAccessMessage := "You already have the permission to access!"
  const HasReadMessage := "You already have the permission to read!"
  const HasDownloadMessage := "You already have the permission to download!"

  // ------------------------------------------------------------ lookups

  /** checkUser: a missing user reference is NotFound. */
  function CheckUser(user: Option<int>): (o: Outcome)
    ensures o.Failed? <==> user.None?
    ensures o.Failed? ==> o.error == NotFound(NoUserMessage)
  {
    if user.None? then Failed(NotFound(NoUserMessage)) else Done
  }

  function TransformStringIdToInteger(userId: Option<string>): Result<int> {
    IdParsing.Transform(userId, BadIdMessage)
  }

  /** findUserById: a well-formed id of a stored user, or NotFound / NumberFormat. */
  function FindUserById(users: set<int>, userId: Option<string>): (r: Result<int>)
    ensures r.Ok? <==> TransformStringIdToInteger(userId).Ok? && TransformStringIdToInteger(userId).value in users
    ensures r.Ok? ==> r == TransformStringIdToInteger(userId)
    ensures TransformStringIdToInteger(userId).Ok? && r.Err? ==> r.error == NotFound(NoUserMessage)
    ensures TransformStringIdToInteger(userId).Err? ==> r == TransformStringIdToInteger(userId)
  {
    match TransformStringIdToInteger(userId)
    case Err(e) => Err(e)
    case Ok(id) => if id in users then Ok(id) else Err(NotFound(NoUserMessage))
  }

  /** The decimal spelling of every stored id finds that user, and of any other id finds nobody. */
  lemma FindUserByDecimalId(users: set<int>, n: nat)
    requires n <= IdParsing.IntMax
    ensures FindUserById(users, Some(IdParsing.Decimal(n))) ==
            if n in users then Ok(n) else Err(NotFound(NoUserMessage))
  {
    IdParsing.TransformDecimal(n, BadIdMessage);
  }

  /**
    findAccess: after the same checks as the requests, the stored row, or
    None (null) when the pair has none; absence is not an error.
   */
  function FindAccess(users: set<int>, accesses: AccessTable, userId: Option<string>,
                      subscriber: Option<int>): (r: Result<Option<AccessFlags>>)
    ensures subscriber.None? ==> r == Err(NotFound(NoUserMessage))
    ensures subscriber.Some? && FindUserById(users, userId).Err? ==> r == Err(FindUserById(users, userId).error)
    ensures r.Ok? <==> subscriber.Some? && FindUserById(users, userId).Ok?
    ensures r.Ok? ==> var id := AccessId(FindUserById(users, userId).value, subscriber.value);
                      r.value == if id in accesses then Some(accesses[id]) else None
  {
    if subscriber.None? then Err(NotFound(NoUserMessage))
    else match FindUserById(users, userId)
      case Err(e) => Err(e)
      case Ok(owner) =>
        var id := AccessId(owner, subscriber.value);
        Ok(if id in accesses then Some(accesses[id]) else None)
  }

  /** The row of the pair, or the all-false flags of the new Access the services create. */
  function LoadOrNew(accesses: AccessTable, id: AccessId): AccessFlags {
    if id in accesses then accesses[id] else NoFlags
  }

  // ------------------------------------------------------------ requests and grants

  /** saveRequestToRead(userId, subscriber) on the access table. */
  function RequestRead(users: set<int>, accesses: AccessTable, userId: Option<string>,
                       subscriber: Option<int>): (s: Step)
    ensures s.outcome.Failed? ==> s.accesses == accesses
    ensures accesses.Keys <= s.accesses.Keys
    ensures s.outcome.Done? ==>
              && subscriber.Some? && FindUserById(users, userId).Ok?
              && var id := AccessId(FindUserById(users, userId).value, subscriber.value);
                 && s.accesses.Keys == accesses.Keys + {id}
                 && s.accesses[id].readAccess && s.accesses[id].readRequest
  {
    if subscriber.None? then Step(CheckUser(subscriber), accesses)
    else match FindUserById(users, userId)
      case Err(e) => Step(Failed(e), accesses)
      case Ok(owner) =>
        var id := AccessId(owner, subscriber.value);
        var flags := LoadOrNew(accesses, id);
        if flags.DownloadGranted() then Step(Failed(AlreadyExist(HasAccessMessage)), accesses)
        else if flags.ReadGranted() then Step(Failed(AlreadyExist(HasReadMessage)), accesses)
        else Step(Done, accesses[id := flags.(readAccess := true, readRequest := true)])
  }

  /** saveRequestToDownload(userId, subscriber) on the access table. */
  function RequestDownload(users: set<int>, accesses: AccessTable, userId: Option<string>,
                           subscriber: Option<int>): (s: Step)
    ensures s.outcome.Failed? ==> s.accesses == accesses
    ensures accesses.Keys <= s.accesses.Keys
    ensures s.outcome.Done? ==>
              && subscriber.Some? && FindUserById(users, userId).Ok?
              && var id := AccessId(FindUserById(users, userId).value, subscriber.value);
                 && s.accesses.Keys == accesses.Keys + {id}
                 && s.accesses[id].downloadAccess && s.accesses[id].downloadRequest
  {
    if subscriber.None? then Step(CheckUser(subscriber), accesses)
    else match FindUserById(users, userId)
      case Err(e) => Step(Failed(e), accesses)
      case Ok(owner) =>
        var id := AccessId(owner, subscriber.value);
        var flags := LoadOrNew(accesses, id);
        if flags.DownloadGranted() then Step(Failed(AlreadyExist(HasDownloadMessage)), accesses)
        else Step(Done, accesses[id := flags.(downloadAccess := true, downloadRequest := true)])
  }

  /** allowRead(currentUser, subscriberId) on the access table. */
  function GrantRead(users: set<int>, accesses: AccessTable, currentUser: Option<int>,
                     subscriberId: Option<string>): (s: Step)
    ensures s.outcome.Failed? ==> s.accesses == accesses
    ensures s.accesses.Keys == accesses.Keys
    ensures s.outcome.Done? ==>
              && currentUser.Some? && FindUserById(users, subscriberId).Ok?
              && var id := AccessId(currentUser.value, FindUserById(users, subscriberId).value);
                 && id in accesses && !s.accesses[id].readRequest
                 && s.accesses[id] == accesses[id].(readRequest := false)
  {
    if currentUser.None? then Step(CheckUser(currentUser), accesses)
    else match FindUserById(users, subscriberId)
      case Err(e) => Step(Failed(e), accesses)
      case Ok(subscriber) =>
        var id := AccessId(currentUser.value, subscriber);
        if id !in accesses then Step(Failed(NotFound(NoRequestMessage)), accesses)
        else Step(Done, accesses[id := accesses[id].(readRequest := false)])
  }

  /** allowDownload(currentUser, subscriberId) on the access table. */
  function GrantDownload(users: set<int>, accesses: AccessTable, currentUser: Option<int>,
                         subscriberId: Option<string>): (s: Step)
    ensures s.outcome.Failed? ==> s.accesses == accesses
    ensures s.accesses.Keys == accesses.Keys
    ensures s.outcome.Done? ==>
              && currentUser.Some? && FindUserById(users, subscriberId).Ok?
              && var id := AccessId(currentUser.value, FindUserById(users, subscriberId).value);
                 && id in accesses && !s.accesses[id].downloadRequest
                 && s.accesses[id] == accesses[id].(downloadRequest := false)
  {
    if currentUser.None? then Step(CheckUser(currentUser), accesses)
    else match FindUserById(users, subscriberId)
      case Err(e) => Step(Failed(e), accesses)
      case Ok(subscriber) =>
        var id := AccessId(currentUser.value, subscriber);
        if id !in accesses then Step(Failed(NotFound(NoRequestMessage)), accesses)
        else Step(Done, accesses[id := accesses[id].(downloadRequest := false)])
  }

  // ------------------------------------------------------------ pending requests

  /** The stream filter of getRequestingAccesses. */
  function PendingOnly(rows: seq<AccessRecord>): (r: seq<AccessRecord>)
    ensures |r| <= |rows|
    ensures forall i | 0 <= i < |r| :: r[i].flags.Pending()
  {
    if rows == [] then []
    else (if rows[0].flags.Pending() then [rows[0]] else []) + PendingOnly(rows[1..])
  }

  /**
    getRequestingAccesses(currentUser): `owned` is what the repository's
    findByUser returned for the current user, in the repository's order.
   */
  function GetRequestingAccesses(currentUser: Option<int>, owned: seq<AccessRecord>): (r: Result<seq<AccessRecord>>)
    ensures r.Err? <==> currentUser.None?
    ensures r.Err? ==> r.error == NotFound("No user")
    ensures r.Ok? ==> forall x :: x in r.value <==> x in owned && x.flags.Pending()
  {
    PendingOnlyMembers(owned);
    if currentUser.None? then Err(NotFound("No user")) else Ok(PendingOnly(owned))
  }

  /** The filter keeps exactly the pending rows. */
  lemma {:induction false} PendingOnlyMembers(rows: seq<AccessRecord>)
    ensures forall x :: x in PendingOnly(rows) <==> x in rows && x.flags.Pending()
  {
    if rows != [] {
      PendingOnlyMembers(rows[1..]);
      assert forall x :: x in rows <==> x == rows[0] || x in rows[1..];
    }
  }

  /** The filter keeps the repository's order: filtering a concatenation filters each part. */
  lemma {:induction false} PendingOnlyKeepsOrder(a: seq<AccessRecord>, b: seq<AccessRecord>)
    ensures PendingOnly(a + b) == PendingOnly(a) + PendingOnly(b)
  {
    if a == [] {
      assert a + b == b;
    } else {
      assert (a + b)[1..] == a[1..] + b;
      PendingOnlyKeepsOrder(a[1..], b);
    }
  }

  /** `owned` is a faithful findByUser(owner) listing of the table: the owner's rows, each once. */
  ghost predicate ListsOwnerRows(accesses: AccessTable, owner: int, owned: seq<AccessRecord>) {
    && (forall i, j | 0 <= i < j < |owned| :: owned[i].id != owned[j].id)
    && (forall x | x in owned :: x.id in accesses && x.id.userId == owner && x.flags == accesses[x.id])
    && (forall id | id in accesses && id.userId == owner :: AccessRecord(id, accesses[id]) in owned)
  }

  /** On a faithful listing, the requesting accesses are exactly the owner's pending rows. */
  lemma RequestingAccessesOfTable(accesses: AccessTable, owner: int, owned: seq<AccessRecord>)
    requires ListsOwnerRows(accesses, owner, owned)
    ensures var r := GetRequestingAccesses(Some(owner), owned);
            && r.Ok?
            && (forall x | x in r.value :: x.id in accesses && x.id.userId == owner && x.flags == accesses[x.id] && x.flags.Pending())
            && (forall id | id in accesses && id.userId == owner && accesses[id].Pending() :: AccessRecord(id, accesses[id]) in r.value)
  {
  }

  // ------------------------------------------------------------ per-capability state

  /** A capability seen as a state: none, asked for, granted; RequestOnly never arises (see Reachable). */
  datatype Capability = NoAccess | Requested | Granted | RequestOnly

  function ReadCapability(f: AccessFlags): Capability {
    if !f.readAccess then (if f.readRequest then RequestOnly else NoAccess)
    else if f.readRequest then Requested else Granted
  }

  function DownloadCapability(f: AccessFlags): Capability {
    if !f.downloadAccess then (if f.downloadRequest then RequestOnly else NoAccess)
    else if f.downloadRequest then Requested else Granted
  }

  // ------------------------------------------------------------ properties of each operation

  /** Every failed call leaves the table as it was. */
  lemma FailuresChangeNothing(users: set<int>, accesses: AccessTable, s: Option<string>, u: Option<int>)
    ensures RequestRead(users, accesses, s, u).outcome.Failed? ==> RequestRead(users, accesses, s, u).accesses == accesses
    ensures RequestDownload(users, accesses, s, u).outcome.Failed? ==> RequestDownload(users, accesses, s, u).accesses == accesses
    ensures GrantRead(users, accesses, u, s).outcome.Failed? ==> GrantRead(users, accesses, u, s).accesses == accesses
    ensures GrantDownload(users, accesses, u, s).outcome.Failed? ==> GrantDownload(users, accesses, u, s).accesses == accesses
  {
  }

  /**
    A read request fails NotFound (or NumberFormat) exactly when the subscriber
    is missing or the owner id does not resolve; the subscriber is checked first.
   */
  lemma RequestReadLookupFailures(users: set<int>, accesses: AccessTable, userId: Option<string>, subscriber: Option<int>)
    ensures var s := RequestRead(users, accesses, userId, subscriber);
            && (subscriber.None? ==> s.outcome == Failed(NotFound(NoUserMessage)))
            && (subscriber.Some? && FindUserById(users, userId).Err? ==> s.outcome == Failed(FindUserById(users, userId).error))
            && (s.outcome.Failed? && !s.outcome.error.AlreadyExist? <==> subscriber.None? || FindUserById(users, userId).Err?)
  {
  }

  /**
    Once both users resolve, a read request is refused exactly when download or
    read is already in force (download checked first); otherwise read becomes
    requested, the download flags stay, and no other row changes.
   */
  lemma RequestReadEffect(users: set<int>, accesses: AccessTable, userId: Option<string>, subscriber: Option<int>)
    requires subscriber.Some? && FindUserById(users, userId).Ok?
    ensures var id := AccessId(FindUserById(users, userId).value, subscriber.value);
            var before := LoadOrNew(accesses, id);
            var s := RequestRead(users, accesses, userId, subscriber);
            && (before.DownloadGranted() ==> s.outcome == Failed(AlreadyExist(HasAccessMessage)))
            && (!before.DownloadGranted() && before.ReadGranted() ==> s.outcome == Failed(AlreadyExist(HasReadMessage)))
            && (s.outcome.Done? <==> !before.DownloadGranted() && !before.ReadGranted())
            && (s.outcome.Done? ==>
                  && id in s.accesses
                  && s.accesses[id].readAccess && s.accesses[id].readRequest
                  && s.accesses[id].downloadAccess == before.downloadAccess
                  && s.accesses[id].downloadRequest == before.downloadRequest
                  && ReadCapability(s.accesses[id]) == Requested
                  && s.accesses.Keys == accesses.Keys + {id}
                  && (forall k | k in accesses && k != id :: s.accesses[k] == accesses[k]))
  {
  }

  /** A download request looks only at the download flags and never touches the read flags. */
  lemma RequestDownloadEffect(users: set<int>, accesses: AccessTable, userId: Option<string>, subscriber: Option<int>)
    requires subscriber.Some? && FindUserById(users, userId).Ok?
    ensures var id := AccessId(FindUserById(users, userId).value, subscriber.value);
            var before := LoadOrNew(accesses, id);
            var s := RequestDownload(users, accesses, userId, subscriber);
            && (s.outcome.Failed? <==> before.DownloadGranted())
            && (s.outcome.Failed? ==> s.outcome.error == AlreadyExist(HasDownloadMessage))
            && (s.outcome.Done? ==>
                  && id in s.accesses
                  && s.accesses[id].downloadAccess && s.accesses[id].downloadRequest
                  && s.accesses[id].readAccess == before.readAccess
                  && s.accesses[id].readRequest == before.readRequest
                  && DownloadCapability(s.accesses[id]) == Requested
                  && s.accesses.Keys == accesses.Keys + {id}
                  && (forall k | k in accesses && k != id :: s.accesses[k] == accesses[k]))
  {
  }

  /** Asking again while a read request is pending succeeds and changes nothing more. */
  lemma RequestReadIdempotent(users: set<int>, accesses: AccessTable, userId: Option<string>, subscriber: Option<int>)
    requires RequestRead(users, accesses, userId, subscriber).outcome.Done?
    ensures var once := RequestRead(users, accesses, userId, subscriber).accesses;
            RequestRead(users, once, userId, subscriber) == Step(Done, once)
  {
    var once := RequestRead(users, accesses, userId, subscriber).accesses;
    var id := AccessId(FindUserById(users, userId).value, subscriber.value);
    assert once == once[id := once[id]];
  }

  /** Asking again while a download request is pending succeeds and changes nothing more. */
  lemma RequestDownloadIdempotent(users: set<int>, accesses: AccessTable, userId: Option<string>, subscriber: Option<int>)
    requires RequestDownload(users, accesses, userId, subscriber).outcome.Done?
    ensures var once := RequestDownload(users, accesses, userId, subscriber).accesses;
            RequestDownload(users, once, userId, subscriber) == Step(Done, once)
  {
    var once := RequestDownload(users, accesses, userId, subscriber).accesses;
    var id := AccessId(FindUserById(users, userId).value, subscriber.value);
    assert once == once[id := once[id]];
  }

  /**
    allowRead fails NotFound when the pair has no row; otherwise it clears only
    the read request, leaves the access flag as it was (there is no check that
    a request was pending), and a second call changes nothing.
   */
  lemma GrantReadEffect(users: set<int>, accesses: AccessTable, currentUser: Option<int>, subscriberId: Option<string>)
    requires currentUser.Some? && FindUserById(users, subscriberId).Ok?
    ensures var id := AccessId(currentUser.value, FindUserById(users, subscriberId).value);
            var s := GrantRead(users, accesses, currentUser, subscriberId);
            && (s.outcome.Failed? <==> id !in accesses)
            && (s.outcome.Failed? ==> s.outcome.error == NotFound(NoRequestMessage))
            && (s.outcome.Done? ==>
                  && s.accesses == accesses[id := accesses[id].(readRequest := false)]
                  && ReadCapability(s.accesses[id]) == (if accesses[id].readAccess then Granted else NoAccess)
                  && GrantRead(users, s.accesses, currentUser, subscriberId) == s)
  {
    var id := AccessId(currentUser.value, FindUserById(users, subscriberId).value);
    var s := GrantRead(users, accesses, currentUser, subscriberId);
    if s.outcome.Done? {
      assert s.accesses[id := s.accesses[id].(readRequest := false)] == s.accesses;
    }
  }

  /** allowDownload: the same, for the download request. */
  lemma GrantDownloadEffect(users: set<int>, accesses: AccessTable, currentUser: Option<int>, subscriberId: Option<string>)
    requires currentUser.Some? && FindUserById(users, subscriberId).Ok?
    ensures var id := AccessId(currentUser.value, FindUserById(users, subscriberId).value);
            var s := GrantDownload(users, accesses, currentUser, subscriberId);
            && (s.outcome.Failed? <==> id !in accesses)
            && (s.outcome.Failed? ==> s.outcome.error == NotFound(NoRequestMessage))
            && (s.outcome.Done? ==>
                  && s.accesses == accesses[id := accesses[id].(downloadRequest := false)]
                  && DownloadCapability(s.accesses[id]) == (if accesses[id].downloadAccess then Granted else NoAccess)
                  && GrantDownload(users, s.accesses, currentUser, subscriberId) == s)
  {
    var id := AccessId(currentUser.value, FindUserById(users, subscriberId).value);
    var s := GrantDownload(users, accesses, currentUser, subscriberId);
    if s.outcome.Done? {
      assert s.accesses[id := s.accesses[id].(downloadRequest := false)] == s.accesses;
    }
  }

  /** Granting both capabilities takes the row out of the owner's requesting list. */
  lemma GrantingClearsRequest(users: set<int>, accesses: AccessTable, owner: int, subscriberId: Option<string>)
    requires GrantRead(users, accesses, Some(owner), subscriberId).outcome.Done?
    ensures var t1 := GrantRead(users, accesses, Some(owner), subscriberId).accesses;
            var t2 := GrantDownload(users, t1, Some(owner), subscriberId).accesses;
            var id := AccessId(owner, FindUserById(users, subscriberId).value);
            id in t2 && !t2[id].Pending()
  {
  }

  // ------------------------------------------------------------ the invariant

  /** Every row's request flags are backed by their access flags. */
  ghost predicate Consistent(accesses: AccessTable) {
    forall id | id in accesses :: accesses[id].Consistent()
  }

  /** No row disappears and no access flag goes from true to false. */
  ghost predicate NoAccessDropped(before: AccessTable, after: AccessTable) {
    forall id | id in before ::
      && id in after
      && (before[id].readAccess ==> after[id].readAccess)
      && (before[id].downloadAccess ==> after[id].downloadAccess)
  }

  /** One service call that may change the access table. */
  datatype Call =
    | AskRead(ownerId: Option<string>, subscriber: Option<int>)
    | AskDownload(ownerId: Option<string>, subscriber: Option<int>)
    | ApproveRead(owner: Option<int>, subscriberId: Option<string>)
    | ApproveDownload(owner: Option<int>, subscriberId: Option<string>)

  function Apply(users: set<int>, accesses: AccessTable, call: Call): AccessTable {
    match call
    case AskRead(o, s) => RequestRead(users, accesses, o, s).accesses
    case AskDownload(o, s) => RequestDownload(users, accesses, o, s).accesses
    case ApproveRead(o, s) => GrantRead(users, accesses, o, s).accesses
    case ApproveDownload(o, s) => GrantDownload(users, accesses, o, s).accesses
  }

  /** The table after a sequence of calls, in order. */
  function Run(users: set<int>, accesses: AccessTable, calls: seq<Call>): AccessTable
    decreases |calls|
  {
    if calls == [] then accesses else Run(users, Apply(users, accesses, calls[0]), calls[1..])
  }

  /** Each call keeps the invariant and never lowers an access flag. */
  lemma ApplyPreserves(users: set<int>, accesses: AccessTable, call: Call)
    requires Consistent(accesses)
    ensures Consistent(Apply(users, accesses, call))
    ensures NoAccessDropped(accesses, Apply(users, accesses, call))
  {
  }

  /** Any sequence of calls keeps the invariant and never lowers an access flag. */
  lemma {:induction false} RunPreserves(users: set<int>, accesses: AccessTable, calls: seq<Call>)
    requires Consistent(accesses)
    ensures Consistent(Run(users, accesses, calls))
    ensures NoAccessDropped(accesses, Run(users, accesses, calls))
    decreases |calls|
  {
    if calls != [] {
      var next := Apply(users, accesses, calls[0]);
      ApplyPreserves(users, accesses, calls[0]);
      RunPreserves(users, next, calls[1..]);
    }
  }

  /** From the empty table, a request flag never stands without its access flag. */
  lemma Reachable(users: set<int>, calls: seq<Call>)
    ensures Consistent(Run(users, map[], calls))
    ensures forall id | id in Run(users, map[], calls) ::
              && ReadCapability(Run(users, map[], calls)[id]) != RequestOnly
              && DownloadCapability(Run(users, map[], calls)[id]) != RequestOnly
  {
    RunPreserves(users, map[], calls);
  }

  // ------------------------------------------------------------ the service object

  /** AccessServiceImpl over its two repositories. */
  class AccessServiceImpl {
    var accesses: AccessTable
    const users: set<int>

    constructor (users: set<int>, accesses: AccessTable)
      ensures this.users == users && this.accesses == accesses
    {
      this.users := users;
      this.accesses := accesses;
    }

    /** Loads the pair's row, or a new all-false Access when there is none. */
    method Load(id: AccessId) returns (access: Access)
      ensures fresh(access) && access.id == id && access.Flags() == LoadOrNew(accesses, id)
    {
      if id in accesses {
        access := new Access.Stored(id, None, accesses[id]);
      } else {
        access := new Access(id.userId, id.subscriberId);
      }
    }

    method SaveRequestToRead(userId: Option<string>, subscriber: Option<int>) returns (o: Outcome)
      modifies this`accesses
      ensures Step(o, accesses) == RequestRead(users, old(accesses), userId, subscriber)
    {
      o := CheckUser(subscriber);
      if o.Failed? { return; }
      var user := FindUserById(users, userId);
      if user.Err? { return Failed(user.error); }
      var access := Load(AccessId(user.value, subscriber.value));
      if access.downloadAccess && !access.downloadRequest {
        return Failed(AlreadyExist(HasAccessMessage));
      }
      if access.readAccess && !access.readRequest {
        return Failed(AlreadyExist(HasReadMessage));
      }
      access.SetReadAccess(true);
      access.SetReadRequest(true);
      accesses := accesses[access.id := access.Flags()];
    }

    method SaveRequestToDownload(userId: Option<string>, subscriber: Option<int>) returns (o: Outcome)
      modifies this`accesses
      ensures Step(o, accesses) == RequestDownload(users, old(accesses), userId, subscriber)
    {
      o := CheckUser(subscriber);
      if o.Failed? { return; }
      var user := FindUserById(users, userId);
      if user.Err? { return Failed(user.error); }
      var access := Load(AccessId(user.value, subscriber.value));
      if access.downloadAccess && !access.downloadRequest {
        return Failed(AlreadyExist(HasDownloadMessage));
      }
      access.SetDownloadAccess(true);
      access.SetDownloadRequest(true);
      accesses := accesses[access.id := access.Flags()];
    }

    method AllowRead(currentUser: Option<int>, subscriberId: Option<string>) returns (o: Outcome)
      modifies this`accesses
      ensures Step(o, accesses) == GrantRead(users, old(accesses), currentUser, subscriberId)
    {
      o := CheckUser(currentUser);
      if o.Failed? { return; }
      var subscriber := FindUserById(users, subscriberId);
      if subscriber.Err? { return Failed(subscriber.error); }
      var id := AccessId(currentUser.value, subscriber.value);
      if id !in accesses {
        return Failed(NotFound(NoRequestMessage));
      }
      var access := new Access.Stored(id, None, accesses[id]);
      access.SetReadRequest(false);
      accesses := accesses[id := access.Flags()];
    }

    method AllowDownload(currentUser: Option<int>, subscriberId: Option<string>) returns (o: Outcome)
      modifies this`accesses
      ensures Step(o, accesses) == GrantDownload(users, old(accesses), currentUser, subscriberId)
    {
      o := CheckUser(currentUser);
      if o.Failed? { return; }
      var subscriber := FindUserById(users, subscriberId);
      if subscriber.Err? { return Failed(subscriber.error); }
      var id := AccessId(currentUser.value, subscriber.value);
      if id !in accesses {
        return Failed(NotFound(NoRequestMessage));
      }
      var access := new Access.Stored(id, None, accesses[id]);
      access.SetDownloadRequest(false);
      accesses := accesses[id := access.Flags()];
    }
  }
}
