/**
  Registration and e-mail activation. The user repository is a table of rows
  keyed by the generated id; sent mail is an outbox that only grows. The clock
  and the random activation code are parameters.
 */
module UserService {
  import opened Exceptions
  import opened Model

  /** 24 hours in milliseconds. */
  const DayMillis: int := 86_400_000

  const UserExistsMessage := "User exists!"
  const NoCodeMessage := "Activation code has not found!"
  const ExpiredMessage := "Activation link has expired! The new one has been sent"
  const ActivationSubject := "Activation code"

  /** The stored fields of a User; password2 is transient and never reaches the row. */
  datatype UserRow = UserRow(username: string, password: string, email: string,
                             activationCode: Option<string>, registrationDate: Option<int>, isConfirmed: bool)

  datatype Mail = Mail(to: string, subject: string, text: string)

  /** The user repository, its id generator and the mail sent so far. */
  datatype Accounts = Accounts(users: map<int, UserRow>, nextId: int, outbox: seq<Mail>)

  datatype Change = Change(outcome: Outcome, accounts: Accounts)

  /**
    What the repository's single-result lookups rely on: usernames and live
    codes are unique, and a stored code always comes with its date (so the
    expiry check never meets a null date).
   */
  ghost predicate AccountsValid(a: Accounts) {
    && 0 <= a.nextId
    && (forall id | id in a.users :: 0 <= id < a.nextId)
    && DatedCodes(a.users) && UniqueNames(a.users) && UniqueCodes(a.users)
  }

  ghost predicate DatedCodes(users: map<int, UserRow>) {
    forall id | id in users :: users[id].activationCode.Some? ==> users[id].registrationDate.Some?
  }

  ghost predicate UniqueNames(users: map<int, UserRow>) {
    forall i, j | i in users && j in users && i != j :: users[i].username != users[j].username
  }

  ghost predicate UniqueCodes(users: map<int, UserRow>) {
    forall i, j | i in users && j in users && i != j && users[i].activationCode.Some? ::
      users[i].activationCode != users[j].activationCode
  }

  /** Writing a row keeps the lookups unique when its name and code clash with no other row. */
  lemma PutKeepsLookupsUnique(users: map<int, UserRow>, id: int, row: UserRow)
    requires DatedCodes(users) && UniqueNames(users) && UniqueCodes(users)
    requires forall k | k in users && k != id :: users[k].username != row.username
    requires row.activationCode.Some? ==> row.registrationDate.Some?
    requires row.activationCode.Some? ==> forall k | k in users && k != id :: users[k].activationCode != row.activationCode
    ensures var u := users[id := row]; DatedCodes(u) && UniqueNames(u) && UniqueCodes(u)
  {
    var u := users[id := row];
    forall i, j | i in u && j in u && i != j ensures u[i].username != u[j].username {
      if i != id && j != id {
        assert u[i] == users[i] && u[j] == users[j];
      }
    }
    forall i, j | i in u && j in u && i != j && u[i].activationCode.Some?
      ensures u[i].activationCode != u[j].activationCode
    {
      if i != id && j != id {
        assert u[i] == users[i] && u[j] == users[j];
      } else if i != id {
        assert u[i] == users[i];
      }
    }
  }

  // ------------------------------------------------------------ lookups

  predicate UsernameTaken(users: map<int, UserRow>, name: string) {
    exists id | id in users :: users[id].username == name
  }

  predicate CodeInUse(users: map<int, UserRow>, code: string) {
    exists id | id in users :: users[id].activationCode == Some(code)
  }

  /** findByUsername (also what loadUserByUsername returns). */
  ghost function FindByUsername(users: map<int, UserRow>, name: string): (r: Option<int>)
    ensures r.Some? <==> UsernameTaken(users, name)
    ensures r.Some? ==> r.value in users && users[r.value].username == name
  {
    if UsernameTaken(users, name) then Some(var id :| id in users && users[id].username == name; id) else None
  }

  /** findByActivationCode */
  ghost function FindByActivationCode(users: map<int, UserRow>, code: string): (r: Option<int>)
    ensures r.Some? <==> CodeInUse(users, code)
    ensures r.Some? ==> r.value in users && users[r.value].activationCode == Some(code)
  {
    if CodeInUse(users, code) then Some(var id :| id in users && users[id].activationCode == Some(code); id) else None
  }

  /** In a valid repository the code lookup finds the one row holding the code. */
  lemma CodeFindsItsHolder(a: Accounts, id: int, code: string)
    requires AccountsValid(a) && id in a.users && a.users[id].activationCode == Some(code)
    ensures FindByActivationCode(a.users, code) == Some(id)
  {
  }

  /** In a valid repository the username lookup finds the one row with that name. */
  lemma NameFindsItsHolder(a: Accounts, id: int)
    requires AccountsValid(a) && id in a.users
    ensures FindByUsername(a.users, a.users[id].username) == Some(id)
  {
  }

  // ------------------------------------------------------------ expiry and mail

  /** checkRegDate: more than 24 hours have passed since registration. */
  predicate CheckRegDate(regDate: int, now: int): (r: bool)
    ensures r ==> now > regDate
    ensures now <= regDate + DayMillis ==> !r
  {
    now - regDate > DayMillis
  }

  /** The expiry is strict: a link is still good at exactly 24 hours and stale one millisecond later. */
  lemma ExpiryIsStrict(regDate: int)
    ensures !CheckRegDate(regDate, regDate + DayMillis)
    ensures CheckRegDate(regDate, regDate + DayMillis + 1)
    ensures forall now :: CheckRegDate(regDate, now) <==> now > regDate + DayMillis
  {
  }

  const ActivationLinkPrefix := "http://localhost:8080/activate/"

  const Greeting := "Hello, "
  const Welcome := "! \nWelcome to File Sharing! Please, visit next link to confirm your e-mail: "

  /** The body of the activation mail. */
  function ActivationText(username: string, code: string): string {
    Greeting + username + Welcome + ActivationLinkPrefix + code
  }

  function ActivationMail(row: UserRow, code: string): Mail {
    Mail(row.email, ActivationSubject, ActivationText(row.username, code))
  }

  /** The mail ends with the activation link, which carries exactly the code. */
  lemma MailCarriesTheLink(row: UserRow, code: string)
    ensures var m := ActivationMail(row, code);
            var n := |m.text|;
            && m.to == row.email && m.subject == ActivationSubject
            && n >= |ActivationLinkPrefix| + |code|
            && m.text[n - |code| - |ActivationLinkPrefix|..] == ActivationLinkPrefix + code
            && m.text[n - |code|..] == code
  {
    var m := ActivationMail(row, code);
    var head := Greeting + row.username + Welcome;
    assert m.text == head + (ActivationLinkPrefix + code);
  }

  // ------------------------------------------------------------ the operations on values

  /** addUser(user) with the fresh code and the clock as parameters. */
  function Register(a: Accounts, user: UserRow, code: string, now: int): (c: Change)
    ensures c.outcome.Failed? <==> UsernameTaken(a.users, user.username)
    ensures c.outcome.Failed? ==> c.accounts == a
    ensures c.outcome.Done? ==>
              && c.accounts.nextId == a.nextId + 1
              && c.accounts.users.Keys == a.users.Keys + {a.nextId}
              && c.accounts.outbox == a.outbox + [ActivationMail(c.accounts.users[a.nextId], code)]
  {
    if UsernameTaken(a.users, user.username) then Change(Failed(ServiceFailure(UserExistsMessage)), a)
    else
      var row := user.(activationCode := Some(code), registrationDate := Some(now));
      Change(Done, Accounts(a.users[a.nextId := row], a.nextId + 1, a.outbox + [ActivationMail(row, code)]))
  }

  /** activateUser(code) with the replacement code and the clock as parameters. */
  ghost function Activate(a: Accounts, code: Option<string>, freshCode: string, now: int): (c: Change)
    requires AccountsValid(a)
    ensures c.accounts.users.Keys == a.users.Keys && c.accounts.nextId == a.nextId
    ensures c.outcome.Done? ==> code.Some? && CodeInUse(a.users, code.value) && c.accounts.outbox == a.outbox
    ensures c.outcome.Failed? ==> c.outcome.error in {NotFound(NoCodeMessage), ServiceFailure(ExpiredMessage)}
  {
    if code.None? then Change(Failed(NotFound(NoCodeMessage)), a)
    else match FindByActivationCode(a.users, code.value)
      case None => Change(Failed(NotFound(NoCodeMessage)), a)
      case Some(id) =>
        var row := a.users[id];
        if CheckRegDate(row.registrationDate.value, now) then
          var renewed := row.(activationCode := Some(freshCode), registrationDate := Some(now));
          Change(Failed(ServiceFailure(ExpiredMessage)),
                 a.(users := a.users[id := renewed], outbox := a.outbox + [ActivationMail(renewed, freshCode)]))
        else
          Change(Done, a.(users := a.users[id := row.(activationCode := None, isConfirmed := true)]))
  }

  // ------------------------------------------------------------ properties

  /**
    addUser fails exactly when the username is taken, and then nothing is
    saved or mailed; otherwise it saves one row with the code and the date
    (confirmation untouched), sends exactly one mail to the user's address
    with that code, and the name now finds the new row.
   */
  lemma RegisterEffect(a: Accounts, user: UserRow, code: string, now: int)
    requires AccountsValid(a) && !CodeInUse(a.users, code)
    ensures var c := Register(a, user, code, now);
            && (c.outcome.Failed? <==> UsernameTaken(a.users, user.username))
            && (c.outcome.Failed? ==> c == Change(Failed(ServiceFailure(UserExistsMessage)), a))
            && (c.outcome.Done? ==>
                  && AccountsValid(c.accounts)
                  && a.nextId !in a.users
                  && c.accounts.users == a.users[a.nextId := c.accounts.users[a.nextId]]
                  && c.accounts.users[a.nextId].activationCode == Some(code)
                  && c.accounts.users[a.nextId].registrationDate == Some(now)
                  && c.accounts.users[a.nextId].isConfirmed == user.isConfirmed
                  && c.accounts.outbox == a.outbox + [ActivationMail(user, code)]
                  && FindByUsername(c.accounts.users, user.username) == Some(a.nextId))
  {
    var c := Register(a, user, code, now);
    RegisterKeepsValid(a, user, code, now);
    if c.outcome.Done? {
      NameFindsItsHolder(c.accounts, a.nextId);
    }
  }

  /** With a fresh code, registration keeps names and codes unique and codes dated. */
  lemma RegisterKeepsValid(a: Accounts, user: UserRow, code: string, now: int)
    requires AccountsValid(a) && !CodeInUse(a.users, code)
    ensures AccountsValid(Register(a, user, code, now).accounts)
  {
    var c := Register(a, user, code, now);
    if c.outcome.Done? {
      var row := c.accounts.users[a.nextId];
      assert forall k | k in a.users && k != a.nextId :: a.users[k].username != row.username;
      assert forall k | k in a.users && k != a.nextId :: a.users[k].activationCode != row.activationCode;
      PutKeepsLookupsUnique(a.users, a.nextId, row);
    }
  }

  /** A null code, or one no row holds, fails NotFound and changes nothing. */
  lemma ActivateUnknownCode(a: Accounts, code: Option<string>, freshCode: string, now: int)
    requires AccountsValid(a)
    requires code.None? || !CodeInUse(a.users, code.value)
    ensures Activate(a, code, freshCode, now) == Change(Failed(NotFound(NoCodeMessage)), a)
  {
  }

  /**
    For the row holding the code: more than a day after registration the call
    fails, replaces the code, restarts the clock and mails the new link, the
    user staying as confirmed as before; within a day it succeeds, clears the
    code and confirms the user, mailing nothing. No other row changes.
   */
  lemma ActivateEffect(a: Accounts, id: int, freshCode: string, now: int)
    requires AccountsValid(a) && id in a.users && a.users[id].activationCode.Some?
    ensures var row := a.users[id];
            var c := Activate(a, row.activationCode, freshCode, now);
            && c.accounts.users.Keys == a.users.Keys
            && (forall k | k in a.users && k != id :: c.accounts.users[k] == a.users[k])
            && (c.outcome.Failed? <==> CheckRegDate(row.registrationDate.value, now))
            && (c.outcome.Failed? ==>
                  && c.outcome.error == ServiceFailure(ExpiredMessage)
                  && c.accounts.users[id] == row.(activationCode := Some(freshCode), registrationDate := Some(now))
                  && c.accounts.outbox == a.outbox + [ActivationMail(row, freshCode)])
            && (c.outcome.Done? ==>
                  && c.accounts.users[id] == row.(activationCode := None, isConfirmed := true)
                  && c.accounts.outbox == a.outbox)
  {
    CodeFindsItsHolder(a, id, a.users[id].activationCode.value);
  }

  /** What activation does to the row `id` once the code has led to it. */
  function ActivateRow(a: Accounts, id: int, freshCode: string, now: int): Change
    requires id in a.users && a.users[id].registrationDate.Some?
  {
    var row := a.users[id];
    var renewed := row.(activationCode := Some(freshCode), registrationDate := Some(now));
    if CheckRegDate(row.registrationDate.value, now) then
      Change(Failed(ServiceFailure(ExpiredMessage)),
             a.(users := a.users[id := renewed], outbox := a.outbox + [ActivationMail(renewed, freshCode)]))
    else
      Change(Done, a.(users := a.users[id := row.(activationCode := None, isConfirmed := true)]))
  }

  /** Activation by the code a row holds acts on that row. */
  lemma ActivateHolder(a: Accounts, id: int, freshCode: string, now: int)
    requires AccountsValid(a) && id in a.users && a.users[id].activationCode.Some?
    ensures a.users[id].registrationDate.Some?
    ensures Activate(a, a.users[id].activationCode, freshCode, now) == ActivateRow(a, id, freshCode, now)
  {
    CodeFindsItsHolder(a, id, a.users[id].activationCode.value);
  }

  /** Activation keeps the repository valid when the replacement code is fresh. */
  lemma ActivatePreservesValid(a: Accounts, code: Option<string>, freshCode: string, now: int)
    requires AccountsValid(a) && !CodeInUse(a.users, freshCode)
    ensures AccountsValid(Activate(a, code, freshCode, now).accounts)
  {
    if code.Some? && CodeInUse(a.users, code.value) {
      var id := FindByActivationCode(a.users, code.value).value;
      var c := Activate(a, code, freshCode, now);
      assert forall k | k in a.users && k != id :: a.users[k].username != a.users[id].username;
      PutKeepsLookupsUnique(a.users, id, c.accounts.users[id]);
    }
  }

  /** A used code is spent: after a successful activation it no longer resolves. */
  lemma CodeIsSpent(a: Accounts, code: string, freshCode: string, freshCode2: string, now: int, later: int)
    requires AccountsValid(a) && !CodeInUse(a.users, freshCode)
    requires Activate(a, Some(code), freshCode, now).outcome.Done?
    ensures var c := Activate(a, Some(code), freshCode, now);
            AccountsValid(c.accounts) && !CodeInUse(c.accounts.users, code)
            && Activate(c.accounts, Some(code), freshCode2, later) == Change(Failed(NotFound(NoCodeMessage)), c.accounts)
  {
    ActivatePreservesValid(a, Some(code), freshCode, now);
    var c := Activate(a, Some(code), freshCode, now);
    var id := FindByActivationCode(a.users, code).value;
    assert !CodeInUse(c.accounts.users, code) by {
      forall k | k in c.accounts.users ensures c.accounts.users[k].activationCode != Some(code) {
        if k != id {
          assert a.users[k].activationCode != a.users[id].activationCode;
        }
      }
    }
  }

  /**
    Registering and then following the mailed link within a day confirms the
    new account: its row is the registered user, confirmed, with no code left
    and the registration date kept.
   */
  lemma RegisterThenActivate(a: Accounts, user: UserRow, code: string, freshCode: string, now: int, later: int)
    requires AccountsValid(a) && !CodeInUse(a.users, code) && !UsernameTaken(a.users, user.username)
    requires now <= later <= now + DayMillis
    ensures var reg := Register(a, user, code, now);
            && reg.outcome.Done? && AccountsValid(reg.accounts)
            && var act := Activate(reg.accounts, Some(code), freshCode, later);
               && act.outcome.Done?
               && act.accounts.users[a.nextId]
                  == user.(activationCode := None, registrationDate := Some(now), isConfirmed := true)
  {
    RegisterEffect(a, user, code, now);
    var reg := Register(a, user, code, now);
    ActivateEffect(reg.accounts, a.nextId, freshCode, later);
  }

  /**
    After an expired link, the newly mailed link works within the next day, in
    this model, which keeps the writes of the expired path.
   */
  lemma ResentLinkActivates(a: Accounts, id: int, freshCode: string, freshCode2: string, now: int, later: int)
    requires AccountsValid(a) && !CodeInUse(a.users, freshCode)
    requires id in a.users && a.users[id].activationCode.Some?
    requires CheckRegDate(a.users[id].registrationDate.value, now)
    requires now <= later <= now + DayMillis
    ensures var first := Activate(a, a.users[id].activationCode, freshCode, now);
            && first.outcome == Failed(ServiceFailure(ExpiredMessage))
            && Activate(first.accounts, Some(freshCode), freshCode2, later).outcome.Done?
  {
    ActivateEffect(a, id, freshCode, now);
    ActivatePreservesValid(a, a.users[id].activationCode, freshCode, now);
    var first := Activate(a, a.users[id].activationCode, freshCode, now);
    ActivateEffect(first.accounts, id, freshCode2, later);
  }

  // ------------------------------------------------------------ the expired path as committed

  /**
    activateUser as the transaction commits it: the expired path throws a
    ServiceException, a RuntimeException, out of a transactional method, so the
    new code and date are rolled back while the mail has already gone out.
   */
  ghost function ActivateAsCommitted(a: Accounts, code: Option<string>, freshCode: string, now: int): (c: Change)
    requires AccountsValid(a)
    ensures c.outcome == Activate(a, code, freshCode, now).outcome
    ensures c.outcome.Failed? ==> c.accounts.users == a.users && c.accounts.nextId == a.nextId
    ensures c.outcome.Done? ==> c == Activate(a, code, freshCode, now)
  {
    var c := Activate(a, code, freshCode, now);
    if c.outcome.Failed? then Change(c.outcome, a.(outbox := c.accounts.outbox)) else c
  }

  /**
    As committed, an expired link can never be followed: the mail carries a code
    that was rolled back, so it is unknown, and the old link, tried again at any
    later time, is expired again and mails yet another dead link.
   */
  lemma ExpiredLinkIsLost(a: Accounts, id: int, freshCode: string, freshCode2: string, now: int, later: int)
    requires AccountsValid(a) && !CodeInUse(a.users, freshCode)
    requires id in a.users && a.users[id].activationCode.Some?
    requires CheckRegDate(a.users[id].registrationDate.value, now)
    requires now <= later
    ensures var first := ActivateAsCommitted(a, a.users[id].activationCode, freshCode, now);
            && first.outcome == Failed(ServiceFailure(ExpiredMessage))
            && first.accounts.users == a.users
            && first.accounts.outbox == a.outbox + [ActivationMail(a.users[id], freshCode)]
            && ActivateAsCommitted(first.accounts, Some(freshCode), freshCode2, later)
               == Change(Failed(NotFound(NoCodeMessage)), first.accounts)
            && ActivateAsCommitted(first.accounts, a.users[id].activationCode, freshCode2, later).outcome
               == Failed(ServiceFailure(ExpiredMessage))
  {
    ActivateEffect(a, id, freshCode, now);
    var first := ActivateAsCommitted(a, a.users[id].activationCode, freshCode, now);
    assert AccountsValid(first.accounts);
    ActivateUnknownCode(first.accounts, Some(freshCode), freshCode2, later);
    ActivateEffect(first.accounts, id, freshCode2, later);
  }

  // ------------------------------------------------------------ the service object

  /** The stored fields of a User object. */
  function RowOf(u: User): UserRow
    reads u
  {
    UserRow(u.username, u.password, u.email, u.activationCode, u.registrationDate, u.isConfirmed)
  }

  /** UserServiceImpl over the user repository and the mail sender. */
  class UserServiceImpl {
    var users: map<int, UserRow>
    var nextId: int
    var outbox: seq<Mail>

    function State(): Accounts
      reads this
    {
      Accounts(users, nextId, outbox)
    }

    ghost predicate Valid()
      reads this
    {
      AccountsValid(State())
    }

    constructor ()
      ensures Valid() && users == map[] && outbox == []
    {
      users, nextId, outbox := map[], 0, [];
    }

    /** userRepository.save(user) */
    method Save(user: User)
      modifies this`users
      ensures users == old(users)[user.id := RowOf(user)]
    {
      users := users[user.id := RowOf(user)];
    }

    method SetActivationCodeAndRegDate(user: User, code: string, now: int)
      modifies user`activationCode, user`registrationDate, this`users
      ensures user.activationCode == Some(code) && user.registrationDate == Some(now)
      ensures users == old(users)[user.id := RowOf(user)]
    {
      user.SetActivationCode(Some(code));
      user.SetRegistrationDate(Some(now));
      Save(user);
    }

    method SendActivationCode(user: User)
      requires user.activationCode.Some?
      modifies this`outbox
      ensures outbox == old(outbox) + [ActivationMail(RowOf(user), user.activationCode.value)]
    {
      outbox := outbox + [ActivationMail(RowOf(user), user.activationCode.value)];
    }

    /** addUser; saving the new user hands it the next id. */
    method AddUser(user: User, code: string, now: int) returns (o: Outcome)
      requires Valid() && !CodeInUse(users, code)
      modifies this, user
      ensures Valid()
      ensures Change(o, State()) == Register(old(State()), old(RowOf(user)), code, now)
      ensures o.Failed? ==> unchanged(user)
      ensures o.Done? ==> user.id == old(nextId) && RowOf(user) == users[user.id]
    {
      ghost var before := State();
      ghost var row := RowOf(user);
      RegisterKeepsValid(before, row, code, now);
      ghost var after := Register(before, row, code, now).accounts;
      if UsernameTaken(users, user.username) {
        return Failed(ServiceFailure(UserExistsMessage));
      }
      user.id := nextId;
      nextId := nextId + 1;
      SetActivationCodeAndRegDate(user, code, now);
      SendActivationCode(user);
      assert RowOf(user) == after.users[before.nextId];
      assert State() == after;
      o := Done;
    }

    /**
      activateUser; `activated` is the loaded User object, which on success also
      carries the password copied into the transient password2.
     */
    method ActivateUser(code: Option<string>, freshCode: string, now: int) returns (o: Outcome, ghost activated: User?)
      requires Valid() && !CodeInUse(users, freshCode)
      modifies this
      ensures Valid()
      ensures Change(o, State()) == Activate(old(State()), code, freshCode, now)
      ensures o.Done? ==> activated != null && activated.password2 == Some(activated.password)
                          && activated.IsEnabled() && activated.id in users && users[activated.id] == RowOf(activated)
    {
      activated := null;
      ActivatePreservesValid(State(), code, freshCode, now);
      if code.None? {
        o := Failed(NotFound(NoCodeMessage));
        return;
      }
      if !CodeInUse(users, code.value) {
        o := Failed(NotFound(NoCodeMessage));
        return;
      }
      var id :| id in users && users[id].activationCode == code;
      ActivateHolder(State(), id, freshCode, now);
      o, activated := ActivateFound(id, freshCode, now);
    }

    /** The rest of activateUser, on the user the code was found on. */
    method ActivateFound(id: int, freshCode: string, now: int) returns (o: Outcome, ghost activated: User?)
      requires id in users && users[id].registrationDate.Some?
      modifies this
      ensures Change(o, State()) == ActivateRow(old(State()), id, freshCode, now)
      ensures o.Done? ==> activated != null && activated.password2 == Some(activated.password)
                          && activated.IsEnabled() && activated.id in users && users[activated.id] == RowOf(activated)
    {
      activated := null;
      var row := users[id];
      var user := new User(id, row.username, row.password, row.email, row.activationCode, row.isConfirmed);
      user.registrationDate := row.registrationDate;  // loaded with the row, as the repository does
      if CheckRegDate(user.registrationDate.value, now) {
        SetActivationCodeAndRegDate(user, freshCode, now);
        SendActivationCode(user);
        o := Failed(ServiceFailure(ExpiredMessage));
        return;
      }
      user.SetActivationCode(None);
      user.SetIsConfirmed(true);
      user.SetPassword2(Some(user.password));
      Save(user);
      activated := user;
      o := Done;
    }
  }
}
