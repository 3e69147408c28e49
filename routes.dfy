/**
 * The authentication and contact handlers. The admin and contact-message
 * collections are sequences of the stored documents, and the request's
 * session is one optional slot. Each handler first takes a pure decision
 * from the request and the collections, then applies it; the decision
 * functions are what the lemmas below talk about. The login lookup has no
 * sort, so which of several matching admins it answers with is left to the
 * database: it is a parameter here, constrained to be a match.
 */
module Routes {
  import opened Wrappers
  import opened Schema
  import opened Collections
  import opened Http

  /** What the session remembers of a logged-in admin: no password. */
  datatype SessionAdmin = SessionAdmin(id: Id, username: string, name: string)

  /** What the login response reveals of the admin. */
  datatype AdminView = AdminView(username: string, name: string)

  datatype RegisterRequest = RegisterRequest(username: Option<string>, password: Option<string>, name: Option<string>)

  datatype LoginRequest = LoginRequest(username: Option<string>, password: Option<string>)

  datatype ContactRequest = ContactRequest(
    name: Option<string>, email: Option<string>, subject: Option<string>, message: Option<string>)

  /** The JSON bodies these handlers answer with. */
  datatype Body =
    | Error(error: string)
    | Message(message: string)
    | LoggedIn(message: string, admin: AdminView)
    | LoggedOut(success: bool)
    | SessionInfo(sessionAdmin: Option<SessionAdmin>)   // sent as { admin: ... }
    | ContactSaved(message: string, contactMessage: ContactMessage)
    | ContactList(messages: seq<ContactMessage>)

  // ---------------------------------------------------------------------
  // Case-insensitive usernames (ASCII letters only)
  // ---------------------------------------------------------------------

  function LowerChar(c: char): char
  {
    if 'A' <= c <= 'Z' then (c as int + 32) as char else c
  }

  function Lower(s: string): string
  {
    seq(|s|, i requires 0 <= i < |s| => LowerChar(s[i]))
  }

  /** The two names are the same up to the case of ASCII letters. */
  predicate SameIgnoringCase(a: string, b: string)
  {
    Lower(a) == Lower(b)
  }

  /** The two characters are equal, or are the capital and small form of one letter A-Z. */
  predicate CaseVariants(x: char, y: char)
  {
    || x == y
    || ('A' <= x <= 'Z' && y as int == x as int + 32)
    || ('A' <= y <= 'Z' && x as int == y as int + 32)
  }

  lemma LowerCharSame(x: char, y: char)
    ensures LowerChar(x) == LowerChar(y) <==> CaseVariants(x, y)
  {
  }

  /**
   * The login match ignores the case of ASCII letters and nothing else: two
   * names match exactly when they have the same length and each character
   * pairs with the same character or its other case.
   */
  lemma SameIgnoringCaseIff(a: string, b: string)
    ensures SameIgnoringCase(a, b) <==> |a| == |b| && forall i :: 0 <= i < |a| ==> CaseVariants(a[i], b[i])
  {
    if |a| == |b| && forall i :: 0 <= i < |a| ==> CaseVariants(a[i], b[i]) {
      forall i | 0 <= i < |a|
        ensures Lower(a)[i] == Lower(b)[i]
      {
        LowerCharSame(a[i], b[i]);
      }
    }
    if SameIgnoringCase(a, b) {
      assert |a| == |Lower(a)| == |Lower(b)| == |b|;
      forall i | 0 <= i < |a|
        ensures CaseVariants(a[i], b[i])
      {
        assert Lower(a)[i] == Lower(b)[i];
        LowerCharSame(a[i], b[i]);
      }
    }
  }

  // ---------------------------------------------------------------------
  // Decisions
  // ---------------------------------------------------------------------

  datatype RegisterOutcome = RegisterMissingField | UsernameTaken | RegisterNew(admin: InsertAdmin)

  /**
   * Registration refuses a request missing any of the three fields, then one
   * whose username some admin already has exactly (case matters here), and
   * otherwise creates the admin from the three fields as given.
   */
  function DecideRegister(admins: seq<Admin>, req: RegisterRequest): (r: RegisterOutcome)
    ensures r == RegisterMissingField <==>
              !(Provided(req.username) && Provided(req.password) && Provided(req.name))
    ensures r == UsernameTaken <==>
              && Provided(req.username) && Provided(req.password) && Provided(req.name)
              && exists i :: 0 <= i < |admins| && admins[i].fields.username == req.username.value
    ensures r.RegisterNew? ==>
              r.admin == InsertAdmin(req.username.value, req.password.value, req.name.value)
  {
    if !(Provided(req.username) && Provided(req.password) && Provided(req.name)) then
      RegisterMissingField
    else if FirstWith(admins, AdminUsername, req.username.value).Some? then
      UsernameTaken
    else
      RegisterNew(InsertAdmin(req.username.value, req.password.value, req.name.value))
  }

  /**
   * What the database may answer to the login lookup for `username`: the
   * index of some admin whose username matches it up to case, or nothing
   * when none does. The query has no sort, so any match may come back.
   */
  predicate IsLookupAnswer(admins: seq<Admin>, username: string, found: Option<nat>)
  {
    match found
    case None => forall i :: 0 <= i < |admins| ==> !SameIgnoringCase(admins[i].fields.username, username)
    case Some(i) => i < |admins| && SameIgnoringCase(admins[i].fields.username, username)
  }

  datatype LoginOutcome = LoginMissingField | UnknownUser | WrongPassword | Authenticated(admin: Admin)

  /**
   * Login refuses a request missing username or password, then takes the
   * admin the lookup `found` answers with, and compares the password exactly
   * with that admin's.
   */
  function DecideLogin(admins: seq<Admin>, req: LoginRequest, found: Option<nat>): (r: LoginOutcome)
    requires req.username.Some? ==> IsLookupAnswer(admins, req.username.value, found)
    ensures r == LoginMissingField <==> !(Provided(req.username) && Provided(req.password))
    ensures r == UnknownUser <==>
              && Provided(req.username) && Provided(req.password)
              && forall i :: 0 <= i < |admins| ==> !SameIgnoringCase(admins[i].fields.username, req.username.value)
    ensures r == WrongPassword <==>
              && Provided(req.username) && Provided(req.password)
              && found.Some? && admins[found.value].fields.password != req.password.value
    ensures r.Authenticated? <==>
              && Provided(req.username) && Provided(req.password)
              && found.Some? && admins[found.value].fields.password == req.password.value
    ensures r.Authenticated? ==>
              && r.admin in admins
              && SameIgnoringCase(r.admin.fields.username, req.username.value)
              && r.admin.fields.password == req.password.value
  {
    if !(Provided(req.username) && Provided(req.password)) then
      LoginMissingField
    else
      match found
      case None => UnknownUser
      case Some(i) =>
        if req.password.value != admins[i].fields.password then WrongPassword
        else Authenticated(admins[i])
  }

  /** The contact handler accepts exactly the requests with all four fields provided, as given. */
  function DecideContact(req: ContactRequest): (r: Option<InsertContactMessage>)
    ensures r.Some? <==>
              Provided(req.name) && Provided(req.email) && Provided(req.subject) && Provided(req.message)
    ensures r.Some? ==>
              r.value == InsertContactMessage(req.name.value, req.email.value, req.subject.value, req.message.value)
  {
    if Provided(req.name) && Provided(req.email) && Provided(req.subject) && Provided(req.message) then
      Some(InsertContactMessage(req.name.value, req.email.value, req.subject.value, req.message.value))
    else
      None
  }

  // ---------------------------------------------------------------------
  // Consequences of the decisions
  // ---------------------------------------------------------------------

  /**
   * When exactly one admin matches a username up to case, every lookup
   * answers with that admin, and login succeeds exactly with that admin's
   * password.
   */
  lemma UniqueMatchDecidesLogin(admins: seq<Admin>, req: LoginRequest, found: Option<nat>, i: nat)
    requires Provided(req.username) && Provided(req.password)
    requires IsLookupAnswer(admins, req.username.value, found)
    requires i < |admins| && SameIgnoringCase(admins[i].fields.username, req.username.value)
    requires forall j :: 0 <= j < |admins| && j != i ==> !SameIgnoringCase(admins[j].fields.username, req.username.value)
    ensures found == Some(i)
    ensures DecideLogin(admins, req, found) ==
              if admins[i].fields.password == req.password.value then Authenticated(admins[i]) else WrongPassword
  {
  }

  /**
   * Two admins whose usernames differ only in case can both be registered,
   * but when their passwords differ, at most one of them can log in with
   * their own username and password: both names reach the same lookup, and
   * whichever admin it answers with has one password.
   */
  lemma CaseVariantsCannotBothLogIn(admins: seq<Admin>, i: nat, j: nat, found: Option<nat>)
    requires i < |admins| && j < |admins|
    requires SameIgnoringCase(admins[i].fields.username, admins[j].fields.username)
    requires admins[i].fields.password != admins[j].fields.password
    requires IsLookupAnswer(admins, admins[i].fields.username, found)
    ensures IsLookupAnswer(admins, admins[j].fields.username, found)
    ensures var a, b := admins[i].fields, admins[j].fields;
            a.username != "" && a.password != "" && b.username != "" && b.password != "" ==>
              !(DecideLogin(admins, LoginRequest(Some(a.username), Some(a.password)), found).Authenticated?
                && DecideLogin(admins, LoginRequest(Some(b.username), Some(b.password)), found).Authenticated?)
  {
  }

  /** Registration compares usernames exactly, so a case variant of a stored name is a new admin. */
  lemma CaseVariantRegisters(admins: seq<Admin>, req: RegisterRequest)
    requires Provided(req.username) && Provided(req.password) && Provided(req.name)
    requires forall i :: 0 <= i < |admins| ==> admins[i].fields.username != req.username.value
    ensures DecideRegister(admins, req).RegisterNew?
  {
  }

  /**
   * The contact handler does not check the email format: a request whose
   * email the contact schema refuses is still accepted.
   */
  lemma ContactRouteSkipsEmailCheck(req: ContactRequest, isEmail: string -> bool)
    requires Provided(req.name) && Provided(req.email) && Provided(req.subject) && Provided(req.message)
    requires !isEmail(req.email.value)
    ensures DecideContact(req).Some?
    ensures ParseContactMessage(ContactForm(req.name, req.email, req.subject, req.message), isEmail).Failure?
  {
  }

  /** A request the contact schema accepts is accepted by the handler too. */
  lemma SchemaValidContactAccepted(req: ContactRequest, isEmail: string -> bool)
    requires ParseContactMessage(ContactForm(req.name, req.email, req.subject, req.message), isEmail).Success?
    requires isEmail("") == false
    ensures DecideContact(req) ==
              Some(ParseContactMessage(ContactForm(req.name, req.email, req.subject, req.message), isEmail).value)
  {
  }

  // ---------------------------------------------------------------------
  // The handlers
  // ---------------------------------------------------------------------

  /** The documents' ids are pairwise different and all below `bound`. */
  ghost predicate FreshIds<T>(s: seq<T>, id: T -> Id, bound: nat)
  {
    DistinctKeys(s, id) && forall i :: 0 <= i < |s| ==> id(s[i]) < bound
  }

  function AdminId(a: Admin): Id
  {
    a.id
  }

  function MessageId(m: ContactMessage): Id
  {
    m.id
  }

  class Server {
    var admins: seq<Admin>
    var contactMessages: seq<ContactMessage>
    /** The admin the current request's session carries, if any. */
    var session: Option<SessionAdmin>
    /** Every id below this one has been handed out. */
    var nextId: Id

    ghost predicate Valid()
      reads this
    {
      FreshIds(admins, AdminId, nextId) && FreshIds(contactMessages, MessageId, nextId)
    }

    constructor ()
      ensures Valid()
      ensures admins == [] && contactMessages == [] && session == None
    {
      admins, contactMessages, session, nextId := [], [], None, 0;
    }

    /** POST /api/auth/register */
    method Register(req: RegisterRequest) returns (res: Response<Body>)
      requires Valid()
      modifies this
      ensures Valid()
      ensures session == old(session) && contactMessages == old(contactMessages)
      ensures DecideRegister(old(admins), req) == RegisterMissingField ==>
                res == Response(BadRequest, Error("All fields are required")) && admins == old(admins)
      ensures DecideRegister(old(admins), req) == UsernameTaken ==>
                res == Response(BadRequest, Error("Username already exists")) && admins == old(admins)
      ensures DecideRegister(old(admins), req).RegisterNew? ==>
                && res == Response(Created, Message("Admin registered successfully"))
                && |admins| == |old(admins)| + 1
                && admins[..|old(admins)|] == old(admins)
                && admins[|old(admins)|].fields == DecideRegister(old(admins), req).admin
                && forall i :: 0 <= i < |old(admins)| ==> old(admins)[i].id != admins[|old(admins)|].id
    {
      match DecideRegister(admins, req)
      case RegisterMissingField =>
        res := Response(BadRequest, Error("All fields are required"));
      case UsernameTaken =>
        res := Response(BadRequest, Error("Username already exists"));
      case RegisterNew(insert) =>
        var admin := Admin(nextId, insert);
        admins := admins + [admin];
        nextId := nextId + 1;
        res := Response(Created, Message("Admin registered successfully"));
    }

    /**
     * POST /api/auth/login. Both ways of failing after the fields check, an
     * unknown username and a wrong password, answer 401 and leave the session
     * as it was; success stores the admin's id, stored username and name in
     * the session, never the password. `found` is the database's answer to
     * the case-insensitive username lookup.
     */
    method Login(req: LoginRequest, found: Option<nat>) returns (res: Response<Body>)
      requires Valid()
      requires req.username.Some? ==> IsLookupAnswer(admins, req.username.value, found)
      modifies this
      ensures Valid()
      ensures admins == old(admins) && contactMessages == old(contactMessages)
      ensures DecideLogin(admins, req, found) == LoginMissingField ==>
                res == Response(BadRequest, Error("Username and password are required")) && session == old(session)
      ensures DecideLogin(admins, req, found) == UnknownUser ==>
                res == Response(Unauthorized, Error("Invalid credentials - user not found")) && session == old(session)
      ensures DecideLogin(admins, req, found) == WrongPassword ==>
                res == Response(Unauthorized, Error("Invalid credentials - wrong password")) && session == old(session)
      ensures DecideLogin(admins, req, found).Authenticated? ==>
                var a := DecideLogin(admins, req, found).admin;
                && session == Some(SessionAdmin(a.id, a.fields.username, a.fields.name))
                && res == Response(Ok, LoggedIn("Login successful", AdminView(a.fields.username, a.fields.name)))
      ensures res.status == Unauthorized <==> DecideLogin(admins, req, found) in {UnknownUser, WrongPassword}
    {
      match DecideLogin(admins, req, found)
      case LoginMissingField =>
        res := Response(BadRequest, Error("Username and password are required"));
      case UnknownUser =>
        res := Response(Unauthorized, Error("Invalid credentials - user not found"));
      case WrongPassword =>
        res := Response(Unauthorized, Error("Invalid credentials - wrong password"));
      case Authenticated(a) =>
        session := Some(SessionAdmin(a.id, a.fields.username, a.fields.name));
        res := Response(Ok, LoggedIn("Login successful", AdminView(a.fields.username, a.fields.name)));
    }

    /** POST /api/auth/logout: the session is gone afterwards. */
    method Logout() returns (res: Response<Body>)
      requires Valid()
      modifies this
      ensures Valid()
      ensures session == None && res == Response(Ok, LoggedOut(true))
      ensures admins == old(admins) && contactMessages == old(contactMessages)
    {
      session := None;
      res := Response(Ok, LoggedOut(true));
    }

    /** GET /api/auth/session: the stored projection, or null. */
    method CheckSession() returns (res: Response<Body>)
      requires Valid()
      ensures res == Response(Ok, SessionInfo(session))
    {
      res := Response(Ok, SessionInfo(session));
    }

    /** POST /api/contact */
    method SubmitContact(req: ContactRequest, now: nat) returns (res: Response<Body>)
      requires Valid()
      modifies this
      ensures Valid()
      ensures admins == old(admins) && session == old(session)
      ensures DecideContact(req).None? ==>
                res == Response(BadRequest, Error("All fields are required")) && contactMessages == old(contactMessages)
      ensures DecideContact(req).Some? ==>
                && res.status == Created && res.body.ContactSaved?
                && res.body.message == "Contact message saved successfully"
                && res.body.contactMessage.fields == DecideContact(req).value
                && res.body.contactMessage.createdAt == now
                && contactMessages == old(contactMessages) + [res.body.contactMessage]
                && forall i :: 0 <= i < |old(contactMessages)| ==>
                                 old(contactMessages)[i].id != res.body.contactMessage.id
    {
      match DecideContact(req)
      case None =>
        res := Response(BadRequest, Error("All fields are required"));
      case Some(insert) =>
        var message := ContactMessage(nextId, insert, now);
        contactMessages := contactMessages + [message];
        nextId := nextId + 1;
        res := Response(Created, ContactSaved("Contact message saved successfully", message));
    }

    /** GET /api/contact: every stored message, newest first; no session is asked for. */
    method ListContacts() returns (res: Response<Body>)
      requires Valid()
      ensures res.status == Ok && res.body.ContactList?
      ensures multiset(res.body.messages) == multiset(contactMessages)
      ensures forall i, j :: 0 <= i < j < |res.body.messages| ==>
                res.body.messages[i].createdAt >= res.body.messages[j].createdAt
    {
      var sorted := SortNewestFirst(contactMessages, ContactCreatedAt);
      res := Response(Ok, ContactList(sorted));
    }
  }

  /** After logging out, the session check answers null whatever the session held before. */
  method LogoutThenCheck(server: Server) returns (res: Response<Body>)
    requires server.Valid()
    modifies server
    ensures res == Response(Ok, SessionInfo(None))
  {
    var _ := server.Logout();
    res := server.CheckSession();
  }

  /** A successful login is visible to the next session check, without the password. */
  method LoginThenCheck(server: Server, req: LoginRequest, found: Option<nat>) returns (res: Response<Body>)
    requires server.Valid()
    requires req.username.Some? ==> IsLookupAnswer(server.admins, req.username.value, found)
    requires DecideLogin(server.admins, req, found).Authenticated?
    modifies server
    ensures var a := DecideLogin(old(server.admins), req, found).admin;
            res == Response(Ok, SessionInfo(Some(SessionAdmin(a.id, a.fields.username, a.fields.name))))
  {
    var _ := server.Login(req, found);
    res := server.CheckSession();
  }
}
