/** The user document: its fields, the pre-save password hook, the
    refresh-session ledger and the credential lookup. Password hashing and
    comparison (bcrypt) are function parameters, and so is the outcome of the
    database write; the clock reading is `nowMs`, as in `Expiry`. */
module UserModel {
  import opened Wrappers
  import Text
  import Expiry
  import Schema
  import Projection

  /** One refresh session: the token and its expiry in epoch seconds. */
  datatype Session = Session(token: string, expiresAt: real)

  const SaveSessionFailurePrefix: string := "Failed to save session to database.\n"

  /** The reason a save is rejected with when validation fails. */
  const ValidationFailure: string := "ValidationError"

  /** The sessions as the schema sees them: both fields always present. */
  function SessionDocs(ss: seq<Session>): seq<Schema.SessionDoc>
  {
    seq(|ss|, i requires 0 <= i < |ss| => Schema.SessionDoc(Some(ss[i].token), Some(ss[i].expiresAt)))
  }

  function DocOf(email: string, password: string, sessions: seq<Session>): Schema.UserDoc {
    Schema.UserDoc(Some(email), Some(password), SessionDocs(sessions))
  }

  /** A loaded user passes validation exactly when its email is not blank, its
      password is at least eight UTF-16 code units long and no session token is empty. */
  lemma DocValidIff(email: string, password: string, sessions: seq<Session>)
    ensures Schema.SchemaValid(DocOf(email, password, sessions)) <==>
            && !Text.AllWhitespace(email)
            && Text.Utf16Length(password) >= Schema.PasswordMinLength
            && forall i :: 0 <= i < |sessions| ==> sessions[i].token != []
  {
    var d := DocOf(email, password, sessions);
    forall i | 0 <= i < |sessions|
      ensures d.sessions[i] == Schema.SessionDoc(Some(sessions[i].token), Some(sessions[i].expiresAt))
    {
    }
  }

  /** Appending a session with a non-empty token keeps a valid document valid. */
  lemma AppendKeepsValid(email: string, password: string, sessions: seq<Session>, s: Session)
    requires Schema.SchemaValid(DocOf(email, password, sessions))
    requires s.token != []
    ensures Schema.SchemaValid(DocOf(email, password, sessions + [s]))
  {
    DocValidIff(email, password, sessions);
    DocValidIff(email, password, sessions + [s]);
  }

  class User {
    const id: string
    var email: string
    var password: string
    var sessions: seq<Session>
    /** Mongoose's change tracking for the `password` path (`isModified("password")`). */
    var passwordModified: bool

    /** The `trim` setter keeps the stored email trimmed. */
    ghost predicate Valid()
      reads this
    {
      Text.IsTrimmed(email)
    }

    /** `new User({ email, password })`: a new document, every set path modified. */
    constructor (id: string, email: string, password: string)
      ensures Valid()
      ensures this.id == id && this.email == Text.Trim(email) && this.password == password
      ensures sessions == [] && passwordModified
    {
      this.id := id;
      this.email := Text.Trim(email);
      this.password := password;
      sessions := [];
      passwordModified := true;
    }

    function Doc(): Schema.UserDoc
      reads this
    {
      DocOf(email, password, sessions)
    }

    /** `user.toObject()`: the document as a plain object. */
    function ToObject(): (o: map<string, Projection.Json>)
      reads this
    {
      var ss := sessions;
      map[
        "_id" := Projection.JString(id),
        "email" := Projection.JString(email),
        "password" := Projection.JString(password),
        "sessions" := Projection.JArray(seq(|ss|, i requires 0 <= i < |ss| =>
          Projection.JObject(map["token" := Projection.JString(ss[i].token),
                                 "expiresAt" := Projection.JNumber(ss[i].expiresAt)])))
      ]
    }

    /** `toJSON`: only the id and the email leave the server. */
    function ToJSON(): (r: map<string, Projection.Json>)
      reads this
      ensures r.Keys == {"_id", "email"}
      ensures r["_id"] == Projection.JString(id) && r["email"] == Projection.JString(email)
    {
      var o := ToObject();
      var r := Projection.ToJSON(o);
      assert "_id" in r && "email" in r;
      r
    }

    /** `user.password = p`: Mongoose marks the path modified only when the value changes. */
    method SetPassword(p: string)
      requires Valid()
      modifies this`password, this`passwordModified
      ensures Valid()
      ensures password == p
      ensures passwordModified == (old(passwordModified) || p != old(password))
    {
      passwordModified := passwordModified || p != password;
      password := p;
    }

    /** The pre-save hook: re-hash the password only when it was modified.
        `hash` stands for bcrypt with a freshly generated salt of cost factor 10. */
    method PreSave(hash: string -> string)
      requires Valid()
      modifies this`password
      ensures Valid()
      ensures passwordModified ==> password == hash(old(password))
      ensures !passwordModified ==> password == old(password)
    {
      if passwordModified {
        password := hash(password);
      }
    }

    /** `user.save()`: validation first, then the pre-save hook, then the write,
        whose failure (`storeError`) is supplied by the caller. A successful
        write clears the change tracking; a failed one leaves the hashed
        password in memory, still marked modified. */
    method Save(hash: string -> string, storeError: Option<string>) returns (r: Settled<()>)
      requires Valid()
      modifies this`password, this`passwordModified
      ensures Valid()
      ensures !Schema.SchemaValid(old(Doc())) ==>
                r == Rejected(Some(ValidationFailure)) &&
                password == old(password) && passwordModified == old(passwordModified)
      ensures Schema.SchemaValid(old(Doc())) ==>
                && password == (if old(passwordModified) then hash(old(password)) else old(password))
                && r == (if storeError.None? then Resolved(()) else Rejected(storeError))
                && passwordModified == (old(passwordModified) && storeError.Some?)
    {
      if !Schema.SchemaValid(Doc()) {
        r := Rejected(Some(ValidationFailure));
        return;
      }
      PreSave(hash);
      match storeError
      case None =>
        passwordModified := false;
        r := Resolved(());
      case Some(_) =>
        r := Rejected(storeError);
    }

    /** `saveSessionToDatabase`: push `{token, expiresAt}` (expiry ten days
        after `nowMs`), then save; resolve with the token or reject with the
        save's reason. The pushed session stays in memory even if the save fails. */
    method SaveSessionToDatabase(token: string, nowMs: int, hash: string -> string, storeError: Option<string>)
      returns (r: Settled<string>)
      requires Valid()
      modifies this`sessions, this`password, this`passwordModified
      ensures Valid()
      ensures sessions == old(sessions) + [Session(token, Expiry.RefreshTokenExpiryTime(nowMs))]
      ensures !r.Pending?
      ensures r.Resolved? ==> r.value == token
      ensures r.Resolved? <==> Schema.SchemaValid(DocOf(old(email), old(password), sessions)) && storeError.None?
      ensures !Schema.SchemaValid(DocOf(old(email), old(password), sessions)) ==>
                && r == Rejected(Some(ValidationFailure))
                && password == old(password) && passwordModified == old(passwordModified)
      ensures Schema.SchemaValid(DocOf(old(email), old(password), sessions)) ==>
                && password == (if old(passwordModified) then hash(old(password)) else old(password))
                && passwordModified == (old(passwordModified) && storeError.Some?)
                && (storeError.Some? ==> r == Rejected(storeError))
    {
      var expiresAt := Expiry.RefreshTokenExpiryTime(nowMs);
      sessions := sessions + [Session(token, expiresAt)];
      var saved := Save(hash, storeError);
      match saved
      case Resolved(_) => r := Resolved(token);
      case Rejected(reason) => r := Rejected(reason);
      case Pending => r := Pending;
    }

    /** `createSession`: wait for the refresh token (`issued` is the settled
        promise of `generateRefreshAuthToken`), record the session, and resolve
        with the same token; any rejection is re-raised with the prefix
        "Failed to save session to database.\n". If the token promise never
        settles, neither does this one and the user is untouched. */
    method CreateSession(issued: Settled<string>, nowMs: int, hash: string -> string, storeError: Option<string>)
      returns (r: Settled<string>)
      requires Valid()
      modifies this`sessions, this`password, this`passwordModified
      ensures Valid()
      ensures r.Pending? <==> issued.Pending?
      ensures !issued.Resolved? ==>
                sessions == old(sessions) && password == old(password) && passwordModified == old(passwordModified)
      ensures issued.Rejected? ==> r == Rejected(Some(SaveSessionFailurePrefix + ReasonText(issued.reason)))
      ensures r.Resolved? ==> issued.Resolved? && r.value == issued.value
      ensures issued.Resolved? ==>
                var valid := Schema.SchemaValid(DocOf(old(email), old(password), sessions));
                && sessions == old(sessions) + [Session(issued.value, Expiry.RefreshTokenExpiryTime(nowMs))]
                && (r.Resolved? <==> valid && storeError.None?)
                && (!valid ==>
                      && r == Rejected(Some(SaveSessionFailurePrefix + ValidationFailure))
                      && password == old(password) && passwordModified == old(passwordModified))
                && (valid ==>
                      && password == (if old(passwordModified) then hash(old(password)) else old(password))
                      && passwordModified == (old(passwordModified) && storeError.Some?))
                && (valid && storeError.Some? ==>
                      r == Rejected(Some(SaveSessionFailurePrefix + storeError.value)))
    {
      match issued
      case Pending =>
        r := Pending;
      case Rejected(reason) =>
        r := Rejected(Some(SaveSessionFailurePrefix + ReasonText(reason)));
      case Resolved(token) =>
        var saved := SaveSessionToDatabase(token, nowMs, hash, storeError);
        if saved.Rejected? {
          r := Rejected(Some(SaveSessionFailurePrefix + ReasonText(saved.reason)));
        } else {
          r := saved;
        }
    }
  }

  /** `User.findOne({ email })`: the position of the first user, in collection
      order, whose email equals `email`; `|users|` when there is none. */
  function FirstWithEmail(users: seq<User>, email: string): (i: nat)
    reads users
    ensures i <= |users|
    ensures forall j :: 0 <= j < i ==> users[j].email != email
    ensures i < |users| ==> users[i].email == email
  {
    if users == [] then 0
    else if users[0].email == email then 0
    else 1 + FirstWithEmail(users[1..], email)
  }

  /** `findByCredentials`: look the user up by email, then check the password
      with `compare` (bcrypt's comparison of a plaintext with a stored hash).
      Both failures reject with no reason, so they cannot be told apart. */
  function FindByCredentials(users: seq<User>, email: string, password: string,
                             compare: (string, string) -> bool): (r: Settled<User>)
    reads users
    ensures !r.Pending?
    ensures !r.Resolved? ==> r == Rejected(None)
    ensures (forall u :: u in users ==> u.email != email) ==> r == Rejected(None)
    ensures r.Resolved? ==> r.value in users && r.value.email == email && compare(password, r.value.password)
    ensures r.Resolved? ==> r.value == users[FirstWithEmail(users, email)]
    ensures r.Resolved? <==>
              FirstWithEmail(users, email) < |users| &&
              compare(password, users[FirstWithEmail(users, email)].password)
  {
    var i := FirstWithEmail(users, email);
    if i == |users| then Rejected(None)
    else if compare(password, users[i].password) then Resolved(users[i])
    else Rejected(None)
  }
}
