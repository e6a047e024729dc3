/** The user schema's field constraints, as Mongoose checks them before a save.
    A document is given with each field possibly absent (`None`); a `required`
    string must be present and non-empty, a `required` number present. */
module Schema {
  import opened Wrappers
  import Text

  const PasswordMinLength: nat := 8

  datatype SessionDoc = SessionDoc(token: Option<string>, expiresAt: Option<real>)
  datatype UserDoc = UserDoc(email: Option<string>, password: Option<string>, sessions: seq<SessionDoc>)

  /** A document path that a validator can reject. */
  datatype Path = Email | Password | SessionToken(index: nat) | SessionExpiresAt(index: nat)

  /** The first validator that failed on a path. */
  datatype Failure = Required(path: Path) | MinLength(path: Path, min: nat)

  /** Mongoose's `required` check for a string. */
  predicate PresentString(v: Option<string>) {
    v.Some? && v.value != []
  }

  predicate SessionWellFormed(s: SessionDoc) {
    PresentString(s.token) && s.expiresAt.Some?
  }

  /** The schema's constraints, stated directly: the trimmed email is non-empty,
      the password is at least eight UTF-16 code units long, and every session carries a
      token and an expiry. */
  predicate SchemaValid(d: UserDoc) {
    && d.email.Some? && |Text.Trim(d.email.value)| >= 1
    && d.password.Some? && Text.Utf16Length(d.password.value) >= PasswordMinLength
    && forall i :: 0 <= i < |d.sessions| ==> SessionWellFormed(d.sessions[i])
  }

  /** The email as stored: the `trim` setter runs on assignment. */
  function CastEmail(v: Option<string>): Option<string> {
    match v
    case Some(e) => Some(Text.Trim(e))
    case None => None
  }

  /** `minlength: 1` on the email can never be the first failure: a trimmed
      email shorter than one character is empty, which `required` rejects. */
  function EmailFailures(v: Option<string>): seq<Failure> {
    if !PresentString(CastEmail(v)) then [Required(Email)] else []
  }

  function PasswordFailures(v: Option<string>): seq<Failure> {
    if !PresentString(v) then [Required(Password)]
    else if Text.Utf16Length(v.value) < PasswordMinLength then [MinLength(Password, PasswordMinLength)]
    else []
  }

  /** Failures of the sessions `ss`, numbered from `start`. */
  function SessionFailures(ss: seq<SessionDoc>, start: nat): (fs: seq<Failure>)
    ensures fs == [] <==> forall i :: 0 <= i < |ss| ==> SessionWellFormed(ss[i])
  {
    if ss == [] then []
    else
      (if PresentString(ss[0].token) then [] else [Required(SessionToken(start))]) +
      (if ss[0].expiresAt.Some? then [] else [Required(SessionExpiresAt(start))]) +
      SessionFailures(ss[1..], start + 1)
  }

  /** Every failure Mongoose's validation reports for `d`, in schema order. */
  function Validate(d: UserDoc): (fs: seq<Failure>)
    ensures fs == [] <==> SchemaValid(d)
  {
    EmailFailures(d.email) + PasswordFailures(d.password) + SessionFailures(d.sessions, 0)
  }

  /** A session path is reported exactly when that session lacks the field. */
  lemma {:induction false} SessionFailureExactly(ss: seq<SessionDoc>, start: nat, i: nat)
    ensures Required(SessionToken(start + i)) in SessionFailures(ss, start)
            <==> i < |ss| && !PresentString(ss[i].token)
    ensures Required(SessionExpiresAt(start + i)) in SessionFailures(ss, start)
            <==> i < |ss| && ss[i].expiresAt.None?
  {
    if ss != [] {
      if i == 0 {
        SessionFailureAbsent(ss[1..], start + 1, start);
      } else {
        SessionFailureExactly(ss[1..], start + 1, i - 1);
      }
    }
  }

  /** Sessions numbered from `start` never report an index below `start`. */
  lemma {:induction false} SessionFailureAbsent(ss: seq<SessionDoc>, start: nat, j: nat)
    requires j < start
    ensures Required(SessionToken(j)) !in SessionFailures(ss, start)
    ensures Required(SessionExpiresAt(j)) !in SessionFailures(ss, start)
  {
    if ss != [] {
      SessionFailureAbsent(ss[1..], start + 1, j);
    }
  }

  /** The email is rejected exactly when it is absent or only whitespace. */
  lemma EmailRejectedIffBlank(d: UserDoc)
    ensures Required(Email) in Validate(d)
            <==> d.email.None? || Text.AllWhitespace(d.email.value)
  {
    assert Required(Email) !in PasswordFailures(d.password);
    SessionFailureNoField(d.sessions, 0);
  }

  /** The password is rejected as too short exactly when it is one to seven
      UTF-16 code units long. */
  lemma PasswordTooShortExactly(d: UserDoc)
    ensures MinLength(Password, PasswordMinLength) in Validate(d)
            <==> d.password.Some? && 0 < Text.Utf16Length(d.password.value) < PasswordMinLength
  {
    SessionFailureNoField(d.sessions, 0);
  }

  /** Session validation reports only session paths. */
  lemma {:induction false} SessionFailureNoField(ss: seq<SessionDoc>, start: nat)
    ensures forall f :: f in SessionFailures(ss, start) ==> f.Required? && (f.path.SessionToken? || f.path.SessionExpiresAt?)
  {
    if ss != [] {
      SessionFailureNoField(ss[1..], start + 1);
    }
  }
}
