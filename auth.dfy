/** backend/src/middleware/auth.js: the bearer-token check in front of the
    API and the login handler that hands out the token. The admin password
    is `process.env.ADMIN_PASSWORD`, None when it is not set. */
module Auth {
  import opened Js

  /** What authenticate does with a request: refuse it with 401 and an
      error, or call `next`. */
  datatype Gate = Refuse(status: nat, error: string) | Next

  /** What login answers: an error with its status, or the token. */
  datatype LoginReply = LoginError(status: nat, error: string) | Granted(token: string, message: string)

  const BearerPrefix: string := "Bearer "
  const AuthRequired: string := "Authentication required"
  const InvalidCredentials: string := "Invalid credentials"

  /** `authHeader.substring(7)`. */
  function TokenOf(header: string): string
    requires StartsWith(header, BearerPrefix)
  {
    header[|BearerPrefix|..]
  }

  /** The middleware. A missing header, an empty one or one that does not
      start with "Bearer " is refused as unauthenticated; otherwise the text
      after the prefix must equal the admin password. */
  function Authenticate(header: Option<string>, adminPassword: Option<string>): (r: Gate)
    ensures !Truthy(header) || !StartsWith(header.value, BearerPrefix) ==> r == Refuse(401, AuthRequired)
    ensures Truthy(header) && StartsWith(header.value, BearerPrefix) ==>
              r == (if Some(TokenOf(header.value)) == adminPassword then Next else Refuse(401, InvalidCredentials))
  {
    if !Truthy(header) || !StartsWith(header.value, BearerPrefix) then Refuse(401, AuthRequired)
    else
      var token := TokenOf(header.value);
      if Some(token) != adminPassword then Refuse(401, InvalidCredentials)
      else Next
  }

  /** The login handler. */
  function Login(password: Option<string>, adminPassword: Option<string>): (r: LoginReply)
    ensures !Truthy(password) ==> r == LoginError(400, "Password required")
    ensures Truthy(password) && password != adminPassword ==> r == LoginError(401, "Invalid password")
    ensures r.Granted? <==> Truthy(password) && password == adminPassword
    ensures r.Granted? ==> r.token == password.value && r.message == "Login successful"
  {
    if !Truthy(password) then LoginError(400, "Password required")
    else if password != adminPassword then LoginError(401, "Invalid password")
    else Granted(password.value, "Login successful")
  }

  /** The prefix and the token make up the whole header: stripping seven
      characters from "Bearer " + t gives back t. */
  lemma TokenOfBearer(t: string)
    ensures StartsWith(BearerPrefix + t, BearerPrefix)
    ensures TokenOf(BearerPrefix + t) == t
  {
    assert (BearerPrefix + t)[..|BearerPrefix|] == BearerPrefix;
  }

  /** `next` is called exactly for the header "Bearer " followed by the admin
      password, and for no other header. */
  lemma AuthenticateIff(header: Option<string>, adminPassword: Option<string>)
    ensures Authenticate(header, adminPassword) == Next
            <==> adminPassword.Some? && header == Some(BearerPrefix + adminPassword.value)
  {
    if adminPassword.Some? && header == Some(BearerPrefix + adminPassword.value) {
      TokenOfBearer(adminPassword.value);
    }
    if Authenticate(header, adminPassword) == Next {
      var h := header.value;
      assert h == h[..|BearerPrefix|] + h[|BearerPrefix|..];
    }
  }

  /** Login then request: the token a successful login returns, sent as
      "Bearer " + token, passes the middleware. */
  lemma LoginTokenAuthenticates(password: Option<string>, adminPassword: Option<string>)
    requires Login(password, adminPassword).Granted?
    ensures Authenticate(Some(BearerPrefix + Login(password, adminPassword).token), adminPassword) == Next
  {
    AuthenticateIff(Some(BearerPrefix + Login(password, adminPassword).token), adminPassword);
  }

  /** With no admin password configured nothing gets through: every login
      fails and no header passes the middleware. */
  lemma UnsetPasswordLocksOut(header: Option<string>, password: Option<string>)
    ensures Authenticate(header, None) != Next
    ensures !Login(password, None).Granted?
  {
    AuthenticateIff(header, None);
  }

  /** An empty admin password: login refuses every password, the empty one
      as missing, yet a header value of exactly "Bearer " (nothing after the
      space) passes the middleware function. Whether an HTTP client can
      deliver that value with its trailing space intact is outside this
      model: HTTP parsers commonly strip trailing whitespace from header
      values. */
  lemma EmptyPasswordAsymmetry(password: Option<string>)
    ensures !Login(password, Some("")).Granted?
    ensures Login(Some(""), Some("")) == LoginError(400, "Password required")
    ensures Authenticate(Some(BearerPrefix), Some("")) == Next
  {
    AuthenticateIff(Some(BearerPrefix), Some(""));
    assert BearerPrefix + "" == BearerPrefix;
  }
}
