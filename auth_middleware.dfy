// The authentication middleware: the Authorization header is looked up, split on
// single spaces into exactly two parts, and its scheme must be "Bearer" in any
// letter case; the second part is the token handed to the JWT signature check,
// which is a parameter here, and the request then carries the fields the
// middleware copies from the verified claims.
module AuthMiddleware {
  import opened Wrappers
  import Text

  /** `String.prototype.split` with a one-character separator: empty parts are kept. */
  function Split(s: string, sep: char): (parts: seq<string>)
    ensures |parts| >= 1
    ensures forall p :: p in parts ==> sep !in p
    decreases |s|
  {
    if s == [] then [[]]
    else
      var rest := Split(s[1..], sep);
      if s[0] == sep then [[]] + rest else [[s[0]] + rest[0]] + rest[1..]
  }

  function Join(parts: seq<string>, sep: char): string
    requires |parts| >= 1
    decreases |parts|
  {
    if |parts| == 1 then parts[0] else parts[0] + [sep] + Join(parts[1..], sep)
  }

  function Occurrences(s: string, c: char): nat
    decreases |s|
  {
    if s == [] then 0 else (if s[0] == c then 1 else 0) + Occurrences(s[1..], c)
  }

  /** Joining the parts again gives back the text. */
  lemma {:induction false} SplitJoin(s: string, sep: char)
    ensures Join(Split(s, sep), sep) == s
    decreases |s|
  {
    if s != [] {
      SplitJoin(s[1..], sep);
      var rest := Split(s[1..], sep);
      if s[0] == sep {
        assert Split(s, sep)[1..] == rest;
      } else if |rest| == 1 {
        assert s == [s[0]] + s[1..];
      } else {
        var parts := Split(s, sep);
        assert parts[1..] == rest[1..];
        assert Join(rest, sep) == rest[0] + [sep] + Join(rest[1..], sep);
        assert s == [s[0]] + s[1..];
      }
    }
  }

  /** There is one part more than there are separators. */
  lemma {:induction false} SplitCount(s: string, sep: char)
    ensures |Split(s, sep)| == Occurrences(s, sep) + 1
    decreases |s|
  {
    if s != [] {
      SplitCount(s[1..], sep);
    }
  }

  lemma {:induction false} SplitWithoutSeparator(s: string, sep: char)
    requires sep !in s
    ensures Split(s, sep) == [s]
    decreases |s|
  {
    if s != [] {
      SplitWithoutSeparator(s[1..], sep);
      assert s == [s[0]] + s[1..];
    }
  }

  lemma {:induction false} SplitAtFirst(a: string, b: string, sep: char)
    requires sep !in a
    ensures Split(a + [sep] + b, sep) == [a] + Split(b, sep)
    decreases |a|
  {
    var s := a + [sep] + b;
    if a == [] {
      assert s[1..] == b;
    } else {
      assert s[1..] == a[1..] + [sep] + b;
      SplitAtFirst(a[1..], b, sep);
      assert a == [a[0]] + a[1..];
    }
  }

  datatype AuthError = NoTokenProvided | TokenError | TokenMalformatted | TokenInvalid

  /** `headers['authorization'] || headers['Authorization']`: an empty value counts as missing. */
  function AuthorizationHeader(headers: map<string, string>): Option<string> {
    if "authorization" in headers && headers["authorization"] != "" then Some(headers["authorization"])
    else if "Authorization" in headers && headers["Authorization"] != "" then Some(headers["Authorization"])
    else None
  }

  /** `/^Bearer$/i`. */
  predicate IsBearer(scheme: string) {
    Text.EqualsIgnoreCase(scheme, "Bearer")
  }

  /** The three checks in order: header present, two space-separated parts, Bearer scheme. */
  function ExtractToken(headers: map<string, string>): Result<string, AuthError> {
    match AuthorizationHeader(headers)
    case None => Failure(NoTokenProvided)
    case Some(h) =>
      var parts := Split(h, ' ');
      if |parts| != 2 then Failure(TokenError)
      else if !IsBearer(parts[0]) then Failure(TokenMalformatted)
      else Success(parts[1])
  }

  /** The lower-case header is consulted first; the capitalised one only when that is missing or
      empty; with neither, the request is refused before anything else. */
  lemma HeaderLookup(headers: map<string, string>)
    ensures "authorization" in headers && headers["authorization"] != "" ==>
      AuthorizationHeader(headers) == Some(headers["authorization"])
    ensures AuthorizationHeader(headers).None? <==>
      ("authorization" !in headers || headers["authorization"] == "") &&
      ("Authorization" !in headers || headers["Authorization"] == "")
    ensures ExtractToken(headers) == Failure(NoTokenProvided) <==> AuthorizationHeader(headers).None?
  {
  }

  /** A present header is refused as a token error exactly when it does not hold exactly one
      space, whatever its scheme. */
  lemma TokenErrorExactly(headers: map<string, string>)
    requires AuthorizationHeader(headers).Some?
    ensures ExtractToken(headers) == Failure(TokenError) <==>
      Occurrences(AuthorizationHeader(headers).value, ' ') != 1
  {
    SplitCount(AuthorizationHeader(headers).value, ' ');
  }

  /** A token is handed on exactly when the header is a Bearer scheme, one space and a token
      without spaces; the token is the text after the space. */
  lemma AcceptedHeaders(headers: map<string, string>, token: string)
    requires AuthorizationHeader(headers).Some?
    ensures ExtractToken(headers) == Success(token) <==>
      exists scheme :: AuthorizationHeader(headers).value == scheme + " " + token &&
        ' ' !in scheme && ' ' !in token && IsBearer(scheme)
  {
    var h := AuthorizationHeader(headers).value;
    var parts := Split(h, ' ');
    if ExtractToken(headers) == Success(token) {
      SplitJoin(h, ' ');
      assert parts[1..] == [token];
      assert h == parts[0] + " " + token;
    }
    if exists scheme :: h == scheme + " " + token && ' ' !in scheme && ' ' !in token && IsBearer(scheme) {
      var scheme :| h == scheme + " " + token && ' ' !in scheme && ' ' !in token && IsBearer(scheme);
      SplitAtFirst(scheme, token, ' ');
      SplitWithoutSeparator(token, ' ');
    }
  }

  /** `Authorization: Bearer <token>` yields the token, in any letter case of the scheme. */
  lemma BearerRoundTrip(scheme: string, token: string)
    requires Text.ToUpper(scheme) == "BEARER" && ' ' !in token
    ensures ExtractToken(map["authorization" := scheme + " " + token]) == Success(token)
  {
    var headers := map["authorization" := scheme + " " + token];
    assert Text.ToUpper("Bearer") == "BEARER";
    forall i | 0 <= i < |scheme| ensures scheme[i] != ' ' {
      assert Text.ToUpper(scheme)[i] == "BEARER"[i];
    }
    assert AuthorizationHeader(headers) == Some(scheme + " " + token);
    AcceptedHeaders(headers, token);
  }

  /** The claims of a token the signature check accepts; the login route signs the user id, the
      user name and the role names. */
  datatype Claims = Claims(userId: int, username: string, roles: seq<string>)

  /** The request fields the later middleware and handlers read: `req.userId`, `req.username`
      and `req.roles`, the last possibly never set. */
  datatype Principal = Principal(userId: int, username: string, roles: Option<seq<string>>)

  /** What the middleware copies onto the request, as written: the user id and the user name.
      `req.roles` is never assigned. */
  function AttachAsWritten(decoded: Claims): Principal {
    Principal(decoded.userId, decoded.username, None)
  }

  /** What the role check expects to find, evidently intended: the signed role names as well. */
  function AttachIntended(decoded: Claims): Principal {
    Principal(decoded.userId, decoded.username, Some(decoded.roles))
  }

  /** The whole middleware. `verify` stands for `jwt.verify` with the server's secret: the claims
      of a token it accepts, nothing for one it rejects. */
  function Authenticate(headers: map<string, string>, verify: string -> Option<Claims>)
    : (r: Result<Principal, AuthError>)
    ensures ExtractToken(headers).Failure? ==> r == Failure(ExtractToken(headers).error)
    ensures ExtractToken(headers).Success? && verify(ExtractToken(headers).value).None? ==>
      r == Failure(TokenInvalid)
    ensures r.Success? <==> ExtractToken(headers).Success? && verify(ExtractToken(headers).value).Some?
    ensures r.Success? ==>
      var claims := verify(ExtractToken(headers).value).value;
      r.value.userId == claims.userId && r.value.username == claims.username && r.value.roles.None?
  {
    match ExtractToken(headers)
    case Failure(e) => Failure(e)
    case Success(token) =>
      match verify(token)
      case None => Failure(TokenInvalid)
      case Some(decoded) => Success(AttachAsWritten(decoded))
  }
}
