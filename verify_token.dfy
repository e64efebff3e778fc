/**
 * The `verifyToken` middleware: a chain of early-return guards on the
 * `Authorization` header and the configured secret, then the token check,
 * whose thrown error is mapped to a status code by name. The token check
 * itself (`jwt.verify`) is a parameter, since its cryptography is not part
 * of this model.
 */
module VerifyTokenMiddleware {
  import opened Wrappers
  import opened Text

  /** One `res.status(status).json({ msg })` reply. */
  datatype Reply = Reply(status: nat, msg: string)

  /**
   * What one run of the middleware does: the replies it sends, the value it
   * leaves in `req.user`, and how many times it calls `next()`.
   */
  datatype Effects<P> = Effects(replies: seq<Reply>, user: Option<P>, nextCalls: nat)

  /** What `jwt.verify(token, secret)` does: return the decoded payload, or throw an error with a name. */
  datatype Verified<P> = Decoded(payload: P) | Thrown(name: string)

  const Prefix := "Bearer "
  const MissingHeader := "Authorization header missing"
  const BadFormat := "Invalid authorization format"
  const NoToken := "No token provided"
  const ConfigError := "Server configuration error"
  const Expired := "Token expired. Please log in again."
  const InvalidToken := "Invalid token"
  const VerifyFailed := "Token verification failed"

  /** A run that sends one reply and does nothing else. */
  function Respond<P>(status: nat, msg: string): Effects<P> {
    Effects([Reply(status, msg)], None, 0)
  }

  /** JavaScript truthiness of a string that may be `undefined`: present and non-empty. */
  predicate Truthy(s: Option<string>) {
    s.Some? && s.value != ""
  }

  /** `authHeader.split(" ")[1]`, `undefined` when there is no second field. */
  function SecondField(header: string): (t: Option<string>)
    ensures t.Some? <==> ' ' in header
    ensures t.Some? ==> NoSpace(t.value)
  {
    var fields := Split(header);
    SplitHasSpace(header);
    SplitFieldsHaveNoSpace(header);
    if |fields| > 1 then Some(fields[1]) else None
  }

  /** The catch block: the reply for an error thrown by `jwt.verify`, chosen by the error's name. */
  function ErrorReply(name: string): (r: Reply)
    ensures r.status == 401 <==> name == "TokenExpiredError"
    ensures r.status == 403 <==> name == "JsonWebTokenError"
    ensures r.status == 500 <==> name != "TokenExpiredError" && name != "JsonWebTokenError"
  {
    if name == "TokenExpiredError" then Reply(401, Expired)
    else if name == "JsonWebTokenError" then Reply(403, InvalidToken)
    else Reply(500, VerifyFailed)
  }

  /** The end of the try block, or the catch block, once `jwt.verify` has returned or thrown. */
  function Settle<P>(outcome: Verified<P>): (e: Effects<P>)
    ensures |e.replies| + e.nextCalls == 1
    ensures e.nextCalls == 1 <==> outcome.Decoded?
    ensures outcome.Decoded? ==> e.user == Some(outcome.payload)
    ensures outcome.Thrown? ==> e.user.None? && e.replies == [ErrorReply(outcome.name)]
  {
    match outcome
    case Decoded(payload) => Effects([], Some(payload), 1)
    case Thrown(name) => Effects([ErrorReply(name)], None, 0)
  }

  /** The token, when the header passes the three header guards. */
  function HeaderToken(authorization: Option<string>): Option<string> {
    if !Truthy(authorization) || !StartsWith(authorization.value, Prefix) then None
    else
      var token := SecondField(authorization.value);
      if Truthy(token) then token else None
  }

  /**
   * `verifyToken(req, res, next)` with `req.headers.authorization`,
   * `process.env.JWT_SECRET` and `jwt.verify` as parameters. Every run
   * either sends exactly one reply or calls `next()` exactly once, never
   * both, and `req.user` is set exactly when `next()` is called.
   */
  function VerifyToken<P>(authorization: Option<string>, secret: Option<string>,
                          verify: (string, string) -> Verified<P>): (e: Effects<P>)
    ensures |e.replies| + e.nextCalls == 1
    ensures e.user.Some? <==> e.nextCalls == 1
  {
    if !Truthy(authorization) then Respond(401, MissingHeader)
    else if !StartsWith(authorization.value, Prefix) then Respond(401, BadFormat)
    else
      var token := SecondField(authorization.value);
      if !Truthy(token) then Respond(401, NoToken)
      else if !Truthy(secret) then Respond(500, ConfigError)
      else Settle(verify(token.value, secret.value))
  }

  /** A missing or empty header is answered 401 "Authorization header missing", without `next()`. */
  lemma MissingHeaderRejected<P>(authorization: Option<string>, secret: Option<string>,
                                 verify: (string, string) -> Verified<P>)
    requires authorization == None || authorization == Some("")
    ensures VerifyToken(authorization, secret, verify) == Respond(401, MissingHeader)
  {
  }

  /** A header not starting with the exact, case-sensitive `"Bearer "` is answered 401 "Invalid authorization format". */
  lemma PrefixRequired<P>(header: string, secret: Option<string>, verify: (string, string) -> Verified<P>)
    requires header != "" && !StartsWith(header, Prefix)
    ensures VerifyToken(Some(header), secret, verify) == Respond(401, BadFormat)
  {
  }

  /** After `"Bearer "`, the token is the text up to the next space (or the end): the first field of the rest. */
  lemma TokenAfterPrefix(rest: string)
    ensures SecondField(Prefix + rest) == Some(Split(rest)[0])
  {
    assert Prefix + rest == "Bearer" + " " + rest;
    SplitAfterWord("Bearer", rest);
  }

  /** A space-free word after `"Bearer "` is the token, whatever follows the next space. */
  lemma TokenIsFirstWord(word: string, tail: string)
    requires NoSpace(word)
    ensures SecondField(Prefix + word) == Some(word)
    ensures SecondField(Prefix + word + " " + tail) == Some(word)
  {
    TokenAfterPrefix(word);
    SplitWord(word);
    TokenAfterPrefix(word + " " + tail);
    assert Prefix + word + " " + tail == Prefix + (word + " " + tail);
    SplitAfterWord(word, tail);
  }

  /**
   * A header that is `"Bearer "` alone, or has a second space right after
   * it (`"Bearer  abc"`), carries an empty token and is answered 401 "No
   * token provided".
   */
  lemma EmptyTokenRejected<P>(rest: string, secret: Option<string>, verify: (string, string) -> Verified<P>)
    requires rest == "" || rest[0] == ' '
    ensures VerifyToken(Some(Prefix + rest), secret, verify) == Respond(401, NoToken)
  {
    var header := Prefix + rest;
    assert header[..|Prefix|] == Prefix;
    TokenAfterPrefix(rest);
    if rest == "" {
      assert Split(rest) == [""];
    } else {
      assert "" + " " + rest[1..] == rest;
      SplitAfterWord("", rest[1..]);
    }
  }

  /**
   * A header of `"Bearer "`, a non-empty space-free word and anything after
   * the next space is settled by `jwt.verify(word, secret)` once a secret
   * is configured.
   */
  lemma FirstWordVerified<P>(word: string, tail: string, secret: string, verify: (string, string) -> Verified<P>)
    requires word != "" && NoSpace(word) && secret != ""
    ensures VerifyToken(Some(Prefix + word + " " + tail), Some(secret), verify) == Settle(verify(word, secret))
  {
    var header := Prefix + word + " " + tail;
    assert header[..|Prefix|] == Prefix;
    TokenIsFirstWord(word, tail);
  }

  /** In `"Bearer abc def"` the token is `abc`: the header is settled by `jwt.verify("abc", secret)`. */
  lemma ExtraFieldIgnored<P>(secret: string, verify: (string, string) -> Verified<P>)
    requires secret != ""
    ensures VerifyToken(Some("Bearer abc def"), Some(secret), verify) == Settle(verify("abc", secret))
  {
    assert NoSpace("abc");
    FirstWordVerified("abc", "def", secret, verify);
    assert Prefix + "abc" + " " + "def" == "Bearer abc def";
  }

  /**
   * The 500 "Server configuration error" reply is sent exactly when the
   * header passed all three header guards and the secret is missing or empty.
   */
  lemma SecretCheckedLast<P>(authorization: Option<string>, secret: Option<string>,
                             verify: (string, string) -> Verified<P>)
    ensures VerifyToken(authorization, secret, verify).replies == [Reply(500, ConfigError)] <==>
      HeaderToken(authorization).Some? && !Truthy(secret)
  {
    var e := VerifyToken(authorization, secret, verify);
    if HeaderToken(authorization).Some? && Truthy(secret) {
      var token := HeaderToken(authorization).value;
      match verify(token, secret.value)
      case Decoded(_) =>
      case Thrown(name) =>
        assert e.replies == [ErrorReply(name)];
        assert ErrorReply(name).msg != ConfigError;
    }
  }

  /**
   * `next()` is called, once, exactly when the header yields a token, the
   * secret is set and `jwt.verify` returns; `req.user` is then the decoded
   * payload and no reply is sent.
   */
  lemma AcceptedIff<P>(authorization: Option<string>, secret: Option<string>,
                       verify: (string, string) -> Verified<P>)
    ensures VerifyToken(authorization, secret, verify).nextCalls == 1 <==>
      HeaderToken(authorization).Some? && Truthy(secret) &&
      verify(HeaderToken(authorization).value, secret.value).Decoded?
    ensures VerifyToken(authorization, secret, verify).nextCalls == 1 ==>
      VerifyToken(authorization, secret, verify) ==
        Effects([], Some(verify(HeaderToken(authorization).value, secret.value).payload), 1)
  {
  }

  /**
   * An error thrown by `jwt.verify` becomes one reply chosen by its name:
   * 401 for `TokenExpiredError`, 403 for `JsonWebTokenError`, 500 for any
   * other, and `next()` is not called.
   */
  lemma ThrownErrorReplied<P>(authorization: Option<string>, secret: Option<string>,
                              verify: (string, string) -> Verified<P>)
    requires HeaderToken(authorization).Some? && Truthy(secret)
    requires verify(HeaderToken(authorization).value, secret.value).Thrown?
    ensures var name := verify(HeaderToken(authorization).value, secret.value).name;
      VerifyToken(authorization, secret, verify) == Effects([ErrorReply(name)], None, 0)
  {
  }
}
