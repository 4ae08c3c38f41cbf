/**
  The exported flow of src/index.js. The module-level registry
  `const state = new StateToken()` is the `state` parameter of each method.
  Mail delivery is the `err` input of the send callback, and the expiry timer
  is an explicit call made when it fires; timer handles are plain numbers.
 */
module Auth {
  import opened Wrappers
  import opened Hex
  import opened UserTokens
  import opened StateTokens
  import opened Mail

  const Subject := "Authentication"

  function TokenMessage(token: string): string {
    "Your token is: " + token
  }

  /**
    The synchronous part of `authenticateUser`: builds the UserToken, generates
    its token and the message handed to `sendMail`, and returns the token.
    `userToken` is the object the send callback captures. The registry is not
    touched here.
   */
  method AuthenticateUser(mail: string, password: string, sender: string,
                          idBytes: seq<Byte>, tokenBytes: seq<Byte>, hash: string -> string)
    returns (token: Option<string>, userToken: UserToken, mailOptions: Envelope)
    requires |idBytes| == IdBytes && |tokenBytes| == TokenBytes
    ensures fresh(userToken)
    ensures token == userToken.token == Some(ToHex(tokenBytes)) && IsTokenString(token.value)
    ensures userToken.id == ToHex(idBytes) && userToken.email == mail && userToken.password == hash(password)
    ensures mailOptions == Text(sender, mail, Subject, Some(TokenMessage(token.value)))
  {
    userToken := new UserToken(mail, password, idBytes);
    userToken.GenerateToken(tokenBytes, hash);
    mailOptions := Text(sender, mail, Subject, Some(TokenMessage(userToken.token.value)));
    token := userToken.token;
  }

  /**
    The callback given to `sendMail`. On an error nothing is registered;
    otherwise the expiry timer `timeOut` is started and the token registered.
   */
  method SendMailCallback(state: StateToken, userToken: UserToken, err: bool, timeOut: TimerId)
    modifies state
    ensures err ==> state.state == old(state.state)
    ensures !err ==> state.state == Added(old(state.state), Entry(userToken.Snapshot(), timeOut))
    ensures !err ==> HasKey(state.state, userToken.token)
    ensures old(state.Valid()) ==> state.Valid()
  {
    if err {
      return;
    }
    state.AddToken(Entry(userToken.Snapshot(), timeOut));
  }

  /**
    `authenticateToken`: true exactly when the token is registered; then its
    entry is removed and its expiry timer is cleared (`cleared`).
   */
  method AuthenticateToken(state: StateToken, token: Key) returns (ok: bool, cleared: Option<TimerId>)
    requires state.Valid()
    modifies state
    ensures ok <==> HasKey(old(state.state), token)
    ensures state.state == Removed(old(state.state), token).rest
    ensures !ok ==> state.state == old(state.state) && cleared == None
    ensures ok ==> cleared == Some(Lookup(old(state.state), token).value.timeOutID)
    ensures state.Valid() && !HasKey(state.state, token)
  {
    var userToken := state.GetToken(token);
    if userToken != None {
      var outcome, response := state.RemoveToken(EntryArg(userToken.value));
      cleared := Some(response.value.timeOutID);
      return true, cleared;
    }
    return false, None;
  }

  /**
    The expiry timer as written: it hands `removeToken` the bare UserToken
    rather than an entry. Its callback ignores the removed entry.
   */
  method ExpireAsWritten(state: StateToken, userToken: UserToken) returns (outcome: Outcome)
    modifies state
    ensures outcome == ThrewTypeError <==> old(state.state) != []
    ensures state.state == old(state.state)
  {
    var response;
    outcome, response := state.RemoveToken(BareUserToken(userToken.Snapshot()));
  }

  /**
    The expiry timer as intended: it hands `removeToken` an entry-shaped
    argument for its own token and timer, so that entry is removed.
   */
  method Expire(state: StateToken, userToken: UserToken, timeOut: TimerId) returns (removed: Option<Entry>)
    modifies state
    ensures Removal(state.state, removed) == Removed(old(state.state), userToken.token)
    ensures removed.Some? <==> HasKey(old(state.state), userToken.token)
    ensures old(state.Valid()) ==> state.Valid() && !HasKey(state.state, userToken.token)
  {
    var outcome;
    outcome, removed := state.RemoveToken(EntryArg(Entry(userToken.Snapshot(), timeOut)));
  }

  /** Redeeming the same token twice in a row: the second attempt always fails. */
  method RedeemTwice(state: StateToken, token: Key) returns (first: bool, second: bool)
    requires state.Valid()
    modifies state
    ensures first == HasKey(old(state.state), token)
    ensures !second
    ensures state.Valid() && state.state == Removed(old(state.state), token).rest
  {
    var cleared;
    first, cleared := AuthenticateToken(state, token);
    second, cleared := AuthenticateToken(state, token);
  }

  /**
    A delivered token, on any registry: the returned token is registered,
    the first redemption succeeds and clears the timer, the second fails.
   */
  method DeliveredTokenRedeemsOnce(state: StateToken, mail: string, password: string, sender: string,
                                   idBytes: seq<Byte>, tokenBytes: seq<Byte>, hash: string -> string,
                                   timeOut: TimerId)
    returns (token: Option<string>, first: bool, second: bool)
    requires |idBytes| == IdBytes && |tokenBytes| == TokenBytes
    requires state.Valid()
    modifies state
    ensures token == Some(ToHex(tokenBytes))
    ensures first && !second
    ensures state.Valid()
  {
    var userToken, mailOptions;
    token, userToken, mailOptions := AuthenticateUser(mail, password, sender, idBytes, tokenBytes, hash);
    SendMailCallback(state, userToken, false, timeOut);
    first, second := RedeemTwice(state, token);
  }

  /**
    A failed delivery registers nothing: a token not already registered
    cannot be redeemed, and the registry is left as it was.
   */
  method RejectedDeliveryNotRedeemable(state: StateToken, mail: string, password: string, sender: string,
                                       idBytes: seq<Byte>, tokenBytes: seq<Byte>, hash: string -> string,
                                       timeOut: TimerId)
    returns (redeemed: bool)
    requires |idBytes| == IdBytes && |tokenBytes| == TokenBytes
    requires state.Valid() && !HasKey(state.state, Some(ToHex(tokenBytes)))
    modifies state
    ensures !redeemed
    ensures state.state == old(state.state)
  {
    var token, userToken, mailOptions := AuthenticateUser(mail, password, sender, idBytes, tokenBytes, hash);
    SendMailCallback(state, userToken, true, timeOut);
    var cleared;
    redeemed, cleared := AuthenticateToken(state, token);
  }

  /**
    As written, on any registry: once a delivered token's timer fires, the
    expiry throws a TypeError and its entry is still registered. The throw
    escapes a timer callback, where nothing catches it.
   */
  method ExpiryAsWrittenThrows(state: StateToken, mail: string, password: string, sender: string,
                               idBytes: seq<Byte>, tokenBytes: seq<Byte>, hash: string -> string,
                               timeOut: TimerId)
    returns (token: Option<string>, outcome: Outcome)
    requires |idBytes| == IdBytes && |tokenBytes| == TokenBytes
    requires state.Valid()
    modifies state
    ensures outcome == ThrewTypeError && HasKey(state.state, token)
  {
    var userToken, mailOptions;
    token, userToken, mailOptions := AuthenticateUser(mail, password, sender, idBytes, tokenBytes, hash);
    SendMailCallback(state, userToken, false, timeOut);
    outcome := ExpireAsWritten(state, userToken);
  }

  /** With the intended expiry, on any registry, an expired token is no longer redeemable. */
  method ExpiredTokenNotRedeemable(state: StateToken, mail: string, password: string, sender: string,
                                   idBytes: seq<Byte>, tokenBytes: seq<Byte>, hash: string -> string,
                                   timeOut: TimerId)
    returns (expired: Option<Entry>, redeemed: bool)
    requires |idBytes| == IdBytes && |tokenBytes| == TokenBytes
    requires state.Valid()
    modifies state
    ensures expired.Some? && expired.value.userToken.token == Some(ToHex(tokenBytes))
    ensures !redeemed
    ensures state.Valid()
  {
    var token, userToken, mailOptions := AuthenticateUser(mail, password, sender, idBytes, tokenBytes, hash);
    SendMailCallback(state, userToken, false, timeOut);
    expired := Expire(state, userToken, timeOut);
    var cleared;
    redeemed, cleared := AuthenticateToken(state, token);
  }

  /**
    Redemption first, on any registry not yet holding the token: the timer is
    cleared, an expiry that fires anyway finds nothing to remove, and the
    registry is back to what it was. Exactly one of the two removes the entry.
   */
  method RedeemedTokenDoesNotExpire(state: StateToken, mail: string, password: string, sender: string,
                                    idBytes: seq<Byte>, tokenBytes: seq<Byte>, hash: string -> string,
                                    timeOut: TimerId)
    returns (redeemed: bool, cleared: Option<TimerId>, expired: Option<Entry>)
    requires |idBytes| == IdBytes && |tokenBytes| == TokenBytes
    requires state.Valid() && !HasKey(state.state, Some(ToHex(tokenBytes)))
    modifies state
    ensures redeemed && cleared == Some(timeOut) && expired.None?
    ensures state.state == old(state.state)
  {
    var token, userToken, mailOptions := AuthenticateUser(mail, password, sender, idBytes, tokenBytes, hash);
    SendMailCallback(state, userToken, false, timeOut);
    redeemed, cleared := AuthenticateToken(state, token);
    expired := Expire(state, userToken, timeOut);
  }
}
