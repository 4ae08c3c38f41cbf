/**
  One principal's pending authentication attempt (src/models/UserToken.js).
  `crypto.randomBytes` is replaced by byte sequences passed in, and the bcrypt
  hash behind `encrypt` by a function parameter about which nothing is known.
 */
module UserTokens {
  import opened Wrappers
  import opened Hex

  /** Number of random bytes behind `id` and behind `token`. */
  const IdBytes := 10
  const TokenBytes := 5

  /** A token string as `generateToken` makes it: 10 lower-case hex characters. */
  predicate IsTokenString(t: string) {
    |t| == 2 * TokenBytes && IsLowerHex(t)
  }

  /** A copy of a UserToken's fields, as the spread `{...userToken}` takes it. */
  datatype TokenRecord = TokenRecord(id: string, email: string, password: string, token: Option<string>)

  class UserToken {
    var id: string
    var email: string
    var password: string
    var token: Option<string>

    constructor (email: string, password: string, idBytes: seq<Byte>)
      requires |idBytes| == IdBytes
      ensures this.id == ToHex(idBytes) && |this.id| == 20 && IsLowerHex(this.id)
      ensures this.email == email && this.password == password
      ensures token == None
    {
      this.id := ToHex(idBytes);
      this.email := email;
      this.password := password;
      this.token := None;
    }

    /**
      Sets a fresh token and replaces the password by its hash, but only while
      no token is set: a second call changes nothing.
     */
    method GenerateToken(tokenBytes: seq<Byte>, hash: string -> string)
      requires |tokenBytes| == TokenBytes
      modifies this
      ensures id == old(id) && email == old(email)
      ensures old(token) == None ==> token == Some(ToHex(tokenBytes)) && password == hash(old(password))
      ensures old(token) != None ==> token == old(token) && password == old(password)
      ensures old(token) == None ==> IsTokenString(token.value)
      ensures token != None
    {
      if token == None {
        token := Some(ToHex(tokenBytes));
        password := hash(password);
      }
    }

    function Snapshot(): TokenRecord
      reads this
    {
      TokenRecord(id, email, password, token)
    }
  }

  /** Calling `generateToken` twice: the second call keeps the first call's token and hash. */
  method GenerateTwice(u: UserToken, first: seq<Byte>, second: seq<Byte>, hash: string -> string)
    requires |first| == TokenBytes && |second| == TokenBytes
    requires u.token == None
    modifies u
    ensures u.token == Some(ToHex(first)) && u.password == hash(old(u.password))
    ensures u.id == old(u.id) && u.email == old(u.email)
  {
    u.GenerateToken(first, hash);
    u.GenerateToken(second, hash);
  }
}
