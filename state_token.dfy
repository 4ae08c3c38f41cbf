/**
  The process-wide token registry (src/models/StateToken.js): an ordered list
  of `{userToken, timeOutID}` entries keyed by `userToken.token`.
  The first half gives the list operations as functions on sequences and
  proves their properties; the class StateToken performs them in place.
 */
module StateTokens {
  import opened Wrappers
  import opened UserTokens

  /** An opaque handle returned by `setTimeout`. */
  type TimerId = nat

  /** A registry key is a token or JavaScript's `null`, compared with `===`. */
  type Key = Option<string>

  datatype Entry = Entry(userToken: TokenRecord, timeOutID: TimerId)

  predicate HasKey(s: seq<Entry>, key: Key) {
    exists j :: 0 <= j < |s| && s[j].userToken.token == key
  }

  /** At most one entry per token value. */
  predicate Unique(s: seq<Entry>) {
    forall i, j :: 0 <= i < j < |s| ==> s[i].userToken.token != s[j].userToken.token
  }

  /** `Array.prototype.findIndex` with the predicate `e => e.userToken.token === key`. */
  function FindIndex(s: seq<Entry>, key: Key): (i: int)
    ensures -1 <= i < |s|
    ensures i == -1 <==> !HasKey(s, key)
    ensures 0 <= i ==> s[i].userToken.token == key
    ensures 0 <= i ==> forall j :: 0 <= j < i ==> s[j].userToken.token != key
  {
    if s == [] then -1
    else if s[0].userToken.token == key then 0
    else
      var k := FindIndex(s[1..], key);
      assert forall j :: 0 < j < |s| ==> s[j] == s[1..][j - 1];
      if k == -1 then -1 else k + 1
  }

  /** The entry `getToken` returns: the first one with that key, None for `null`. */
  function Lookup(s: seq<Entry>, key: Key): (r: Option<Entry>)
    ensures r.Some? <==> HasKey(s, key)
    ensures r.Some? ==> r.value in s && r.value.userToken.token == key
    ensures Unique(s) ==> forall j :: 0 <= j < |s| && s[j].userToken.token == key ==> r == Some(s[j])
  {
    var i := FindIndex(s, key);
    if i == -1 then None else Some(s[i])
  }

  /** The registry after `addToken(e)`: append unless the key is already present. */
  function Added(s: seq<Entry>, e: Entry): (r: seq<Entry>)
    ensures |r| == if HasKey(s, e.userToken.token) then |s| else |s| + 1
    ensures r[..|s|] == s
    ensures !HasKey(s, e.userToken.token) ==> r[|s|] == e
    ensures HasKey(r, e.userToken.token)
  {
    if FindIndex(s, e.userToken.token) == -1 then s + [e] else s
  }

  /** What `removeToken` leaves behind, and what it hands to its callback. */
  datatype Removal = Removal(rest: seq<Entry>, removed: Option<Entry>)

  /** The registry after removing the first entry with `key`, by `splice(indexOf, 1)`. */
  function Removed(s: seq<Entry>, key: Key): (r: Removal)
    ensures r.removed.Some? <==> HasKey(s, key)
    ensures r.removed == Lookup(s, key)
    ensures r.removed.None? ==> r.rest == s
    ensures r.removed.Some? ==> |r.rest| == |s| - 1
    ensures r.removed.Some? ==> multiset(r.rest) + multiset{r.removed.value} == multiset(s)
  {
    var i := FindIndex(s, key);
    if i == -1 then Removal(s, None)
    else
      assert s == s[..i] + [s[i]] + s[i+1..];
      Removal(s[..i] + s[i+1..], Some(s[i]))
  }

  /** `addToken` keeps token keys distinct. */
  lemma AddedKeepsUnique(s: seq<Entry>, e: Entry)
    requires Unique(s)
    ensures Unique(Added(s, e))
  {
    var r := Added(s, e);
    if !HasKey(s, e.userToken.token) {
      forall i, j | 0 <= i < j < |r|
        ensures r[i].userToken.token != r[j].userToken.token
      {
        if j == |s| {
          assert r[i] == s[i];
        } else {
          assert r[i] == s[i] && r[j] == s[j];
        }
      }
    }
  }

  /** Removal keeps every other entry, in its order. */
  lemma RemovedShape(s: seq<Entry>, key: Key)
    requires HasKey(s, key)
    ensures var i := FindIndex(s, key);
      var rest := Removed(s, key).rest;
      (forall j :: 0 <= j < i ==> rest[j] == s[j]) &&
      (forall j :: i <= j < |rest| ==> rest[j] == s[j + 1])
  {
    var i := FindIndex(s, key);
    assert Removed(s, key).rest == s[..i] + s[i+1..];
  }

  /** `removeToken` keeps token keys distinct. */
  lemma RemovedKeepsUnique(s: seq<Entry>, key: Key)
    requires Unique(s)
    ensures Unique(Removed(s, key).rest)
  {
    if HasKey(s, key) {
      var i := FindIndex(s, key);
      var rest := Removed(s, key).rest;
      RemovedShape(s, key);
      forall a, b | 0 <= a < b < |rest|
        ensures rest[a].userToken.token != rest[b].userToken.token
      {
        var a' := if a < i then a else a + 1;
        var b' := if b < i then b else b + 1;
        assert rest[a] == s[a'] && rest[b] == s[b'] && a' < b';
      }
    }
  }

  /** With distinct keys, after removal no entry with that key is left. */
  lemma RemovedDropsKey(s: seq<Entry>, key: Key)
    requires Unique(s)
    ensures !HasKey(Removed(s, key).rest, key)
  {
    if HasKey(s, key) {
      var i := FindIndex(s, key);
      var rest := Removed(s, key).rest;
      RemovedShape(s, key);
      forall j | 0 <= j < |rest|
        ensures rest[j].userToken.token != key
      {
        var j' := if j < i then j else j + 1;
        assert rest[j] == s[j'] && j' != i;
      }
    }
  }

  /** FindIndex is the first position holding the key. */
  lemma FindIndexAt(s: seq<Entry>, key: Key, k: int)
    requires -1 <= k < |s|
    requires 0 <= k ==> s[k].userToken.token == key
    requires forall j :: 0 <= j < |s| && (k == -1 || j < k) ==> s[j].userToken.token != key
    ensures FindIndex(s, key) == k
  {
  }

  /** Removing one key changes no lookup of any other key. */
  lemma RemovedKeepsOtherLookups(s: seq<Entry>, key: Key, other: Key)
    requires other != key
    ensures Lookup(Removed(s, key).rest, other) == Lookup(s, other)
  {
    if HasKey(s, key) {
      var i := FindIndex(s, key);
      var rest := Removed(s, key).rest;
      var k := FindIndex(s, other);
      RemovedShape(s, key);
      // Where the first entry with `other` lands once entry i is gone.
      var k' := if k == -1 || k < i then k else k - 1;
      forall j | 0 <= j < |rest| && (k' == -1 || j < k')
        ensures rest[j].userToken.token != other
      {
        if j < i { assert rest[j] == s[j]; } else { assert rest[j] == s[j + 1]; }
      }
      if k != -1 {
        assert rest[k'] == s[k];
      }
      FindIndexAt(rest, other, k');
    }
  }

  /**
    The JavaScript value handed to `removeToken`: an entry `{userToken, timeOutID}`,
    or a bare UserToken, whose fields are those of a TokenRecord.
   */
  datatype RemoveArg = EntryArg(entry: Entry) | BareUserToken(record: TokenRecord)

  /** Outcome of a JavaScript call: it returned, or it threw a TypeError. */
  datatype Outcome = Returned | ThrewTypeError

  /**
    Reading `arg.userToken.token`. A bare UserToken has no `userToken` field,
    so the read is `undefined.token`, which throws: None.
   */
  function ReadToken(arg: RemoveArg): (k: Option<Key>)
    ensures k.None? <==> arg.BareUserToken?
  {
    match arg
    case EntryArg(e) => Some(e.userToken.token)
    case BareUserToken(_) => None
  }

  /** What `findIndex` gives when its predicate may throw. */
  datatype Search = Index(i: int) | Threw

  /**
    `findIndex` with the predicate `e => e.userToken.token === arg.userToken.token`
    of `removeToken`: the predicate is evaluated on `s[0]`, `s[1]`, ... in turn,
    and never on an empty array.
   */
  function FindIndexOfArg(s: seq<Entry>, arg: RemoveArg): (r: Search)
    ensures arg.EntryArg? ==> r == Index(FindIndex(s, arg.entry.userToken.token))
    ensures arg.BareUserToken? ==> r == if s == [] then Index(-1) else Threw
  {
    if s == [] then Index(-1)
    else match ReadToken(arg)
      case None => Threw
      case Some(key) =>
        if s[0].userToken.token == key then Index(0)
        else match FindIndexOfArg(s[1..], arg)
          case Threw => Threw
          case Index(k) => Index(if k == -1 then -1 else k + 1)
  }

  class StateToken {
    var state: seq<Entry>

    /** Object invariant: one entry per token value. */
    ghost predicate Valid()
      reads this
    {
      Unique(state)
    }

    /** A fresh registry; `StateTokenStatic.Construct` decides when one is made. */
    constructor ()
      ensures state == [] && Valid()
    {
      state := [];
    }

    method AddToken(entry: Entry)
      modifies this
      ensures state == Added(old(state), entry)
      ensures HasKey(old(state), entry.userToken.token) ==> state == old(state)
      ensures !HasKey(old(state), entry.userToken.token) ==> state == old(state) + [entry]
      ensures old(Valid()) ==> Valid()
    {
      var indexOf := FindIndex(state, entry.userToken.token);
      if indexOf == -1 {
        state := state + [entry];
      }
      if old(Valid()) {
        AddedKeepsUnique(old(state), entry);
      }
    }

    /**
      Removes the first entry whose token equals `arg.userToken.token`.
      The callback runs once with the removed entry when there is one, and
      not at all otherwise: `callbackArg` is what it receives. Given an entry
      it always returns; given a bare UserToken it throws as soon as the
      findIndex predicate runs, that is on a non-empty registry, and then
      removes nothing.
     */
    method RemoveToken(arg: RemoveArg) returns (outcome: Outcome, callbackArg: Option<Entry>)
      modifies this
      ensures arg.EntryArg? ==> outcome == Returned
      ensures arg.EntryArg? ==> Removal(state, callbackArg) == Removed(old(state), arg.entry.userToken.token)
      ensures arg.EntryArg? ==> (callbackArg.Some? <==> HasKey(old(state), arg.entry.userToken.token))
      ensures arg.EntryArg? && callbackArg.Some? ==> callbackArg.value.userToken.token == arg.entry.userToken.token
      ensures arg.EntryArg? && old(Valid()) ==> !HasKey(state, arg.entry.userToken.token)
      ensures arg.BareUserToken? ==> (outcome == ThrewTypeError <==> old(state) != [])
      ensures arg.BareUserToken? ==> state == old(state) && callbackArg == None
      ensures callbackArg.None? ==> state == old(state)
      ensures old(Valid()) ==> Valid()
    {
      var found := FindIndexOfArg(state, arg);
      match found {
        case Threw =>
          outcome, callbackArg := ThrewTypeError, None;
        case Index(indexOf) =>
          outcome := Returned;
          if indexOf != -1 {
            callbackArg := Some(state[indexOf]);
            state := state[..indexOf] + state[indexOf + 1..];
          } else {
            callbackArg := None;
          }
      }
      if old(Valid()) && arg.EntryArg? {
        RemovedKeepsUnique(old(state), arg.entry.userToken.token);
        RemovedDropsKey(old(state), arg.entry.userToken.token);
      }
    }

    /** `getToken`: a lookup that changes nothing. */
    function GetToken(token: Key): (r: Option<Entry>)
      reads this
      ensures r.None? <==> !HasKey(state, token)
      ensures r.Some? ==> r.value in state && r.value.userToken.token == token
    {
      Lookup(state, token)
    }
  }

  /** The static slot `StateToken.instance`. */
  class StateTokenStatic {
    var instance: StateToken?

    constructor ()
      ensures instance == null
    {
      instance := null;
    }

    /** `new StateToken()`: builds the registry once, then keeps returning it untouched. */
    method Construct() returns (r: StateToken)
      modifies this
      ensures instance == r
      ensures old(instance) == null ==> fresh(r) && r.state == [] && r.Valid()
      ensures old(instance) != null ==> r == old(instance) && r.state == old(instance.state)
    {
      if instance == null {
        instance := new StateToken();
      }
      r := instance;
    }
  }
}
