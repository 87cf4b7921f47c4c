/** The revocation list: one Redis set of raw token strings per user email (JWTService.BlockToken,
    RemoveExpiredTokens, IsTokenBlocked). The Redis database is an in-memory map. */
module Blocklist {
  import opened Wrappers
  import opened Failures
  import opened Tokens

  /** The Redis sets the service uses, by key. */
  type Store = map<string, set<string>>

  /** SMEMBERS: Redis reports a missing key as the empty set. */
  function Members(store: Store, key: string): set<string> {
    if key in store then store[key] else {}
  }

  /** Redis holds no empty set: removing a set's last member deletes its key. */
  ghost predicate NoEmptySets(store: Store) {
    forall key :: key in store ==> store[key] != {}
  }

  /** SADD key member. */
  function SetAdd(store: Store, key: string, member: string): (r: Store)
    ensures Members(r, key) == Members(store, key) + {member}
    ensures forall k :: k != key ==> Members(r, k) == Members(store, k)
    ensures NoEmptySets(store) ==> NoEmptySets(r)
  {
    store[key := Members(store, key) + {member}]
  }

  /** SREM key member. */
  function SetRemove(store: Store, key: string, member: string): (r: Store)
    ensures Members(r, key) == Members(store, key) - {member}
    ensures forall k :: k != key ==> Members(r, k) == Members(store, k)
    ensures NoEmptySets(store) ==> NoEmptySets(r)
  {
    var rest := Members(store, key) - {member};
    if rest == {} then store - {key} else store[key := rest]
  }

  /** Whether the library validates `token` under the signing key `secret`. */
  predicate Validates(h: TokenHandler, secret: string, token: string) {
    h.validate(secret, token) == Validated
  }

  /** The store RemoveExpiredTokens leaves when the signing key is `secret`: the key holds exactly
      the members that still validate. */
  function Swept(store: Store, key: string, h: TokenHandler, secret: string): (r: Store)
    ensures forall t :: t in Members(r, key) <==> t in Members(store, key) && Validates(h, secret, t)
    ensures forall k :: k != key ==> Members(r, k) == Members(store, k)
    ensures NoEmptySets(store) ==> NoEmptySets(r)
  {
    var kept := set t | t in Members(store, key) && Validates(h, secret, t);
    if kept == {} then store - {key} else store[key := kept]
  }

  /** Two stores without empty sets that report the same members for every key are equal. */
  lemma SameMembersSameStore(a: Store, b: Store)
    requires NoEmptySets(a) && NoEmptySets(b)
    requires forall k :: Members(a, k) == Members(b, k)
    ensures a == b
  {
    forall k | k in a
      ensures k in b && a[k] == b[k]
    {
      assert Members(a, k) == a[k];
    }
    forall k | k in b
      ensures k in a
    {
      assert Members(b, k) == b[k];
    }
  }

  /** Blocking a token twice leaves the store as blocking it once. */
  lemma SetAddIdempotent(store: Store, key: string, member: string)
    ensures SetAdd(SetAdd(store, key, member), key, member) == SetAdd(store, key, member)
  {
  }

  /** A second sweep with the same validator removes nothing. */
  lemma SweptIdempotent(store: Store, key: string, h: TokenHandler, secret: string)
    requires NoEmptySets(store)
    ensures Swept(Swept(store, key, h, secret), key, h, secret) == Swept(store, key, h, secret)
  {
    var once := Swept(store, key, h, secret);
    var twice := Swept(once, key, h, secret);
    forall k
      ensures Members(twice, k) == Members(once, k)
    {
      if k == key {
        assert forall t :: t in Members(twice, k) <==> t in Members(once, k);
      }
    }
    SameMembersSameStore(twice, once);
  }

  /** Revocation outlives the sweep: a blocked token that still validates stays blocked, and one
      the handler rejects is dropped (it could not authenticate a request anyway). */
  lemma SweepAfterBlock(store: Store, email: string, token: string, h: TokenHandler, secret: string)
    ensures token in Members(Swept(SetAdd(store, email, token), email, h, secret), email) <==> Validates(h, secret, token)
  {
  }

  class JwtService {
    /** The JSON Web Token library the service calls. */
    const handler: TokenHandler

    /** The `TokenSignKey` configuration value (null when it is not set). */
    const signKeySetting: Option<string>

    /** The Redis database the service is connected to. */
    var redis: Store

    ghost predicate Valid()
      reads this
    {
      NoEmptySets(redis)
    }

    /** Connects to a database that already holds `store`. */
    constructor(handler: TokenHandler, signKeySetting: Option<string>, store: Store)
      requires NoEmptySets(store)
      ensures Valid()
      ensures this.handler == handler && this.signKeySetting == signKeySetting && redis == store
    {
      this.handler := handler;
      this.signKeySetting := signKeySetting;
      redis := store;
    }

    /** Whether `token` is, exactly as a string, a member of the set kept for `email`; an email
        with no set has no blocked token. */
    function IsTokenBlocked(email: string, token: string): (blocked: bool)
      reads this
      ensures blocked <==> email in redis && token in redis[email]
    {
      token in Members(redis, email)
    }

    method BlockToken(email: string, token: string)
      requires Valid()
      modifies this
      ensures Valid()
      ensures redis == SetAdd(old(redis), email, token)
      ensures IsTokenBlocked(email, token)
      ensures forall e, t :: (e, t) != (email, token) ==> IsTokenBlocked(e, t) == old(IsTokenBlocked(e, t))
    {
      redis := SetAdd(redis, email, token);
    }

    /** Walks a snapshot of the email's set and removes every member the library rejects. With no
        signing key configured, the first validation throws before anything is removed; the
        exception is returned in `thrown`. */
    method RemoveExpiredTokens(email: string) returns (thrown: Option<Failure>)
      requires Valid()
      modifies this
      ensures Valid()
      ensures SigningKey(signKeySetting).Failure? ==>
        redis == old(redis) && (thrown == Some(MissingSigningKey) <==> old(Members(redis, email)) != {}) &&
        (thrown.None? <==> old(Members(redis, email)) == {})
      ensures SigningKey(signKeySetting).Success? ==>
        thrown.None? && redis == Swept(old(redis), email, handler, signKeySetting.value)
      ensures SigningKey(signKeySetting).Success? ==> forall t ::
        IsTokenBlocked(email, t) <==> old(IsTokenBlocked(email, t)) && Validates(handler, signKeySetting.value, t)
    {
      var blockedTokens := Members(redis, email);
      var pending := blockedTokens;
      while pending != {}
        invariant Valid()
        invariant pending <= blockedTokens
        invariant SigningKey(signKeySetting).Failure? ==> redis == old(redis) && pending == blockedTokens
        invariant forall k :: k != email ==> Members(redis, k) == Members(old(redis), k)
        invariant SigningKey(signKeySetting).Success? ==> forall t :: t in Members(redis, email) <==>
          t in blockedTokens && (t in pending || Validates(handler, signKeySetting.value, t))
        decreases pending
      {
        var token :| token in pending;
        var isActive := ValidateToken(handler, signKeySetting, token);
        if isActive.Failure? {
          return Some(isActive.error);
        }
        if !isActive.value {
          redis := SetRemove(redis, email, token);
        }
        pending := pending - {token};
      }
      if SigningKey(signKeySetting).Success? {
        SameMembersSameStore(redis, Swept(old(redis), email, handler, signKeySetting.value));
      }
      return None;
    }
  }
}
