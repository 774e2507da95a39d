/** The in-memory session cache: entries expire after the cache lifetime or with their session,
    whichever comes first. Each operation reads the clock once. */
module SessionCache {
  import opened Basics

  type Token = string
  type UserId = string

  datatype User = User(email: Option<string>, passwordHash: Option<string>, active: bool, profile: string)

  datatype Session = Session(userId: UserId, expiresAt: Option<int>)

  datatype Identity = Identity(user: User, session: Session)

  datatype Entry = Entry(identity: Identity, expiresAt: Option<int>)

  type Items = map<Token, Entry>

  // ---------- Specification ----------

  predicate Expired(e: Entry, now: int) {
    e.expiresAt.Some? && e.expiresAt.value <= now
  }

  function Found(items: Items, token: Token, now: int): Option<Identity> {
    if token in items && !Expired(items[token], now) then Some(items[token].identity) else None
  }

  function AfterGet(items: Items, token: Token, now: int): Items {
    if token in items && Expired(items[token], now) then items - {token} else items
  }

  function ExpiryOf(ttl: int, now: int, sessionExpiresAt: Option<int>): Option<int> {
    if ttl > 0 && sessionExpiresAt.Some? then
      Some(if sessionExpiresAt.value < now + ttl then sessionExpiresAt.value else now + ttl)
    else if ttl > 0 then Some(now + ttl)
    else sessionExpiresAt
  }

  function AfterSet(items: Items, ttl: int, token: Token, identity: Identity, sessionExpiresAt: Option<int>,
                    now: int): Items
  {
    if token == "" then items else items[token := Entry(identity, ExpiryOf(ttl, now, sessionExpiresAt))]
  }

  function AfterDelete(items: Items, token: Token): Items {
    if token == "" then items else items - {token}
  }

  function AfterEviction(items: Items, now: int): Items {
    map token | token in items && !Expired(items[token], now) :: items[token]
  }

  // ---------- What the specification means ----------

  /** A stored identity is found exactly while the lifetime and the session last, each as far as
      there is one. */
  lemma EntryLifetime(items: Items, ttl: int, token: Token, identity: Identity, sessionExpiresAt: Option<int>,
                      now: int, later: int)
    requires token != ""
    ensures Found(AfterSet(items, ttl, token, identity, sessionExpiresAt, now), token, later)
         == if (ttl > 0 ==> later < now + ttl) && (sessionExpiresAt.Some? ==> later < sessionExpiresAt.value)
            then Some(identity) else None
  {
  }

  /** No later reader can tell whether the eviction ran, or which expired entries were looked up. */
  lemma CleaningIsInvisible(items: Items, now: int, read: Token, token: Token, later: int)
    requires now <= later
    ensures Found(AfterEviction(items, now), token, later) == Found(items, token, later)
    ensures Found(AfterGet(items, read, now), token, later) == Found(items, token, later)
  {
  }

  /** And what either leaves behind is exactly what can still be found. */
  lemma CleaningLeavesTheUnexpired(items: Items, now: int, token: Token)
    ensures token in AfterEviction(items, now) <==> Found(items, token, now).Some?
    ensures token in AfterGet(items, token, now) <==> Found(items, token, now).Some?
  {
  }

  // ---------- The cache ----------

  class Cache {
    var items: Items
    const ttl: int

    constructor (ttl: int)
      ensures items == map[] && this.ttl == ttl
    {
      items := map[];
      this.ttl := ttl;
    }

    method Get(token: Token, now: int) returns (identity: Option<Identity>)
      modifies this`items
      ensures identity == Found(old(items), token, now)
      ensures items == AfterGet(old(items), token, now)
    {
      if token !in items {
        return None;
      }
      var entry := items[token];
      if entry.expiresAt.Some? && !(entry.expiresAt.value > now) {
        items := items - {token};
        return None;
      }
      return Some(entry.identity);
    }

    method Set(token: Token, identity: Identity, sessionExpiresAt: Option<int>, now: int)
      modifies this`items
      ensures items == AfterSet(old(items), ttl, token, identity, sessionExpiresAt, now)
    {
      if token == "" {
        return;
      }
      var expiresAt: Option<int> := None;
      if ttl > 0 && sessionExpiresAt.Some? {
        var cacheExpiresAt := now + ttl;
        if sessionExpiresAt.value < cacheExpiresAt {
          expiresAt := sessionExpiresAt;
        } else {
          expiresAt := Some(cacheExpiresAt);
        }
      } else if ttl > 0 {
        expiresAt := Some(now + ttl);
      } else if sessionExpiresAt.Some? {
        expiresAt := sessionExpiresAt;
      }
      items := items[token := Entry(identity, expiresAt)];
    }

    method Delete(token: Token)
      modifies this`items
      ensures items == AfterDelete(old(items), token)
    {
      if token == "" {
        return;
      }
      items := items - {token};
    }

    /** One round of `runEviction`. */
    method Evict(now: int)
      modifies this`items
      ensures items == AfterEviction(old(items), now)
    {
      var rest := items.Keys;
      while rest != {}
        invariant rest <= old(items).Keys
        invariant items
               == map token | token in old(items) && (token in rest || !Expired(old(items)[token], now)) ::
                    old(items)[token]
        decreases rest
      {
        var token :| token in rest;
        if items[token].expiresAt.Some? && !(items[token].expiresAt.value > now) {
          items := items - {token};
        }
        rest := rest - {token};
      }
    }
  }
}
