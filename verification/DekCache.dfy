/**
 Field encryption with cached data keys (`FieldEncryptor` in packages/db/src/encryption.ts).  The
 key service and AES-256-GCM are functions; times are milliseconds.
 */
module DekCache {
  import opened Prelude

  type Bytes = seq<bv8>

  const TTL: nat := 5 * 60 * 1000
  const IV_LENGTH := 12
  const TAG_LENGTH := 16

  datatype Entry = Entry(dek: Bytes, expiresAt: nat)

  type Cache = map<string, Entry>

  /** The key service. */
  datatype Adapter = Adapter(derive: string -> Bytes, unwrap: Bytes -> Bytes)

  function CacheKey(entityType: string, fieldName: string): string {
    entityType + ":" + fieldName
  }

  lemma {:induction false} ColonEndsEntity(entity: string, field: string, entity': string, field': string)
    requires ':' !in entity' && CacheKey(entity, field) == CacheKey(entity', field')
    ensures |entity| >= |entity'|
  {
    assert CacheKey(entity, field)[|entity|] == ':';
    assert forall i | 0 <= i < |entity'| :: CacheKey(entity', field')[i] == entity'[i];
  }

  /** Entity types without a colon keep fields apart; with one they can share an entry. */
  lemma {:induction false} KeysTellFieldsApart(entity: string, field: string, entity': string, field': string)
    requires ':' !in entity && ':' !in entity'
    ensures CacheKey(entity, field) == CacheKey(entity', field') <==> entity == entity' && field == field'
    ensures CacheKey("a:b", "c") == CacheKey("a", "b:c")
  {
    var key, key' := CacheKey(entity, field), CacheKey(entity', field');
    if key == key' {
      ColonEndsEntity(entity, field, entity', field');
      ColonEndsEntity(entity', field', entity, field);
      assert entity == key[..|entity|] && entity' == key'[..|entity'|];
      assert field == key[|entity| + 1..] && field' == key'[|entity'| + 1..];
    }
  }

  // ---------------------------------------------------------------- the cache as a value

  datatype Op =
    | Get(key: string, now: nat, wrapped: Option<Bytes>)
    | Evict(key: string)
    | Expire(key: string)
    | Clear

  predicate Live(cache: Cache, key: string, now: nat) {
    key in cache && now < cache[key].expiresAt
  }

  function Fetched(adapter: Adapter, key: string, wrapped: Option<Bytes>): Bytes {
    match wrapped case Some(w) => adapter.unwrap(w) case None => adapter.derive(key)
  }

  /** The key that a `Get` returns. */
  function Answer(adapter: Adapter, cache: Cache, op: Op): Bytes
    requires op.Get?
  {
    if Live(cache, op.key, op.now) then cache[op.key].dek else Fetched(adapter, op.key, op.wrapped)
  }

  function Apply(adapter: Adapter, cache: Cache, op: Op): Cache {
    match op
    case Get(key, now, wrapped) =>
      if Live(cache, key, now) then cache else cache[key := Entry(Fetched(adapter, key, wrapped), now + TTL)]
    case Evict(key) => cache - {key}
    case Expire(key) => if key in cache then cache[key := cache[key].(expiresAt := 0)] else cache
    case Clear => map[]
  }

  function Run(adapter: Adapter, cache: Cache, ops: seq<Op>): Cache
    decreases |ops|
  {
    if ops == [] then cache else Run(adapter, Apply(adapter, cache, ops[0]), ops[1..])
  }

  // ---------------------------------------------------------------- the cache is invisible

  /** Every entry is what the key service would derive. */
  ghost predicate Transparent(adapter: Adapter, cache: Cache) {
    forall key | key in cache :: cache[key].dek == adapter.derive(key)
  }

  /** A call that gives no wrapped key, or gives one that unwraps to the derived key. */
  ghost predicate Plain(adapter: Adapter, op: Op) {
    op.Get? && op.wrapped.Some? ==> adapter.unwrap(op.wrapped.value) == adapter.derive(op.key)
  }

  lemma {:induction false} StaysTransparent(adapter: Adapter, cache: Cache, ops: seq<Op>)
    requires Transparent(adapter, cache)
    requires forall k | 0 <= k < |ops| :: Plain(adapter, ops[k])
    ensures Transparent(adapter, Run(adapter, cache, ops))
    decreases |ops|
  {
    if ops != [] {
      assert Plain(adapter, ops[0]);
      StaysTransparent(adapter, Apply(adapter, cache, ops[0]), ops[1..]);
    }
  }

  /** In every run every answer is the one that an encryptor without a cache would give. */
  lemma {:induction false} CacheIsInvisible(adapter: Adapter, ops: seq<Op>, op: Op)
    requires forall k | 0 <= k < |ops| :: Plain(adapter, ops[k])
    requires op.Get? && Plain(adapter, op)
    ensures Answer(adapter, Run(adapter, map[], ops), op) == adapter.derive(op.key)
  {
    StaysTransparent(adapter, map[], ops);
  }

  /** Every answer of the run is the derived key. */
  ghost predicate Invisible(adapter: Adapter, cache: Cache, ops: seq<Op>)
    decreases |ops|
  {
    ops != [] ==>
      && (ops[0].Get? ==> Answer(adapter, cache, ops[0]) == adapter.derive(ops[0].key))
      && Invisible(adapter, Apply(adapter, cache, ops[0]), ops[1..])
  }

  /** Whenever the run has to fetch a key, the call gives no wrapped key or one that unwraps to the derived key. */
  ghost predicate PlainMisses(adapter: Adapter, cache: Cache, ops: seq<Op>)
    decreases |ops|
  {
    ops != [] ==>
      && (ops[0].Get? && !Live(cache, ops[0].key, ops[0].now) ==> Plain(adapter, ops[0]))
      && PlainMisses(adapter, Apply(adapter, cache, ops[0]), ops[1..])
  }

  /**
   A run is answered as without a cache if and only if its misses are plain: a wrapped key given
   while an entry is live does not matter, and one given on a miss matters at once.
   */
  lemma {:induction false} RunIsInvisibleIff(adapter: Adapter, cache: Cache, ops: seq<Op>)
    requires Transparent(adapter, cache)
    ensures Invisible(adapter, cache, ops) <==> PlainMisses(adapter, cache, ops)
    decreases |ops|
  {
    if ops != [] {
      var op := ops[0];
      if !op.Get? || Answer(adapter, cache, op) == adapter.derive(op.key) {
        RunIsInvisibleIff(adapter, Apply(adapter, cache, op), ops[1..]);
      }
    }
  }

  /** The call reads the key, if it reads it, before `end`, and does not remove it. */
  ghost predicate Leaves(op: Op, key: string, end: nat) {
    !Removes(op, key) && (op.Get? && op.key == key ==> op.now < end)
  }

  lemma {:induction false} EntryStays(adapter: Adapter, cache: Cache, ops: seq<Op>, key: string)
    requires key in cache && forall k | 0 <= k < |ops| :: Leaves(ops[k], key, cache[key].expiresAt)
    ensures key in Run(adapter, cache, ops) && Run(adapter, cache, ops)[key] == cache[key]
    decreases |ops|
  {
    if ops != [] {
      assert Leaves(ops[0], key, cache[key].expiresAt);
      EntryStays(adapter, Apply(adapter, cache, ops[0]), ops[1..], key);
    }
  }

  /**
   A wrapped key given on a miss is what every later call gets until the entry expires or is removed,
   whatever runs between and whatever the call gives itself: it sees the derived key if and only if
   the wrapped one unwraps to it.
   */
  lemma {:induction false} WrappedKeyShowsIff(
    adapter: Adapter, cache: Cache, key: string, w: Bytes, now: nat, between: seq<Op>, later: nat, given: Option<Bytes>)
    requires !Live(cache, key, now) && later < now + 300_000
    requires forall k | 0 <= k < |between| :: Leaves(between[k], key, now + TTL)
    ensures var after := Run(adapter, Apply(adapter, cache, Get(key, now, Some(w))), between);
      var answer := Answer(adapter, after, Get(key, later, given));
      answer == adapter.unwrap(w) && (answer == adapter.derive(key) <==> adapter.unwrap(w) == adapter.derive(key))
  {
    EntryStays(adapter, Apply(adapter, cache, Get(key, now, Some(w))), between, key);
  }

  // ---------------------------------------------------------------- and saves calls

  ghost predicate Removes(op: Op, key: string) {
    op.Clear? || (op.Evict? && op.key == key) || (op.Expire? && op.key == key)
  }

  lemma {:induction false} KeptSince(adapter: Adapter, cache: Cache, ops: seq<Op>, key: string, t: nat)
    requires key in cache && cache[key].expiresAt >= t + TTL
    requires forall k | 0 <= k < |ops| :: !Removes(ops[k], key)
    ensures var after := Run(adapter, cache, ops);
      key in after && after[key].expiresAt >= t + TTL
    decreases |ops|
  {
    if ops != [] {
      assert !Removes(ops[0], key);
      KeptSince(adapter, Apply(adapter, cache, ops[0]), ops[1..], key, t);
    }
  }

  /** Two fetches of one key with no removal of it between them are at least the lifetime of an entry apart. */
  lemma {:induction false} FetchesAreApart(adapter: Adapter, cache: Cache, first: Op, between: seq<Op>, second: Op)
    requires first.Get? && second.Get? && first.key == second.key
    requires !Live(cache, first.key, first.now)
    requires forall k | 0 <= k < |between| :: !Removes(between[k], first.key)
    requires !Live(Run(adapter, Apply(adapter, cache, first), between), second.key, second.now)
    ensures second.now >= first.now + 300_000
  {
    KeptSince(adapter, Apply(adapter, cache, first), between, first.key, first.now);
  }

  // ---------------------------------------------------------------- sealed values

  /** AES-256-GCM: `seal` gives the ciphertext and the tag, `open` the plaintext if the tag is right. */
  datatype Cipher = Cipher(
    seal: (Bytes, Bytes, Bytes) -> (Bytes, Bytes),
    open: (Bytes, Bytes, Bytes, Bytes) -> Option<Bytes>)

  ghost predicate Correct(c: Cipher) {
    forall dek, iv, plaintext {:trigger c.seal(dek, iv, plaintext)} ::
      var (ciphertext, tag) := c.seal(dek, iv, plaintext);
      |tag| == TAG_LENGTH && c.open(dek, iv, ciphertext, tag) == Some(plaintext)
  }

  datatype Failure = TooShort | NotAuthentic

  function Sealed(c: Cipher, dek: Bytes, iv: Bytes, plaintext: Bytes): Bytes {
    var (ciphertext, tag) := c.seal(dek, iv, plaintext);
    iv + ciphertext + tag
  }

  function Opened(c: Cipher, dek: Bytes, buf: Bytes): Result<Bytes, Failure> {
    if |buf| < IV_LENGTH + TAG_LENGTH then Err(TooShort)
    else
      var n := |buf| - TAG_LENGTH;
      match c.open(dek, buf[..IV_LENGTH], buf[IV_LENGTH..n], buf[n..])
      case Some(plaintext) => Ok(plaintext)
      case None => Err(NotAuthentic)
  }

  /** Slicing undoes joining, for a plaintext of any length, the empty one included. */
  lemma {:induction false} OpenedSealed(c: Cipher, dek: Bytes, iv: Bytes, plaintext: Bytes)
    requires Correct(c) && |iv| == IV_LENGTH
    ensures Opened(c, dek, Sealed(c, dek, iv, plaintext)) == Ok(plaintext)
  {
    var (ciphertext, tag) := c.seal(dek, iv, plaintext);
    var buf := Sealed(c, dek, iv, plaintext);
    var n := |buf| - TAG_LENGTH;
    assert buf[..IV_LENGTH] == iv;
    assert buf[IV_LENGTH..n] == ciphertext;
    assert buf[n..] == tag;
  }

  /**
   A value encrypted after any calls is decrypted, after any further calls and at any time, to
   the same plaintext.
   */
  lemma {:induction false} DecryptUndoesEncrypt(
    adapter: Adapter, c: Cipher, before: seq<Op>, between: seq<Op>, key: string, t: nat, t': nat,
    iv: Bytes, plaintext: Bytes)
    requires Correct(c) && |iv| == IV_LENGTH
    requires forall k | 0 <= k < |before| :: Plain(adapter, before[k])
    requires forall k | 0 <= k < |between| :: Plain(adapter, between[k])
    ensures var first, second := Get(key, t, None), Get(key, t', None);
      var cache := Run(adapter, map[], before);
      var cache' := Run(adapter, Apply(adapter, cache, first), between);
      Opened(c, Answer(adapter, cache', second), Sealed(c, Answer(adapter, cache, first), iv, plaintext)) ==
        Ok(plaintext)
  {
    var cache := Run(adapter, map[], before);
    StaysTransparent(adapter, map[], before);
    StaysTransparent(adapter, Apply(adapter, cache, Get(key, t, None)), between);
    OpenedSealed(c, adapter.derive(key), iv, plaintext);
  }

  // ---------------------------------------------------------------- the encryptor

  class FieldEncryptor {
    const adapter: Adapter
    const cipher: Cipher
    var dekCache: Cache

    constructor (adapter: Adapter, cipher: Cipher)
      ensures this.adapter == adapter && this.cipher == cipher && dekCache == map[]
    {
      this.adapter, this.cipher, dekCache := adapter, cipher, map[];
    }

    ghost predicate Valid()
      reads this
    {
      Transparent(adapter, dekCache)
    }

    /** Asks the key service only when there is no live entry, and then keeps what it got. */
    method GetDek(entityType: string, fieldName: string, wrapped: Option<Bytes>, now: nat)
      returns (dek: Bytes, asked: bool)
      modifies this`dekCache
      ensures var op := Get(CacheKey(entityType, fieldName), now, wrapped);
        && dek == Answer(adapter, old(dekCache), op)
        && dekCache == Apply(adapter, old(dekCache), op)
      ensures var key := entityType + ":" + fieldName;
        if key in old(dekCache) && now < old(dekCache)[key].expiresAt
        then !asked && dek == old(dekCache)[key].dek && dekCache == old(dekCache)
        else
          && asked
          && dek == (match wrapped case Some(w) => adapter.unwrap(w) case None => adapter.derive(key))
          && dekCache == old(dekCache)[key := Entry(dek, now + 300_000)]
      ensures old(Valid()) && Plain(adapter, Get(CacheKey(entityType, fieldName), now, wrapped)) ==>
        Valid() && dek == adapter.derive(CacheKey(entityType, fieldName))
    {
      var cacheKey := CacheKey(entityType, fieldName);
      if cacheKey in dekCache && now < dekCache[cacheKey].expiresAt {
        return dekCache[cacheKey].dek, false;
      }
      asked := true;
      match wrapped {
        case Some(w) => dek := adapter.unwrap(w);
        case None => dek := adapter.derive(cacheKey);
      }
      dekCache := dekCache[cacheKey := Entry(dek, now + TTL)];
    }

    method Encrypt(entityType: string, fieldName: string, plaintext: Bytes, iv: Bytes, now: nat) returns (buf: Bytes)
      requires |iv| == IV_LENGTH
      modifies this`dekCache
      ensures var op := Get(CacheKey(entityType, fieldName), now, None);
        var dek := Answer(adapter, old(dekCache), op);
        && buf == iv + cipher.seal(dek, iv, plaintext).0 + cipher.seal(dek, iv, plaintext).1
        && (Correct(cipher) ==> Opened(cipher, dek, buf) == Ok(plaintext))
        && dekCache == Apply(adapter, old(dekCache), op)
      ensures old(Valid()) ==>
        Valid() && buf == Sealed(cipher, adapter.derive(CacheKey(entityType, fieldName)), iv, plaintext)
    {
      var dek, _ := GetDek(entityType, fieldName, None, now);
      var (ciphertext, tag) := cipher.seal(dek, iv, plaintext);
      buf := iv + ciphertext + tag;
      if Correct(cipher) {
        OpenedSealed(cipher, dek, iv, plaintext);
      }
    }

    method Decrypt(entityType: string, fieldName: string, buf: Bytes, wrapped: Option<Bytes>, now: nat)
      returns (r: Result<Bytes, Failure>)
      modifies this`dekCache
      ensures |buf| < 28 ==> r == Err(TooShort) && dekCache == old(dekCache)
      ensures |buf| >= 28 ==>
        var op := Get(CacheKey(entityType, fieldName), now, wrapped);
        var dek := Answer(adapter, old(dekCache), op);
        var plaintext := cipher.open(dek, buf[..12], buf[12..|buf| - 16], buf[|buf| - 16..]);
        && r == (if plaintext.Some? then Ok(plaintext.value) else Err(NotAuthentic))
        && dekCache == Apply(adapter, old(dekCache), op)
      ensures old(Valid()) && Plain(adapter, Get(CacheKey(entityType, fieldName), now, wrapped)) ==>
        Valid() && r == Opened(cipher, adapter.derive(CacheKey(entityType, fieldName)), buf)
    {
      if |buf| < IV_LENGTH + TAG_LENGTH {
        return Err(TooShort);
      }
      var dek, _ := GetDek(entityType, fieldName, wrapped, now);
      var iv := buf[..IV_LENGTH];
      var tag := buf[|buf| - TAG_LENGTH..];
      var ciphertext := buf[IV_LENGTH..|buf| - TAG_LENGTH];
      var plaintext := cipher.open(dek, iv, ciphertext, tag);
      r := if plaintext.Some? then Ok(plaintext.value) else Err(NotAuthentic);
    }

    method EvictCache(entityType: string, fieldName: string)
      modifies this`dekCache
      ensures dekCache == old(dekCache) - {entityType + ":" + fieldName}
      ensures dekCache == Apply(adapter, old(dekCache), Evict(CacheKey(entityType, fieldName)))
      ensures old(Valid()) ==> Valid()
    {
      dekCache := dekCache - {CacheKey(entityType, fieldName)};
    }

    method ClearCache()
      modifies this`dekCache
      ensures dekCache == map[] && Valid() && dekCache == Apply(adapter, old(dekCache), Clear)
    {
      dekCache := map[];
    }

    method ExpireCacheEntry(entityType: string, fieldName: string)
      modifies this`dekCache
      ensures dekCache == Apply(adapter, old(dekCache), Expire(CacheKey(entityType, fieldName)))
      ensures var key := entityType + ":" + fieldName;
        && dekCache.Keys == old(dekCache).Keys
        && (forall k | k in dekCache ::
              dekCache[k] == if k == key then Entry(old(dekCache)[k].dek, 0) else old(dekCache)[k])
      ensures old(Valid()) ==> Valid()
    {
      var cacheKey := CacheKey(entityType, fieldName);
      if cacheKey in dekCache {
        dekCache := dekCache[cacheKey := dekCache[cacheKey].(expiresAt := 0)];
      }
    }
  }
}
