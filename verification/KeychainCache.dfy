/** Key derivation by identifier, with a cache of the derivation indices seen so far. */
module KeychainCache {
  import opened Wrappers

  /** One past the last derivation that is tried. */
  const MAX_DERIVATIONS: nat := 10_000

  datatype Identifier = Identifier(id: nat)

  datatype SecretKey = SecretKey(bytes: nat)

  datatype Error = ExtendedKeyError(code: nat) | SecpError(code: nat) | KeyDerivation(id: Identifier)

  /** A derived key; computing its identifier may fail. */
  datatype ExtendedKey = ExtendedKey(nChild: nat, key: SecretKey, identifier: Result<Identifier, Error>)

  type Derivation = nat -> Result<ExtendedKey, Error>

  /** Child `i` carries the number `i`. */
  ghost predicate Numbered(derive: Derivation) {
    forall i :: derive(i).Ok? ==> derive(i).value.nChild == i
  }

  /** What a search without a cache finds, from index `i` on. */
  ghost function Scan(derive: Derivation, id: Identifier, i: nat): Result<SecretKey, Error>
    requires i <= MAX_DERIVATIONS
    decreases MAX_DERIVATIONS - i
  {
    if i == MAX_DERIVATIONS then Err(KeyDerivation(id))
    else if derive(i).Err? then Err(derive(i).error)
    else if derive(i).value.identifier.Err? then Err(derive(i).value.identifier.error)
    else if derive(i).value.identifier.value == id then Ok(derive(i).value.key)
    else Scan(derive, id, i + 1)
  }

  /** Index `i` derives the key with identifier `id`. */
  ghost predicate Derives(derive: Derivation, i: nat, id: Identifier) {
    derive(i).Ok? && derive(i).value.identifier == Ok(id)
  }

  /** Index `i` can be derived, and is not the one for `id`. */
  ghost predicate Passes(derive: Derivation, i: nat, id: Identifier) {
    derive(i).Ok? && derive(i).value.identifier.Ok? && !Derives(derive, i, id)
  }

  /** `i` is the least index for `id`, and all derivations before it work. */
  ghost predicate IsLeast(derive: Derivation, i: nat, id: Identifier) {
    && 1 <= i < MAX_DERIVATIONS && Derives(derive, i, id)
    && forall j :: 1 <= j < i ==> Passes(derive, j, id)
  }

  /** A search goes past indices that work and do not match. */
  lemma {:induction false} ScanSkips(derive: Derivation, id: Identifier, from: nat, to: nat)
    requires 1 <= from <= to <= MAX_DERIVATIONS
    requires forall j :: from <= j < to ==> Passes(derive, j, id)
    ensures Scan(derive, id, from) == Scan(derive, id, to)
    decreases MAX_DERIVATIONS - from
  {
    if from < to {
      assert Passes(derive, from, id);
      ScanSkips(derive, id, from + 1, to);
    }
  }

  /** The search returns the key of the least index with this identifier. */
  lemma ScanFindsLeast(derive: Derivation, id: Identifier, i: nat)
    requires IsLeast(derive, i, id)
    ensures Scan(derive, id, 1) == Ok(derive(i).value.key)
  {
    ScanSkips(derive, id, 1, i);
  }

  /** A derivation that fails before the identifier is found ends the search with its error. */
  lemma ScanFails(derive: Derivation, id: Identifier, i: nat)
    requires 1 <= i < MAX_DERIVATIONS && forall j :: 1 <= j < i ==> Passes(derive, j, id)
    ensures derive(i).Err? ==> Scan(derive, id, 1) == Err(derive(i).error)
    ensures derive(i).Ok? && derive(i).value.identifier.Err? ==> Scan(derive, id, 1) == Err(derive(i).value.identifier.error)
  {
    ScanSkips(derive, id, 1, i);
  }

  /** When nothing matches, the search says so. */
  lemma ScanFindsNone(derive: Derivation, id: Identifier)
    requires forall j :: 1 <= j < MAX_DERIVATIONS ==> Passes(derive, j, id)
    ensures Scan(derive, id, 1) == Err(KeyDerivation(id))
  {
    ScanSkips(derive, id, 1, MAX_DERIVATIONS);
  }

  ghost predicate CacheSound(derive: Derivation, cache: map<Identifier, nat>) {
    forall id :: id in cache ==> IsLeast(derive, cache[id], id)
  }

  /** All indices below `n` have been tried: they work, are cached, and are not the one sought. */
  ghost predicate Tried(derive: Derivation, cache: map<Identifier, nat>, n: nat, id: Identifier) {
    forall j :: 1 <= j < n ==> Passes(derive, j, id) && derive(j).value.identifier.value in cache
  }

  lemma CacheGrows(derive: Derivation, cache: map<Identifier, nat>, n: nat, id: Identifier)
    requires CacheSound(derive, cache) && Tried(derive, cache, n, id) && 1 <= n < MAX_DERIVATIONS
    requires derive(n).Ok? && derive(n).value.identifier.Ok?
    ensures var found := derive(n).value.identifier.value;
      var cache' := if found in cache then cache else cache[found := n];
      && CacheSound(derive, cache')
      && (found != id ==> Tried(derive, cache', n + 1, id))
  {
    var found := derive(n).value.identifier.value;
    if found !in cache {
      forall j | 1 <= j < n ensures Passes(derive, j, found) {
        assert Passes(derive, j, id);
      }
      assert IsLeast(derive, n, found);
    }
  }

  class Keychain {
    const derive: Derivation
    const keyOverrides: map<Identifier, SecretKey>
    var keyDerivationCache: map<Identifier, nat>

    constructor (derive: Derivation, keyOverrides: map<Identifier, SecretKey>)
      requires Numbered(derive)
      ensures Valid() && this.derive == derive && this.keyOverrides == keyOverrides
    {
      this.derive := derive;
      this.keyOverrides := keyOverrides;
      keyDerivationCache := map[];
    }

    ghost predicate Valid()
      reads this
    {
      Numbered(derive) && CacheSound(derive, keyDerivationCache)
    }

    method DerivedKeyFromIndex(i: nat) returns (r: Result<SecretKey, Error>)
      ensures r == if derive(i).Ok? then Ok(derive(i).value.key) else Err(derive(i).error)
    {
      var extkey := derive(i);
      match extkey {
        case Err(e) => return Err(e);
        case Ok(x) => return Ok(x.key);
      }
    }

    /** The key with this identifier: an override, or what a search without the cache would find. */
    method DerivedKey(id: Identifier) returns (r: Result<SecretKey, Error>)
      requires Valid()
      modifies `keyDerivationCache
      ensures Valid()
      ensures r == if id in keyOverrides then Ok(keyOverrides[id]) else Scan(derive, id, 1)
    {
      if id in keyOverrides {
        return Ok(keyOverrides[id]);
      }
      if id in keyDerivationCache {
        ScanFindsLeast(derive, id, keyDerivationCache[id]);
        r := DerivedKeyFromIndex(keyDerivationCache[id]);
        return;
      }
      for i := 1 to MAX_DERIVATIONS
        invariant CacheSound(derive, keyDerivationCache) && Tried(derive, keyDerivationCache, i, id)
      {
        ScanSkips(derive, id, 1, i);
        var extkey := derive(i);
        if extkey.Err? {
          return Err(extkey.error);
        }
        var found := extkey.value.identifier;
        if found.Err? {
          return Err(found.error);
        }
        CacheGrows(derive, keyDerivationCache, i, id);
        if found.value !in keyDerivationCache {
          keyDerivationCache := keyDerivationCache[found.value := extkey.value.nChild];
        }
        if found.value == id {
          return Ok(extkey.value.key);
        }
      }
      ScanSkips(derive, id, 1, MAX_DERIVATIONS);
      return Err(KeyDerivation(id));
    }
  }
}
