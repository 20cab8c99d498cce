/** The local keychain of the Rust core: the `KeychainImpl` contract (read by name,
    idempotent delete, insert that refuses an existing name) and the `Keychain` struct that
    forwards each operation to its backend. Key names and key material are opaque. */
module Keychains {
  import opened Wrappers

  datatype KeychainError = DuplicateItem | ItemNotFound

  /** The items of a local keychain: at most one key per name. */
  datatype Store<K, M> = Store(items: map<K, M>)

  /** The keychain after an operation, together with what the operation returned. */
  datatype Outcome<S, T> = Outcome(state: S, result: Result<T, KeychainError>)

  /** `KeychainImpl::get`: the key stored under `name`. */
  function ImplGet<K, M>(s: Store<K, M>, name: K): (r: Result<M, KeychainError>)
    ensures r.Success? <==> name in s.items
    ensures r.Success? ==> r.value == s.items[name]
    ensures r.Failure? ==> r.error == ItemNotFound
  {
    if name in s.items then Success(s.items[name]) else Failure(ItemNotFound)
  }

  /** `KeychainImpl::delete_local`: succeeds whether or not the name is present. */
  function ImplDeleteLocal<K, M>(s: Store<K, M>, name: K): (r: Outcome<Store<K, M>, ()>)
    ensures r.result.Success?
    ensures r.state.items.Keys == s.items.Keys - {name}
    ensures forall n | n in r.state.items :: r.state.items[n] == s.items[n]
  {
    Outcome(Store(s.items - {name}), Success(()))
  }

  /** `KeychainImpl::put_local`: stores the key unless the name is taken, in which case it
      fails and stores nothing. */
  function ImplPutLocal<K, M>(s: Store<K, M>, name: K, key: M): (r: Outcome<Store<K, M>, ()>)
    ensures r.result.Success? <==> name !in s.items
    ensures r.result.Failure? ==> r.result.error == DuplicateItem && r.state == s
    ensures r.result.Success? ==> r.state.items.Keys == s.items.Keys + {name} && r.state.items[name] == key
    ensures forall n | n in s.items :: n in r.state.items && r.state.items[n] == s.items[n]
  {
    if name in s.items then Outcome(s, Failure(DuplicateItem))
    else Outcome(Store(s.items[name := key]), Success(()))
  }

  /** A stored key is read back by name. */
  lemma PutThenGet<K, M>(s: Store<K, M>, name: K, key: M)
    requires name !in s.items
    ensures ImplPutLocal(s, name, key).result.Success?
    ensures ImplGet(ImplPutLocal(s, name, key).state, name) == Success(key)
  {
  }

  /** A second key under a taken name is refused and the first key stays readable. */
  lemma DuplicatePutKeepsExisting<K, M>(s: Store<K, M>, name: K, key: M)
    requires name in s.items
    ensures ImplPutLocal(s, name, key).result == Failure(DuplicateItem)
    ensures ImplGet(ImplPutLocal(s, name, key).state, name) == Success(s.items[name])
  {
  }

  /** Deleting twice leaves the same keychain as deleting once, and both calls succeed. */
  lemma DeleteIdempotent<K, M>(s: Store<K, M>, name: K)
    ensures ImplDeleteLocal(ImplDeleteLocal(s, name).state, name) == ImplDeleteLocal(s, name)
  {
    var once := ImplDeleteLocal(s, name).state.items;
    assert once - {name} == once;
  }

  /** Deleting an absent name succeeds and changes nothing. */
  lemma DeleteAbsentIsNoop<K, M>(s: Store<K, M>, name: K)
    requires name !in s.items
    ensures ImplDeleteLocal(s, name) == Outcome(s, Success(()))
  {
    assert s.items - {name} == s.items;
  }

  /** After a delete the name is free again: a put under it is accepted. */
  lemma DeleteThenPutAccepted<K, M>(s: Store<K, M>, name: K, key: M)
    ensures ImplPutLocal(ImplDeleteLocal(s, name).state, name, key).result.Success?
    ensures ImplGet(ImplPutLocal(ImplDeleteLocal(s, name).state, name, key).state, name) == Success(key)
  {
  }

  /** Operations on one name leave every other name's item as it was. */
  lemma OtherNamesUntouched<K, M>(s: Store<K, M>, name: K, other: K, key: M)
    requires other != name
    ensures ImplGet(ImplPutLocal(s, name, key).state, other) == ImplGet(s, other)
    ensures ImplGet(ImplDeleteLocal(s, name).state, other) == ImplGet(s, other)
  {
  }

  /** `Keychain`: the struct the rest of the core uses, wrapping one backend. */
  datatype Keychain<K, M> = Keychain(backend: Store<K, M>)

  /** `Keychain::new`: a keychain with no items. */
  function NewKeychain<K, M>(): (kc: Keychain<K, M>)
    ensures |kc.backend.items| == 0
  {
    Keychain(Store(map[]))
  }

  /** `Keychain::get` forwards to the backend's `get`. */
  function Get<K, M>(kc: Keychain<K, M>, name: K): (r: Result<M, KeychainError>)
    ensures r.Success? <==> name in kc.backend.items
    ensures r.Success? ==> r.value == kc.backend.items[name]
  {
    ImplGet(kc.backend, name)
  }

  /** `Keychain::delete` forwards to the backend's `delete_local`. */
  function Delete<K, M>(kc: Keychain<K, M>, name: K): (r: Outcome<Keychain<K, M>, ()>)
    ensures r.result.Success?
    ensures r.state.backend.items.Keys == kc.backend.items.Keys - {name}
  {
    var o := ImplDeleteLocal(kc.backend, name);
    Outcome(Keychain(o.state), o.result)
  }

  /** `Keychain::put_local` forwards to the backend's `put_local`. */
  function PutLocal<K, M>(kc: Keychain<K, M>, name: K, key: M): (r: Outcome<Keychain<K, M>, ()>)
    ensures r.result.Success? <==> name !in kc.backend.items
    ensures r.result.Failure? ==> r.state == kc
    ensures r.result.Success? ==> Get(r.state, name) == Success(key)
  {
    var o := ImplPutLocal(kc.backend, name, key);
    Outcome(Keychain(o.state), o.result)
  }

  /** The wrapper returns what the backend returns and ends in the backend's state. */
  lemma ForwardsUnchanged<K, M>(kc: Keychain<K, M>, name: K, key: M)
    ensures Get(kc, name) == ImplGet(kc.backend, name)
    ensures Delete(kc, name).result == ImplDeleteLocal(kc.backend, name).result
    ensures Delete(kc, name).state.backend == ImplDeleteLocal(kc.backend, name).state
    ensures PutLocal(kc, name, key).result == ImplPutLocal(kc.backend, name, key).result
    ensures PutLocal(kc, name, key).state.backend == ImplPutLocal(kc.backend, name, key).state
  {
  }

  /** The crate's `error_on_duplicate_item` test: on a fresh keychain the first key under a
      name is accepted and a second key under the same name is refused. */
  lemma ErrorOnDuplicateItem<K, M>(name: K, keyOne: M, keyTwo: M)
    ensures PutLocal(NewKeychain<K, M>(), name, keyOne).result.Success?
    ensures PutLocal(PutLocal(NewKeychain<K, M>(), name, keyOne).state, name, keyTwo).result.Failure?
  {
  }
}
