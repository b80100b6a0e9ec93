/**
 * The `usePersist` hook: its initial value is read from a key-value store and
 * every later value is written back under the same key. Serialisation is a
 * pair of parameter functions; `parse` answers `None` where the JSON parser throws.
 */
module Persist {
  import opened Options

  type Storage = map<string, string>

  /**
   * The hook's initial state: the parsed stored text, or `initial` when the key
   * is missing, its text is empty, or the text does not parse.
   */
  function Load<T>(store: Storage, key: string, parse: string -> Option<T>, initial: T): (r: T)
    ensures (key !in store || store[key] == "") ==> r == initial
    ensures key in store && store[key] != "" && parse(store[key]).Some? ==> r == parse(store[key]).value
    ensures key in store && store[key] != "" && parse(store[key]).None? ==> r == initial
  {
    if key in store && store[key] != "" then ValueOr(parse(store[key]), initial) else initial
  }

  /** The write-back effect: the key now holds the serialised value; other keys are untouched. */
  function Save<T>(store: Storage, key: string, v: T, serialize: T -> string): (r: Storage)
    ensures r.Keys == store.Keys + {key}
    ensures r[key] == serialize(v)
    ensures forall k :: k in store && k != key ==> r[k] == store[k]
  {
    store[key := serialize(v)]
  }

  /** A saved value is loaded back when its text is non-empty and parses to it. */
  lemma SaveThenLoad<T>(store: Storage, key: string, v: T, serialize: T -> string,
                        parse: string -> Option<T>, initial: T)
    requires serialize(v) != "" && parse(serialize(v)) == Some(v)
    ensures Load(Save(store, key, v, serialize), key, parse, initial) == v
  {
  }

  /** Saving under one key does not change what another key loads. */
  lemma SaveKeepsOtherKeys<T>(store: Storage, key: string, other: string, v: T, serialize: T -> string,
                              parse: string -> Option<T>, initial: T)
    requires other != key
    ensures Load(Save(store, key, v, serialize), other, parse, initial) == Load(store, other, parse, initial)
  {
  }
}
