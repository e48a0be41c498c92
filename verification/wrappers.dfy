/** Failure-carrying datatypes shared by the rest of the model. */
module Wrappers {

  /** A value that may be absent: Go's `(v, ok)` pairs and nil pointers. */
  datatype Option<+T> = None | Some(value: T)

  /** A value or an error: Go's `(v, err)` pairs. */
  datatype Result<+T, +E> = Ok(value: T) | Err(error: E)

  /** A computation that either finishes or panics with a message. */
  datatype Panicking<+T> = Done(value: T) | Panic(message: string)

  /** What the Go runtime panics with when a nil pointer is dereferenced. */
  const NilDereference := "runtime error: invalid memory address or nil pointer dereference"

  /** Looks `k` up in `m`, like a Go map index followed by `, ok`. */
  function Lookup<K, V>(m: map<K, V>, k: K): (r: Option<V>)
    ensures r.Some? <==> k in m
    ensures r.Some? ==> r.value == m[k]
  {
    if k in m then Some(m[k]) else None
  }
}
