/** The gNMI messages and outcomes that several parts of the server share. */
module Gnmi {

  datatype Option<+T> = None | Some(value: T)

  /** One entry of the key map of a path element. */
  datatype Key = Key(name: string, value: string)

  /** A path element.  `keys` lists its key map in the order the server iterates over it. */
  datatype PathElem = PathElem(name: string, keys: seq<Key>)

  /** A gNMI path; `origin` carries the YANG module of the first element. */
  datatype Path = Path(origin: string, elems: seq<PathElem>)

  datatype Encoding = JSON | JSON_IETF | PROTO | BYTES | ASCII

  /** The C++ exceptions the modelled code throws or lets through.  `Other` stands for
      every exception that is none of the named ones; `Undefined` for a step that C++
      gives no meaning to (following a null pointer, indexing before the first element). */
  datatype Fault = InvalidArgument | SysrepoException | RuntimeError | Other | Undefined

  /** How an RPC ends.  `Escaped` means that an exception leaves the handler. */
  datatype Status =
    | OK
    | INVALID_ARGUMENT
    | NOT_FOUND
    | UNIMPLEMENTED
    | INTERNAL
    | UNKNOWN
    | Escaped(fault: Fault)

  /** A value, or the exception thrown instead. */
  datatype Outcome<+T> = Ok(value: T) | Throw(fault: Fault) {
    predicate IsFailure() { Throw? }

    function PropagateFailure<U>(): Outcome<U>
      requires Throw?
    {
      Throw(fault)
    }

    function Extract(): T
      requires Ok?
    {
      value
    }
  }

  /** `(*key)[k] = v` on a key map: overwrite the entry, or add one. */
  function PutKey(keys: seq<Key>, k: Key): (r: seq<Key>)
    ensures k in r
    ensures forall other: Key :: other.name != k.name ==> (other in r <==> other in keys)
  {
    if keys == [] then [k]
    else if keys[0].name == k.name then [k] + keys[1..]
    else [keys[0]] + PutKey(keys[1..], k)
  }
}
