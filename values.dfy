/**
 * The few shapes of PHP value the dispatcher inspects. Everything that PHP's
 * `is_callable` accepts (closures, function names, `[Class, 'method']` pairs,
 * invokable objects) is a `Call`, identified by an opaque number; `Arr` is an
 * array that is not callable.
 */
module Values {

  datatype Value =
    | Null
    | Int(i: int)
    | Str(s: string)
    | Call(id: nat)
    | Arr(elems: seq<Value>)
    | Other
}
