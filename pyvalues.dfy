/**
 * The Python values the helper routines look at, with Python's `repr()` and `str()` of them.
 * Floats are not modelled.
 */
module PyValues {
  import opened PyText

  /**
   * A Python object as the helper routines classify it.
   * `HasShortRepr(custom, base)` is an object of `base`'s kind whose class also defines
   * `__short_repr__()` returning `custom`; the other constructors are plain objects.
   * `Dict` entries are in insertion order (keys distinct, as in a Python dict);
   * `KeysView` is `d.keys()` of such a dict; `Other` is any object not listed, given by
   * its `str()` and `repr()`.
   */
  datatype Value =
    | NoneV
    | Str(s: string)
    | Int(i: int)
    | Bool(b: bool)
    | Bytes(bytes: seq<byte>)
    | HasShortRepr(custom: string, base: Value)
    | Seq(items: seq<Value>)
    | Dict(entries: seq<(Value, Value)>)
    | KeysView(keys: seq<Value>)
    | Other(strForm: string, reprForm: string)

  /** The empty dict `{}`. */
  const EmptyDict: Value := Dict([])

  /** The plain kind underneath any `__short_repr__` capability: what `isinstance` sees. */
  function Unwrap(v: Value): (r: Value)
    ensures !r.HasShortRepr?
  {
    if v.HasShortRepr? then Unwrap(v.base) else v
  }

  /** `isinstance(v, (str, int, float, bool))`, floats not being modelled. */
  predicate IsLiteral(v: Value) {
    var u := Unwrap(v);
    u.Str? || u.Int? || u.Bool?
  }

  function BoolRepr(b: bool): string {
    if b then "True" else "False"
  }

  /** `repr(v)`. A class with `__short_repr__` keeps the `repr` of its base kind. */
  function Repr(v: Value): string
    decreases v
  {
    match v
    case NoneV => "None"
    case Str(s) => StrRepr(s)
    case Int(i) => IntToString(i)
    case Bool(b) => BoolRepr(b)
    case Bytes(bs) => BytesRepr(bs)
    case HasShortRepr(_, base) => Repr(base)
    case Seq(xs) => "[" + Join(", ", seq(|xs|, k requires 0 <= k < |xs| => Repr(xs[k]))) + "]"
    case Dict(es) =>
      "{" + Join(", ", seq(|es|, k requires 0 <= k < |es| => Repr(es[k].0) + ": " + Repr(es[k].1))) + "}"
    case KeysView(ks) =>
      "dict_keys([" + Join(", ", seq(|ks|, k requires 0 <= k < |ks| => Repr(ks[k]))) + "])"
    case Other(_, r) => r
  }

  /** `str(v)`: the text itself for a `str`, the `repr` for the built-in containers. */
  function ToStr(v: Value): string {
    match v
    case Str(s) => s
    case HasShortRepr(_, base) => ToStr(base)
    case Other(sf, _) => sf
    case _ => Repr(v)
  }

  /** The `repr` of a list of strings, as `'{}'.format(items)` writes a list of names. */
  function NamesRepr(names: seq<string>): string {
    Repr(Seq(seq(|names|, k requires 0 <= k < |names| => Str(names[k]))))
  }
}
