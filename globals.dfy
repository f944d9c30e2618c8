/**
 * The target interpreter's global namespace, as the helper routines probe it: each bound
 * object described by the attributes they test (`shape`, `__len__`, module-ness,
 * callability, `to_html`).
 */
module Globals {
  import opened Wrappers
  import opened PyValues

  /**
   * A module object: its `__name__`, `str(module.__version__)` when importing it and reading
   * that attribute succeeds, and the version its installed distribution reports when that
   * lookup succeeds.
   */
  datatype ModuleInfo = ModuleInfo(name: string, attrVersion: Option<string>, distVersion: Option<string>)

  /**
   * One bound object. `shape` is `str(obj.shape)` when the object has a `shape` attribute that
   * is not None; `length` is `len(obj)` when the object is Sized; `moduleInfo` is present for a
   * module object; `doc` is the plain-text `pydoc.render_doc` of the object; `toHtml` is absent
   * when the object has no `to_html` (or it is None) and otherwise what calling it returned or
   * raised.
   */
  datatype Obj = Obj(
    typeName: string,
    value: Value,
    shape: Option<string>,
    length: Option<nat>,
    moduleInfo: Option<ModuleInfo>,
    isCallable: bool,
    doc: string,
    toHtml: Option<Result<string>>)

  /** `globals()`: names and objects in insertion order. */
  type Namespace = seq<(string, Obj)>

  /** `ns[name]`, or None when `name not in ns`. */
  function Lookup(ns: Namespace, name: string): (r: Option<Obj>)
    ensures r.None? <==> forall k :: 0 <= k < |ns| ==> ns[k].0 != name
    ensures r.Some? ==> exists k :: 0 <= k < |ns| && ns[k] == (name, r.value)
  {
    if ns == [] then None
    else if ns[0].0 == name then Some(ns[0].1)
    else
      var r := Lookup(ns[1..], name);
      assert r.Some? ==> exists k :: 0 <= k < |ns[1..]| && ns[1..][k] == (name, r.value);
      assert r.Some? ==> exists k :: 1 <= k < |ns| && ns[k] == (name, r.value);
      r
  }
}
