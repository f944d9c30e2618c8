/** `__preview_var(item)` and `__repr_var(item)`, the in-interpreter routines behind a preview. */
module Previews {
  import opened Wrappers
  import opened PyText
  import opened PyValues
  import opened Summaries
  import opened Globals

  /**
   * The second half of a preview: a plain text, the MIME bundle `({'text/plain': doc}, {})`
   * pydoc renders for modules and callables, or the bundle `{'text/html': html}`.
   */
  datatype Body = Text(text: string) | PlainDoc(doc: string) | HtmlDoc(html: string)

  /** The pair `(caption, body)` the routine returns. */
  datatype Preview = Preview(caption: string, body: Body)

  /** `type(obj).__name__`, followed by the shape when there is one, else by the length of a Sized object. */
  function TypeLabel(o: Obj): string {
    o.typeName +
    if o.shape.Some? then " of shape " + o.shape.value
    else if o.length.Some? then " of length " + NatToString(o.length.value)
    else ""
  }

  /** What `__preview_var(item)` returns, for a namespace `ns` it runs in. */
  function PreviewVar(item: string, ns: Namespace): Preview {
    match Lookup(ns, item)
    case None => Preview("", Text("Unknown variable " + item))
    case Some(o) =>
      var caption := TypeLabel(o);
      if o.moduleInfo.Some? || o.isCallable then Preview(caption, PlainDoc(o.doc))
      else if o.toHtml.Some? then
        match o.toHtml.value
        case Success(html) => Preview(caption, HtmlDoc(html))
        case Failure(_) => Preview(caption, Text(ShortRepr(o.value)))
      else Preview(caption, Text(ShortRepr(o.value)))
  }

  /** A name the namespace does not bind gives the unknown-variable pair, whatever else is bound. */
  lemma PreviewUnknown(item: string, ns: Namespace, other: Namespace)
    requires forall k :: 0 <= k < |ns| ==> ns[k].0 != item
    requires forall k :: 0 <= k < |other| ==> other[k].0 != item
    ensures PreviewVar(item, ns) == Preview("", Text("Unknown variable " + item))
    ensures PreviewVar(item, ns) == PreviewVar(item, other)
  {
  }

  /**
   * A subscript expression, `var[1]` say, is never a key of a namespace whose keys hold no `[`
   * (as no Python identifier does), and so previews as an unknown variable without being
   * evaluated (test/test_py3_interface.py, test_preview).
   */
  lemma PreviewExpressionIsUnknown(item: string, ns: Namespace)
    requires forall k :: 0 <= k < |ns| ==> '[' !in ns[k].0
    requires '[' in item
    ensures PreviewVar(item, ns) == Preview("", Text("Unknown variable " + item))
  {
    assert forall k :: 0 <= k < |ns| ==> ns[k].0 != item;
  }

  /** The label: the shape wins over the length, and the length is used only without a shape. */
  lemma TypeLabelPrecedence(o: Obj)
    ensures o.shape.Some? ==> TypeLabel(o) == o.typeName + " of shape " + o.shape.value
    ensures o.shape.None? && o.length.Some? ==>
              TypeLabel(o) == o.typeName + " of length " + NatToString(o.length.value)
    ensures o.shape.None? && o.length.None? ==> TypeLabel(o) == o.typeName
    ensures o.typeName <= TypeLabel(o)
  {
  }

  /**
   * For a bound name: the caption is the object's type label; modules and callables get their
   * pydoc text, an object with `to_html` its HTML when the call succeeds, and everything else
   * (including an object whose `to_html` raised) its short representation.
   */
  lemma PreviewKnown(item: string, ns: Namespace)
    requires Lookup(ns, item).Some?
    ensures var o := Lookup(ns, item).value;
      && PreviewVar(item, ns).caption == TypeLabel(o)
      && ((o.moduleInfo.Some? || o.isCallable) ==> PreviewVar(item, ns).body == PlainDoc(o.doc))
      && (o.moduleInfo.None? && !o.isCallable && o.toHtml.Some? && o.toHtml.value.Success? ==>
            PreviewVar(item, ns).body == HtmlDoc(o.toHtml.value.value))
      && (o.moduleInfo.None? && !o.isCallable && (o.toHtml.None? || o.toHtml.value.Failure?) ==>
            PreviewVar(item, ns).body == Text(ShortRepr(o.value)))
  {
  }

  /** `var = list(range(100))` bound in the namespace, as the interpreter describes it. */
  function RangeList(): Obj {
    Obj("list", Seq(Range(100)), None, Some(100), None, false, "", None)
  }

  /**
   * `%preview -n var` after `var = list(range(100))`: the preview names the type and the
   * length and lists `0, 1` but not `99` (test/test_py3_interface.py, test_preview).
   */
  lemma PreviewRangeList(ns: Namespace)
    requires Lookup(ns, "var") == Some(RangeList())
    ensures PreviewVar("var", ns) == Preview("list of length 100", Text("0, 1, ... (100 items)"))
    ensures !Contains(PreviewVar("var", ns).body.text, "99")
  {
    PreviewKnown("var", ns);
    RangeListLabel();
    ShortReprRange100();
  }

  lemma RangeListLabel()
    ensures TypeLabel(RangeList()) == "list of length 100"
  {
    SmallNumerals();
    assert TypeLabel(RangeList()) == "list" + " of length " + "100";
  }

  /** What `__repr_var(item)` returns or raises: `repr` of the bound object, or a ValueError. */
  function ReprVar(item: string, ns: Namespace): (r: Result<string>)
    ensures r.Failure? <==> forall k :: 0 <= k < |ns| ==> ns[k].0 != item
    ensures r.Failure? ==> r.error == "Undefined variable " + item
    ensures r.Success? ==> exists k :: 0 <= k < |ns| && ns[k].0 == item && r.value == Repr(ns[k].1.value)
  {
    match Lookup(ns, item)
    case None => Failure("Undefined variable " + item)
    case Some(o) => Success(Repr(o.value))
  }
}
