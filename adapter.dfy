/**
 * The `sos_Python` adapter: it formats statements, sends them to the Python sub-kernel through
 * the orchestrator's bridge, and decodes what comes back. The bridge is an object that records
 * every request and warning and answers from an oracle; the pickle codec, `eval`, and the
 * orchestrator's `as_fstring`, `replace_sigil` and `short_repr` are given as functions.
 */
module Adapter {
  import opened Wrappers
  import opened PyText
  import opened PyValues

  /** Which outputs `get_response` waits for: the `execute_result`, or the `error` with its `evalue`. */
  datatype Filter = ExecuteResult | ErrorValue

  /** A request to the sub-kernel: a `get_response` query, or a `run_cell` execution. */
  datatype Request = Query(code: string, filter: Filter) | Cell(code: string)

  /**
   * One matching output message, reduced to the fields the adapter reads: `"text/plain"`
   * for `content['data']['text/plain']` and `"evalue"` for `content['evalue']`.
   */
  type Content = map<string, string>

  /** `str()` of the exceptions the adapter's own indexing can raise. */
  const IndexErrorText := "list index out of range"
  const MissingTextPlain := "'text/plain'"
  const MissingEvalue := "'evalue'"

  /**
   * The orchestrator-side kernel (`self.sos_kernel`). `respond(i, req)` is the answer to the
   * i-th request: the matching outputs, or the exception the call raised; for a `Cell` a
   * Failure means the cell reported an error.
   */
  class Kernel {
    var requests: seq<Request>
    var warnings: seq<string>
    const debugMode: bool
    const respond: (nat, Request) -> Result<seq<Content>>

    constructor (debugMode: bool, respond: (nat, Request) -> Result<seq<Content>>)
      ensures requests == [] && warnings == []
      ensures this.debugMode == debugMode && this.respond == respond
    {
      requests := [];
      warnings := [];
      this.debugMode := debugMode;
      this.respond := respond;
    }

    /** `get_response(code, filter)`. */
    method GetResponse(code: string, filter: Filter) returns (r: Result<seq<Content>>)
      modifies this`requests
      ensures requests == old(requests) + [Query(code, filter)]
      ensures r == respond(|old(requests)|, Query(code, filter))
    {
      r := respond(|requests|, Query(code, filter));
      requests := requests + [Query(code, filter)];
    }

    /** `run_cell(code, True, False, on_error=onError)`: a failing cell is reported as a warning. */
    method RunCell(code: string, onError: string)
      modifies this
      ensures requests == old(requests) + [Cell(code)]
      ensures warnings == old(warnings) +
                if respond(|old(requests)|, Cell(code)).Failure? then [onError] else []
    {
      var outcome := respond(|requests|, Cell(code));
      requests := requests + [Cell(code)];
      if outcome.Failure? {
        warnings := warnings + [onError];
      }
    }

    /** `warn(msg)`. */
    method Warn(msg: string)
      modifies this`warnings
      ensures warnings == old(warnings) + [msg]
    {
      warnings := warnings + [msg];
    }
  }

  /** The two pickle variants: the default, and `protocol=2, fix_imports=True` for Python 2. */
  datatype PickleFormat = Default | Protocol2FixImports

  /** Foreign code the adapter calls; each raising call returns a Failure with `str(e)`. */
  datatype Host = Host(
    dumps: (Value, PickleFormat) -> Result<seq<byte>>,
    loads: seq<byte> -> Result<Value>,
    eval: string -> Result<Value>,
    asFString: string -> string,
    replaceSigil: (string, string) -> string,
    shortRepr: Value -> string)

  /** What `put_vars` returns: a statement for the destination to run, or the imported variables. */
  datatype Exchange = MergeCode(code: string) | Imported(vars: Value)

  /** The pickle variant `get_vars` uses for a sub-kernel. */
  function PickleFormatFor(kernelName: string): PickleFormat {
    if kernelName == "python3" then Default else Protocol2FixImports
  }

  /** The mapping `{name: value}` `get_vars` sends for one variable of the store. */
  function ExportPayload(host: Host, kernelName: string, store: map<string, Value>, name: string): Result<seq<byte>> {
    if name !in store then Failure(StrRepr(name))
    else host.dumps(Dict([(Str(name), store[name])]), PickleFormatFor(kernelName))
  }

  /** The statement that unpickles a payload into the sub-kernel's globals. */
  function ExportStatement(payload: seq<byte>): string {
    "globals()" + ".update(" + "pickle.loads(" + BytesRepr(payload) + "))\n"
  }

  /**
   * The export statement is one line of code ending in a newline: the payload's `repr` adds no
   * line break, whatever the pickled bytes are.
   */
  lemma ExportStatementOneLine(payload: seq<byte>)
    ensures var s := ExportStatement(payload);
      && |s| >= 1 && s[|s| - 1] == '\n'
      && '\n' !in s[..|s| - 1]
  {
    var s := ExportStatement(payload);
    var line := "globals()" + ".update(" + "pickle.loads(" + BytesRepr(payload) + "))";
    assert s == line + "\n";
    assert s[..|s| - 1] == line;
    var r := BytesRepr(payload);
    forall k | 0 <= k < |line| ensures line[k] != '\n' {
      if 30 <= k < 30 + |r| {
        assert line[k] == r[k - 30];
      }
    }
  }

  function ExportError(name: string, kernelName: string): string {
    "Failed to get variable " + name + " from SoS to " + kernelName
  }

  /** Whether source and destination are the same dialect, so that `put_vars` leaves the payload pickled. */
  predicate SameDialect(kernelName: string, toKernel: Option<string>) {
    (kernelName == "python3" && toKernel == Some("Python3")) ||
    (kernelName == "python2" && toKernel == Some("Python2"))
  }

  /** `'"{0}":{0}'.format(x)`. */
  function PutEntry(x: string): string {
    "\"" + x + "\":" + x
  }

  /** The generator `'"{0}":{0}'.format(x) for x in items`. */
  function PutEntries(items: seq<string>): (r: seq<string>)
    ensures |r| == |items| && forall k :: 0 <= k < |items| ==> r[k] == PutEntry(items[k])
  {
    if items == [] then [] else [PutEntry(items[0])] + PutEntries(items[1..])
  }

  /** What follows the dict display: the `sos`-prefixed locals are added, and the dict is pickled. */
  const PutVarsTail: string :=
    " }\n" + "__vars__.update(" + "{x:y for x,y in locals().items()" + " if x.startswith(\"sos\")}" + ")" +
    "\n" + "pickle.dumps(__vars__)"

  /** The statement `put_vars` asks the sub-kernel to evaluate. */
  function PutVarsStatement(items: seq<string>): string {
    "__vars__={ " + Join(",", PutEntries(items)) + PutVarsTail
  }

  /** The statement requested variable by variable: every requested name is collected under its own name. */
  lemma PutVarsStatementNamesEach(items: seq<string>, k: nat)
    requires k < |items|
    ensures Contains(PutVarsStatement(items), PutEntry(items[k]))
  {
    var parts := PutEntries(items);
    var joined := Join(",", parts);
    var tail := PutVarsTail;
    JoinContainsPart(",", parts, k);
    ContainsRight("__vars__={ ", joined, parts[k]);
    ContainsLeft("__vars__={ " + joined, tail, parts[k]);
    assert PutVarsStatement(items) == "__vars__={ " + joined + tail;
  }

  /** The statement `put_vars` returns on the same-dialect path. */
  function MergeStatement(pickled: string): string {
    "import pickle;globals().update(pickle.loads(" + pickled + "))"
  }

  function ImportError(items: seq<string>, e: string): string {
    "Failed to import variables " + NamesRepr(items) + ": " + e
  }

  /** The decoding half of `load_pickled`: bytes and text are unpickled, anything else gives `{}`. */
  function Unpickle(host: Host, item: Value): Result<Value> {
    match Unwrap(item)
    case Bytes(bs) => host.loads(bs)
    case Str(s) => host.loads(Utf8Encode(s))
    case _ => Success(EmptyDict)
  }

  /** The warning `load_pickled` gives for a payload it cannot decode, if any. */
  function RestoreWarnings(host: Host, item: Value): seq<string> {
    if Unwrap(item).Bytes? || Unwrap(item).Str? then []
    else ["Cannot restore from result of pickle.dumps: " + host.shortRepr(item)]
  }

  /** A payload that is neither bytes nor str is never handed to the codec and restores as `{}`. */
  lemma UnpickleOther(host: Host, item: Value)
    requires !Unwrap(item).Bytes? && !Unwrap(item).Str?
    ensures Unpickle(host, item) == Success(EmptyDict)
  {
  }

  /** A text payload is unpickled from its UTF-8 bytes, so an ASCII text is read byte for character. */
  lemma UnpickleText(host: Host, s: string)
    requires forall k :: 0 <= k < |s| ==> s[k] as int < 128
    ensures Unpickle(host, Str(s)) == host.loads(seq(|s|, k requires 0 <= k < |s| => s[k] as int as byte))
  {
    Utf8EncodeLength(s);
    assert Utf8Encode(s) == seq(|s|, k requires 0 <= k < |s| => s[k] as int as byte);
  }

  function NoPreview(e: string): Value {
    Seq([Str(""), Str("No preview is available " + e)])
  }

  function PreviewStatement(item: string): string {
    "pickle.dumps(__preview_var(\"" + item + "\"))"
  }

  const SessionInfoStatement: string :=
    "import pickle;import sys;res=[(\"Version\", sys.version)];res.extend(__loaded_modules__());pickle.dumps(res)"

  /** The expression text `expand` evaluates: rewritten to the default `{ }` sigil first. */
  function ExpandText(host: Host, text: string, sigil: string): string {
    if sigil != "{ }" then host.replaceSigil(text, sigil) else text
  }

  /** How many leading names `get_vars` sends before the first that raises. */
  function ExportedCount(host: Host, kernelName: string, store: map<string, Value>, names: seq<string>): (n: nat)
    ensures n <= |names|
    ensures forall j :: 0 <= j < n ==> ExportPayload(host, kernelName, store, names[j]).Success?
    ensures n < |names| ==> ExportPayload(host, kernelName, store, names[n]).Failure?
  {
    if names == [] || ExportPayload(host, kernelName, store, names[0]).Failure? then 0
    else 1 + ExportedCount(host, kernelName, store, names[1..])
  }

  /** Below the count every payload is sent; at the count the payload raises. */
  lemma ExportedCountStep(host: Host, kernelName: string, store: map<string, Value>, names: seq<string>, i: nat)
    requires i < |names| && i <= ExportedCount(host, kernelName, store, names)
    ensures ExportPayload(host, kernelName, store, names[i]).Success? <==> i < ExportedCount(host, kernelName, store, names)
  {
  }

  /** The cells sent for the first n names. */
  function ExportCells(host: Host, kernelName: string, store: map<string, Value>, names: seq<string>, n: nat): (cells: seq<Request>)
    requires n <= ExportedCount(host, kernelName, store, names)
    ensures |cells| == n
  {
    if n == 0 then []
    else
      ExportCells(host, kernelName, store, names, n - 1) +
      [Cell(ExportStatement(ExportPayload(host, kernelName, store, names[n - 1]).value))]
  }

  /**
   * The warnings `get_vars` gets back from its first n cells, the first of which was request
   * number `start` of a kernel answering by `respond`.
   */
  function ExportWarnings(respond: (nat, Request) -> Result<seq<Content>>, host: Host, kernelName: string,
                          start: nat, names: seq<string>, store: map<string, Value>, n: nat): seq<string>
    requires n <= ExportedCount(host, kernelName, store, names)
  {
    if n == 0 then []
    else
      var name := names[n - 1];
      var cell := Cell(ExportStatement(ExportPayload(host, kernelName, store, name).value));
      ExportWarnings(respond, host, kernelName, start, names, store, n - 1) +
      if respond(start + n - 1, cell).Failure? then [ExportError(name, kernelName)] else []
  }

  /** One more name sent adds its cell and, if that cell fails, its warning. */
  lemma ExportStep(respond: (nat, Request) -> Result<seq<Content>>, host: Host, kernelName: string,
                   start: nat, names: seq<string>, store: map<string, Value>, i: nat)
    requires i < ExportedCount(host, kernelName, store, names)
    ensures var cell := Cell(ExportStatement(ExportPayload(host, kernelName, store, names[i]).value));
      && ExportCells(host, kernelName, store, names, i + 1) == ExportCells(host, kernelName, store, names, i) + [cell]
      && ExportWarnings(respond, host, kernelName, start, names, store, i + 1) ==
           ExportWarnings(respond, host, kernelName, start, names, store, i) +
           if respond(start + i, cell).Failure? then [ExportError(names[i], kernelName)] else []
  {
  }

  /** The `sos_Python` object bound to one sub-kernel. */
  class SosPython {
    const kernel: Kernel
    const kernelName: string
    const host: Host

    constructor (kernel: Kernel, kernelName: string, host: Host)
      ensures this.kernel == kernel && this.kernelName == kernelName && this.host == host
    {
      this.kernel := kernel;
      this.kernelName := kernelName;
      this.host := host;
    }

    /**
     * `get_vars(names)`: one `run_cell` per name, in order, each unpickling `{name: value}`
     * into the sub-kernel's globals; a cell that fails is reported as a warning naming the
     * variable. A name missing from the store, or a value that cannot be pickled, raises and
     * stops the loop before anything is sent for it.
     */
    method GetVars(names: seq<string>, store: map<string, Value>) returns (r: Result<()>)
      modifies kernel
      ensures kernel.requests == old(kernel.requests) + ExportCells(host, kernelName, store, names, ExportedCount(host, kernelName, store, names))
      ensures r.Success? <==> ExportedCount(host, kernelName, store, names) == |names|
      ensures r.Failure? ==>
                r.error == ExportPayload(host, kernelName, store, names[ExportedCount(host, kernelName, store, names)]).error
      ensures kernel.warnings == old(kernel.warnings) +
                ExportWarnings(kernel.respond, host, kernelName, |old(kernel.requests)|, names, store,
                               ExportedCount(host, kernelName, store, names))
    {
      ghost var n := ExportedCount(host, kernelName, store, names);
      ghost var requests0 := kernel.requests;
      ghost var warnings0 := kernel.warnings;
      var start := |kernel.requests|;
      var i := 0;
      r := Success(());
      while i < |names|
        invariant i <= n
        invariant r == Success(())
        invariant kernel.requests == requests0 + ExportCells(host, kernelName, store, names, i)
        invariant kernel.warnings == warnings0 + ExportWarnings(kernel.respond, host, kernelName, start, names, store, i)
      {
        var payload := ExportPayload(host, kernelName, store, names[i]);
        ExportedCountStep(host, kernelName, store, names, i);
        if payload.Failure? {
          r := Failure(payload.error);
          return;
        }
        SendOne(names, store, requests0, warnings0, start, i);
        i := i + 1;
      }
    }

    /** One iteration of `get_vars`'s loop: the cell for `names[i]` is run. */
    method SendOne(names: seq<string>, store: map<string, Value>, ghost requests0: seq<Request>,
                   ghost warnings0: seq<string>, start: nat, i: nat)
      modifies kernel
      requires i < ExportedCount(host, kernelName, store, names) && start == |requests0|
      requires kernel.requests == requests0 + ExportCells(host, kernelName, store, names, i)
      requires kernel.warnings == warnings0 + ExportWarnings(kernel.respond, host, kernelName, start, names, store, i)
      ensures kernel.requests == requests0 + ExportCells(host, kernelName, store, names, i + 1)
      ensures kernel.warnings == warnings0 + ExportWarnings(kernel.respond, host, kernelName, start, names, store, i + 1)
    {
      var payload := ExportPayload(host, kernelName, store, names[i]).value;
      ExportStep(kernel.respond, host, kernelName, start, names, store, i);
      kernel.RunCell(ExportStatement(payload), ExportError(names[i], kernelName));
    }

    /**
     * `load_pickled(item)`: bytes are unpickled, a str is unpickled from its UTF-8 encoding,
     * anything else is reported with a warning and restores as `{}`. The codec's exception
     * is passed on.
     */
    method LoadPickled(item: Value) returns (r: Result<Value>)
      modifies kernel`warnings
      ensures r == Unpickle(host, item)
      ensures kernel.warnings == old(kernel.warnings) + RestoreWarnings(host, item)
    {
      var u := Unwrap(item);
      if u.Bytes? {
        r := host.loads(u.bytes);
      } else if u.Str? {
        r := host.loads(Utf8Encode(u.s));
      } else {
        kernel.Warn("Cannot restore from result of pickle.dumps: " + host.shortRepr(item));
        r := Success(EmptyDict);
      }
    }

    /**
     * `put_vars(items, to_kernel)`: one query for the pickled variables. A failed query gives
     * `{}`. Between sub-kernels of the same dialect the pickled text is returned inside a merge
     * statement and never decoded here; otherwise it is decoded, and any failure on the way is
     * reported with a warning and gives `{}`, so this path never raises.
     */
    method PutVars(items: seq<string>, toKernel: Option<string>) returns (r: Result<Exchange>)
      modifies kernel`requests, kernel`warnings
      ensures kernel.requests == old(kernel.requests) + [Query(PutVarsStatement(items), ExecuteResult)]
      ensures var reply := kernel.respond(|old(kernel.requests)|, Query(PutVarsStatement(items), ExecuteResult));
        && ((reply.Failure? || reply.value == []) ==>
              r == Success(Imported(EmptyDict)) && kernel.warnings == old(kernel.warnings))
        && ((reply.Success? && reply.value != [] && SameDialect(kernelName, toKernel)) ==>
              var content := reply.value[|reply.value| - 1];
              && kernel.warnings == old(kernel.warnings)
              && ("text/plain" in content ==> r == Success(MergeCode(MergeStatement(content["text/plain"]))))
              && ("text/plain" !in content ==> r == Failure(MissingTextPlain)))
        && ((reply.Success? && reply.value != [] && !SameDialect(kernelName, toKernel)) ==>
              var content := reply.value[|reply.value| - 1];
              && r.Success? && r.value.Imported?
              && ("text/plain" !in content ==>
                    r.value == Imported(EmptyDict) &&
                    kernel.warnings == old(kernel.warnings) + [ImportError(items, MissingTextPlain)])
              && ("text/plain" in content && host.eval(content["text/plain"]).Failure? ==>
                    r.value == Imported(EmptyDict) &&
                    kernel.warnings == old(kernel.warnings) +
                      [ImportError(items, host.eval(content["text/plain"]).error)])
              && ("text/plain" in content && host.eval(content["text/plain"]).Success? ==>
                    var item := host.eval(content["text/plain"]).value;
                    var loaded := Unpickle(host, item);
                    && (loaded.Failure? ==>
                          r.value == Imported(EmptyDict) &&
                          kernel.warnings == old(kernel.warnings) + RestoreWarnings(host, item) +
                            [ImportError(items, loaded.error)])
                    && (loaded.Success? ==>
                          r.value == Imported(loaded.value) &&
                          kernel.warnings == old(kernel.warnings) + RestoreWarnings(host, item) +
                            if kernel.debugMode then ["Get: " + ToStr(loaded.value)] else [])))
    {
      var reply := kernel.GetResponse(PutVarsStatement(items), ExecuteResult);
      if reply.Failure? || reply.value == [] {
        return Success(Imported(EmptyDict));
      }
      var content := reply.value[|reply.value| - 1];
      if SameDialect(kernelName, toKernel) {
        if "text/plain" !in content {
          return Failure(MissingTextPlain);
        }
        return Success(MergeCode(MergeStatement(content["text/plain"])));
      }
      var vars := Import(items, content);
      r := Success(Imported(vars));
    }

    /**
     * The guarded decoding at the end of `put_vars`: `eval` the reply, unpickle it, and on any
     * exception warn and give `{}`.
     */
    method Import(items: seq<string>, content: Content) returns (v: Value)
      modifies kernel`warnings
      ensures "text/plain" !in content ==>
                v == EmptyDict && kernel.warnings == old(kernel.warnings) + [ImportError(items, MissingTextPlain)]
      ensures "text/plain" in content && host.eval(content["text/plain"]).Failure? ==>
                v == EmptyDict &&
                kernel.warnings == old(kernel.warnings) + [ImportError(items, host.eval(content["text/plain"]).error)]
      ensures "text/plain" in content && host.eval(content["text/plain"]).Success? ==>
                var item := host.eval(content["text/plain"]).value;
                var loaded := Unpickle(host, item);
                && (loaded.Failure? ==>
                      v == EmptyDict &&
                      kernel.warnings == old(kernel.warnings) + RestoreWarnings(host, item) +
                        [ImportError(items, loaded.error)])
                && (loaded.Success? ==>
                      v == loaded.value &&
                      kernel.warnings == old(kernel.warnings) + RestoreWarnings(host, item) +
                        if kernel.debugMode then ["Get: " + ToStr(loaded.value)] else [])
    {
      if "text/plain" !in content {
        kernel.Warn(ImportError(items, MissingTextPlain));
        return EmptyDict;
      }
      var evaluated := host.eval(content["text/plain"]);
      if evaluated.Failure? {
        kernel.Warn(ImportError(items, evaluated.error));
        return EmptyDict;
      }
      var loaded := LoadPickled(evaluated.value);
      if loaded.Failure? {
        kernel.Warn(ImportError(items, loaded.error));
        return EmptyDict;
      }
      if kernel.debugMode {
        kernel.Warn("Get: " + ToStr(loaded.value));
      }
      v := loaded.value;
    }

    /**
     * `expand(text, sigil)`: evaluate the text, rewritten to the default sigil, as an f-string
     * in the sub-kernel. When that fails the same text is sent again to fetch the error's
     * message, which is reported with a warning, and the rewritten text is returned. Only a
     * failure of that second query escapes.
     */
    method Expand(text: string, sigil: string) returns (r: Result<Value>)
      modifies kernel`requests, kernel`warnings
      ensures var t := ExpandText(host, text, sigil);
        var code := host.asFString(t);
        var first := kernel.respond(|old(kernel.requests)|, Query(code, ExecuteResult));
        var evaluated := if first.Success? && first.value != [] && "text/plain" in first.value[|first.value| - 1]
                         then Some(host.eval(first.value[|first.value| - 1]["text/plain"])) else None;
        if evaluated.Some? && evaluated.value.Success? then
          && kernel.requests == old(kernel.requests) + [Query(code, ExecuteResult)]
          && kernel.warnings == old(kernel.warnings)
          && r == evaluated.value
        else
          var second := kernel.respond(|old(kernel.requests)| + 1, Query(code, ErrorValue));
          && kernel.requests == old(kernel.requests) + [Query(code, ExecuteResult), Query(code, ErrorValue)]
          && (second.Success? && second.value != [] && "evalue" in second.value[0] ==>
                && r == Success(Str(t))
                && kernel.warnings == old(kernel.warnings) +
                     ["Failed to expand \"" + t + "\": " + second.value[0]["evalue"]])
          && (second.Failure? ==> r == Failure(second.error) && kernel.warnings == old(kernel.warnings))
          && (second.Success? && second.value == [] ==>
                r == Failure(IndexErrorText) && kernel.warnings == old(kernel.warnings))
          && (second.Success? && second.value != [] && "evalue" !in second.value[0] ==>
                r == Failure(MissingEvalue) && kernel.warnings == old(kernel.warnings))
    {
      var t := ExpandText(host, text, sigil);
      var code := host.asFString(t);
      var first := kernel.GetResponse(code, ExecuteResult);
      if first.Success? && first.value != [] && "text/plain" in first.value[|first.value| - 1] {
        var evaluated := host.eval(first.value[|first.value| - 1]["text/plain"]);
        if evaluated.Success? {
          return evaluated;
        }
      }
      var second := kernel.GetResponse(code, ErrorValue);
      if second.Failure? {
        return Failure(second.error);
      }
      if second.value == [] {
        return Failure(IndexErrorText);
      }
      if "evalue" !in second.value[0] {
        return Failure(MissingEvalue);
      }
      kernel.Warn("Failed to expand \"" + t + "\": " + second.value[0]["evalue"]);
      r := Success(Str(t));
    }

    /**
     * `preview(item)`: ask the sub-kernel for the pickled `__preview_var(item)` and decode it.
     * Every failure on the way gives the pair `('', 'No preview is available <e>')`; nothing
     * escapes.
     */
    method Preview(item: string) returns (r: Value)
      modifies kernel`requests, kernel`warnings
      ensures kernel.requests == old(kernel.requests) + [Query(PreviewStatement(item), ExecuteResult)]
      ensures var reply := kernel.respond(|old(kernel.requests)|, Query(PreviewStatement(item), ExecuteResult));
        && (reply.Failure? ==> r == NoPreview(reply.error))
        && (reply.Success? && reply.value == [] ==> r == NoPreview(IndexErrorText))
        && (reply.Success? && reply.value != [] ==>
              var content := reply.value[|reply.value| - 1];
              && ("text/plain" !in content ==> r == NoPreview(MissingTextPlain))
              && ("text/plain" in content ==>
                    var evaluated := host.eval(content["text/plain"]);
                    && (evaluated.Failure? ==> r == NoPreview(evaluated.error))
                    && (evaluated.Success? ==>
                          var loaded := Unpickle(host, evaluated.value);
                          (loaded.Failure? ==> r == NoPreview(loaded.error)) &&
                          (loaded.Success? ==> r == loaded.value))))
      ensures var reply := kernel.respond(|old(kernel.requests)|, Query(PreviewStatement(item), ExecuteResult));
        var evaluated := if reply.Success? && reply.value != [] && "text/plain" in reply.value[|reply.value| - 1]
                         then Some(host.eval(reply.value[|reply.value| - 1]["text/plain"])) else None;
        kernel.warnings == old(kernel.warnings) +
          if evaluated.Some? && evaluated.value.Success? then RestoreWarnings(host, evaluated.value.value) else []
    {
      var reply := kernel.GetResponse(PreviewStatement(item), ExecuteResult);
      if reply.Failure? {
        return NoPreview(reply.error);
      }
      if reply.value == [] {
        return NoPreview(IndexErrorText);
      }
      var content := reply.value[|reply.value| - 1];
      if "text/plain" !in content {
        return NoPreview(MissingTextPlain);
      }
      var evaluated := host.eval(content["text/plain"]);
      if evaluated.Failure? {
        return NoPreview(evaluated.error);
      }
      var loaded := LoadPickled(evaluated.value);
      if loaded.Failure? {
        return NoPreview(loaded.error);
      }
      r := loaded.value;
    }

    /**
     * `sessioninfo()`: ask the sub-kernel for the pickled session record and decode it. Unlike
     * the other operations nothing is caught: a failed query, a missing result, a failing
     * `eval` or codec error escapes.
     */
    method SessionInfo() returns (r: Result<Value>)
      modifies kernel`requests, kernel`warnings
      ensures kernel.requests == old(kernel.requests) + [Query(SessionInfoStatement, ExecuteResult)]
      ensures var reply := kernel.respond(|old(kernel.requests)|, Query(SessionInfoStatement, ExecuteResult));
        && (reply.Failure? ==> r == Failure(reply.error))
        && (reply.Success? && reply.value == [] ==> r == Failure(IndexErrorText))
        && (reply.Success? && reply.value != [] ==>
              var content := reply.value[0];
              && ("text/plain" !in content ==> r == Failure(MissingTextPlain))
              && ("text/plain" in content ==>
                    var evaluated := host.eval(content["text/plain"]);
                    && (evaluated.Failure? ==> r == evaluated)
                    && (evaluated.Success? ==> r == Unpickle(host, evaluated.value))))
      ensures var reply := kernel.respond(|old(kernel.requests)|, Query(SessionInfoStatement, ExecuteResult));
        var evaluated := if reply.Success? && reply.value != [] && "text/plain" in reply.value[0]
                         then Some(host.eval(reply.value[0]["text/plain"])) else None;
        kernel.warnings == old(kernel.warnings) +
          if evaluated.Some? && evaluated.value.Success? then RestoreWarnings(host, evaluated.value.value) else []
    {
      var reply := kernel.GetResponse(SessionInfoStatement, ExecuteResult);
      if reply.Failure? {
        return Failure(reply.error);
      }
      if reply.value == [] {
        return Failure(IndexErrorText);
      }
      var content := reply.value[0];
      if "text/plain" !in content {
        return Failure(MissingTextPlain);
      }
      var evaluated := host.eval(content["text/plain"]);
      if evaluated.Failure? {
        return evaluated;
      }
      r := LoadPickled(evaluated.value);
    }
  }
}
