# sos-python: the Python sub-kernel adapter, modelled in Dafny

The model covers the Python language module of the SoS polyglot notebook. It has two halves:

- **The routines installed in the Python interpreter.** `__short_repr(obj)` is the bounded one-line summary of a value. `__preview_var(item)` builds the caption and body of a `%preview`. `__repr_var(item)` gives `repr` of a bound variable. `__version_info__` and `__loaded_modules__` list the loaded modules and their versions. The model writes them as functions over a datatype of Python values (`PyValues.Value`) and a namespace of bound objects (`Globals.Namespace`). The `__loaded_modules__` loop becomes a method with loop invariants. Python's `repr` of `str`, `bytes` and `int`, `str.replace`, `", ".join`, `str.encode('utf-8')` and substring search are written out in `PyText`.
- **The `sos_Python` adapter class.** `get_vars` exports variables to the sub-kernel, `put_vars` imports them back, and `load_pickled`, `expand`, `preview` and `sessioninfo` are the other members. It becomes the class `Adapter.SosPython` over a `Kernel` object, which is the orchestrator's bridge. The bridge keeps the list of requests sent to the sub-kernel and the list of warnings shown to the user. It answers request number `i` by the oracle `respond(i, request)`. Foreign code is a `Host` value of functions: the pickle codec, host-side `eval`, and the orchestrator's `as_fstring`, `replace_sigil` and `short_repr`. A raised exception becomes a `Failure` carrying `str(e)`.

Each adapter method states the requests it sends, the warnings it adds and its result or escaping exception, case by case. The lemmas state what the helper routines promise:

- the order of the branches of `__short_repr`;
- summaries that are always single-line, and the exact 83-character shape of a long text;
- the `repr`-of-key quirk of one-entry dicts;
- previews of unknown names and expressions;
- the exact membership and order of the loaded-module list;
- the decimal round trip behind every `(<n> items)` count.

Some error paths are easy to misread, so the model follows the code exactly:

- `expand` falls back to the text after sigil rewriting, not to the original template, because `text` is reassigned before the `try` (kernel.py:198-200, 211).
- `sessioninfo` has no `try` (kernel.py:223-227). A failed query, a missing result, a failing `eval` and a codec error all escape from it.
- `load_pickled` passes the codec's exception on. Only `put_vars` and `preview` catch it (kernel.py:160-164, 187-195, 214-221).
- On the same-dialect path `put_vars` can raise a `KeyError` when the reply has no `text/plain`, because that branch is outside the second `try` (kernel.py:182-186).

## Model

| member | source | states |
|---|---|---|
| PyText.NatToString | src/sos_python/kernel.py:63 | `str(n)` of a count is non-empty, all decimal digits, with no leading zero |
| PyText.NatToStringRoundTrip | src/sos_python/kernel.py:63 | reading the decimal text of `n` back gives `n` |
| PyText.NatToStringInjective | src/sos_python/kernel.py:63 | different counts never print alike |
| PyText.IntToString | src/sos_python/kernel.py:51-52 | `repr` of an int: the decimal form, with `-` for a negative number (definition; its properties are the next two rows) |
| PyText.IntToStringRoundTrip | src/sos_python/kernel.py:51-52 | the `repr` of an int is a `-` exactly for a negative int, then decimal digits, and reading it back with its sign gives the int |
| PyText.IntToStringInjective | src/sos_python/kernel.py:51-52 | different ints never print alike |
| PyText.EscapeNewlinesShape | src/sos_python/kernel.py:49-50 | `replace('\n', '\\n')` leaves no newline and adds one character per newline |
| PyText.EscapeNewlinesIdentity | src/sos_python/kernel.py:49-50 | the replacement leaves a text without newlines unchanged |
| PyText.StrRepr | src/sos_python/kernel.py:51-52 | `repr` of a str is one line, at least 2 characters longer than the text, and opens and closes with the same quote |
| PyText.BytesRepr | src/sos_python/kernel.py:146-147 | `{!r}` of the pickled bytes is one line: `b`, then an opening quote, then the closing quote that matches it at the end |
| PyText.EncodeChar | src/sos_python/kernel.py:164 | UTF-8 gives 1 to 4 bytes per code point, ASCII stays one byte, anything else takes at least two |
| PyText.Utf8EncodeAppend | src/sos_python/kernel.py:164 | encoding a concatenation encodes its parts in order |
| PyText.Utf8EncodeLength | src/sos_python/kernel.py:164 | the encoding has between `len(s)` and `4*len(s)` bytes, and an ASCII text encodes byte for character |
| PyText.JoinContainsPart | src/sos_python/kernel.py:172-173 | every part of `','.join(parts)` occurs in the joined text |
| PyValues.Repr | src/sos_python/kernel.py:52 | `repr(obj)` for the modelled kinds: literals as in `PyText`, lists, dicts and key views element by element, a `__short_repr__` class as its base (definition) |
| PyValues.ToStr | src/sos_python/kernel.py:190 | `str(obj)`, which `'Get: {}'.format(ret)` writes: the text itself for a str, otherwise the `repr` of the modelled kinds (definition) |
| Summaries.Prefix | src/sos_python/kernel.py:83 | `s[:n]` is a prefix of `s` of exactly `min(n, len(s))` characters |
| Summaries.ShortRepr | src/sos_python/kernel.py:45-85 | `__short_repr(obj)`, one case per branch in the source's order (definition; its properties are the lemmas in the following rows) |
| Summaries.ShortReprEmpty | src/sos_python/kernel.py:46-85 | `None` gives `None`; the empty list gives `[]`; the empty dict and keys view give the empty text |
| Summaries.ShortReprLongStr | src/sos_python/kernel.py:48-50 | a text over 80 characters shows its first 60 and last 20 characters around `...`, with newlines escaped; the summary is one line and exactly 83 characters when the text has no newline |
| Summaries.ShortReprLiteral | src/sos_python/kernel.py:51-52 | a short str, an int and a bool show as their `repr` |
| Summaries.ShortReprCapability | src/sos_python/kernel.py:51-54 | `__short_repr__()` wins over every kind except a str, int or bool base, which shows as the plain value |
| Summaries.ShortReprSingleton | src/sos_python/kernel.py:58-59 | a one-element sequence summarises as its element |
| Summaries.ShortReprPair | src/sos_python/kernel.py:60-61 | a two-element sequence shows both summaries separated by `, ` |
| Summaries.ShortReprLongSeq | src/sos_python/kernel.py:62-63 | a longer sequence shows its first two summaries and `, ... (<n> items)` |
| Summaries.ShortReprSeqLooksAtTwo | src/sos_python/kernel.py:55-63 | sequences of equal length that agree on their first two elements summarise alike |
| Summaries.ShortReprRange100 | test/test_py3_interface.py:71-82 | `list(range(100))` summarises as `0, 1, ... (100 items)`, which contains `100`, `0` and `1` but not `99` |
| Summaries.ShortReprDictSingle | src/sos_python/kernel.py:67-69 | a one-entry dict shows the summary of the key's `repr` text, then `:` and the value's summary |
| Summaries.ShortReprDictMany | src/sos_python/kernel.py:70-72 | a larger dict shows its first key and value and the entry count |
| Summaries.ShortReprDictKeyQuirk | src/sos_python/kernel.py:64-72 | `{'a': 1}` shows as `"'a'":1`, while `{'a': 1, 'b': 2}` shows as `'a':1, ... (2 items)` |
| Summaries.ShortReprKeysSingleton | src/sos_python/kernel.py:76-77 | a one-key view summarises as its key |
| Summaries.ShortReprKeysMany | src/sos_python/kernel.py:78-79 | a larger keys view shows the first key and the key count |
| Summaries.ShortReprFallback | src/sos_python/kernel.py:80-85 | any other object shows its `str()` when that is at most 40 characters, otherwise 35 characters of its `repr()` and `...`; the summary is at most 40 characters |
| Summaries.ShortReprSingleLine | src/sos_python/kernel.py:45-85 | every summary is one line when the texts the value supplies itself are one line |
| Globals.Lookup | src/sos_python/kernel.py:90 | the lookup fails exactly when no binding has the name; a found object is bound under that name |
| Previews.TypeLabel | src/sos_python/kernel.py:96-102 | the caption: type name, then shape or length (definition; see `TypeLabelPrecedence`) |
| Previews.PreviewVar | src/sos_python/kernel.py:88-118 | `__preview_var(item)` over a namespace (definition; see the next four rows) |
| Previews.PreviewUnknown | src/sos_python/kernel.py:90-91 | an unbound name gives `('', 'Unknown variable <name>')` whatever else is bound |
| Previews.PreviewExpressionIsUnknown | test/test_py3_interface.py:84-90 | a subscript such as `var[1]` is never bound in a namespace whose keys hold no `[` (as no identifier does), so it previews as unknown |
| Previews.TypeLabelPrecedence | src/sos_python/kernel.py:96-102 | the caption is the type name, then the shape if there is one, else the length of a sized object |
| Previews.PreviewKnown | src/sos_python/kernel.py:93-118 | a bound object is captioned by its type label; modules and callables get their pydoc text, an object with `to_html` gets its HTML if the call succeeds, and everything else gets its short representation |
| Previews.PreviewRangeList | test/test_py3_interface.py:71-82 | `var = list(range(100))` previews as `list of length 100` with `0, 1, ... (100 items)`, and the body has no `99` |
| Previews.ReprVar | src/sos_python/kernel.py:120-123 | `__repr_var` raises `Undefined variable <name>` exactly when no binding of the namespace has the name; otherwise it gives the `repr` of an object bound under that name |
| Sessions.VersionInfo | src/sos_python/kernel.py:20-33 | `__version_info__`: `__version__`, else the distribution's version, else `na` (definition; see the next row) |
| Sessions.VersionInfoSources | src/sos_python/kernel.py:20-33 | the version is one of the two lookups' answers or `na`; `na` means the attribute lookup gave nothing (or `na`); once the attribute answers, the distribution plays no part |
| Sessions.ModuleVersions | src/sos_python/kernel.py:38-41 | the list `res` the loop builds (definition; see `ModuleVersionsMembers`) |
| Sessions.KeepVersioned | src/sos_python/kernel.py:42 | the final comprehension (definition; see `KeepVersionedMembers` and `KeepVersionedAppend`) |
| Sessions.SessionRecord | src/sos_python/kernel.py:225 | the list `sessioninfo`'s statement builds (definition; see `SessionRecordShape`) |
| Sessions.LoadedModules | src/sos_python/kernel.py:36-42 | the loop and the comprehension give the versioned entries of the module bindings, in namespace order |
| Sessions.ModuleVersionsMembers | src/sos_python/kernel.py:39-41 | the loop collects `(name, version)` for every module binding and for nothing else |
| Sessions.KeepVersionedMembers | src/sos_python/kernel.py:42 | the comprehension keeps exactly the entries whose version is not `na` |
| Sessions.KeepVersionedAppend | src/sos_python/kernel.py:42 | the comprehension keeps order: filtering a concatenation filters each part in turn |
| Sessions.LoadedModulesMembers | src/sos_python/kernel.py:36-42 | an entry is listed exactly when a module binding yields it and its version is known |
| Sessions.SessionRecordShape | src/sos_python/kernel.py:225 | the session record starts with `("Version", sys.version)` and never lists a module whose version is `na` |
| Adapter.Kernel.GetResponse | src/sos_python/kernel.py:176-177 | the bridge's `get_response`: the query is appended to the request log and answered by the oracle |
| Adapter.Kernel.RunCell | src/sos_python/kernel.py:153-158 | the bridge's `run_cell`: the cell is logged, and its `on_error` text is added as a warning exactly when the cell fails |
| Adapter.Kernel.Warn | src/sos_python/kernel.py:166-168 | the bridge's `warn`: exactly one warning is appended |
| Adapter.PickleFormatFor | src/sos_python/kernel.py:145-152 | the pickle format for the sub-kernel: default for `python3`, protocol 2 with `fix_imports` otherwise (definition) |
| Adapter.ExportPayload | src/sos_python/kernel.py:146-152 | `pickle.dumps({name: value})`, or `KeyError` with `repr(name)` when the name is not in the store (definition) |
| Adapter.ExportStatement | src/sos_python/kernel.py:146-149 | the unpickling statement for one payload (definition; see the next row) |
| Adapter.ExportStatementOneLine | src/sos_python/kernel.py:146-149 | the export statement is one line of code ending in its newline, whatever the pickled bytes are |
| Adapter.PutVarsStatement | src/sos_python/kernel.py:172-173 | the `put_vars` query text (definition; see the next row) |
| Adapter.MergeStatement | src/sos_python/kernel.py:185-186 | the statement returned on the same-dialect path (definition) |
| Adapter.Unpickle | src/sos_python/kernel.py:160-169 | the result `load_pickled` computes (definition; see the next two rows and `SosPython.LoadPickled`) |
| Adapter.ExportedCount | src/sos_python/kernel.py:143-152 | the count of names sent is the length of the longest prefix whose payloads all pickle; the name at the count, if any, raises |
| Adapter.PutVarsStatementNamesEach | src/sos_python/kernel.py:172-173 | the `put_vars` statement collects every requested name `x` as `"x":x` |
| Adapter.UnpickleOther | src/sos_python/kernel.py:165-169 | a payload that is neither bytes nor str never reaches the codec and restores as `{}` |
| Adapter.UnpickleText | src/sos_python/kernel.py:163-164 | an ASCII text payload is unpickled from the bytes of its characters |
| Adapter.SosPython.GetVars | src/sos_python/kernel.py:143-158 | one cell per name, in order, until the first name that is missing or cannot be pickled, whose exception escapes; a failing cell adds the warning naming the variable and the kernel |
| Adapter.SosPython.SendOne | src/sos_python/kernel.py:146-158 | one loop step: the unpickling cell for the next name is sent, and its warning is added if the cell fails |
| Adapter.SosPython.LoadPickled | src/sos_python/kernel.py:160-169 | bytes are unpickled, a str through its UTF-8 bytes, anything else warns `Cannot restore ...` and gives `{}`; the codec's exception is passed on |
| Adapter.SosPython.PutVars | src/sos_python/kernel.py:171-195 | one query; a failed or empty reply gives `{}`; for the same dialect it returns the merge statement or raises `KeyError('text/plain')`; otherwise it always returns the decoded variables or `{}` with a warning |
| Adapter.SosPython.Import | src/sos_python/kernel.py:187-195 | the guarded decoding: every failure warns `Failed to import variables ...` and gives `{}`; success gives the variables, with a `Get:` warning in debug mode |
| Adapter.SosPython.Expand | src/sos_python/kernel.py:197-211 | the rewritten text is evaluated as an f-string; on any failure the same code is queried for the error and the rewritten text is returned with a warning; only a failure of that second query escapes, with the bridge's error, `list index out of range` or `KeyError('evalue')` |
| Adapter.SosPython.Preview | src/sos_python/kernel.py:213-221 | one query for `__preview_var`; every failure gives `('', 'No preview is available <e>')` and nothing escapes |
| Adapter.SosPython.SessionInfo | src/sos_python/kernel.py:223-227 | one query for the session record, read from the first output; every failure escapes |

## Left out

- Sessions.VersionInfo: every failed lookup gives `na`. At kernel.py:29, `import pkg_resources` sits outside the inner `try`, so without that package `__version_info__` raises an ImportError that escapes `__loaded_modules__`; the model does not capture this, since the import mechanism is outside the model.
- Dict keys are taken to be distinct, as in a Python dict, but `Value.Dict` does not enforce it. The `(<n> items)` count equals `len(dict)` only for distinct keys.
- The fields `typeName`, `shape` and `length` of `Globals.Obj` are not tied to its `value`. The model takes them as the interpreter reports them.
- Floats are not modelled. The literal branch of `__short_repr` (kernel.py:51) covers str, int and bool only.
- Tuples and other `Sequence` types are `Value.Seq`. Their `repr` is written like a list's.
- Only ASCII printability is modelled. `repr` of a str writes every code point from 161 up as itself, where Python consults the Unicode printable property.
- `eval(item)` in `__preview_var` and `__repr_var` is the object bound under `item`. The model does not evaluate expressions; for identifier keys the two agree.
- Exceptions raised by an object's own `__short_repr__`, `__str__`, `__repr__`, `__len__` or `shape` are not modelled.
- The pickle codec, `eval` on the orchestrator side, `pydoc.render_doc`, `to_html`, the import mechanism and `pkg_resources` are outside the model. They are given as functions or as fields of the bound object (`Host`, `Globals.Obj`).
- The orchestrator's variable store `env.sos_dict` is a parameter of `GetVars`.
- `sos.utils.short_repr`, `as_fstring` and `replace_sigil` are given as functions of `Host`.
- The bridge (`run_cell`, `get_response`) is an oracle that answers request number `i`. Its messages are reduced to the `text/plain` and `evalue` fields the adapter reads, so a missing `data` key and a missing `text/plain` key give the same `KeyError` text.
- The flags `True, False` passed to `run_cell` are not modelled.
- The link between what the interpreter runs and what it answers is not modelled. `SessionRecord` and `PreviewVar` state what the in-interpreter routines compute; the adapter methods see only the oracle's answer.
- `env.log_to_file` in `preview` (kernel.py:220) writes a debug log and is left out.
- The class constants are configuration data with no behaviour, and are not modelled: `supported_kernels`, `background_color`, `options`, `cd_command` and the `init_statements` text (kernel.py:129-141).
- `preview` pastes `item` into the statement unescaped (kernel.py:216). A name containing `"` gives a broken statement. The oracle decides the answer.
- Python 2 sub-kernels are modelled only through the pickle format choice and the dialect test. The helper routines follow Python 3 semantics.
