/**
 * `__version_info__(module)`, `__loaded_modules__()` and the session record that
 * `sessioninfo` asks the interpreter to build.
 */
module Sessions {
  import opened Wrappers
  import opened Globals

  /** The version of a module: its `__version__`, else its distribution's version, else `'na'`. */
  function VersionInfo(m: ModuleInfo): string {
    match m.attrVersion
    case Some(v) => v
    case None =>
      match m.distVersion
      case Some(v) => v
      case None => "na"
  }

  /**
   * The version is never invented: it is one of the two lookups' answers or `'na'`; and once
   * the `__version__` attribute answers, the distribution's version plays no part.
   */
  lemma VersionInfoSources(m: ModuleInfo, otherDist: Option<string>)
    ensures VersionInfo(m) == "na" || Some(VersionInfo(m)) == m.attrVersion || Some(VersionInfo(m)) == m.distVersion
    ensures VersionInfo(m) == "na" ==> m.attrVersion.None? || m.attrVersion == Some("na")
    ensures m.attrVersion.Some? ==> VersionInfo(m) == VersionInfo(ModuleInfo(m.name, m.attrVersion, otherDist))
    ensures m.attrVersion.None? && m.distVersion.None? ==> VersionInfo(m) == "na"
  {
  }

  /** The `[name, version]` pair the loop appends for a module binding, if the binding is a module. */
  function ModuleEntry(b: (string, Obj)): Option<(string, string)> {
    match b.1.moduleInfo
    case Some(m) => Some((m.name, VersionInfo(m)))
    case None => None
  }

  /** The list `res` the loop of `__loaded_modules__` builds, one entry per module binding, in order. */
  function ModuleVersions(ns: Namespace): seq<(string, string)>
    decreases |ns|
  {
    if ns == [] then []
    else
      ModuleVersions(ns[..|ns| - 1]) +
      match ModuleEntry(ns[|ns| - 1]) case Some(e) => [e] case None => []
  }

  /** The comprehension `[(x, y) for x, y in res if y != 'na']`. */
  function KeepVersioned(res: seq<(string, string)>): seq<(string, string)>
    decreases |res|
  {
    if res == [] then []
    else KeepVersioned(res[..|res| - 1]) + if res[|res| - 1].1 != "na" then [res[|res| - 1]] else []
  }

  /** `__loaded_modules__()` run in the namespace `ns`. */
  method LoadedModules(ns: Namespace) returns (out: seq<(string, string)>)
    ensures out == KeepVersioned(ModuleVersions(ns))
  {
    var res: seq<(string, string)> := [];
    for i := 0 to |ns|
      invariant res == ModuleVersions(ns[..i])
    {
      assert ns[..i + 1][..i] == ns[..i];
      var b := ns[i];
      if b.1.moduleInfo.Some? {
        var m := b.1.moduleInfo.value;
        res := res + [(m.name, VersionInfo(m))];
      }
    }
    assert ns[..|ns|] == ns;
    out := [];
    for j := 0 to |res|
      invariant out == KeepVersioned(res[..j])
    {
      assert res[..j + 1][..j] == res[..j];
      if res[j].1 != "na" {
        out := out + [res[j]];
      }
    }
    assert res[..|res|] == res;
  }

  /** The filter keeps exactly the entries whose version is not `'na'`. */
  lemma {:induction false} KeepVersionedMembers(res: seq<(string, string)>, e: (string, string))
    ensures e in KeepVersioned(res) <==> e in res && e.1 != "na"
    decreases |res|
  {
    if res != [] {
      var init := res[..|res| - 1];
      KeepVersionedMembers(init, e);
      assert res == init + [res[|res| - 1]];
    }
  }

  /** The filter respects order: filtering a concatenation filters each part in turn. */
  lemma {:induction false} KeepVersionedAppend(xs: seq<(string, string)>, ys: seq<(string, string)>)
    ensures KeepVersioned(xs + ys) == KeepVersioned(xs) + KeepVersioned(ys)
    decreases |ys|
  {
    if ys == [] {
      assert xs + ys == xs;
    } else {
      var init := ys[..|ys| - 1];
      assert (xs + ys)[..|xs + ys| - 1] == xs + init;
      KeepVersionedAppend(xs, init);
    }
  }

  /** The loop collects, for every module binding, its name and version, and nothing else. */
  lemma {:induction false} ModuleVersionsMembers(ns: Namespace, e: (string, string))
    ensures e in ModuleVersions(ns) <==> exists k :: 0 <= k < |ns| && ModuleEntry(ns[k]) == Some(e)
    decreases |ns|
  {
    if ns != [] {
      var init := ns[..|ns| - 1];
      ModuleVersionsMembers(init, e);
      if (exists k :: 0 <= k < |ns| && ModuleEntry(ns[k]) == Some(e)) {
        var k :| 0 <= k < |ns| && ModuleEntry(ns[k]) == Some(e);
        if k < |ns| - 1 { assert init[k] == ns[k]; }
      }
      if (exists k :: 0 <= k < |init| && ModuleEntry(init[k]) == Some(e)) {
        var k :| 0 <= k < |init| && ModuleEntry(init[k]) == Some(e);
        assert ns[k] == init[k];
      }
    }
  }

  /**
   * `__loaded_modules__()` lists `(name, version)` exactly for the modules bound in the
   * namespace whose version is known.
   */
  lemma LoadedModulesMembers(ns: Namespace, e: (string, string))
    ensures e in KeepVersioned(ModuleVersions(ns)) <==>
              e.1 != "na" && exists k :: 0 <= k < |ns| && ModuleEntry(ns[k]) == Some(e)
  {
    KeepVersionedMembers(ModuleVersions(ns), e);
    ModuleVersionsMembers(ns, e);
  }

  /** The record built by the `sessioninfo` statement: the interpreter version, then the loaded modules. */
  function SessionRecord(pythonVersion: string, ns: Namespace): seq<(string, string)> {
    [("Version", pythonVersion)] + KeepVersioned(ModuleVersions(ns))
  }

  /** The record starts with the interpreter version and never lists a module whose version is `'na'`. */
  lemma SessionRecordShape(pythonVersion: string, ns: Namespace)
    ensures SessionRecord(pythonVersion, ns)[0] == ("Version", pythonVersion)
    ensures forall k :: 1 <= k < |SessionRecord(pythonVersion, ns)| ==>
              SessionRecord(pythonVersion, ns)[k].1 != "na"
  {
    var mods := KeepVersioned(ModuleVersions(ns));
    forall k | 1 <= k < |SessionRecord(pythonVersion, ns)|
      ensures SessionRecord(pythonVersion, ns)[k].1 != "na"
    {
      assert SessionRecord(pythonVersion, ns)[k] == mods[k - 1];
      KeepVersionedMembers(ModuleVersions(ns), mods[k - 1]);
    }
  }
}
