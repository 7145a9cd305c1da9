/**
 * Properties of template resolution. Order is stated against an independent reference:
 * the depth-first list of (name, type) probes a request makes, searched
 * linearly for the first one that finds a file.
 */
module ResolverProperties {
  import opened Wrappers
  import opened PhpStrings
  import opened TemplateResolver
  import Paths

  /** One string candidate, with the type it is probed under. */
  datatype Probe = Probe(name: string, docType: Value)

  /** The probes of a candidate, depth-first, in array order. */
  function Probes(v: Value): seq<Probe>
    decreases ValueSize(v), 1
  {
    match v
    case Str(name) => [Probe(name, NoType)]
    case Arr(es) => ProbesOf(Candidates(es), TypeOf(es))
  }

  function ProbesOf(es: seq<Entry>, docType: Value): seq<Probe>
    decreases EntriesSize(es), 2
  {
    if |es| == 0 then []
    else
      EntriesSizeUnfold(es);
      var first := match es[0].value
        case Arr(_) => Probes(es[0].value)
        case Str(name) => [Probe(name, docType)];
      first + ProbesOf(es[1..], docType)
  }

  /** The outcome of one probe: the path found for the name, or the error the type raises. */
  function ProbeOutcome(p: Probe, fs: Filesystem): Result<Option<string>, ResolveError> {
    ResolveName(p.name, p.docType, fs)
  }

  /** Linear search: stop at the first probe that fails or finds a path. */
  function FirstHit(ps: seq<Probe>, fs: Filesystem): Result<Option<string>, ResolveError> {
    if |ps| == 0 then Success(None)
    else
      var path :- ProbeOutcome(ps[0], fs);
      if path.Some? then Success(path) else FirstHit(ps[1..], fs)
  }

  /**
   * As written, the direct-path shortcut compares at most three characters
   * with the five of `.twig`, so it never fires and only the loader decides.
   */
  lemma DirectPathUnreachable(name: string, docType: Value, fs: Filesystem)
    ensures LastChars(name, 3) != Extension
    ensures ResolveNameAsWritten(name, docType, fs) == LoaderProbe(name, docType, fs.loaderExists)
  {
  }

  /**
   * An existing file `page.twig` that the loader does not know as
   * `page.twig.twig`: as written it is not found, as intended it is.
   */
  lemma ExistingTwigFileMissedAsWritten()
    ensures var fs := Filesystem(p => false, p => p == "page.twig");
      && ResolveNameAsWritten("page.twig", NoType, fs) == Success(None)
      && ResolveName("page.twig", NoType, fs) == Success(Some("page.twig"))
  {
    var fs := Filesystem(p => false, p => p == "page.twig");
    DirectPathUnreachable("page.twig", NoType, fs);
    assert EndsWith("page.twig", Extension);
  }

  /** Searching a concatenation searches the second part only when the first finds nothing. */
  lemma {:induction false} FirstHitAppend(a: seq<Probe>, b: seq<Probe>, fs: Filesystem)
    ensures FirstHit(a + b, fs) ==
      if FirstHit(a, fs) == Success(None) then FirstHit(b, fs) else FirstHit(a, fs)
  {
    if |a| > 0 {
      assert (a + b)[0] == a[0];
      assert (a + b)[1..] == a[1..] + b;
      FirstHitAppend(a[1..], b, fs);
    } else {
      assert a + b == b;
    }
  }

  /** Resolution is exactly the linear search over the depth-first probes. */
  lemma {:induction false} ResolveIsFirstHit(v: Value, fs: Filesystem)
    ensures Resolve(v, fs) == FirstHit(Probes(v), fs)
    decreases ValueSize(v), 1
  {
    match v
    case Str(name) =>
      assert [Probe(name, NoType)][1..] == [];
    case Arr(es) =>
      ResolveEachIsFirstHit(Candidates(es), TypeOf(es), fs);
  }

  lemma {:induction false} ResolveEachIsFirstHit(es: seq<Entry>, docType: Value, fs: Filesystem)
    ensures ResolveEach(es, docType, fs) == FirstHit(ProbesOf(es, docType), fs)
    decreases EntriesSize(es), 2
  {
    if |es| > 0 {
      EntriesSizeUnfold(es);
      ResolveEachIsFirstHit(es[1..], docType, fs);
      var rest := ProbesOf(es[1..], docType);
      match es[0].value
      case Arr(_) =>
        var inner := Probes(es[0].value);
        ResolveIsFirstHit(es[0].value, fs);
        FirstHitAppend(inner, rest, fs);
        var r := Resolve(es[0].value, fs);
        if r.Success? && r.value.Some? {
          EndsWithLongSuffixIsTruthy(r.value.value, Extension);
        }
      case Str(name) =>
        FirstHitAppend([Probe(name, docType)], rest, fs);
        assert [Probe(name, docType)][1..] == [];
    }
  }

  /** Probe i finds `path` and every probe before it completes and finds nothing. */
  predicate FirstFoundAt(ps: seq<Probe>, fs: Filesystem, i: nat, path: string) {
    && i < |ps|
    && ProbeOutcome(ps[i], fs) == Success(Some(path))
    && forall j :: 0 <= j < i ==> ProbeOutcome(ps[j], fs) == Success(None)
  }

  lemma {:induction false} FirstHitLocates(ps: seq<Probe>, fs: Filesystem, path: string) returns (i: nat)
    requires FirstHit(ps, fs) == Success(Some(path))
    ensures FirstFoundAt(ps, fs, i, path)
  {
    var first := ProbeOutcome(ps[0], fs);
    if first == Success(Some(path)) {
      i := 0;
    } else {
      assert first == Success(None) && FirstHit(ps[1..], fs) == Success(Some(path));
      var k := FirstHitLocates(ps[1..], fs, path);
      i := k + 1;
      forall j | 0 <= j < i
        ensures ProbeOutcome(ps[j], fs) == Success(None)
      {
        if j > 0 {
          assert ps[j] == ps[1..][j - 1];
        }
      }
    }
  }

  lemma {:induction false} FirstFoundAtIsHit(ps: seq<Probe>, fs: Filesystem, i: nat, path: string)
    requires FirstFoundAt(ps, fs, i, path)
    ensures FirstHit(ps, fs) == Success(Some(path))
  {
    if i > 0 {
      assert ProbeOutcome(ps[0], fs) == Success(None);
      forall j | 0 <= j < i - 1
        ensures ProbeOutcome(ps[1..][j], fs) == Success(None)
      {
        assert ps[1..][j] == ps[j + 1];
      }
      FirstFoundAtIsHit(ps[1..], fs, i - 1, path);
    }
  }

  /** The search finds nothing exactly when every probe completes and finds nothing. */
  lemma {:induction false} FirstHitFindsNothing(ps: seq<Probe>, fs: Filesystem)
    ensures FirstHit(ps, fs) == Success(None) <==>
      forall i :: 0 <= i < |ps| ==> ProbeOutcome(ps[i], fs) == Success(None)
  {
    if |ps| > 0 {
      FirstHitFindsNothing(ps[1..], fs);
      assert forall i :: 1 <= i < |ps| ==> ps[i] == ps[1..][i - 1];
    }
  }

  /** Resolution returns the path of the first probe, depth-first, that finds one. */
  lemma ResolveFindsFirstExisting(v: Value, fs: Filesystem, path: string)
    ensures Resolve(v, fs) == Success(Some(path)) <==>
      exists i: nat :: FirstFoundAt(Probes(v), fs, i, path)
  {
    ResolveIsFirstHit(v, fs);
    if Resolve(v, fs) == Success(Some(path)) {
      var i := FirstHitLocates(Probes(v), fs, path);
    }
    if exists i: nat :: FirstFoundAt(Probes(v), fs, i, path) {
      var i: nat :| FirstFoundAt(Probes(v), fs, i, path);
      FirstFoundAtIsHit(Probes(v), fs, i, path);
    }
  }

  /** Resolution yields null exactly when no probe finds a path (and no probe raises). */
  lemma ResolveNullIffNoneExists(v: Value, fs: Filesystem)
    ensures Resolve(v, fs) == Success(None) <==>
      var ps := Probes(v);
      forall i :: 0 <= i < |ps| ==> ProbeOutcome(ps[i], fs) == Success(None)
  {
    ResolveIsFirstHit(v, fs);
    FirstHitFindsNothing(Probes(v), fs);
  }

  /** The search the engine performs as written: the shortcut never fires, so each probe is the loader's answer. */
  function LoaderHit(ps: seq<Probe>, loaderExists: string -> bool): Result<Option<string>, ResolveError> {
    if |ps| == 0 then Success(None)
    else
      var path :- LoaderProbe(ps[0].name, ps[0].docType, loaderExists);
      if path.Some? then Success(path) else LoaderHit(ps[1..], loaderExists)
  }

  /** No probe names a `.twig` file that exists. */
  predicate NoDirectPaths(ps: seq<Probe>, fs: Filesystem) {
    forall i :: 0 <= i < |ps| ==> !(EndsWith(ps[i].name, Extension) && fs.fileExists(ps[i].name))
  }

  lemma {:induction false} FirstHitIsLoaderHit(ps: seq<Probe>, fs: Filesystem)
    requires NoDirectPaths(ps, fs)
    ensures FirstHit(ps, fs) == LoaderHit(ps, fs.loaderExists)
  {
    if |ps| > 0 {
      assert forall i :: 0 <= i < |ps| - 1 ==> ps[1..][i] == ps[i + 1];
      FirstHitIsLoaderHit(ps[1..], fs);
    }
  }

  /**
   * Where no candidate names an existing `.twig` file, the corrected
   * shortcut changes nothing: resolution is the loader-only search the
   * engine performs as written.
   */
  lemma ResolveMatchesAsWritten(v: Value, fs: Filesystem)
    requires NoDirectPaths(Probes(v), fs)
    ensures Resolve(v, fs) == LoaderHit(Probes(v), fs.loaderExists)
  {
    ResolveIsFirstHit(v, fs);
    FirstHitIsLoaderHit(Probes(v), fs);
  }

  /** When file_exists confirms nothing, only the loader decides. */
  lemma LoaderDecidesWithoutFiles(v: Value, fs: Filesystem)
    ensures Resolve(v, NoFiles(fs)) == LoaderHit(Probes(v), fs.loaderExists)
  {
    ResolveMatchesAsWritten(v, NoFiles(fs));
  }

  /**
   * The resolution the engine performs as written is the intended one with
   * nothing visible to file_exists: the dead shortcut never consults it.
   */
  lemma {:induction false} AsWrittenIgnoresFiles(v: Value, fs: Filesystem)
    ensures ResolveAsWritten(v, fs) == Resolve(v, NoFiles(fs))
    decreases ValueSize(v), 1
  {
    match v
    case Str(name) =>
      DirectPathUnreachable(name, NoType, fs);
    case Arr(es) =>
      EachAsWrittenIgnoresFiles(Candidates(es), TypeOf(es), fs);
  }

  lemma {:induction false} EachAsWrittenIgnoresFiles(es: seq<Entry>, docType: Value, fs: Filesystem)
    ensures ResolveEachAsWritten(es, docType, fs) == ResolveEach(es, docType, NoFiles(fs))
    decreases EntriesSize(es), 2
  {
    if |es| > 0 {
      EntriesSizeUnfold(es);
      EachAsWrittenIgnoresFiles(es[1..], docType, fs);
      match es[0].value
      case Arr(_) =>
        AsWrittenIgnoresFiles(es[0].value, fs);
      case Str(name) =>
        DirectPathUnreachable(name, docType, fs);
    }
  }

  /** As written, resolution is the linear search, over the depth-first probes, for the first the loader confirms. */
  lemma AsWrittenIsLoaderSearch(v: Value, fs: Filesystem)
    ensures ResolveAsWritten(v, fs) == LoaderHit(Probes(v), fs.loaderExists)
  {
    AsWrittenIgnoresFiles(v, fs);
    LoaderDecidesWithoutFiles(v, fs);
  }

  /** Probe i is the first the loader confirms, at `path`, and every probe before it completes and finds nothing. */
  predicate LoaderFoundAt(ps: seq<Probe>, loaderExists: string -> bool, i: nat, path: string) {
    && i < |ps|
    && LoaderProbe(ps[i].name, ps[i].docType, loaderExists) == Success(Some(path))
    && forall j :: 0 <= j < i ==> LoaderProbe(ps[j].name, ps[j].docType, loaderExists) == Success(None)
  }

  lemma FoundAtWithoutFiles(ps: seq<Probe>, fs: Filesystem, i: nat, path: string)
    ensures FirstFoundAt(ps, NoFiles(fs), i, path) <==> LoaderFoundAt(ps, fs.loaderExists, i, path)
  {
    forall j | 0 <= j < |ps|
      ensures ProbeOutcome(ps[j], NoFiles(fs)) == LoaderProbe(ps[j].name, ps[j].docType, fs.loaderExists)
    {
    }
  }

  /** As written, resolution returns a path exactly when it is the first, depth-first, that the loader confirms. */
  lemma AsWrittenFindsFirstExisting(v: Value, fs: Filesystem, path: string)
    ensures ResolveAsWritten(v, fs) == Success(Some(path)) <==>
      exists i: nat :: LoaderFoundAt(Probes(v), fs.loaderExists, i, path)
  {
    AsWrittenIgnoresFiles(v, fs);
    ResolveFindsFirstExisting(v, NoFiles(fs), path);
    forall i: nat
      ensures FirstFoundAt(Probes(v), NoFiles(fs), i, path) <==> LoaderFoundAt(Probes(v), fs.loaderExists, i, path)
    {
      FoundAtWithoutFiles(Probes(v), fs, i, path);
    }
  }

  /** As written, resolution yields null exactly when the loader confirms no probe (and no probe raises). */
  lemma AsWrittenNullIffNoneExists(v: Value, fs: Filesystem)
    ensures ResolveAsWritten(v, fs) == Success(None) <==>
      var ps := Probes(v);
      forall i :: 0 <= i < |ps| ==> LoaderProbe(ps[i].name, ps[i].docType, fs.loaderExists) == Success(None)
  {
    AsWrittenIgnoresFiles(v, fs);
    ResolveNullIffNoneExists(v, NoFiles(fs));
    var ps := Probes(v);
    forall j | 0 <= j < |ps|
      ensures ProbeOutcome(ps[j], NoFiles(fs)) == LoaderProbe(ps[j].name, ps[j].docType, fs.loaderExists)
    {
    }
  }

  /**
   * hasTemplate is false for an existing `page.twig` the loader does not
   * know, and setTemplate fails for it.
   */
  lemma ExistingTwigFileNotAvailable(engine: Engine)
    ensures var fs := Filesystem(p => false, p => p == "page.twig");
      && HasTemplate(Str("page.twig"), fs) == Success(false)
      && SetTemplate(engine, Str("page.twig"), fs) == Failure(TemplateNotFound)
  {
    ExistingTwigFileMissedAsWritten();
  }

  /** A plain name resolves exactly like a one-element list holding it. */
  lemma NameIsSingletonList(name: string, fs: Filesystem)
    ensures ResolveAsWritten(Str(name), fs) == ResolveAsWritten(Arr([Entry(IntKey(0), Str(name))]), fs)
    ensures Resolve(Str(name), fs) == Resolve(Arr([Entry(IntKey(0), Str(name))]), fs)
  {
    var es := [Entry(IntKey(0), Str(name))];
    assert Without(es, TypeKey) == es;
    assert Candidates(es) == es;
    assert TypeOf(es) == NoType;
    assert es[1..] == [];
    assert ResolveAsWritten(Arr(es), fs) == ResolveEachAsWritten(es, NoType, fs);
    assert Resolve(Arr(es), fs) == ResolveEach(es, NoType, fs);
    assert ResolveEachAsWritten(es[1..], NoType, fs) == Success(None);
    assert ResolveEach(es[1..], NoType, fs) == Success(None);
    var w := ResolveNameAsWritten(name, NoType, fs);
    if w.Success? && w.value.None? {
      assert ResolveEachAsWritten(es, NoType, fs) == Success(None);
    }
    var r := ResolveName(name, NoType, fs);
    if r.Success? && r.value.None? {
      assert ResolveEach(es, NoType, fs) == Success(None);
    }
  }

  /** A nested list is resolved on its own: the enclosing list's type does not reach it. */
  lemma NestedListIgnoresOuterType(key: Key, inner: seq<Entry>, docType: Value, fs: Filesystem)
    ensures ResolveEachAsWritten([Entry(key, Arr(inner))], docType, fs) == ResolveAsWritten(Arr(inner), fs)
    ensures ResolveEach([Entry(key, Arr(inner))], docType, fs) == Resolve(Arr(inner), fs)
  {
    var es := [Entry(key, Arr(inner))];
    assert es[1..] == [];
    var w := ResolveAsWritten(Arr(inner), fs);
    if w.Success? && w.value.Some? {
      EndsWithLongSuffixIsTruthy(w.value.value, Extension);
    }
    var r := Resolve(Arr(inner), fs);
    if r.Success? && r.value.Some? {
      EndsWithLongSuffixIsTruthy(r.value.value, Extension);
    }
  }

  /** unset keeps the other entries in their order: it acts on each part of an array separately. */
  lemma {:induction false} WithoutAppend(a: seq<Entry>, b: seq<Entry>, k: Key)
    ensures Without(a + b, k) == Without(a, k) + Without(b, k)
  {
    if |a| > 0 {
      assert (a + b)[0] == a[0];
      assert (a + b)[1..] == a[1..] + b;
      WithoutAppend(a[1..], b, k);
    } else {
      assert a + b == b;
    }
  }

  /** unset on one entry drops it exactly when it has the key. */
  lemma WithoutOne(e: Entry, k: Key)
    ensures Without([e], k) == if e.key == k then [] else [e]
  {
    assert [e][1..] == [];
  }

  /** Removing a key that no entry has changes nothing. */
  lemma {:induction false} WithoutAbsentKey(es: seq<Entry>, k: Key)
    requires forall i :: 0 <= i < |es| ==> es[i].key != k
    ensures Without(es, k) == es
  {
    if |es| > 0 {
      var tail := es[1..];
      assert forall i :: 0 <= i < |tail| ==> tail[i] == es[i + 1];
      WithoutAbsentKey(tail, k);
      assert es[0].key != k;
      assert Without(es, k) == [es[0]] + Without(tail, k);
      assert es == [es[0]] + tail;
    }
  }

  /**
   * A request without a `templates` key: the `type` entry is taken out and
   * the remaining entries, in order, are probed under the request's type.
   */
  lemma TypedRequest(es: seq<Entry>, fs: Filesystem)
    requires Lookup(es, TemplatesKey).None?
    ensures ResolveAsWritten(Arr(es), fs) == ResolveEachAsWritten(Without(es, TypeKey), TypeOf(es), fs)
    ensures Resolve(Arr(es), fs) == ResolveEach(Without(es, TypeKey), TypeOf(es), fs)
  {
  }

  /** A request with a `templates` array: that array is the list, probed under the request's type. */
  lemma TemplatesRequest(es: seq<Entry>, list: seq<Entry>, fs: Filesystem)
    requires Lookup(es, TemplatesKey) == Some(Arr(list))
    ensures ResolveAsWritten(Arr(es), fs) == ResolveEachAsWritten(list, TypeOf(es), fs)
    ensures Resolve(Arr(es), fs) == ResolveEach(list, TypeOf(es), fs)
  {
  }

  /** A request whose `templates` is a string iterates nothing and yields null. */
  lemma StringTemplatesFindNothing(es: seq<Entry>, s: string, fs: Filesystem)
    requires Lookup(es, TemplatesKey) == Some(Str(s))
    ensures ResolveAsWritten(Arr(es), fs) == Success(None)
    ensures Resolve(Arr(es), fs) == Success(None)
  {
  }

  /**
   * The name with backslashes normalised is its head, `/` and its tail when
   * it has a `/`, and is its tail alone (with an empty head) otherwise; the
   * tail never holds a `/`.
   */
  lemma SplitNameRejoins(name: string)
    ensures var normalised := ReplaceChar(name, '\\', '/');
      var (head, tail) := SplitName(name);
      && '/' !in tail
      && ('/' in normalised ==> normalised == head + "/" + tail)
      && ('/' !in normalised ==> head == "" && tail == normalised)
  {
    var normalised := ReplaceChar(name, '\\', '/');
    var parts := Explode(normalised, '/');
    var n := |parts|;
    ImplodeExplode(normalised, '/');
    ImplodeSeparatorFree('/', parts);
    if n >= 2 {
      assert parts == parts[..n - 1] + [parts[n - 1]];
      ImplodeSnoc('/', parts[..n - 1], parts[n - 1]);
    } else {
      assert parts[..n - 1] == [];
    }
  }

  /** With head, type and tail all PHP-truthy (neither "" nor "0"), the probed path is head/type/tail.twig. */
  lemma CandidatePathInsertsType(name: string, docType: string)
    requires var (head, tail) := SplitName(name);
      head !in {"", "0"} && docType !in {"", "0"} && tail !in {"", "0"}
    ensures var (head, tail) := SplitName(name);
      CandidatePath(name, docType) == head + "/" + docType + "/" + tail + Extension
  {
    var (head, tail) := SplitName(name);
    var segments := [head, docType, tail];
    assert segments[1..] == [docType, tail] && segments[1..][1..] == [tail];
    assert Paths.Kept([tail]) == [tail];
    assert Paths.Kept(segments) == segments;
    assert Implode('/', [docType, tail]) == docType + "/" + tail;
    assert Implode('/', segments) == head + "/" + (docType + "/" + tail);
  }

  /** Without a type, a PHP-truthy name (neither "" nor "0") with no separators is probed as name.twig. */
  lemma UntypedPlainName(name: string)
    requires '/' !in name && '\\' !in name && name !in {"", "0"}
    ensures CandidatePath(name, "") == name + Extension
  {
    SplitNameRejoins(name);
    var normalised := ReplaceChar(name, '\\', '/');
    assert normalised == name by {
      forall i | 0 <= i < |name|
        ensures normalised[i] == name[i]
      {
        assert name[i] != '\\';
      }
    }
    var segments := ["", "", name];
    assert segments[1..] == ["", name] && segments[1..][1..] == [name];
    assert Paths.Kept([name]) == [name];
    assert Paths.Kept(segments) == [name];
  }

  /** getTemplateDirs keeps theme order: the directories of a + b are those of a, then those of b. */
  lemma {:induction false} TemplateDirsPreserveOrder(base: string, a: seq<string>, b: seq<string>, isDir: string -> bool)
    ensures TemplateDirs(base, a + b, isDir) == TemplateDirs(base, a, isDir) + TemplateDirs(base, b, isDir)
  {
    if |a| > 0 {
      assert (a + b)[0] == a[0];
      assert (a + b)[1..] == a[1..] + b;
      TemplateDirsPreserveOrder(base, a[1..], b, isDir);
    } else {
      assert a + b == b;
    }
  }

  /** When every theme has a templates directory, all of them are returned, in order. */
  lemma {:induction false} TemplateDirsAllPresent(base: string, themes: seq<string>, isDir: string -> bool)
    requires forall i :: 0 <= i < |themes| ==> isDir(TemplateDir(base, themes[i]))
    ensures TemplateDirs(base, themes, isDir) == seq(|themes|, i requires 0 <= i < |themes| => TemplateDir(base, themes[i]))
  {
    if |themes| > 0 {
      TemplateDirsAllPresent(base, themes[1..], isDir);
    }
  }
}
