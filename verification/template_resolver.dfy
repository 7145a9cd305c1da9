/**
 * Template resolution of the engine: a template name, a list of candidate
 * names (possibly nested), or a keyed request with a `type` and a
 * `templates` list, is searched depth-first for the first candidate whose
 * `.twig` file the template loader reports as existing.
 *
 * The filesystem is a parameter: the loader's `exists`, PHP's file_exists
 * and is_dir are uninterpreted predicates.
 */
module TemplateResolver {
  import opened Wrappers
  import opened PhpStrings
  import opened Paths

  /** A PHP array key. */
  datatype Key = IntKey(index: int) | StrKey(name: string)

  /** A candidate: a template name or a PHP array of further candidates. */
  datatype Value = Str(s: string) | Arr(entries: seq<Entry>)

  /** One key/value pair of a PHP array, in the array's order. */
  datatype Entry = Entry(key: Key, value: Value)

  datatype ResolveError =
    | TypeNotString      // a `type` that is an array reaches Path::join, whose trim() rejects it
    | TemplateNotFound   // null assigned to the engine's string-typed template property

  /** The filesystem as seen through the template loader and PHP's file_exists. */
  datatype Filesystem = Filesystem(loaderExists: string -> bool, fileExists: string -> bool)

  /** The engine's state: the resolved template path it will render. */
  datatype Engine = Engine(template: string)

  const TypeKey := StrKey("type")
  const TemplatesKey := StrKey("templates")
  const NoType := Str("")
  const Extension := ".twig"
  const TemplatesDir := "templates"

  function Sum(ns: seq<nat>): nat {
    if |ns| == 0 then 0 else ns[0] + Sum(ns[1..])
  }

  /** A size that strictly decreases from an array to each of its values. */
  function ValueSize(v: Value): (n: nat)
    ensures n >= 1
  {
    match v
    case Str(_) => 1
    case Arr(es) => 1 + Sum(seq(|es|, i requires 0 <= i < |es| => ValueSize(es[i].value)))
  }

  function EntriesSize(es: seq<Entry>): nat {
    ValueSize(Arr(es)) - 1
  }

  lemma EntriesSizeUnfold(es: seq<Entry>)
    requires |es| > 0
    ensures EntriesSize(es) == ValueSize(es[0].value) + EntriesSize(es[1..])
  {
    var sizes := seq(|es|, i requires 0 <= i < |es| => ValueSize(es[i].value));
    assert sizes[1..] == seq(|es[1..]|, i requires 0 <= i < |es[1..]| => ValueSize(es[1..][i].value));
  }

  /** array_key_exists and lookup: the value under the first entry with key k. */
  function Lookup(es: seq<Entry>, k: Key): (r: Option<Value>)
    ensures r.Some? ==> ValueSize(r.value) <= EntriesSize(es)
    ensures r.Some? <==> exists i :: 0 <= i < |es| && es[i].key == k
    ensures r.Some? ==> Entry(k, r.value) in es
  {
    if |es| == 0 then None
    else
      EntriesSizeUnfold(es);
      if es[0].key == k then Some(es[0].value)
      else
        var r := Lookup(es[1..], k);
        assert forall i :: 1 <= i < |es| ==> es[i] == es[1..][i - 1];
        r
  }

  /** unset: the entries with key k removed, the others kept in order. */
  function Without(es: seq<Entry>, k: Key): (r: seq<Entry>)
    ensures EntriesSize(r) <= EntriesSize(es)
    ensures forall e :: e in r <==> e in es && e.key != k
  {
    if |es| == 0 then []
    else
      EntriesSizeUnfold(es);
      var rest := Without(es[1..], k);
      if es[0].key == k then rest
      else
        EntriesSizeUnfold([es[0]] + rest);
        assert ([es[0]] + rest)[1..] == rest;
        [es[0]] + rest
  }

  /** Looking up one key is unaffected by unsetting another. */
  lemma {:induction false} LookupWithout(es: seq<Entry>, j: Key, k: Key)
    requires j != k
    ensures Lookup(Without(es, j), k) == Lookup(es, k)
  {
    if |es| > 0 {
      LookupWithout(es[1..], j, k);
      var rest := Without(es[1..], j);
      if es[0].key != j {
        assert Without(es, j) == [es[0]] + rest;
        assert ([es[0]] + rest)[1..] == rest;
      }
    }
  }

  /** The type a request names, or the empty type. */
  function TypeOf(es: seq<Entry>): Value {
    Lookup(es, TypeKey).GetOr(NoType)
  }

  /**
   * The candidates a request iterates: with `type` removed, the `templates`
   * entry's array if there is one (a string there iterates nothing, as
   * PHP's foreach over a non-array does), otherwise the rest of the request.
   */
  function Candidates(es: seq<Entry>): (r: seq<Entry>)
    ensures EntriesSize(r) <= EntriesSize(es)
    ensures Lookup(es, TemplatesKey).None? ==> forall e :: e in r <==> e in es && e.key != TypeKey
    ensures Lookup(es, TemplatesKey).None? ==> r == Without(es, TypeKey)
    ensures Lookup(es, TemplatesKey).Some? && Lookup(es, TemplatesKey).value.Arr? ==>
      r == Lookup(es, TemplatesKey).value.entries
    ensures Lookup(es, TemplatesKey).Some? && Lookup(es, TemplatesKey).value.Str? ==> r == []
  {
    LookupWithout(es, TypeKey, TemplatesKey);
    var rest := Without(es, TypeKey);
    match Lookup(rest, TemplatesKey)
    case Some(Arr(inner)) => inner
    case Some(Str(_)) => []
    case None => rest
  }

  /** The type as a path segment; an array cannot be one. */
  function TypeSegment(docType: Value): Result<string, ResolveError> {
    match docType
    case Str(s) => Success(s)
    case Arr(_) => Failure(TypeNotString)
  }

  /** The template name with backslashes made forward slashes, split at its last `/`. */
  function SplitName(name: string): (string, string) {
    var parts := Explode(ReplaceChar(name, '\\', '/'), '/');
    (Implode('/', parts[..|parts| - 1]), parts[|parts| - 1])
  }

  /** The file a template name denotes for a type: head, type and tail joined, plus `.twig`. */
  function CandidatePath(name: string, docType: string): string {
    var (head, tail) := SplitName(name);
    Join([head, docType, tail]) + Extension
  }

  /** Ask the loader for the candidate path of one name. */
  function LoaderProbe(name: string, docType: Value, loaderExists: string -> bool): (r: Result<Option<string>, ResolveError>)
    ensures r.Failure? <==> docType.Arr?
    ensures r.Failure? ==> r.error == TypeNotString
    ensures r.Success? && r.value.Some? ==> loaderExists(r.value.value) && EndsWith(r.value.value, Extension)
    ensures r.Success? && r.value.Some? ==> r.value.value == CandidatePath(name, docType.s)
    ensures r.Success? && r.value.None? ==> !loaderExists(CandidatePath(name, docType.s))
  {
    var segment :- TypeSegment(docType);
    var path := CandidatePath(name, segment);
    Success(if loaderExists(path) then Some(path) else None)
  }

  /**
   * One string candidate with the direct-path shortcut as the engine writes
   * it: the last three characters of the name are compared with the five of
   * `.twig`, then the loader is probed.
   */
  function ResolveNameAsWritten(name: string, docType: Value, fs: Filesystem): (r: Result<Option<string>, ResolveError>)
    ensures r == LoaderProbe(name, docType, fs.loaderExists)
  {
    if LastChars(name, 3) == Extension && fs.fileExists(name) then Success(Some(name))
    else LoaderProbe(name, docType, fs.loaderExists)
  }

  /**
   * One string candidate with the shortcut as intended: a name ending in
   * `.twig` that exists as a file is a path and is returned as it is;
   * anything else is probed through the loader.
   */
  function ResolveName(name: string, docType: Value, fs: Filesystem): (r: Result<Option<string>, ResolveError>)
    ensures r.Success? && r.value.Some? ==> EndsWith(r.value.value, Extension)
    ensures EndsWith(name, Extension) && fs.fileExists(name) ==> r == Success(Some(name))
    ensures !(EndsWith(name, Extension) && fs.fileExists(name)) ==> r == LoaderProbe(name, docType, fs.loaderExists)
  {
    if LastChars(name, |Extension|) == Extension && fs.fileExists(name) then Success(Some(name))
    else LoaderProbe(name, docType, fs.loaderExists)
  }

  /**
   * getTemplateFromCandidates as written: the first resolving candidate,
   * null if none, or the error raised.
   */
  function ResolveAsWritten(v: Value, fs: Filesystem): (r: Result<Option<string>, ResolveError>)
    ensures r.Success? && r.value.Some? ==> EndsWith(r.value.value, Extension)
    decreases ValueSize(v), 1
  {
    match v
    case Str(name) => ResolveNameAsWritten(name, NoType, fs)
    case Arr(es) => ResolveEachAsWritten(Candidates(es), TypeOf(es), fs)
  }

  /** The foreach over the candidate list as written: nested arrays recurse, strings are probed. */
  function ResolveEachAsWritten(es: seq<Entry>, docType: Value, fs: Filesystem): (r: Result<Option<string>, ResolveError>)
    ensures r.Success? && r.value.Some? ==> EndsWith(r.value.value, Extension)
    decreases EntriesSize(es), 2
  {
    if |es| == 0 then Success(None)
    else
      EntriesSizeUnfold(es);
      match es[0].value
      case Arr(_) =>
        var path :- ResolveAsWritten(es[0].value, fs);
        if Truthy(path) then Success(path) else ResolveEachAsWritten(es[1..], docType, fs)
      case Str(name) =>
        var path :- ResolveNameAsWritten(name, docType, fs);
        if path.Some? then Success(path) else ResolveEachAsWritten(es[1..], docType, fs)
  }

  /** getTemplateFromCandidates with the direct-path shortcut as intended. */
  function Resolve(v: Value, fs: Filesystem): (r: Result<Option<string>, ResolveError>)
    ensures r.Success? && r.value.Some? ==> EndsWith(r.value.value, Extension)
    decreases ValueSize(v), 1
  {
    match v
    case Str(name) => ResolveName(name, NoType, fs)
    case Arr(es) => ResolveEach(Candidates(es), TypeOf(es), fs)
  }

  /** The candidate loop with the direct-path shortcut as intended. */
  function ResolveEach(es: seq<Entry>, docType: Value, fs: Filesystem): (r: Result<Option<string>, ResolveError>)
    ensures r.Success? && r.value.Some? ==> EndsWith(r.value.value, Extension)
    decreases EntriesSize(es), 2
  {
    if |es| == 0 then Success(None)
    else
      EntriesSizeUnfold(es);
      match es[0].value
      case Arr(_) =>
        var path :- Resolve(es[0].value, fs);
        if Truthy(path) then Success(path) else ResolveEach(es[1..], docType, fs)
      case Str(name) =>
        var path :- ResolveName(name, docType, fs);
        if path.Some? then Success(path) else ResolveEach(es[1..], docType, fs)
  }

  /** The same filesystem with nothing visible to file_exists. */
  function NoFiles(fs: Filesystem): Filesystem {
    fs.(fileExists := p => false)
  }

  /** hasTemplate: whether resolution yields a (truthy) path. */
  function HasTemplate(v: Value, fs: Filesystem): (r: Result<bool, ResolveError>)
    ensures r.Success? <==> ResolveAsWritten(v, fs).Success?
    ensures r.Success? ==> (r.value <==> ResolveAsWritten(v, fs).value.Some?)
  {
    var path :- ResolveAsWritten(v, fs);
    assert path.Some? ==> Truthy(path) by {
      if path.Some? {
        EndsWithLongSuffixIsTruthy(path.value, Extension);
      }
    }
    Success(Truthy(path))
  }

  /** setTemplate: store the resolved path; a null result cannot be stored in the string property. */
  function SetTemplate(engine: Engine, v: Value, fs: Filesystem): (r: Result<Engine, ResolveError>)
    ensures r.Success? <==> ResolveAsWritten(v, fs).Success? && ResolveAsWritten(v, fs).value.Some?
    ensures r.Success? ==>
      r.value.template == ResolveAsWritten(v, fs).value.value && EndsWith(r.value.template, Extension)
    ensures ResolveAsWritten(v, fs) == Success(None) ==> r == Failure(TemplateNotFound)
  {
    var path :- ResolveAsWritten(v, fs);
    if path.Some? then Success(engine.(template := path.value)) else Failure(TemplateNotFound)
  }

  /** The templates directory of one theme. */
  function TemplateDir(base: string, theme: string): string {
    Join([base, theme, TemplatesDir])
  }

  /** getTemplateDirs: the themes' templates directories that exist, in theme order. */
  function TemplateDirs(base: string, themes: seq<string>, isDir: string -> bool): (dirs: seq<string>)
    ensures |dirs| <= |themes|
    ensures forall k :: 0 <= k < |dirs| ==> isDir(dirs[k])
    ensures forall k :: 0 <= k < |dirs| ==> exists i :: 0 <= i < |themes| && dirs[k] == TemplateDir(base, themes[i])
    ensures forall i :: 0 <= i < |themes| && isDir(TemplateDir(base, themes[i])) ==> TemplateDir(base, themes[i]) in dirs
  {
    if |themes| == 0 then []
    else
      var rest := TemplateDirs(base, themes[1..], isDir);
      assert forall i :: 1 <= i < |themes| ==> themes[i] == themes[1..][i - 1];
      var dir := TemplateDir(base, themes[0]);
      if isDir(dir) then [dir] + rest else rest
  }
}
