/** Resolving one module name below one root directory (PEP 420 and PEP 561). */
module Resolver {
  import opened Tokens

  /** One name in a path. */
  type Component = name: string | name != [] witness "x"

  /** A path as its components; the empty path stands for "a namespace package, no file". */
  type Path = seq<Component>

  datatype PyTyped = PyTyped(path: Path, isPartial: bool)

  /** A file system: its files and directories, the parsed `py.typed` file of a directory, the native library
      that a directory listing gives for a module name, and the importable names that listing a directory gives. */
  datatype Fs = Fs(
    files: set<Path>, dirs: set<Path>,
    pyTyped: Path -> Option<PyTyped>,
    native: (string, Path) -> Option<Path>,
    implicitImports: (Path, seq<Path>) -> set<string>)
  {
    /** The empty path is no file, and a directory listing gives existing files, right in the directory,
        with a native extension. */
    ghost predicate Sound() {
      && [] !in files
      && forall name, dir :: native(name, dir).Some? ==>
           var p := native(name, dir).value;
           p in files && |p| == |dir| + 1 && dir < p && IsNative(p[|p| - 1])
    }
  }

  datatype Descriptor = Descriptor(leadingDots: nat, parts: seq<string>, symbols: seq<string>)

  datatype Options = Options(
    allowPartial: bool, allowNative: bool, useStubPackage: bool, allowPyi: bool, lookForPyTyped: bool)

  datatype ImportType = BuiltIn | ThirdParty | Local

  datatype ImportResult = ImportResult(
    isFound: bool, isPartlyResolved: bool, isNamespacePackage: bool, isInitFilePresent: bool,
    isStubPackage: bool, importType: ImportType, paths: seq<Path>, isStubFile: bool, isNativeLib: bool,
    isStdlibTypeshed: bool, isThirdPartyTypeshed: bool, isLocalTypings: bool,
    implicitImports: set<string>, pyTyped: Option<PyTyped>, packageDirectory: Option<Path>)

  function LastDot(name: string, n: nat): (i: nat)
    requires n <= |name|
    ensures i <= n
  {
    if n == 0 then 0 else if name[n - 1] == '.' then n - 1 else LastDot(name, n - 1)
  }

  /** The name without its extension; a leading dot does not begin one. */
  function Stem(name: string): string {
    var i := LastDot(name, |name|);
    if i == 0 then name else name[..i]
  }

  function Extension(name: string): string {
    var i := LastDot(name, |name|);
    if i == 0 then "" else name[i + 1..]
  }

  predicate IsNative(name: string) {
    Extension(name) in {"so", "pyd", "dylib"}
  }

  predicate IsPyi(path: Path) {
    path != [] && Extension(path[|path| - 1]) == "pyi"
  }

  /** What the walk over the parts of a name knows so far. */
  datatype Walk = Walk(
    paths: seq<Path>, dir: Path,
    isNamespacePackage: bool, isInitFilePresent: bool, isStubFile: bool, isNativeLib: bool,
    implicitImports: set<string>, packageDirectory: Option<Path>, pyTyped: Option<PyTyped>)

  /** The directory of part `i`, below that of the part before it. Joining an empty name changes nothing. */
  function PartDirectory(dir: Path, parts: seq<string>, i: nat, useStubPackage: bool): Path
    requires i < |parts|
  {
    var name := if useStubPackage && i == 0 then parts[i] + "-stubs" else parts[i];
    if name == [] then dir else dir + [name]
  }

  /** The path with another extension; a path without a name has none to change. */
  function WithExtension(path: Path, extension: string): Path {
    if path == [] then [] else path[..|path| - 1] + [Stem(path[|path| - 1]) + "." + extension]
  }

  /** An existing file, and whether it is a stub. */
  datatype Entry = Entry(path: Path, isStub: bool)

  /** The stub if stubs are allowed and it exists, else the source if it exists. */
  function PreferStub(fs: Fs, stub: Path, source: Path, allowPyi: bool): Option<Entry> {
    if allowPyi && stub in fs.files then Some(Entry(stub, true))
    else if source in fs.files then Some(Entry(source, false))
    else None
  }

  /** The `__init__` file of a directory. */
  function InitFile(fs: Fs, directory: Path, allowPyi: bool): Option<Entry> {
    PreferStub(fs, directory + ["__init__.pyi"], directory + ["__init__.py"], allowPyi)
  }

  /** The module file beside a directory. */
  function ModuleFile(fs: Fs, directory: Path, allowPyi: bool): Option<Entry> {
    PreferStub(fs, WithExtension(directory, "pyi"), WithExtension(directory, "py"), allowPyi)
  }

  function NativeFile(fs: Fs, w: Walk, directory: Path, allowNative: bool): Option<Path> {
    if allowNative && w.dir in fs.dirs && directory != [] then fs.native(directory[|directory| - 1], w.dir) else None
  }

  /** A directory for part `i`: its `__init__` file, if any, and whatever its `py.typed` says. */
  function EnterDirectory(fs: Fs, parts: seq<string>, o: Options, i: nat, w: Walk): Walk
    requires i < |parts|
  {
    var directory := PartDirectory(w.dir, parts, i, o.useStubPackage);
    var init := InitFile(fs, directory, o.allowPyi);
    w.(packageDirectory := if i == 0 then Some(directory) else w.packageDirectory,
       paths := if init.Some? then w.paths + [init.value.path] else w.paths,
       isStubFile := w.isStubFile || (init.Some? && init.value.isStub && i == |parts| - 1),
       isInitFilePresent := init.Some?,
       pyTyped := if o.lookForPyTyped && w.pyTyped.None? then fs.pyTyped(directory) else w.pyTyped)
  }

  /** Part `i` as a file, after no directory settled it. */
  function FinishWithFile(fs: Fs, parts: seq<string>, o: Options, i: nat, w: Walk): Walk
    requires i < |parts|
  {
    var directory := PartDirectory(w.dir, parts, i, o.useStubPackage);
    var file := ModuleFile(fs, directory, o.allowPyi);
    var native := NativeFile(fs, w, directory, o.allowNative);
    if file.Some? then
      w.(paths := w.paths + [file.value.path], isStubFile := w.isStubFile || (file.value.isStub && i == |parts| - 1))
    else if native.Some? then w.(paths := w.paths + [native.value], isNativeLib := true)
    else if directory in fs.dirs then
      var w' := w.(paths := w.paths + [[]]);
      if i < |parts| - 1 then w'
      else w'.(isNamespacePackage := true,
               implicitImports := fs.implicitImports(w.dir,
                 [WithExtension(directory, "py"), WithExtension(directory, "pyi")]))
    else w
  }

  /** The walk from part `i` on. */
  function WalkParts(fs: Fs, parts: seq<string>, o: Options, i: nat, w: Walk): (r: Walk)
    requires i <= |parts|
    decreases |parts| - i
  {
    if i == |parts| then w
    else
      var directory := PartDirectory(w.dir, parts, i, o.useStubPackage);
      if directory !in fs.dirs then FinishWithFile(fs, parts, o, i, w)
      else
        var w' := EnterDirectory(fs, parts, o, i, w);
        if i < |parts| - 1 then
          var next := if w'.isInitFilePresent then w'
                    else w'.(paths := w'.paths + [[]], isNamespacePackage := true, pyTyped := None);
          WalkParts(fs, parts, o, i + 1, next.(dir := directory))
        else if w'.isInitFilePresent then
          w'.(implicitImports := fs.implicitImports(directory,
              [directory + ["__init__.py"], directory + ["__init__.pyi"]]))
        else FinishWithFile(fs, parts, o, i, w')
  }

  function StartWalk(root: Path): Walk {
    Walk([], root, false, false, false, false, {}, None, None)
  }

  /** `from . import foo`: the package of the root itself. */
  function WalkNoParts(fs: Fs, root: Path, o: Options): Walk {
    var init := InitFile(fs, root, o.allowPyi);
    StartWalk(root).(
      paths := [if init.Some? then init.value.path else []], isNamespacePackage := init.None?,
      implicitImports := fs.implicitImports(root, [root + ["__init__.py"], root + ["__init__.pyi"]]))
  }

  function ToResult(w: Walk, parts: seq<string>, o: Options): ImportResult {
    ImportResult(
      if o.allowPartial then w.paths != [] else |w.paths| == |parts|,
      w.paths != [] && |w.paths| < |parts|,
      w.isNamespacePackage, w.isInitFilePresent, o.useStubPackage && parts != [], Local, w.paths,
      w.isStubFile, w.isNativeLib, false, false, false, w.implicitImports, w.pyTyped, w.packageDirectory)
  }

  function ResolveModule(fs: Fs, root: Path, descriptor: Descriptor, o: Options): ImportResult {
    var parts := descriptor.parts;
    ToResult(if parts == [] then WalkNoParts(fs, root, o) else WalkParts(fs, parts, o, 0, StartWalk(root)), parts, o)
  }

  /** The loop over the parts, with the locals of the program. */
  method ResolveModuleDescriptor(fs: Fs, root: Path, descriptor: Descriptor, o: Options) returns (r: ImportResult)
    ensures r == ResolveModule(fs, root, descriptor, o)
  {
    hide EnterDirectory, FinishWithFile, ToResult;
    var parts := descriptor.parts;
    if parts == [] {
      return ToResult(WalkNoParts(fs, root, o), parts, o);
    }
    var w := StartWalk(root);
    var i := 0;
    while i < |parts|
      invariant 0 <= i <= |parts|
      invariant WalkParts(fs, parts, o, i, w) == WalkParts(fs, parts, o, 0, StartWalk(root))
    {
      ghost var whole := WalkParts(fs, parts, o, i, w);
      var directory := PartDirectory(w.dir, parts, i, o.useStubPackage);
      if directory in fs.dirs {
        w := EnterDirectory(fs, parts, o, i, w);
        if i < |parts| - 1 {
          if !w.isInitFilePresent {
            w := w.(paths := w.paths + [[]], isNamespacePackage := true, pyTyped := None);
          }
          w := w.(dir := directory);
          i := i + 1;
          continue;
        }
        if w.isInitFilePresent {
          w := w.(implicitImports := fs.implicitImports(directory,
            [directory + ["__init__.py"], directory + ["__init__.pyi"]]));
          return ToResult(w, parts, o);
        }
      }
      w := FinishWithFile(fs, parts, o, i, w);
      return ToResult(w, parts, o);
    }
    r := ToResult(w, parts, o);
  }

  // ---------- What a result says ----------

  /** The directory of part `i` below `root`. */
  function DirectoryOf(root: Path, parts: seq<string>, i: nat, useStubPackage: bool): Path
    requires i <= |parts|
  {
    if i == 0 then root
    else PartDirectory(DirectoryOf(root, parts, i - 1, useStubPackage), parts, i - 1, useStubPackage)
  }

  /** A path that stands for part `i`: nothing, or an existing file that is the package's `__init__`, the module's
      own source or stub, or a native library beside it. */
  ghost predicate StandsForPart(fs: Fs, root: Path, parts: seq<string>, o: Options, i: nat, path: Path)
    requires i < |parts|
  {
    var outer := DirectoryOf(root, parts, i, o.useStubPackage);
    var directory := PartDirectory(outer, parts, i, o.useStubPackage);
    || path == []
    || (path in fs.files &&
        (|| path == directory + ["__init__.py"] || path == WithExtension(directory, "py")
         || (o.allowPyi && (path == directory + ["__init__.pyi"] || path == WithExtension(directory, "pyi")))
         || (o.allowNative && directory != [] && fs.native(directory[|directory| - 1], outer) == Some(path))))
  }

  /** The walk before part `i` has one entry for each part so far, and no stub file yet. */
  ghost predicate OnTrack(fs: Fs, root: Path, parts: seq<string>, o: Options, i: nat, w: Walk)
    requires i <= |parts|
  {
    && w.dir == DirectoryOf(root, parts, i, o.useStubPackage)
    && |w.paths| == i && !w.isStubFile
    && forall k :: 0 <= k < i ==> StandsForPart(fs, root, parts, o, k, w.paths[k])
  }

  ghost predicate Accounts(fs: Fs, root: Path, parts: seq<string>, o: Options, paths: seq<Path>) {
    && |paths| <= |parts|
    && forall k :: 0 <= k < |paths| ==> StandsForPart(fs, root, parts, o, k, paths[k])
  }

  /** A stub file is the last part's, and only if stubs are allowed. */
  ghost predicate StubIsLast(fs: Fs, root: Path, parts: seq<string>, o: Options, w: Walk) {
    w.isStubFile ==>
      && o.allowPyi && |w.paths| == |parts| > 0
      && var directory, last := DirectoryOf(root, parts, |parts|, o.useStubPackage), w.paths[|parts| - 1];
         last in fs.files && (last == directory + ["__init__.pyi"] || last == WithExtension(directory, "pyi"))
  }

  /** What entering the directory of a part adds. */
  lemma EnterAccounts(fs: Fs, root: Path, parts: seq<string>, o: Options, i: nat, w: Walk)
    requires i < |parts| && OnTrack(fs, root, parts, o, i, w)
    ensures var w' := EnterDirectory(fs, parts, o, i, w);
            && w'.dir == w.dir
            && (if w'.isInitFilePresent then
                  |w'.paths| == i + 1 && StandsForPart(fs, root, parts, o, i, w'.paths[i]) && w'.paths[..i] == w.paths
                else w'.paths == w.paths && !w'.isStubFile)
            && StubIsLast(fs, root, parts, o, w')
  {
    hide WithExtension, IsNative;
  }

  lemma FinishAccounts(fs: Fs, root: Path, parts: seq<string>, o: Options, i: nat, w: Walk)
    requires fs.Sound() && i < |parts| && OnTrack(fs, root, parts, o, i, w)
    ensures var r := FinishWithFile(fs, parts, o, i, w);
            && (r.paths == w.paths ||
                  (|r.paths| == i + 1 && r.paths[..i] == w.paths && StandsForPart(fs, root, parts, o, i, r.paths[i])))
  {
    hide WithExtension, IsNative, DirectoryOf;
  }

  lemma FinishMarksStub(fs: Fs, root: Path, parts: seq<string>, o: Options, i: nat, w: Walk)
    requires i < |parts| && OnTrack(fs, root, parts, o, i, w)
    ensures StubIsLast(fs, root, parts, o, FinishWithFile(fs, parts, o, i, w))
  {
    hide WithExtension, IsNative, StandsForPart;
  }

  lemma {:induction false} WalkAccounts(fs: Fs, root: Path, parts: seq<string>, o: Options, i: nat, w: Walk)
    requires fs.Sound() && i < |parts| && OnTrack(fs, root, parts, o, i, w)
    ensures var r := WalkParts(fs, parts, o, i, w);
            Accounts(fs, root, parts, o, r.paths) && StubIsLast(fs, root, parts, o, r)
    decreases |parts| - i
  {
    hide EnterDirectory, FinishWithFile, StandsForPart;
    var directory := PartDirectory(w.dir, parts, i, o.useStubPackage);
    EmptyStands(fs, root, parts, o, i);
    FinishAccounts(fs, root, parts, o, i, w);
    FinishMarksStub(fs, root, parts, o, i, w);
    if directory in fs.dirs {
      var w' := EnterDirectory(fs, parts, o, i, w);
      EnterAccounts(fs, root, parts, o, i, w);
      assert w'.isInitFilePresent ==> forall k :: 0 <= k < i ==> w'.paths[k] == w'.paths[..i][k];
      if i < |parts| - 1 {
        var next := if w'.isInitFilePresent then w'
                    else w'.(paths := w'.paths + [[]], isNamespacePackage := true, pyTyped := None);
        WalkAccounts(fs, root, parts, o, i + 1, next.(dir := directory));
      } else if !w'.isInitFilePresent {
        FinishAccounts(fs, root, parts, o, i, w');
        FinishMarksStub(fs, root, parts, o, i, w');
      }
    }
    var r := FinishWithFile(fs, parts, o, i, w);
    assert |r.paths| == i + 1 ==> forall k :: 0 <= k < i ==> r.paths[k] == r.paths[..i][k];
  }

  lemma EmptyStands(fs: Fs, root: Path, parts: seq<string>, o: Options, i: nat)
    requires i < |parts|
    ensures StandsForPart(fs, root, parts, o, i, [])
  {
  }

  lemma {:induction false} LastDotAt(name: string, at: nat, n: nat)
    requires at < n <= |name| && name[at] == '.'
    requires forall k :: at < k < n ==> name[k] != '.'
    ensures LastDot(name, n) == at
    decreases n - at
  {
    if at < n - 1 {
      LastDotAt(name, at, n - 1);
    }
  }

  /** The names the walk builds for sources are not stub names, and those it builds for stubs are. */
  lemma BuiltExtensions(base: string)
    requires base != []
    ensures Extension(base + "." + "py") == "py" && Extension(base + "." + "pyi") == "pyi"
    ensures Extension("__init__.py") == "py" && Extension("__init__.pyi") == "pyi"
  {
    var a, b := base + "." + "py", base + "." + "pyi";
    LastDotAt(a, |base|, |a|);
    LastDotAt(b, |base|, |b|);
    assert a[|base| + 1..] == "py" && b[|base| + 1..] == "pyi";
    LastDotAt("__init__.py", 8, 11);
    LastDotAt("__init__.pyi", 8, 12);
    assert "__init__.py"[9..] == "py" && "__init__.pyi"[9..] == "pyi";
  }

  lemma StemIsNotEmpty(name: Component)
    ensures Stem(name) != []
  {
  }

  lemma SourceIsNotPyi(fs: Fs, root: Path, parts: seq<string>, o: Options, i: nat, path: Path)
    requires fs.Sound() && i < |parts| && !o.allowPyi
    requires StandsForPart(fs, root, parts, o, i, path)
    ensures !IsPyi(path)
  {
    hide Extension, Stem, DirectoryOf;
    var d := PartDirectory(DirectoryOf(root, parts, i, o.useStubPackage), parts, i, o.useStubPackage);
    var name := if d == [] then "x" else d[|d| - 1];
    StemIsNotEmpty(name);
    BuiltExtensions(Stem(name));
  }

  /** Resolving a name with at least one part: at most one entry for each part, in order, each empty or an
      existing file of that part. A result that is not partial is found exactly when every part has an entry,
      and neither found nor partly resolved exactly when no part has one. Without stubs, no entry is a stub. */
  lemma ResolutionIsSound(fs: Fs, root: Path, descriptor: Descriptor, o: Options)
    requires fs.Sound() && descriptor.parts != []
    ensures var r := ResolveModule(fs, root, descriptor, o);
            && Accounts(fs, root, descriptor.parts, o, r.paths)
            && (!o.allowPartial ==> (r.isFound <==> |r.paths| == |descriptor.parts|))
            && (!r.isFound && !r.isPartlyResolved <==> r.paths == [])
            && (r.isStubFile ==> o.allowPyi && |r.paths| == |descriptor.parts| && IsPyi(r.paths[|r.paths| - 1]))
            && (!o.allowPyi ==> !r.isStubFile && forall k :: 0 <= k < |r.paths| ==> !IsPyi(r.paths[k]))
  {
    hide WalkParts, Extension, Stem, StandsForPart;
    var parts := descriptor.parts;
    WalkAccounts(fs, root, parts, o, 0, StartWalk(root));
    var r := ResolveModule(fs, root, descriptor, o);
    var d := DirectoryOf(root, parts, |parts|, o.useStubPackage);
    var name := if d == [] then "x" else d[|d| - 1];
    StemIsNotEmpty(name);
    BuiltExtensions(Stem(name));
    if !o.allowPyi {
      forall k | 0 <= k < |r.paths| ensures !IsPyi(r.paths[k]) {
        SourceIsNotPyi(fs, root, parts, o, k, r.paths[k]);
      }
    }
  }

  /** Found and partly resolved never come together for these options. */
  ghost predicate AlwaysExclusive(o: Options) {
    forall fs: Fs, root: Path, descriptor: Descriptor :: descriptor.parts != [] ==>
      var r := ResolveModule(fs, root, descriptor, o); !(r.isFound && r.isPartlyResolved)
  }

  /** That holds exactly for options that do not ask for partial results. */
  lemma ExclusiveUnlessPartial(o: Options)
    ensures AlwaysExclusive(o) <==> !o.allowPartial
  {
    hide WalkParts;
    if o.allowPartial {
      BothAtOnce(o);
      var r := ResolveModule(ExampleFs(o), ["r"], Descriptor(0, ["a", "b"], []), o);
      assert r.isFound && r.isPartlyResolved;
    }
  }

  /** Only the package `a` exists, with its `__init__.py`. */
  function ExampleFs(o: Options): Fs {
    var a := ["r", if o.useStubPackage then "a-stubs" else "a"];
    Fs({a + ["__init__.py"]}, {a}, _ => None, (_, _) => None, (_, _) => {})
  }

  /** There is no `__init__.pyi` in `a`, and no file for a module `b` in it. */
  lemma ExampleFiles(o: Options, a: Path, extension: string)
    requires a == ["r", if o.useStubPackage then "a-stubs" else "a"]
    ensures a + ["__init__.pyi"] !in ExampleFs(o).files
    ensures WithExtension(a + ["b"], extension) !in ExampleFs(o).files
  {
    var init := a + ["__init__.py"];
    assert init[2] == "__init__.py" && init[2][0] == '_';
    assert (a + ["__init__.pyi"])[2] == "__init__.pyi";
    assert |"__init__.pyi"| != |"__init__.py"|;
    assert Stem("b") == "b";
    assert WithExtension(a + ["b"], extension)[2][0] == 'b';
  }

  /** Resolving `a.b` there with partial results: found, and partly resolved. */
  lemma BothAtOnce(o: Options)
    requires o.allowPartial
    ensures var r := ResolveModule(ExampleFs(o), ["r"], Descriptor(0, ["a", "b"], []), o);
            r.isFound && r.isPartlyResolved && |r.paths| == 1
  {
    hide WithExtension, Stem, Extension;
    var fs, parts := ExampleFs(o), ["a", "b"];
    var a := PartDirectory(["r"], parts, 0, o.useStubPackage);
    assert parts[0] + "-stubs" == "a-stubs";
    assert a == ["r", if o.useStubPackage then "a-stubs" else "a"];
    ExampleFiles(o, a, "py");
    ExampleFiles(o, a, "pyi");
    var w := EnterDirectory(fs, parts, o, 0, StartWalk(["r"]));
    assert w.isInitFilePresent && |w.paths| == 1;
    var b := PartDirectory(a, parts, 1, o.useStubPackage);
    assert b == a + ["b"] && |b| == 3;
    assert WalkParts(fs, parts, o, 1, w.(dir := a)) == w.(dir := a);
    assert WalkParts(fs, parts, o, 0, StartWalk(["r"])) == WalkParts(fs, parts, o, 1, w.(dir := a));
  }
}
