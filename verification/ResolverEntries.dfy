/** Which file each part of a module name resolves to, and what the flags of a result mean. */
module ResolverEntries {
  import opened Tokens
  import opened Resolver

  /** The directory that stands for part `k`. */
  function Dir(root: Path, parts: seq<string>, o: Options, k: nat): Path
    requires k < |parts|
  {
    DirectoryOf(root, parts, k + 1, o.useStubPackage)
  }

  /** The entry of part `k` when the directories of all parts before it exist: in order of preference, the package's
      stub, the package's source, a namespace package if more parts follow, the module's stub, the module's source, a
      native library, and a namespace package. Stubs and native libraries count only if they are allowed. */
  function EntryFor(fs: Fs, root: Path, parts: seq<string>, o: Options, k: nat): Option<Path>
    requires k < |parts|
  {
    var dir, outer := Dir(root, parts, o, k), DirectoryOf(root, parts, k, o.useStubPackage);
    var isPackage := dir in fs.dirs;
    var native := if dir == [] then None else fs.native(dir[|dir| - 1], outer);
    if isPackage && o.allowPyi && dir + ["__init__.pyi"] in fs.files then Some(dir + ["__init__.pyi"])
    else if isPackage && dir + ["__init__.py"] in fs.files then Some(dir + ["__init__.py"])
    else if isPackage && k + 1 < |parts| then Some([])
    else if o.allowPyi && WithExtension(dir, "pyi") in fs.files then Some(WithExtension(dir, "pyi"))
    else if WithExtension(dir, "py") in fs.files then Some(WithExtension(dir, "py"))
    else if o.allowNative && outer in fs.dirs && native.Some? then native
    else if isPackage then Some([])
    else None
  }

  /** One entry for each part, by preference, up to the first part without any or the first that is no directory. */
  ghost predicate IsResolution(fs: Fs, root: Path, parts: seq<string>, o: Options, paths: seq<Path>) {
    && |paths| <= |parts|
    && (forall k :: 0 <= k < |paths| ==> EntryFor(fs, root, parts, o, k) == Some(paths[k]))
    && (forall k :: 0 <= k < |paths| - 1 ==> Dir(root, parts, o, k) in fs.dirs)
    && (|paths| < |parts| ==>
          || (paths != [] && Dir(root, parts, o, |paths| - 1) !in fs.dirs)
          || EntryFor(fs, root, parts, o, |paths|) == None)
  }

  /** Whether the directory of part `k` has an `__init__` file that counts. */
  predicate HasInit(fs: Fs, root: Path, parts: seq<string>, o: Options, k: nat)
    requires k < |parts|
  {
    var dir := Dir(root, parts, o, k);
    (o.allowPyi && dir + ["__init__.pyi"] in fs.files) || dir + ["__init__.py"] in fs.files
  }

  /** The type information of the first of the directories before part `i` that has any, leaving out those up to the
      last namespace package. */
  function TypedBefore(fs: Fs, root: Path, parts: seq<string>, o: Options, i: nat): Option<PyTyped>
    requires i <= |parts|
  {
    if i == 0 || !HasInit(fs, root, parts, o, i - 1) then None
    else
      var earlier := TypedBefore(fs, root, parts, o, i - 1);
      if earlier.Some? then earlier else fs.pyTyped(Dir(root, parts, o, i - 1))
  }

  /** The directories of the first `m` parts are there and no more; what they say of type information, where the last
      part's own counts even without an `__init__` file, and whether the last of them has an `__init__` file. */
  ghost predicate Entered(fs: Fs, root: Path, parts: seq<string>, o: Options, m: nat,
                          isInitFilePresent: bool, pyTyped: Option<PyTyped>) {
    && m <= |parts| && (forall k :: 0 <= k < m ==> Dir(root, parts, o, k) in fs.dirs)
    && (m < |parts| ==> Dir(root, parts, o, m) !in fs.dirs)
    && (isInitFilePresent <==> m > 0 && HasInit(fs, root, parts, o, m - 1))
    && pyTyped == (if !o.lookForPyTyped then None
                   else if m < |parts| || m == 0 then TypedBefore(fs, root, parts, o, m)
                   else
                     var earlier := TypedBefore(fs, root, parts, o, m - 1);
                     if earlier.Some? then earlier else fs.pyTyped(Dir(root, parts, o, m - 1)))
  }

  /** What the walk knows before part `i`. */
  ghost predicate Knows(fs: Fs, root: Path, parts: seq<string>, o: Options, i: nat, w: Walk)
    requires i <= |parts|
  {
    && w.dir == DirectoryOf(root, parts, i, o.useStubPackage) && |w.paths| == i
    && (forall k :: 0 <= k < i ==> Dir(root, parts, o, k) in fs.dirs)
    && (forall k :: 0 <= k < i ==> EntryFor(fs, root, parts, o, k) == Some(w.paths[k]))
    && (forall k :: 0 <= k < i ==> !IsNativePath(w.paths[k]))
    && !w.isStubFile && !w.isNativeLib && (w.isNamespacePackage <==> [] in w.paths)
    && w.packageDirectory == (if i == 0 then None else Some(Dir(root, parts, o, 0)))
    && w.pyTyped == (if o.lookForPyTyped then TypedBefore(fs, root, parts, o, i) else None)
    && (w.isInitFilePresent <==> i > 0 && HasInit(fs, root, parts, o, i - 1))
  }

  /** What the flags of the walk over all of `parts` mean. */
  ghost predicate Means(fs: Fs, root: Path, parts: seq<string>, o: Options, r: Walk)
    requires parts != []
  {
    var n := |parts|;
    && IsResolution(fs, root, parts, o, r.paths)
    && (r.isNamespacePackage <==> [] in r.paths)
    && (r.isStubFile <==> |r.paths| == n && IsPyi(r.paths[n - 1]))
    && (r.isNativeLib <==> r.paths != [] && IsNativePath(r.paths[|r.paths| - 1]))
    && r.packageDirectory == (if Dir(root, parts, o, 0) in fs.dirs then Some(Dir(root, parts, o, 0)) else None)
    && (exists m :: 0 <= m <= n && Entered(fs, root, parts, o, m, r.isInitFilePresent, r.pyTyped))
    && (|r.paths| == n && r.paths[n - 1] == [] ==>
          var dir := Dir(root, parts, o, n - 1);
          r.implicitImports == fs.implicitImports(DirectoryOf(root, parts, n - 1, o.useStubPackage),
                                                  [WithExtension(dir, "py"), WithExtension(dir, "pyi")]))
  }

  predicate IsNativePath(path: Path) {
    path != [] && IsNative(path[|path| - 1])
  }

  /** The names of stubs, sources and native libraries are told apart by their extensions. */
  lemma ExtensionsDiffer(directory: Path)
    ensures var init := directory + ["__init__.pyi"]; IsPyi(init) && !IsNativePath(init)
    ensures var init := directory + ["__init__.py"]; !IsPyi(init) && !IsNativePath(init)
    ensures directory != [] ==> var file := WithExtension(directory, "pyi"); IsPyi(file) && !IsNativePath(file)
    ensures directory != [] ==> var file := WithExtension(directory, "py"); !IsPyi(file) && !IsNativePath(file)
    ensures directory == [] ==> WithExtension(directory, "pyi") == WithExtension(directory, "py") == []
  {
    hide Extension, Stem;
    var name := if directory == [] then "x" else directory[|directory| - 1];
    StemIsNotEmpty(name);
    BuiltExtensions(Stem(name));
  }

  /** A walk that ends at part `i`: with that part's entry, or with none. */
  ghost predicate EndsAt(fs: Fs, root: Path, parts: seq<string>, o: Options, i: nat, w: Walk, r: Walk)
    requires i < |parts|
  {
    && (match EntryFor(fs, root, parts, o, i)
        case Some(path) => r.paths == w.paths + [path]
        case None => r.paths == w.paths)
    && r.packageDirectory == w.packageDirectory && r.pyTyped == w.pyTyped
    && r.isInitFilePresent == w.isInitFilePresent
  }

  lemma FinishEnds(fs: Fs, root: Path, parts: seq<string>, o: Options, i: nat, w: Walk)
    requires i < |parts| && w.dir == DirectoryOf(root, parts, i, o.useStubPackage) && !w.isNativeLib
    requires var dir := Dir(root, parts, o, i);
             dir in fs.dirs ==> i == |parts| - 1 && InitFile(fs, dir, o.allowPyi) == None
    ensures EndsAt(fs, root, parts, o, i, w, FinishWithFile(fs, parts, o, i, w))
  {
    hide WithExtension, DirectoryOf, PartDirectory, Dir;
    DirStep(root, parts, o, i);
  }

  lemma FinishFlags(fs: Fs, root: Path, parts: seq<string>, o: Options, i: nat, w: Walk)
    requires fs.Sound() && i < |parts|
    requires w.dir == DirectoryOf(root, parts, i, o.useStubPackage) && |w.paths| == i
    requires !w.isStubFile && !w.isNativeLib && (w.isNamespacePackage <==> [] in w.paths)
    requires Dir(root, parts, o, i) in fs.dirs ==> i == |parts| - 1
    ensures var r := FinishWithFile(fs, parts, o, i, w);
            && (r.isNamespacePackage <==> [] in r.paths)
            && (r.isStubFile <==> |r.paths| == |parts| && IsPyi(r.paths[|parts| - 1]))
            && (r.isNativeLib <==> |r.paths| == i + 1 && IsNativePath(r.paths[i]))
            && (|r.paths| == |parts| && r.paths[|parts| - 1] == [] ==>
                  var dir := Dir(root, parts, o, i);
                  r.implicitImports == fs.implicitImports(w.dir, [WithExtension(dir, "py"), WithExtension(dir, "pyi")]))
  {
    hide WithExtension, IsNative, Extension, DirectoryOf, PartDirectory, Dir;
    var dir := Dir(root, parts, o, i);
    DirStep(root, parts, o, i);
    ExtensionsDiffer(dir);
    var native := NativeFile(fs, w, dir, o.allowNative);
    if native.Some? {
      NativeIsNoStub(fs, dir[|dir| - 1], w.dir);
    }
  }

  lemma NativeIsNoStub(fs: Fs, name: string, dir: Path)
    requires fs.Sound() && fs.native(name, dir).Some?
    ensures var path := fs.native(name, dir).value; path != [] && IsNativePath(path) && !IsPyi(path)
  {
  }

  lemma DirStep(root: Path, parts: seq<string>, o: Options, i: nat)
    requires i < |parts|
    ensures Dir(root, parts, o, i)
            == PartDirectory(DirectoryOf(root, parts, i, o.useStubPackage), parts, i, o.useStubPackage)
  {
  }

  /** Entering a directory that is not the last part's, and going on. */
  lemma EnterKnows(fs: Fs, root: Path, parts: seq<string>, o: Options, i: nat, w: Walk)
    requires i < |parts| - 1 && Knows(fs, root, parts, o, i, w) && Dir(root, parts, o, i) in fs.dirs
    ensures var w' := EnterDirectory(fs, parts, o, i, w);
            var next := if w'.isInitFilePresent then w'
                        else w'.(paths := w'.paths + [[]], isNamespacePackage := true, pyTyped := None);
            Knows(fs, root, parts, o, i + 1, next.(dir := Dir(root, parts, o, i)))
  {
    hide InitFile, EntryFor, DirectoryOf, PartDirectory, IsNativePath, HasInit;
    DirStep(root, parts, o, i);
    EntryOfPackage(fs, root, parts, o, i);
    InitCounts(fs, root, parts, o, i);
  }

  lemma InitCounts(fs: Fs, root: Path, parts: seq<string>, o: Options, k: nat)
    requires k < |parts|
    ensures InitFile(fs, Dir(root, parts, o, k), o.allowPyi).Some? <==> HasInit(fs, root, parts, o, k)
  {
  }

  /** The entry of a part whose directory exists and which is not the last. */
  lemma EntryOfPackage(fs: Fs, root: Path, parts: seq<string>, o: Options, i: nat)
    requires i < |parts| - 1 && Dir(root, parts, o, i) in fs.dirs
    ensures var init := InitFile(fs, Dir(root, parts, o, i), o.allowPyi);
            && EntryFor(fs, root, parts, o, i) == Some(if init.Some? then init.value.path else [])
            && (init.Some? ==> init.value.path != [] && !IsNativePath(init.value.path))
    ensures !IsNativePath([])
  {
    hide WithExtension, Dir, IsNative;
    ExtensionsDiffer(Dir(root, parts, o, i));
  }

  lemma EnterLast(fs: Fs, root: Path, parts: seq<string>, o: Options, w: Walk)
    requires fs.Sound() && parts != [] && Knows(fs, root, parts, o, |parts| - 1, w)
    requires Dir(root, parts, o, |parts| - 1) in fs.dirs
    ensures var w' := EnterDirectory(fs, parts, o, |parts| - 1, w);
            && w'.packageDirectory == Some(Dir(root, parts, o, 0))
            && Entered(fs, root, parts, o, |parts|, w'.isInitFilePresent, w'.pyTyped)
            && w'.isInitFilePresent == InitFile(fs, Dir(root, parts, o, |parts| - 1), o.allowPyi).Some?
            && (if w'.isInitFilePresent then
                  && (match EntryFor(fs, root, parts, o, |parts| - 1)
                      case Some(path) => w'.paths == w.paths + [path] && path != []
                      case None => false)
                  && (w'.isStubFile <==> IsPyi(w'.paths[|parts| - 1]))
                  && !IsNativePath(w'.paths[|parts| - 1]) && !w'.isNativeLib
                  && (w'.isNamespacePackage <==> [] in w'.paths)
                else
                  && w'.dir == w.dir && w'.paths == w.paths && !w'.isStubFile && !w'.isNativeLib
                  && (w'.isNamespacePackage <==> [] in w'.paths))
  {
    hide WithExtension, DirectoryOf, PartDirectory, Extension, IsNative;
    DirStep(root, parts, o, |parts| - 1);
    ExtensionsDiffer(Dir(root, parts, o, |parts| - 1));
  }

  lemma EndMeans(fs: Fs, root: Path, parts: seq<string>, o: Options, i: nat, w: Walk, r: Walk)
    requires i < |parts| && |w.paths| == i
    requires forall k :: 0 <= k < i ==> Dir(root, parts, o, k) in fs.dirs
    requires forall k :: 0 <= k < i ==> EntryFor(fs, root, parts, o, k) == Some(w.paths[k])
    requires Dir(root, parts, o, i) in fs.dirs ==> i == |parts| - 1
    requires match EntryFor(fs, root, parts, o, i)
             case Some(path) => r.paths == w.paths + [path]
             case None => r.paths == w.paths
    ensures IsResolution(fs, root, parts, o, r.paths)
  {
    hide EntryFor, Dir;
  }

  lemma {:induction false} WalkMeans(fs: Fs, root: Path, parts: seq<string>, o: Options, i: nat, w: Walk)
    requires fs.Sound() && i < |parts| && Knows(fs, root, parts, o, i, w)
    ensures Means(fs, root, parts, o, WalkParts(fs, parts, o, i, w))
    decreases |parts| - i
  {
    hide EnterDirectory, FinishWithFile, EntryFor, InitFile, IsPyi, IsNativePath, Dir, DirectoryOf, PartDirectory;
    DirStep(root, parts, o, i);
    var dir := Dir(root, parts, o, i);
    var r := WalkParts(fs, parts, o, i, w);
    if dir !in fs.dirs {
      FinishEnds(fs, root, parts, o, i, w);
      FinishFlags(fs, root, parts, o, i, w);
      assert Entered(fs, root, parts, o, i, r.isInitFilePresent, r.pyTyped);
      EndMeans(fs, root, parts, o, i, w, r);
    } else if i < |parts| - 1 {
      EnterKnows(fs, root, parts, o, i, w);
      var w' := EnterDirectory(fs, parts, o, i, w);
      var next := if w'.isInitFilePresent then w'
                  else w'.(paths := w'.paths + [[]], isNamespacePackage := true, pyTyped := None);
      WalkMeans(fs, root, parts, o, i + 1, next.(dir := dir));
    } else {
      EnterLast(fs, root, parts, o, w);
      var w' := EnterDirectory(fs, parts, o, i, w);
      if !w'.isInitFilePresent {
        FinishEnds(fs, root, parts, o, i, w');
        FinishFlags(fs, root, parts, o, i, w');
      }
      EndMeans(fs, root, parts, o, i, w, r);
      assert Entered(fs, root, parts, o, |parts|, r.isInitFilePresent, r.pyTyped);
    }
  }

  /** Resolving a name: each part in turn has the entry that comes first in the order of preference, and the flags say
      what the entries are. */
  lemma EntriesArePreferred(fs: Fs, root: Path, descriptor: Descriptor, o: Options)
    requires fs.Sound() && descriptor.parts != []
    ensures var r, parts := ResolveModule(fs, root, descriptor, o), descriptor.parts;
            var n := |parts|;
            && IsResolution(fs, root, parts, o, r.paths)
            && (r.isNamespacePackage <==> [] in r.paths)
            && (r.isStubFile <==> |r.paths| == n && IsPyi(r.paths[n - 1]))
            && (r.isNativeLib <==> r.paths != [] && IsNativePath(r.paths[|r.paths| - 1]))
            && (r.isStubPackage <==> o.useStubPackage)
            && r.packageDirectory == (if Dir(root, parts, o, 0) in fs.dirs then Some(Dir(root, parts, o, 0)) else None)
            && (exists m :: 0 <= m <= n && Entered(fs, root, parts, o, m, r.isInitFilePresent, r.pyTyped))
            && (|r.paths| == n && r.paths[n - 1] == [] ==>
                  var dir := Dir(root, parts, o, n - 1);
                  r.implicitImports == fs.implicitImports(DirectoryOf(root, parts, n - 1, o.useStubPackage),
                                                          [WithExtension(dir, "py"), WithExtension(dir, "pyi")]))
  {
    hide WalkParts, IsResolution, IsPyi, IsNativePath, Dir, Entered;
    WalkMeans(fs, root, descriptor.parts, o, 0, StartWalk(root));
  }

  /** With stubs allowed, an existing stub is preferred to a source: that of a package without a doubt, and that of a
      module if no package of its name exists. */
  lemma StubsComeFirst(fs: Fs, root: Path, parts: seq<string>, o: Options, k: nat)
    requires k < |parts| && o.allowPyi
    ensures var dir := Dir(root, parts, o, k);
            && (dir in fs.dirs && dir + ["__init__.pyi"] in fs.files ==>
                  EntryFor(fs, root, parts, o, k) == Some(dir + ["__init__.pyi"]))
            && (dir !in fs.dirs && WithExtension(dir, "pyi") in fs.files ==>
                  EntryFor(fs, root, parts, o, k) == Some(WithExtension(dir, "pyi")))
  {
  }
}
