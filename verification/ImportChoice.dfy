/** Choosing among the places an import can resolve to. */
module ImportChoice {
  import opened Tokens
  import opened Resolver

  predicate ResolvesNamespace(implicitImports: set<string>, symbols: seq<string>) {
    if symbols == [] then implicitImports != {} else forall s <- symbols :: s in implicitImports
  }

  /** The position of the first entry that is a file. */
  function FirstFile(paths: seq<Path>): (r: Option<nat>)
    ensures r.Some? ==> r.value < |paths| && paths[r.value] != [] && forall k :: 0 <= k < r.value ==> paths[k] == []
    ensures r.None? ==> forall k :: 0 <= k < |paths| ==> paths[k] == []
  {
    if paths == [] then None
    else if paths[0] != [] then Some(0)
    else
      var rest := FirstFile(paths[1..]);
      assert forall k :: 0 < k < |paths| ==> paths[k] == paths[1..][k - 1];
      if rest.Some? then Some(rest.value + 1) else None
  }

  /** The earlier first file wins; no file at all loses to any. */
  function EarlierFile(best: ImportResult, new_: ImportResult): ImportResult
    requires FirstFile(best.paths) != FirstFile(new_.paths)
  {
    match (FirstFile(best.paths), FirstFile(new_.paths))
    case (None, Some(_)) => new_
    case (Some(_), None) => best
    case (Some(a), Some(b)) => if a < b then best else new_
  }

  /** `pick_best_import`, once there is a best import so far. */
  function PickBest(best: ImportResult, new_: ImportResult, d: Descriptor): (r: ImportResult) {
    if new_.isFound then
      if FirstFile(best.paths) != FirstFile(new_.paths) then EarlierFile(best, new_)
      else if !best.isFound then new_
      else
        var namespace := PickNamespace(best, new_, d);
        if namespace.Some? then namespace.value
        else if best.pyTyped.Some? && new_.pyTyped.None? then best
        else if best.pyTyped.None? && best.pyTyped.Some? then new_
        else if best.isStubFile && !new_.isStubFile then best
        else if !best.isStubFile && new_.isStubFile then new_
        else if |best.paths| > |new_.paths| then new_
        else best
    else if new_.isPartlyResolved && FirstFile(best.paths) != FirstFile(new_.paths) then EarlierFile(best, new_)
    else best
  }

  /** Two namespace packages: the one that has the imported symbols, or else an `__init__` file. */
  function PickNamespace(best: ImportResult, new_: ImportResult, d: Descriptor): Option<ImportResult> {
    if !best.isNamespacePackage || !new_.isNamespacePackage
       || d.symbols == [] || ResolvesNamespace(best.implicitImports, d.symbols) then None
    else if ResolvesNamespace(new_.implicitImports, d.symbols) then Some(new_)
    else if best.isInitFilePresent && !new_.isInitFilePresent then Some(best)
    else if !best.isInitFilePresent && new_.isInitFilePresent then Some(new_)
    else None
  }

  /** The best of the candidates, taken in order. */
  function Best(candidates: seq<ImportResult>, d: Descriptor): (r: ImportResult)
    requires candidates != []
  {
    var n := |candidates| - 1;
    if n == 0 then candidates[0] else PickBest(Best(candidates[..n], d), candidates[n], d)
  }

  /** What resolving a name of `n` parts below one root can give when partial results are not asked for. */
  ghost predicate IsCandidate(r: ImportResult, n: nat) {
    && |r.paths| <= n
    && (r.isFound <==> |r.paths| == n)
    && (r.isPartlyResolved <==> 0 < |r.paths| < n)
  }

  /** How far down the first file is; as far as the name goes if there is none. */
  function Depth(r: ImportResult, n: nat): nat {
    match FirstFile(r.paths)
    case Some(i) => i
    case None => n
  }

  lemma PickIsMinimal(best: ImportResult, new_: ImportResult, d: Descriptor, n: nat)
    requires n > 0 && IsCandidate(best, n) && IsCandidate(new_, n)
    ensures var r := PickBest(best, new_, d);
            && (r == best || r == new_)
            && Depth(r, n) <= Depth(best, n) && Depth(r, n) <= Depth(new_, n)
            && (r.isFound <==>
                  || (best.isFound && Depth(best, n) == Depth(r, n))
                  || (new_.isFound && Depth(new_, n) == Depth(r, n)))
  {
  }

  /** When two found candidates are compared their paths have one length, so the last tie-break never decides. */
  lemma LengthNeverDecides(best: ImportResult, new_: ImportResult, n: nat)
    requires n > 0 && IsCandidate(best, n) && IsCandidate(new_, n) && best.isFound && new_.isFound
    ensures !(|best.paths| > |new_.paths|)
  {
  }

  /** The best candidate is one whose first file is as high up as any candidate's, with no file last of
      all; and it is found exactly when some candidate at that depth is. */
  lemma {:induction false} BestIsMinimal(candidates: seq<ImportResult>, d: Descriptor, n: nat)
    requires n > 0 && candidates != [] && forall c <- candidates :: IsCandidate(c, n)
    ensures var r := Best(candidates, d);
            && r in candidates
            && (forall c <- candidates :: Depth(r, n) <= Depth(c, n))
            && (r.isFound <==> exists c <- candidates :: Depth(c, n) == Depth(r, n) && c.isFound)
  {
    hide Depth, PickBest, IsCandidate;
    var last := |candidates| - 1;
    if last > 0 {
      var rest := candidates[..last];
      assert candidates == rest + [candidates[last]];
      assert forall c <- rest :: c in candidates;
      BestIsMinimal(rest, d, n);
      PickIsMinimal(Best(rest, d), candidates[last], d, n);
      var r := Best(candidates, d);
      if r.isFound {
        assert r in candidates && Depth(r, n) == Depth(r, n);
      }
      if c :| c in candidates && Depth(c, n) == Depth(r, n) && c.isFound {
        assert c in rest || c == candidates[last];
      }
    }
  }

  // ---------- All the places ----------

  /** `resolve_absolute_import`: packaged stubs first, unless they are only a partial stub package. */
  function ResolveAbsolute(fs: Fs, root: Path, d: Descriptor, o: Options): (r: ImportResult) {
    var stubs := ResolveModule(fs, root, d, Options(o.allowPartial, false, true, true, true));
    if o.allowPyi && o.useStubPackage && stubs.packageDirectory.Some?
       && (!stubs.isNamespacePackage || stubs.isFound) then stubs
    else ResolveModule(fs, root, d, o.(useStubPackage := false))
  }

  lemma AbsoluteIsCandidate(fs: Fs, root: Path, d: Descriptor, o: Options)
    requires fs.Sound() && d.parts != [] && !o.allowPartial
    ensures IsCandidate(ResolveAbsolute(fs, root, d, o), |d.parts|)
  {
    hide ResolveModule, Accounts;
    ResolvedIsCandidate(fs, root, d, Options(o.allowPartial, false, true, true, true));
    ResolvedIsCandidate(fs, root, d, o.(useStubPackage := false));
  }

  lemma ResolvedIsCandidate(fs: Fs, root: Path, d: Descriptor, o: Options)
    requires fs.Sound() && d.parts != [] && !o.allowPartial
    ensures IsCandidate(ResolveModule(fs, root, d, o), |d.parts|)
  {
    hide WalkParts;
    ResolutionIsSound(fs, root, d, o);
  }

  /** Where to look: the execution environment, the interpreter's search path and the typeshed stubs. */
  datatype Places = Places(
    root: Path, extraPaths: seq<Path>, searchPaths: seq<Path>, stubPath: Option<Path>,
    typeshedRoot: Option<Path>, stdlibStubs: seq<Path>, thirdPartyStubs: seq<Path>)

  const LOCAL_OPTIONS := Options(false, true, true, true, false)
  const TYPESHED_OPTIONS := Options(false, false, false, true, false)

  function LocalCandidate(fs: Fs, root: Path, d: Descriptor, allowPyi: bool): ImportResult {
    ResolveAbsolute(fs, root, d, LOCAL_OPTIONS.(allowPyi := allowPyi)).(importType := Local)
  }

  function ThirdPartyCandidate(fs: Fs, root: Path, d: Descriptor, allowPyi: bool): ImportResult {
    ResolveAbsolute(fs, root, d, LOCAL_OPTIONS.(allowPyi := allowPyi, lookForPyTyped := true))
      .(importType := ThirdParty)
  }

  /** The candidates outside typeshed, in the order they are looked at. */
  function Candidates(fs: Fs, places: Places, d: Descriptor, allowPyi: bool, extra: nat, search: nat):
    (r: seq<ImportResult>)
    requires extra <= |places.extraPaths| && search <= |places.searchPaths|
    ensures |r| == 1 + extra + search
  {
    [LocalCandidate(fs, places.root, d, allowPyi)]
    + seq(extra, i requires 0 <= i < extra => LocalCandidate(fs, places.extraPaths[i], d, allowPyi))
    + seq(search, i requires 0 <= i < search => ThirdPartyCandidate(fs, places.searchPaths[i], d, allowPyi))
  }

  function AllCandidates(fs: Fs, places: Places, d: Descriptor, allowPyi: bool): (r: seq<ImportResult>)
    ensures r != []
  {
    Candidates(fs, places, d, allowPyi, |places.extraPaths|, |places.searchPaths|)
  }

  /** The first stub directory that has the module: `find_typeshed_path`. */
  function FindTypeshed(fs: Fs, stubs: seq<Path>, d: Descriptor, importType: ImportType): (r: Option<ImportResult>) {
    if stubs == [] then None
    else
      var result := ResolveAbsolute(fs, stubs[0], d, TYPESHED_OPTIONS);
      if stubs[0] in fs.dirs && result.isFound then Some(result.(importType := importType))
      else FindTypeshed(fs, stubs[1..], d, importType)
  }

  /** The import from the configured stub directory, unless it is a namespace package without the symbols. */
  function FromStubPath(fs: Fs, stubPath: Path, d: Descriptor): Option<ImportResult> {
    var typings := ResolveAbsolute(fs, stubPath, d, Options(false, false, true, true, false))
      .(importType := Local, isLocalTypings := true);
    if !typings.isFound then None
    else if typings.isNamespacePackage && typings.paths != [] && typings.paths[|typings.paths| - 1] == []
            && !ResolvesNamespace(typings.implicitImports, d.symbols) then None
    else Some(typings)
  }

  /** `resolve_best_absolute_import`. */
  function ResolveBest(fs: Fs, places: Places, d: Descriptor, allowPyi: bool): Option<ImportResult> {
    if allowPyi && places.stubPath.Some? then FromStubPath(fs, places.stubPath.value, d)
    else
      var best := Best(AllCandidates(fs, places, d, allowPyi), d);
      if IsTypedLibrary(places, best) || !allowPyi || d.parts == [] then Some(best)
      else
        match FindTypeshed(fs, places.stdlibStubs, d, BuiltIn)
        case Some(stdlib) => Some(stdlib.(isStdlibTypeshed := true))
        case None =>
          match FindTypeshed(fs, places.thirdPartyStubs, d, ThirdParty)
          case Some(stubs) => Some(PickBest(best, stubs.(isThirdPartyTypeshed := true), d))
          case None => Some(best)
  }

  /** A library with its own type information is not looked up in typeshed, except from typeshed itself. */
  predicate IsTypedLibrary(places: Places, best: ImportResult) {
    && places.typeshedRoot.Some? && places.typeshedRoot.value != places.root
    && best.pyTyped.Some? && !best.isPartlyResolved
  }

  method FindTypeshedPath(fs: Fs, stubs: seq<Path>, d: Descriptor, importType: ImportType)
    returns (r: Option<ImportResult>)
    ensures r == FindTypeshed(fs, stubs, d, importType)
  {
    hide ResolveAbsolute;
    for i := 0 to |stubs|
      invariant FindTypeshed(fs, stubs[i..], d, importType) == FindTypeshed(fs, stubs, d, importType)
    {
      if stubs[i] in fs.dirs {
        var result := ResolveAbsolute(fs, stubs[i], d, TYPESHED_OPTIONS);
        if result.isFound {
          return Some(result.(importType := importType));
        }
      }
    }
    r := None;
  }

  /** The search as the program runs it: one candidate after another, keeping the best so far. */
  method ResolveBestAbsoluteImport(fs: Fs, places: Places, d: Descriptor, allowPyi: bool)
    returns (r: Option<ImportResult>)
    ensures r == ResolveBest(fs, places, d, allowPyi)
  {
    hide ResolveAbsolute, PickBest, FromStubPath, FindTypeshed, Candidates;
    if allowPyi && places.stubPath.Some? {
      return FromStubPath(fs, places.stubPath.value, d);
    }
    var best := LocalCandidate(fs, places.root, d, allowPyi);
    FirstCandidate(fs, places, d, allowPyi);
    for i := 0 to |places.extraPaths|
      invariant best == Best(Candidates(fs, places, d, allowPyi, i, 0), d)
    {
      best := PickBest(best, LocalCandidate(fs, places.extraPaths[i], d, allowPyi), d);
      NextExtra(fs, places, d, allowPyi, i);
    }
    for i := 0 to |places.searchPaths|
      invariant best == Best(Candidates(fs, places, d, allowPyi, |places.extraPaths|, i), d)
    {
      best := PickBest(best, ThirdPartyCandidate(fs, places.searchPaths[i], d, allowPyi), d);
      NextSearch(fs, places, d, allowPyi, i);
    }
    if IsTypedLibrary(places, best) {
      return Some(best);
    }
    if allowPyi && d.parts != [] {
      var stdlib := FindTypeshedPath(fs, places.stdlibStubs, d, BuiltIn);
      if stdlib.Some? {
        return Some(stdlib.value.(isStdlibTypeshed := true));
      }
      var stubs := FindTypeshedPath(fs, places.thirdPartyStubs, d, ThirdParty);
      if stubs.Some? {
        best := PickBest(best, stubs.value.(isThirdPartyTypeshed := true), d);
      }
    }
    r := Some(best);
  }

  lemma FirstCandidate(fs: Fs, places: Places, d: Descriptor, allowPyi: bool)
    ensures Candidates(fs, places, d, allowPyi, 0, 0) == [LocalCandidate(fs, places.root, d, allowPyi)]
  {
    hide LocalCandidate, ThirdPartyCandidate;
  }

  lemma NextExtra(fs: Fs, places: Places, d: Descriptor, allowPyi: bool, i: nat)
    requires i < |places.extraPaths|
    ensures var all := Candidates(fs, places, d, allowPyi, i + 1, 0);
            all[..i + 1] == Candidates(fs, places, d, allowPyi, i, 0)
            && all[i + 1] == LocalCandidate(fs, places.extraPaths[i], d, allowPyi)
  {
    hide LocalCandidate, ThirdPartyCandidate;
  }

  lemma NextSearch(fs: Fs, places: Places, d: Descriptor, allowPyi: bool, i: nat)
    requires i < |places.searchPaths|
    ensures var n := |places.extraPaths|;
            var all := Candidates(fs, places, d, allowPyi, n, i + 1);
            && all[..n + i + 1] == Candidates(fs, places, d, allowPyi, n, i)
            && all[n + i + 1] == ThirdPartyCandidate(fs, places.searchPaths[i], d, allowPyi)
  {
    hide LocalCandidate, ThirdPartyCandidate;
  }

  lemma CandidatesAreCandidates(fs: Fs, places: Places, d: Descriptor, allowPyi: bool)
    requires fs.Sound() && d.parts != []
    ensures forall c <- AllCandidates(fs, places, d, allowPyi) :: IsCandidate(c, |d.parts|)
  {
    hide ResolveAbsolute;
    var all := AllCandidates(fs, places, d, allowPyi);
    forall root: Path
      ensures IsCandidate(LocalCandidate(fs, root, d, allowPyi), |d.parts|)
      ensures IsCandidate(ThirdPartyCandidate(fs, root, d, allowPyi), |d.parts|)
    {
      AbsoluteIsCandidate(fs, root, d, LOCAL_OPTIONS.(allowPyi := allowPyi));
      AbsoluteIsCandidate(fs, root, d, LOCAL_OPTIONS.(allowPyi := allowPyi, lookForPyTyped := true));
    }
    forall i | 0 <= i < |all| ensures IsCandidate(all[i], |d.parts|) {
      var n := |places.extraPaths|;
      assert all[i] == if i == 0 then LocalCandidate(fs, places.root, d, allowPyi)
                       else if i <= n then LocalCandidate(fs, places.extraPaths[i - 1], d, allowPyi)
                       else ThirdPartyCandidate(fs, places.searchPaths[i - 1 - n], d, allowPyi);
    }
  }

  /** Looking for sources alone, the whole search returns one of the places it looked at, as high up as
      any, and finds the module exactly when some place at that depth has it. */
  lemma SourceSearchIsMinimal(fs: Fs, places: Places, d: Descriptor)
    requires fs.Sound() && d.parts != []
    ensures var all := AllCandidates(fs, places, d, false);
            var n := |d.parts|;
            var r := ResolveBest(fs, places, d, false);
            && r.Some? && r.value in all
            && (forall c <- all :: Depth(r.value, n) <= Depth(c, n))
            && (r.value.isFound <==> exists c <- all :: Depth(c, n) == Depth(r.value, n) && c.isFound)
  {
    hide AllCandidates, Depth, IsCandidate, Best;
    CandidatesAreCandidates(fs, places, d, false);
    BestIsMinimal(AllCandidates(fs, places, d, false), d, |d.parts|);
  }

  lemma {:induction false} TypeshedIsCandidate(fs: Fs, stubs: seq<Path>, d: Descriptor, importType: ImportType)
    requires fs.Sound() && d.parts != []
    ensures var r := FindTypeshed(fs, stubs, d, importType);
            r.Some? ==> IsCandidate(r.value, |d.parts|) && r.value.isFound
  {
    hide ResolveAbsolute;
    if stubs != [] {
      AbsoluteIsCandidate(fs, stubs[0], d, TYPESHED_OPTIONS);
      TypeshedIsCandidate(fs, stubs[1..], d, importType);
    }
  }

  /** The candidates of a search for stubs: the module found in the third-party typeshed comes last of all, unless
      the best of the others is a typed library, for which typeshed is not asked. */
  function StubCandidates(fs: Fs, places: Places, d: Descriptor): (r: seq<ImportResult>)
    ensures r != []
  {
    var all := AllCandidates(fs, places, d, true);
    var typeshed := FindTypeshed(fs, places.thirdPartyStubs, d, ThirdParty);
    if IsTypedLibrary(places, Best(all, d)) || typeshed.None? then all
    else all + [typeshed.value.(isThirdPartyTypeshed := true)]
  }

  /** Whether the standard library's typeshed has the module and is asked for it. */
  predicate IsInStdlib(fs: Fs, places: Places, d: Descriptor) {
    && !IsTypedLibrary(places, Best(AllCandidates(fs, places, d, true), d))
    && FindTypeshed(fs, places.stdlibStubs, d, BuiltIn).Some?
  }

  lemma StubCandidatesAreCandidates(fs: Fs, places: Places, d: Descriptor)
    requires fs.Sound() && d.parts != []
    ensures forall c <- StubCandidates(fs, places, d) :: IsCandidate(c, |d.parts|)
  {
    hide AllCandidates, IsCandidate, FindTypeshed, Best, IsTypedLibrary;
    CandidatesAreCandidates(fs, places, d, true);
    TypeshedIsCandidate(fs, places.thirdPartyStubs, d, ThirdParty);
    var typeshed := FindTypeshed(fs, places.thirdPartyStubs, d, ThirdParty);
    if typeshed.Some? {
      MarkedIsCandidate(typeshed.value, |d.parts|);
    }
  }

  /** Away from the stub directory and the standard library, a search for stubs gives the best of its candidates. */
  lemma StubSearchIsBest(fs: Fs, places: Places, d: Descriptor)
    requires d.parts != [] && places.stubPath.None? && !IsInStdlib(fs, places, d)
    ensures ResolveBest(fs, places, d, true) == Some(Best(StubCandidates(fs, places, d), d))
  {
    hide AllCandidates, FindTypeshed, PickBest, IsTypedLibrary;
    var all := AllCandidates(fs, places, d, true);
    var typeshed := FindTypeshed(fs, places.thirdPartyStubs, d, ThirdParty);
    if typeshed.Some? {
      assert (all + [typeshed.value.(isThirdPartyTypeshed := true)])[..|all|] == all;
    }
  }

  /** Looking for stubs too: a stub directory of one's own decides alone, with a module found there or with nothing;
      else the standard library's typeshed decides if it has the module; and else the result is one of the candidates,
      as high up as any, and found exactly when some candidate at that depth is. */
  lemma StubSearchIsMinimal(fs: Fs, places: Places, d: Descriptor)
    requires fs.Sound() && d.parts != []
    ensures var all := StubCandidates(fs, places, d);
            var n := |d.parts|;
            var r := ResolveBest(fs, places, d, true);
            if places.stubPath.Some? then
              r.Some? ==> r.value.isFound && r.value.isLocalTypings && IsCandidate(r.value, n)
            else if IsInStdlib(fs, places, d) then r.Some? && r.value.isFound && r.value.isStdlibTypeshed
            else
              && r.Some? && r.value in all
              && (forall c <- all :: Depth(r.value, n) <= Depth(c, n))
              && (r.value.isFound <==> exists c <- all :: Depth(c, n) == Depth(r.value, n) && c.isFound)
  {
    hide StubCandidates, AllCandidates, Best, FindTypeshed, Depth, PickBest, IsTypedLibrary, ResolveAbsolute;
    if places.stubPath.Some? {
      AbsoluteIsCandidate(fs, places.stubPath.value, d, Options(false, false, true, true, false));
    } else if IsInStdlib(fs, places, d) {
      TypeshedIsCandidate(fs, places.stdlibStubs, d, BuiltIn);
    } else {
      StubSearchIsBest(fs, places, d);
      StubCandidatesAreCandidates(fs, places, d);
      BestIsMinimal(StubCandidates(fs, places, d), d, |d.parts|);
    }
  }

  /** When the stub directory gives nothing: the module is not found in it, or only as a namespace package without
      the imported names. */
  lemma StubDirectoryDecides(fs: Fs, places: Places, d: Descriptor)
    requires places.stubPath.Some?
    ensures var typings := ResolveAbsolute(fs, places.stubPath.value, d, Options(false, false, true, true, false));
            var n := |typings.paths|;
            ResolveBest(fs, places, d, true).Some? <==>
              && typings.isFound
              && (typings.isNamespacePackage && n > 0 && typings.paths[n - 1] == []
                  ==> ResolvesNamespace(typings.implicitImports, d.symbols))
  {
    hide ResolveAbsolute, ResolvesNamespace;
  }

  lemma MarkedIsCandidate(r: ImportResult, n: nat)
    requires IsCandidate(r, n)
    ensures IsCandidate(r.(isThirdPartyTypeshed := true), n)
  {
  }
}
