/** Which of several places an import comes from. */
module ImportPreference {
  import opened Tokens
  import opened Resolver
  import opened ResolverEntries
  import opened ImportChoice

  // ---------- Two candidates ----------

  /** Both are namespace packages, and names are imported that the better one so far does not have. */
  predicate LacksNames(best: ImportResult, new_: ImportResult, d: Descriptor) {
    && best.isNamespacePackage && new_.isNamespacePackage && d.symbols != []
    && exists name <- d.symbols :: name !in best.implicitImports
  }

  predicate HasNames(r: ImportResult, d: Descriptor) {
    forall name <- d.symbols :: name in r.implicitImports
  }

  /** Between two found modules with their first files at one depth: of namespace packages the one that has the
      imported names, or else an `__init__` file; then one with type information before one without, if it comes
      first; then a stub before a source; and otherwise the one that comes first. */
  lemma FoundPreference(best: ImportResult, new_: ImportResult, d: Descriptor)
    requires best.isFound && new_.isFound && |best.paths| == |new_.paths|
    requires FirstFile(best.paths) == FirstFile(new_.paths)
    ensures PickBest(best, new_, d) ==
              if LacksNames(best, new_, d) && HasNames(new_, d) then new_
              else if LacksNames(best, new_, d) && best.isInitFilePresent != new_.isInitFilePresent then
                if best.isInitFilePresent then best else new_
              else if best.pyTyped.Some? && new_.pyTyped.None? then best
              else if new_.isStubFile && !best.isStubFile then new_
              else best
  {
    hide FirstFile;
  }

  /** A module that is not found never replaces one whose first file is as high up, and a found one always replaces
      one that is not. */
  lemma FoundReplaces(best: ImportResult, new_: ImportResult, d: Descriptor)
    requires FirstFile(best.paths) == FirstFile(new_.paths) && best.isFound != new_.isFound
    ensures PickBest(best, new_, d) == if new_.isFound then new_ else best
  {
    hide FirstFile;
  }

  // ---------- All candidates ----------

  /** The candidates found at this depth, in order. */
  function Contenders(candidates: seq<ImportResult>, n: nat, depth: nat): seq<ImportResult> {
    if candidates == [] then []
    else
      var last := |candidates| - 1;
      var before := Contenders(candidates[..last], n, depth);
      if candidates[last].isFound && Depth(candidates[last], n) == depth then before + [candidates[last]] else before
  }

  /** `b` is a stub that may stand in for `a`: it has type information if `a` has. */
  predicate StubFor(a: ImportResult, b: ImportResult) {
    b.isStubFile && (a.pyTyped.Some? ==> b.pyTyped.Some?)
  }

  /** The contender at `i` is the one to choose: the first of all, unless that is a source and a later one a stub for
      it, and then the first such stub. */
  predicate IsPreferred(all: seq<ImportResult>, i: nat)
    requires i < |all|
  {
    if i == 0 then all[0].isStubFile || forall j :: 0 < j < |all| ==> !StubFor(all[0], all[j])
    else !all[0].isStubFile && StubFor(all[0], all[i]) && forall j :: 0 < j < i ==> !StubFor(all[0], all[j])
  }

  /** No two of the candidates are namespace packages between which the imported names decide. */
  ghost predicate NamesDecideNothing(candidates: seq<ImportResult>, d: Descriptor) {
    forall a <- candidates, b <- candidates :: !LacksNames(a, b, d)
  }

  lemma {:induction false} NoContender(candidates: seq<ImportResult>, n: nat, depth: nat)
    requires forall c <- candidates :: !(c.isFound && Depth(c, n) == depth)
    ensures Contenders(candidates, n, depth) == []
  {
    hide Depth;
    if candidates != [] {
      var last := |candidates| - 1;
      assert candidates[last] in candidates;
      assert forall c <- candidates[..last] :: c in candidates;
      NoContender(candidates[..last], n, depth);
    }
  }

  /** One more contender at the end. */
  lemma PreferredGrows(all: seq<ImportResult>, i: nat, c: ImportResult)
    requires i < |all| && IsPreferred(all, i)
    ensures all[i].isStubFile || !StubFor(all[0], c) ==> IsPreferred(all + [c], i)
    ensures !all[i].isStubFile && StubFor(all[0], c) ==> i == 0 && IsPreferred(all + [c], |all|)
  {
    var more := all + [c];
    assert forall j :: 0 <= j < |all| ==> more[j] == all[j];
  }

  lemma DepthIsFirstFile(a: ImportResult, b: ImportResult, n: nat)
    requires IsCandidate(a, n) && IsCandidate(b, n) && Depth(a, n) == Depth(b, n)
    ensures FirstFile(a.paths) == FirstFile(b.paths)
  {
  }

  /** A found result is the preferred one of all candidates found at its depth. */
  lemma {:induction false} BestIsPreferred(candidates: seq<ImportResult>, d: Descriptor, n: nat) returns (i: nat)
    requires n > 0 && candidates != [] && (forall c <- candidates :: IsCandidate(c, n))
    requires NamesDecideNothing(candidates, d) && Best(candidates, d).isFound
    ensures var r := Best(candidates, d);
            var all := Contenders(candidates, n, Depth(r, n));
            i < |all| && all[i] == r && IsPreferred(all, i)
  {
    hide Depth, PickBest, IsCandidate, IsPreferred, LacksNames, FirstFile, Contenders;
    var last := |candidates| - 1;
    var rest, c, r := candidates[..last], candidates[last], Best(candidates, d);
    var depth := Depth(r, n);
    OneMoreContender(candidates, n, depth);
    i := 0;
    if last == 0 {
      NoContender(rest, n, depth);
      OnlyOne(c);
    } else {
      assert candidates == rest + [c];
      assert forall x <- rest :: x in candidates;
      var b := Best(rest, d);
      BestIsMinimal(rest, d, n);
      BestIsMinimal(candidates, d, n);
      PickIsMinimal(b, c, d, n);
      PickedIsFound(b, c, d, n);
      if b.isFound && Depth(b, n) == depth {
        i := BestIsPreferred(rest, d, n);
        if c.isFound && Depth(c, n) == depth {
          DepthIsFirstFile(b, c, n);
          SameLength(b, c, n);
          i := NextContender(Contenders(rest, n, depth), i, b, c, d);
        }
      } else {
        forall x <- rest ensures !(x.isFound && Depth(x, n) == depth) {
          assert Depth(b, n) <= Depth(x, n);
        }
        NoContender(rest, n, depth);
        OnlyOne(c);
      }
    }
  }

  lemma OneMoreContender(candidates: seq<ImportResult>, n: nat, depth: nat)
    requires candidates != []
    ensures var last := |candidates| - 1;
            var c, before := candidates[last], Contenders(candidates[..last], n, depth);
            Contenders(candidates, n, depth) == if c.isFound && Depth(c, n) == depth then before + [c] else before
  {
    hide Depth;
  }

  lemma NextContender(all: seq<ImportResult>, i: nat, b: ImportResult, c: ImportResult, d: Descriptor) returns (i': nat)
    requires i < |all| && IsPreferred(all, i) && all[i] == b
    requires b.isFound && c.isFound && |b.paths| == |c.paths| && FirstFile(b.paths) == FirstFile(c.paths)
    requires !LacksNames(b, c, d)
    ensures i' <= |all| && (all + [c])[i'] == PickBest(b, c, d) && IsPreferred(all + [c], i')
  {
    hide PickBest, IsPreferred, StubFor, FirstFile, LacksNames;
    FoundPreference(b, c, d);
    PreferredGrows(all, i, c);
    StubWins(all, i, b, c);
    i' := if b.isStubFile || !StubFor(all[0], c) then i else |all|;
  }

  lemma OnlyOne(c: ImportResult)
    ensures [] + [c] == [c] && IsPreferred([c], 0)
  {
  }

  lemma SameLength(a: ImportResult, b: ImportResult, n: nat)
    requires IsCandidate(a, n) && IsCandidate(b, n) && a.isFound && b.isFound
    ensures |a.paths| == |b.paths|
  {
  }

  /** A result that is found is found at its own depth, so it is the one of two that is. */
  lemma PickedIsFound(b: ImportResult, c: ImportResult, d: Descriptor, n: nat)
    requires n > 0 && IsCandidate(b, n) && IsCandidate(c, n)
    requires var r := PickBest(b, c, d); r.isFound
    ensures var r := PickBest(b, c, d);
            && (!(c.isFound && Depth(c, n) == Depth(r, n)) ==> r == b)
            && (!(b.isFound && Depth(b, n) == Depth(r, n)) ==> r == c)
  {
    hide PickBest, IsCandidate, Depth;
    PickIsMinimal(b, c, d, n);
  }

  /** Whether a new contender replaces the preferred one is decided by the very first. */
  lemma StubWins(all: seq<ImportResult>, i: nat, b: ImportResult, c: ImportResult)
    requires i < |all| && IsPreferred(all, i) && all[i] == b
    ensures (b.pyTyped.Some? && c.pyTyped.None?) || !(c.isStubFile && !b.isStubFile) <==>
              b.isStubFile || !StubFor(all[0], c)
  {
  }

  /** A result that is neither a stub nor has type information was found where no stub is. */
  lemma SourceMeansNoStub(candidates: seq<ImportResult>, d: Descriptor, n: nat)
    requires n > 0 && candidates != [] && (forall c <- candidates :: IsCandidate(c, n))
    requires NamesDecideNothing(candidates, d)
    requires var r := Best(candidates, d); r.isFound && !r.isStubFile && r.pyTyped.None?
    ensures forall c <- candidates :: c.isFound && Depth(c, n) == Depth(Best(candidates, d), n) ==> !c.isStubFile
  {
    hide Depth, PickBest, IsCandidate, LacksNames, Best;
    var i := BestIsPreferred(candidates, d, n);
    var depth := Depth(Best(candidates, d), n);
    forall c <- candidates | c.isFound && Depth(c, n) == depth ensures !c.isStubFile {
      ContenderIsListed(candidates, n, depth, c);
    }
  }

  lemma {:induction false} ContenderIsListed(candidates: seq<ImportResult>, n: nat, depth: nat, c: ImportResult)
    requires c in candidates && c.isFound && Depth(c, n) == depth
    ensures c in Contenders(candidates, n, depth)
  {
    hide Depth;
    var last := |candidates| - 1;
    if c != candidates[last] {
      assert candidates == candidates[..last] + [candidates[last]];
      ContenderIsListed(candidates[..last], n, depth, c);
    }
  }

  /** A search for stubs that neither a stub directory nor the standard library decides: what is found is the
      preferred of its candidates. */
  lemma StubSearchIsPreferred(fs: Fs, places: Places, d: Descriptor) returns (i: nat)
    requires fs.Sound() && d.parts != [] && places.stubPath.None? && !IsInStdlib(fs, places, d)
    requires NamesDecideNothing(StubCandidates(fs, places, d), d)
    requires ResolveBest(fs, places, d, true).Some? && ResolveBest(fs, places, d, true).value.isFound
    ensures var r, n := ResolveBest(fs, places, d, true).value, |d.parts|;
            var all := Contenders(StubCandidates(fs, places, d), n, Depth(r, n));
            i < |all| && all[i] == r && IsPreferred(all, i)
  {
    hide StubCandidates, IsInStdlib, ResolveBest, Best, Contenders, IsPreferred, Depth, IsCandidate, NamesDecideNothing;
    StubSearchIsBest(fs, places, d);
    StubCandidatesAreCandidates(fs, places, d);
    i := BestIsPreferred(StubCandidates(fs, places, d), d, |d.parts|);
  }

  // ---------- The places ----------

  /** A library with type information, completely resolved, is not looked up in typeshed, unless no typeshed is known or
      it is itself the execution root. */
  lemma TypedLibrarySkipsTypeshed(fs: Fs, places: Places, d: Descriptor)
    requires places.stubPath.None? && places.typeshedRoot.Some? && places.typeshedRoot.value != places.root
    requires var best := Best(AllCandidates(fs, places, d, true), d); best.pyTyped.Some? && !best.isPartlyResolved
    ensures ResolveBest(fs, places, d, true) == Some(Best(AllCandidates(fs, places, d, true), d))
    ensures !IsInStdlib(fs, places, d)
  {
    hide Best, AllCandidates, FindTypeshed;
  }

  /** In every other case the standard library's typeshed decides if it has the module. */
  lemma StdlibIsAsked(fs: Fs, places: Places, d: Descriptor)
    requires places.stubPath.None? && d.parts != [] && FindTypeshed(fs, places.stdlibStubs, d, BuiltIn).Some?
    requires var best := Best(AllCandidates(fs, places, d, true), d);
             || places.typeshedRoot.None? || places.typeshedRoot.value == places.root
             || best.pyTyped.None? || best.isPartlyResolved
    ensures ResolveBest(fs, places, d, true)
            == Some(FindTypeshed(fs, places.stdlibStubs, d, BuiltIn).value.(isStdlibTypeshed := true))
  {
    hide Best, AllCandidates, FindTypeshed;
  }

  /** The candidates are looked at in this order: the root, the extra paths, the search paths; those of the search
      paths with a look for type information. */
  lemma PlacesInOrder(fs: Fs, places: Places, d: Descriptor, allowPyi: bool)
    ensures var all := AllCandidates(fs, places, d, allowPyi);
            var extras, searches := |places.extraPaths|, |places.searchPaths|;
            var local := Options(false, true, true, allowPyi, false);
            && |all| == 1 + extras + searches
            && all[0] == ResolveAbsolute(fs, places.root, d, local).(importType := Local)
            && (forall i :: 0 <= i < extras ==>
                  all[1 + i] == ResolveAbsolute(fs, places.extraPaths[i], d, local).(importType := Local))
            && (forall i :: 0 <= i < searches ==>
                  all[1 + extras + i]
                  == ResolveAbsolute(fs, places.searchPaths[i], d, local.(lookForPyTyped := true))
                     .(importType := ThirdParty))
  {
    hide ResolveAbsolute, LocalCandidate, ThirdPartyCandidate;
    CandidatesByIndex(fs, places, d, allowPyi);
    forall root: Path
      ensures LocalCandidate(fs, root, d, allowPyi)
              == ResolveAbsolute(fs, root, d, Options(false, true, true, allowPyi, false)).(importType := Local)
      ensures ThirdPartyCandidate(fs, root, d, allowPyi)
              == ResolveAbsolute(fs, root, d, Options(false, true, true, allowPyi, true)).(importType := ThirdParty)
    {
      CandidateOptions(fs, root, d, allowPyi);
    }
  }

  lemma CandidateOptions(fs: Fs, root: Path, d: Descriptor, allowPyi: bool)
    ensures LocalCandidate(fs, root, d, allowPyi)
            == ResolveAbsolute(fs, root, d, Options(false, true, true, allowPyi, false)).(importType := Local)
    ensures ThirdPartyCandidate(fs, root, d, allowPyi)
            == ResolveAbsolute(fs, root, d, Options(false, true, true, allowPyi, true)).(importType := ThirdParty)
  {
    hide ResolveAbsolute;
  }

  lemma CandidatesByIndex(fs: Fs, places: Places, d: Descriptor, allowPyi: bool)
    ensures var all := AllCandidates(fs, places, d, allowPyi);
            var extras, searches := |places.extraPaths|, |places.searchPaths|;
            && |all| == 1 + extras + searches
            && all[0] == LocalCandidate(fs, places.root, d, allowPyi)
            && (forall i :: 0 <= i < extras ==> all[1 + i] == LocalCandidate(fs, places.extraPaths[i], d, allowPyi))
            && (forall i :: 0 <= i < searches ==>
                  all[1 + extras + i] == ThirdPartyCandidate(fs, places.searchPaths[i], d, allowPyi))
  {
    hide LocalCandidate, ThirdPartyCandidate;
  }

  /** Packaged stubs are used exactly when they are asked for and allowed, their directory exists, and it is more than
      a namespace package or has the module. */
  lemma PackagedStubsFirst(fs: Fs, root: Path, d: Descriptor, o: Options)
    requires fs.Sound() && d.parts != []
    ensures var stubs := ResolveModule(fs, root, d, Options(o.allowPartial, false, true, true, true));
            var used := && o.allowPyi && o.useStubPackage && root + [d.parts[0] + "-stubs"] in fs.dirs
                        && ([] !in stubs.paths || stubs.isFound);
            var r := ResolveAbsolute(fs, root, d, o);
            && (r.isStubPackage <==> used)
            && r == if used then stubs else ResolveModule(fs, root, d, o.(useStubPackage := false))
  {
    hide ResolveModule, IsResolution;
    EntriesArePreferred(fs, root, d, Options(o.allowPartial, false, true, true, true));
    EntriesArePreferred(fs, root, d, o.(useStubPackage := false));
    FirstDir(root, d.parts, Options(o.allowPartial, false, true, true, true));
  }

  lemma FirstDir(root: Path, parts: seq<string>, o: Options)
    requires parts != [] && o.useStubPackage
    ensures Dir(root, parts, o, 0) == root + [parts[0] + "-stubs"]
  {
    assert DirectoryOf(root, parts, 0, true) == root;
    assert DirectoryOf(root, parts, 1, true) == PartDirectory(root, parts, 0, true);
  }

  predicate HasModule(fs: Fs, directory: Path, d: Descriptor) {
    directory in fs.dirs && ResolveAbsolute(fs, directory, d, TYPESHED_OPTIONS).isFound
  }

  /** The first of the directories that has the module, or their number if none has it. */
  function FirstWith(fs: Fs, stubs: seq<Path>, d: Descriptor): (i: nat)
    ensures i <= |stubs| && (i < |stubs| ==> HasModule(fs, stubs[i], d))
    ensures forall j :: 0 <= j < i ==> !HasModule(fs, stubs[j], d)
  {
    if stubs == [] || HasModule(fs, stubs[0], d) then 0
    else
      var i := FirstWith(fs, stubs[1..], d) + 1;
      assert forall j :: 0 < j < i ==> stubs[j] == stubs[1..][j - 1];
      i
  }

  /** A typeshed has the module in the first of its directories that exists and has it. */
  lemma {:induction false} TypeshedIsFirst(fs: Fs, stubs: seq<Path>, d: Descriptor, importType: ImportType)
    ensures var i := FirstWith(fs, stubs, d);
            FindTypeshed(fs, stubs, d, importType) ==
              if i == |stubs| then None
              else Some(ResolveAbsolute(fs, stubs[i], d, TYPESHED_OPTIONS).(importType := importType))
  {
    hide ResolveAbsolute;
    if stubs != [] && !HasModule(fs, stubs[0], d) {
      TypeshedIsFirst(fs, stubs[1..], d, importType);
    }
  }

  /** Never as a stub package, and never as a native library. */
  lemma TypeshedIsPlain(fs: Fs, directory: Path, d: Descriptor)
    requires fs.Sound() && d.parts != []
    ensures var r := ResolveAbsolute(fs, directory, d, TYPESHED_OPTIONS);
            !r.isStubPackage && r == ResolveModule(fs, directory, d, Options(false, false, false, true, false))
  {
    hide ResolveAbsolute, ResolveModule;
    PackagedStubsFirst(fs, directory, d, TYPESHED_OPTIONS);
  }
}
