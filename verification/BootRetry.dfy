/**
 The strip-and-retry step of boot (runtime/src/main.ts): when resolution fails, drop every plugin
 an error names and resolve what is left, once.
 */
module BootRetry {
  import opened Common
  import opened TopologicalSort
  import opened Resolver

  // ---------------------------------------------------------------------------
  // Why a named plugin is hopeless
  // ---------------------------------------------------------------------------

  /** A path that starts in a loadable set stays in it. */
  lemma {:induction false} PathStays(h: Host, installed: set<string>, slugs: set<string>, p: seq<string>)
    requires slugs <= installed && Loadable(h, slugs)
    requires IsPath(NeedsMap(h, installed), p) && p[0] in slugs
    ensures IsPath(NeedsMap(h, slugs), p) && p[|p| - 1] in slugs
    decreases |p|
  {
    if |p| > 1 {
      NeedsArePresent(h, slugs, p[0]);
      assert p[1] in NeedsOf(h, p[0]);
      PathStays(h, installed, slugs, p[1..]);
    }
  }

  lemma CyclicIsHopeless(h: Host, installed: set<string>, slug: string)
    requires ReachesCycle(NeedsMap(h, installed), slug)
    ensures Hopeless(h, installed, slug)
  {
    forall slugs | slugs <= installed && Loadable(h, slugs) ensures slug !in slugs {
      if slug in slugs {
        var p, c :| IsPath(NeedsMap(h, installed), p) && p[0] == slug
                    && IsCycle(NeedsMap(h, installed), c) && c[0] == p[|p| - 1];
        PathStays(h, installed, slugs, p);
        PathStays(h, installed, slugs, c);
        assert IsCycle(NeedsMap(h, slugs), c);
        assert false;
      }
    }
  }

  /** Every plugin named by a rejection is in no loadable subset of the installed ones; that holds
      for the one named for a cycle too. */
  lemma NamedIsHopeless(h: Host, installed: seq<string>, errors: seq<Error>, e: Error)
    requires Errs(h, installed, errors) && e in errors
    ensures e.plugin in installed && Hopeless(h, Elements(installed), e.plugin)
  {
    var present := Elements(installed);
    StepOneNone(h, installed);
    DedupSame(installed);
    if StepOneErrors(h, installed) == [] {
      ValidatedSound(h, installed, Dedup(installed));
      StepTwoNone(h, present, Dedup(installed));
      if StepTwoErrors(h, present, Dedup(installed)) == [] {
        CyclicIsHopeless(h, present, e.plugin);
      }
    }
  }

  // ---------------------------------------------------------------------------
  // The most that can be loaded
  // ---------------------------------------------------------------------------

  /** Two loadable sets can be loaded together. */
  lemma UnionLoadable(h: Host, a: set<string>, b: set<string>)
    requires Loadable(h, a) && Loadable(h, b)
    ensures Loadable(h, a + b)
  {
    forall s | s in a + b ensures Sound(h, s) && NeedsMet(h, a + b, s) {
      assert s in a ==> NeedsMet(h, a, s);
      assert s in b ==> NeedsMet(h, b, s);
    }
    forall c ensures !IsCycle(NeedsMap(h, a + b), c) {
      assert !IsCycle(NeedsMap(h, a), c) && !IsCycle(NeedsMap(h, b), c);
      if IsCycle(NeedsMap(h, a + b), c) {
        PathStays(h, a + b, if c[0] in a then a else b, c);
      }
    }
  }

  /** The installed plugins that are in some loadable subset. */
  ghost function Salvageable(h: Host, installed: set<string>): set<string> {
    set s | s in installed && !Hopeless(h, installed, s)
  }

  ghost predicate Covers(h: Host, installed: set<string>, slugs: set<string>, some: set<string>) {
    slugs <= installed && Loadable(h, slugs) && some <= slugs
  }

  lemma {:induction false} CoveredTogether(h: Host, installed: set<string>, some: set<string>)
    requires some <= Salvageable(h, installed)
    ensures exists slugs :: Covers(h, installed, slugs, some)
  {
    if some == {} {
      assert NeedsMap(h, {}) == map[];
      forall c ensures !IsCycle(NeedsMap(h, {}), c) {}
      assert Covers(h, installed, {}, some);
    } else {
      var s :| s in some;
      CoveredTogether(h, installed, some - {s});
      var rest :| Covers(h, installed, rest, some - {s});
      var own :| own <= installed && Loadable(h, own) && s in own;
      UnionLoadable(h, rest, own);
      assert Covers(h, installed, rest + own, some);
    }
  }

  /** A greatest loadable subset exists: the installed plugins without the hopeless ones. */
  lemma GreatestIsSalvageable(h: Host, installed: set<string>)
    ensures Salvageable(h, installed) <= installed && Loadable(h, Salvageable(h, installed))
    ensures forall other :: other <= installed && Loadable(h, other) ==> other <= Salvageable(h, installed)
  {
    var all := Salvageable(h, installed);
    forall other | other <= installed && Loadable(h, other) ensures other <= all {
      forall s | s in other ensures s in all {}
    }
    CoveredTogether(h, installed, all);
    var slugs :| Covers(h, installed, slugs, all);
    assert slugs == all;
  }

  // ---------------------------------------------------------------------------
  // The retry
  // ---------------------------------------------------------------------------

  function Named(errors: seq<Error>): set<string> {
    set e | e in errors :: e.plugin
  }

  /** `slugs.filter((s) => !bad.has(s))`. */
  function Without(slugs: seq<string>, bad: set<string>): seq<string> {
    if slugs == [] then []
    else if slugs[0] in bad then Without(slugs[1..], bad)
    else [slugs[0]] + Without(slugs[1..], bad)
  }

  lemma {:induction false} WithoutElements(slugs: seq<string>, bad: set<string>)
    ensures Elements(Without(slugs, bad)) == Elements(slugs) - bad
  {
    if slugs != [] {
      WithoutElements(slugs[1..], bad);
      assert Elements(slugs) == {slugs[0]} + Elements(slugs[1..]);
      assert slugs[0] !in bad ==> Elements([slugs[0]] + Without(slugs[1..], bad)) == {slugs[0]} + Elements(Without(slugs[1..], bad));
    } else {
      assert Elements([]) == {};
    }
  }

  /** What boot keeps for its single retry. */
  ghost predicate IsRetried(h: Host, installed: seq<string>, errors: seq<Error>, retried: seq<string>) {
    Errs(h, installed, errors) && retried == Without(installed, Named(errors))
  }

  /** Every hopeless plugin is named by an error. */
  ghost predicate NamesAllHopeless(h: Host, installed: seq<string>, errors: seq<Error>) {
    forall s :: s in installed && Hopeless(h, Elements(installed), s) ==> s in Named(errors)
  }

  /** What is left after stripping holds everything that can be loaded; it can itself be loaded if
      and only if the errors name every hopeless plugin, and then it is exactly that. */
  lemma StrippingLosesNothing(h: Host, installed: seq<string>, errors: seq<Error>, retried: seq<string>)
    requires IsRetried(h, installed, errors, retried)
    ensures Salvageable(h, Elements(installed)) <= Elements(retried)
    ensures Loadable(h, Elements(retried)) <==> NamesAllHopeless(h, installed, errors)
    ensures Loadable(h, Elements(retried)) <==> Elements(retried) == Salvageable(h, Elements(installed))
  {
    var all := Salvageable(h, Elements(installed));
    WithoutElements(installed, Named(errors));
    GreatestIsSalvageable(h, Elements(installed));
    forall s | s in all ensures s in Elements(retried) {
      if s in Named(errors) {
        var e :| e in errors && e.plugin == s;
        NamedIsHopeless(h, installed, errors, e);
      }
    }
    if NamesAllHopeless(h, installed, errors) {
      assert Elements(retried) == all;
    }
    if Loadable(h, Elements(retried)) {
      assert Elements(retried) <= all;
      forall s | s in installed && Hopeless(h, Elements(installed), s) ensures s in Named(errors) {
        assert s in Elements(installed) && s !in Elements(retried);
      }
    }
  }

  datatype Boot = Boot(plugins: seq<string>, loaded: bool)

  /** `loaded` is false when both attempts fail and boot goes on without any plugin. */
  method ResolveAtBoot(h: Host, installed: seq<string>)
    returns (boot: Boot, ghost errors: seq<Error>)
    ensures if Loadable(h, Elements(installed)) then errors == [] else Errs(h, installed, errors)
    ensures boot.loaded <==> NamesAllHopeless(h, installed, errors)
    ensures boot.loaded ==>
              && Elements(boot.plugins) == Salvageable(h, Elements(installed))
              && Distinct(boot.plugins) && DepsFirst(NeedsMap(h, Elements(boot.plugins)), boot.plugins)
    ensures !boot.loaded ==> boot.plugins == []
  {
    errors := [];
    GreatestIsSalvageable(h, Elements(installed));
    assert Elements([]) == {};
    if |installed| == 0 {
      NothingToLoad(h);
      return Boot([], true), errors;
    }
    var slugsToLoad := installed;
    var resolverResult := ResolvePlugins(h, slugsToLoad);
    if resolverResult.Resolved? {
      OrderIsWhole(h, installed, resolverResult.plugins);
      WholeHasNoHopeless(h, installed);
    } else {
      errors := resolverResult.errors;
      var badSlugs := set e | e in resolverResult.errors :: e.plugin;
      slugsToLoad := Without(slugsToLoad, badSlugs);
      StrippingLosesNothing(h, installed, errors, slugsToLoad);
      NothingToLoad(h);
      if |slugsToLoad| > 0 {
        resolverResult := ResolvePlugins(h, slugsToLoad);
        if resolverResult.Resolved? {
          OrderIsWhole(h, slugsToLoad, resolverResult.plugins);
        }
      } else {
        resolverResult := Resolved([]);
      }
    }
    if resolverResult.Resolved? {
      return Boot(resolverResult.plugins, true), errors;
    }
    return Boot([], false), errors;
  }

  lemma NothingToLoad(h: Host)
    ensures Loadable(h, {}) && DepsFirst(NeedsMap(h, {}), []) && Distinct([])
  {
    GreatestIsSalvageable(h, {});
    assert Salvageable(h, {}) == {};
  }

  lemma WholeHasNoHopeless(h: Host, installed: seq<string>)
    requires Loadable(h, Elements(installed))
    ensures NamesAllHopeless(h, installed, []) && Elements(installed) == Salvageable(h, Elements(installed))
  {
    GreatestIsSalvageable(h, Elements(installed));
    forall s | s in installed ensures !Hopeless(h, Elements(installed), s) {
      assert s in Elements(installed);
    }
  }

  lemma OrderIsWhole(h: Host, slugs: seq<string>, order: seq<string>)
    requires Loadable(h, Elements(slugs))
    requires DependencyOrder(Graph(Dedup(slugs), NeedsMap(h, Elements(slugs))), order)
    ensures Elements(order) == Elements(slugs) && Distinct(order)
    ensures DepsFirst(NeedsMap(h, Elements(order)), order)
  {
    DedupSame(slugs);
  }

  /** Boot loads all that can be loaded if and only if the first pass names every hopeless plugin, or
      all installed plugins are hopeless. */
  lemma BootIsGreatestIff(h: Host, installed: seq<string>, errors: seq<Error>, retried: seq<string>)
    requires IsRetried(h, installed, errors, retried)
    ensures (if Loadable(h, Elements(retried)) then Elements(retried) else {}) == Salvageable(h, Elements(installed))
            <==> || NamesAllHopeless(h, installed, errors)
                 || forall s :: s in installed ==> Hopeless(h, Elements(installed), s)
  {
    StrippingLosesNothing(h, installed, errors, retried);
    var all := Salvageable(h, Elements(installed));
    if all == {} {
      forall s | s in installed ensures Hopeless(h, Elements(installed), s) { assert s !in all; }
    }
  }

  // ---------------------------------------------------------------------------
  // One broken plugin can take down the others
  // ---------------------------------------------------------------------------

  function Plain(name: string, dependencies: seq<(string, string)>): ReadOutcome {
    Parsed(Manifest(name, "1.0.0", "^1.0", dependencies, false, "", []))
  }

  /** `a` has no manifest, `b` depends on `a`, `c` stands alone. */
  function BrokenHost(): Host {
    Host(
      slug => if slug == "b" then Plain("b", [("a", "^1.0")]) else if slug == "c" then Plain("c", []) else NotFound,
      (version, range) => true,
      None,
      {})
  }

  lemma RetryDropsHealthyPlugin()
    ensures var h := BrokenHost();
            && Loadable(h, {"c"})
            && Errs(h, ["a", "b", "c"], [Error(MANIFEST_NOT_FOUND, "a")])
            && Without(["a", "b", "c"], {"a"}) == ["b", "c"]
            && !Loadable(h, Elements(["b", "c"]))
  {
    var h := BrokenHost();
    assert Sound(h, "c") && NeedsOf(h, "c") == [];
    assert NeedsMap(h, {"c"}) == map["c" := []];
    assert Sound(h, "b") && !Sound(h, "a");
    var all := ["a", "b", "c"];
    assert all[..2] == ["a", "b"] && ["a", "b"][..1] == ["a"] && ["a"][..0] == [];
    assert StepOneErrors(h, ["a"]) == [Error(MANIFEST_NOT_FOUND, "a")];
    assert StepOneErrors(h, ["a", "b"]) == [Error(MANIFEST_NOT_FOUND, "a")];
    assert StepOneErrors(h, all) == [Error(MANIFEST_NOT_FOUND, "a")];
    assert all[1..] == ["b", "c"] && ["b", "c"][1..] == ["c"];
    assert Without(["c"], {"a"}) == ["c"] && Without(["b", "c"], {"a"}) == ["b", "c"];
    assert "b" in Elements(["b", "c"]) && "a" !in Elements(["b", "c"]);
    assert ("a", "^1.0") in ManifestOf(h, "b").dependencies;
    assert !NeedsMet(h, Elements(["b", "c"]), "b");
  }
}
