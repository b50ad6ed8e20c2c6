/**
 Plugin resolution (runtime/src/resolver.ts, resolvePlugins) and the strip-and-retry step of boot
 (runtime/src/main.ts).
 */
module Resolver {
  import opened Common
  import opened TopologicalSort

  // What the disk, the manifest validator, the range check and the service registry answer is a
  // parameter, the `Host`. Messages are left out; an error is a code and the plugin it names.

  datatype Manifest = Manifest(
    name: string,
    version: string,
    apiVersion: string,
    dependencies: seq<(string, string)>,   // slug and range
    isExtension: bool,
    base: string,                          // "" when absent
    managedServices: seq<string>)

  datatype ReadOutcome = NotFound | Unreadable | Invalid | Parsed(manifest: Manifest)

  datatype Host = Host(
    read: string -> ReadOutcome,
    satisfies: (string, string) -> bool,
    apiVersion: Option<string>,
    services: set<string>)

  datatype Code =
    | RESERVED_SLUG
    | MANIFEST_NOT_FOUND
    | MANIFEST_READ_FAILED
    | MANIFEST_INVALID
    | SLUG_MISMATCH
    | INCOMPATIBLE_API_VERSION
    | UNKNOWN_MANAGED_SERVICE
    | MISSING_DEPENDENCY
    | INCOMPATIBLE_DEPENDENCY
    | MISSING_BASE_PLUGIN
    | CIRCULAR_DEPENDENCY

  datatype Error = Error(code: Code, plugin: string)

  datatype Result = Resolved(plugins: seq<string>) | Rejected(errors: seq<Error>)

  // ---------------------------------------------------------------------------
  // What can be loaded
  // ---------------------------------------------------------------------------

  /** The step-1 verdict on one slug. */
  function Fault(h: Host, slug: string): Option<Code> {
    if slug == "core" || slug == "admin" then Some(RESERVED_SLUG)
    else match h.read(slug)
      case NotFound => Some(MANIFEST_NOT_FOUND)
      case Unreadable => Some(MANIFEST_READ_FAILED)
      case Invalid => Some(MANIFEST_INVALID)
      case Parsed(m) =>
        if m.name != slug then Some(SLUG_MISMATCH)
        else if h.apiVersion.Some? && !h.satisfies(h.apiVersion.value, m.apiVersion) then Some(INCOMPATIBLE_API_VERSION)
        else if exists s :: s in m.managedServices && s !in h.services then Some(UNKNOWN_MANAGED_SERVICE)
        else None
  }

  predicate Sound(h: Host, slug: string) {
    Fault(h, slug) == None
  }

  function ManifestOf(h: Host, slug: string): Manifest
    requires Sound(h, slug)
  {
    h.read(slug).manifest
  }

  /** The slugs a plugin needs: its declared dependencies, and the base it extends. */
  function DeclaredSlugs(ds: seq<(string, string)>): seq<string> {
    if ds == [] then [] else DeclaredSlugs(ds[..|ds| - 1]) + [ds[|ds| - 1].0]
  }

  predicate HasBase(m: Manifest) {
    m.isExtension && m.base != ""
  }

  function Needs(m: Manifest): seq<string> {
    var declared := DeclaredSlugs(m.dependencies);
    if HasBase(m) && m.base !in declared then declared + [m.base] else declared
  }

  /** One declared dependency can be met among `present`. */
  predicate Met(h: Host, present: set<string>, dep: (string, string)) {
    dep.0 in present && Sound(h, dep.0) && h.satisfies(ManifestOf(h, dep.0).version, dep.1)
  }

  /** Every need of a sound plugin is met among `present`. */
  predicate NeedsMet(h: Host, present: set<string>, slug: string)
    requires Sound(h, slug)
  {
    var m := ManifestOf(h, slug);
    && (forall d :: d in m.dependencies ==> Met(h, present, d))
    && (HasBase(m) ==> m.base in present && Sound(h, m.base))
  }

  function NeedsOf(h: Host, slug: string): seq<string> {
    if Sound(h, slug) then Needs(ManifestOf(h, slug)) else []
  }

  function NeedsMap(h: Host, slugs: set<string>): map<string, seq<string>> {
    map s | s in slugs && Sound(h, s) :: NeedsOf(h, s)
  }

  /** A set of plugins that can run together: sound, closed under needs, without cycles. */
  ghost predicate Loadable(h: Host, slugs: set<string>) {
    && (forall s :: s in slugs ==> Sound(h, s) && NeedsMet(h, slugs, s))
    && Acyclic(NeedsMap(h, slugs))
  }

  /** No loadable subset of the installed plugins has this one. */
  ghost predicate Hopeless(h: Host, installed: set<string>, slug: string) {
    forall slugs :: slugs <= installed && Loadable(h, slugs) ==> slug !in slugs
  }

  // ---------------------------------------------------------------------------
  // The errors of each step
  // ---------------------------------------------------------------------------

  function StepOneErrors(h: Host, slugs: seq<string>): seq<Error> {
    if slugs == [] then []
    else
      var last := slugs[|slugs| - 1];
      StepOneErrors(h, slugs[..|slugs| - 1]) + (if Sound(h, last) then [] else [Error(Fault(h, last).value, last)])
  }

  /** First occurrences, the key order of a Map. */
  function Dedup(slugs: seq<string>): seq<string> {
    if slugs == [] then []
    else
      var before, last := Dedup(slugs[..|slugs| - 1]), slugs[|slugs| - 1];
      if last in before then before else before + [last]
  }

  function DependencyErrors(h: Host, present: set<string>, slug: string, ds: seq<(string, string)>): seq<Error> {
    if ds == [] then []
    else
      var last := ds[|ds| - 1];
      DependencyErrors(h, present, slug, ds[..|ds| - 1]) +
      (if last.0 !in present || !Sound(h, last.0) then [Error(MISSING_DEPENDENCY, slug)]
       else if !h.satisfies(ManifestOf(h, last.0).version, last.1) then [Error(INCOMPATIBLE_DEPENDENCY, slug)]
       else [])
  }

  function NeedErrors(h: Host, present: set<string>, slug: string): seq<Error>
    requires Sound(h, slug)
  {
    var m := ManifestOf(h, slug);
    DependencyErrors(h, present, slug, m.dependencies) +
    (if HasBase(m) && m.base !in present then [Error(MISSING_BASE_PLUGIN, slug)] else [])
  }

  function StepTwoErrors(h: Host, present: set<string>, slugs: seq<string>): seq<Error>
    requires forall s :: s in slugs ==> Sound(h, s)
  {
    if slugs == [] then []
    else
      StepTwoErrors(h, present, slugs[..|slugs| - 1]) + NeedErrors(h, present, slugs[|slugs| - 1])
  }

  lemma {:induction false} StepOneNone(h: Host, slugs: seq<string>)
    ensures StepOneErrors(h, slugs) == [] <==> forall s :: s in slugs ==> Sound(h, s)
    ensures forall e :: e in StepOneErrors(h, slugs) ==> e.plugin in slugs && !Sound(h, e.plugin)
  {
    if slugs != [] {
      StepOneNone(h, slugs[..|slugs| - 1]);
      assert slugs == slugs[..|slugs| - 1] + [slugs[|slugs| - 1]];
    }
  }

  lemma {:induction false} DedupSame(slugs: seq<string>)
    ensures Distinct(Dedup(slugs)) && Elements(Dedup(slugs)) == Elements(slugs)
  {
    if slugs != [] {
      DedupSame(slugs[..|slugs| - 1]);
      assert slugs == slugs[..|slugs| - 1] + [slugs[|slugs| - 1]];
      forall s ensures s in Dedup(slugs) <==> s in slugs {
        assert s in Elements(Dedup(slugs[..|slugs| - 1])) <==> s in Elements(slugs[..|slugs| - 1]);
      }
    }
  }

  /** The first occurrences keep the order. */
  lemma {:induction false} FirstOfAll(slugs: seq<string>, deps: map<string, seq<string>>, s: string)
    requires FirstOnCycle(Dedup(slugs), deps, s)
    ensures FirstOnCycle(slugs, deps, s)
  {
    var before, last := slugs[..|slugs| - 1], slugs[|slugs| - 1];
    var i: nat :| FirstAt(Dedup(slugs), deps, s, i);
    if i < |Dedup(before)| {
      assert forall j :: 0 <= j <= i ==> Dedup(before)[j] == Dedup(slugs)[j];
      assert FirstAt(Dedup(before), deps, s, i);
      FirstOfAll(before, deps, s);
      var k: nat :| FirstAt(before, deps, s, k);
      assert forall j :: 0 <= j <= k ==> slugs[j] == before[j];
      assert FirstAt(slugs, deps, s, k);
    } else {
      assert forall j :: 0 <= j < i ==> Dedup(before)[j] == Dedup(slugs)[j] && !ReachesCycle(deps, Dedup(slugs)[j]);
      LastIsFirst(slugs, deps, s);
    }
  }

  lemma LastIsFirst(slugs: seq<string>, deps: map<string, seq<string>>, s: string)
    requires slugs != [] && slugs[|slugs| - 1] == s && ReachesCycle(deps, s)
    requires forall x :: x in Dedup(slugs[..|slugs| - 1]) ==> !ReachesCycle(deps, x)
    ensures FirstOnCycle(slugs, deps, s)
  {
    var before := slugs[..|slugs| - 1];
    DedupSame(before);
    forall j | 0 <= j < |before| ensures !ReachesCycle(deps, slugs[j]) {
      assert slugs[j] in Elements(before);
    }
    assert FirstAt(slugs, deps, s, |before|);
  }

  lemma {:induction false} DependencyErrorsNone(h: Host, present: set<string>, slug: string, ds: seq<(string, string)>)
    ensures DependencyErrors(h, present, slug, ds) == [] <==> forall d :: d in ds ==> Met(h, present, d)
    ensures forall e :: e in DependencyErrors(h, present, slug, ds) ==> e.plugin == slug
  {
    if ds != [] {
      var before, last := ds[..|ds| - 1], ds[|ds| - 1];
      DependencyErrorsNone(h, present, slug, before);
      assert ds == before + [last];
      assert forall d :: d in ds <==> d in before || d == last;
      if Met(h, present, last) {
        assert DependencyErrors(h, present, slug, ds) == DependencyErrors(h, present, slug, before) + [];
      } else {
        assert last in ds && |DependencyErrors(h, present, slug, ds)| > 0;
      }
    }
  }

  lemma {:induction false} StepTwoNone(h: Host, present: set<string>, slugs: seq<string>)
    requires forall s :: s in slugs ==> Sound(h, s)
    requires forall s :: s in present ==> Sound(h, s)
    ensures StepTwoErrors(h, present, slugs) == [] <==> forall s :: s in slugs ==> NeedsMet(h, present, s)
    ensures forall e :: e in StepTwoErrors(h, present, slugs) ==> e.plugin in slugs && !NeedsMet(h, present, e.plugin)
  {
    if slugs != [] {
      var before, last := slugs[..|slugs| - 1], slugs[|slugs| - 1];
      StepTwoNone(h, present, before);
      DependencyErrorsNone(h, present, last, ManifestOf(h, last).dependencies);
      assert slugs == before + [last];
      assert forall s :: s in slugs <==> s in before || s == last;
      assert StepTwoErrors(h, present, slugs) == [] <==> StepTwoErrors(h, present, before) == [] && NeedErrors(h, present, last) == [];
      forall e | e in NeedErrors(h, present, last) ensures e.plugin == last && !NeedsMet(h, present, last) {}
    }
  }

  lemma {:induction false} DeclaredElements(ds: seq<(string, string)>)
    ensures forall s :: s in DeclaredSlugs(ds) <==> exists d :: d in ds && d.0 == s
  {
    if ds != [] {
      DeclaredElements(ds[..|ds| - 1]);
      assert ds == ds[..|ds| - 1] + [ds[|ds| - 1]];
    }
  }

  lemma NeedsArePresent(h: Host, present: set<string>, slug: string)
    requires Sound(h, slug) && NeedsMet(h, present, slug)
    ensures forall s :: s in Needs(ManifestOf(h, slug)) ==> s in present && Sound(h, s)
  {
    DeclaredElements(ManifestOf(h, slug).dependencies);
  }

  // ---------------------------------------------------------------------------
  // resolvePlugins
  // ---------------------------------------------------------------------------

  /** What a rejection lists: the errors of the first step that has any; for a cycle, one error
      naming the first slug, in insertion order, from which a cycle can be reached. */
  ghost predicate Errs(h: Host, installed: seq<string>, errors: seq<Error>) {
    var first := StepOneErrors(h, installed);
    if first != [] then errors == first
    else
      (forall s :: s in Dedup(installed) ==> Sound(h, s)) &&
      var second := StepTwoErrors(h, Elements(installed), Dedup(installed));
      if second != [] then errors == second
      else
        exists s :: FirstOnCycle(installed, NeedsMap(h, Elements(installed)), s) && errors == [Error(CIRCULAR_DEPENDENCY, s)]
  }

  // ---------------------------------------------------------------------------
  // The same, written out over the host
  // ---------------------------------------------------------------------------

  predicate Reserved(slug: string) {
    slug == "core" || slug == "admin"
  }

  predicate NamedManifest(h: Host, slug: string) {
    !Reserved(slug) && h.read(slug).Parsed? && h.read(slug).manifest.name == slug
  }

  predicate ApiFits(h: Host, slug: string)
    requires h.read(slug).Parsed?
  {
    h.apiVersion.Some? ==> h.satisfies(h.apiVersion.value, h.read(slug).manifest.apiVersion)
  }

  predicate ServicesKnown(h: Host, slug: string)
    requires h.read(slug).Parsed?
  {
    forall s :: s in h.read(slug).manifest.managedServices ==> s in h.services
  }

  /** Every check of step 1 passes. */
  predicate Admissible(h: Host, slug: string) {
    NamedManifest(h, slug) && ApiFits(h, slug) && ServicesKnown(h, slug)
  }

  /** The check that `code` reports fails, and those before it pass. */
  predicate Rejects(h: Host, slug: string, code: Code) {
    match code
    case RESERVED_SLUG => Reserved(slug)
    case MANIFEST_NOT_FOUND => !Reserved(slug) && h.read(slug).NotFound?
    case MANIFEST_READ_FAILED => !Reserved(slug) && h.read(slug).Unreadable?
    case MANIFEST_INVALID => !Reserved(slug) && h.read(slug).Invalid?
    case SLUG_MISMATCH => !Reserved(slug) && h.read(slug).Parsed? && h.read(slug).manifest.name != slug
    case INCOMPATIBLE_API_VERSION => NamedManifest(h, slug) && !ApiFits(h, slug)
    case UNKNOWN_MANAGED_SERVICE => NamedManifest(h, slug) && ApiFits(h, slug) && !ServicesKnown(h, slug)
    case _ => false
  }

  /** A dependency that is installed in a version outside the range. */
  predicate TooOld(h: Host, installed: set<string>, d: (string, string)) {
    d.0 in installed && (h.read(d.0).Parsed? ==> !h.satisfies(h.read(d.0).manifest.version, d.1))
  }

  /** The need of an admissible plugin that `code` reports is not met among the installed ones. */
  ghost predicate NeedFails(h: Host, installed: set<string>, slug: string, code: Code)
    requires h.read(slug).Parsed?
  {
    var m := h.read(slug).manifest;
    match code
    case MISSING_DEPENDENCY => exists d :: d in m.dependencies && d.0 !in installed
    case INCOMPATIBLE_DEPENDENCY => exists d :: d in m.dependencies && TooOld(h, installed, d)
    case MISSING_BASE_PLUGIN => m.isExtension && m.base != "" && m.base !in installed
    case _ => false
  }

  /** One error per reason, in the order of the list. */
  ghost predicate InListOrder(slugs: seq<string>, errors: seq<Error>) {
    forall i, j :: 0 <= i < j < |errors| ==>
      errors[i].plugin == errors[j].plugin || Before(slugs, errors[i].plugin, errors[j].plugin)
  }

  ghost predicate NeedsFail(h: Host, installed: set<string>, slug: string) {
    h.read(slug).Parsed? && exists code :: NeedFails(h, installed, slug, code)
  }

  /** What the errors of a rejection say about the host. */
  ghost predicate Explained(h: Host, installed: seq<string>, errors: seq<Error>) {
    if exists s :: s in installed && !Admissible(h, s) then
      InListOrder(installed, errors) && forall e :: e in errors <==> e.plugin in installed && Rejects(h, e.plugin, e.code)
    else if exists s :: s in installed && NeedsFail(h, Elements(installed), s) then
      InListOrder(installed, errors)
      && forall e :: e in errors <==> e.plugin in installed && h.read(e.plugin).Parsed? && NeedFails(h, Elements(installed), e.plugin, e.code)
    else
      exists s :: FirstOnCycle(installed, NeedsMap(h, Elements(installed)), s) && errors == [Error(CIRCULAR_DEPENDENCY, s)]
  }

  /** `Fault` is the first check that fails, and `Sound` none. */
  lemma FaultIsFirstFailure(h: Host, slug: string)
    ensures Sound(h, slug) <==> Admissible(h, slug)
    ensures forall code :: Fault(h, slug) == Some(code) <==> Rejects(h, slug, code)
  {
  }

  /** Among sound plugins the needs that are met are those that do not fail. */
  lemma NeedsMetIff(h: Host, present: set<string>, slug: string)
    requires Sound(h, slug) && forall s :: s in present ==> Sound(h, s)
    ensures NeedsMet(h, present, slug) <==> !NeedsFail(h, present, slug)
  {
    FaultIsFirstFailure(h, slug);
    if !NeedsMet(h, present, slug) {
      var m := ManifestOf(h, slug);
      if d :| d in m.dependencies && !Met(h, present, d) {
        assert NeedFails(h, present, slug, if d.0 in present then INCOMPATIBLE_DEPENDENCY else MISSING_DEPENDENCY);
      } else {
        assert NeedFails(h, present, slug, MISSING_BASE_PLUGIN);
      }
    }
  }

  /** The edges: the declared dependencies and the base of an extension. */
  lemma NeedsAre(h: Host, slugs: set<string>, slug: string, need: string)
    requires slug in slugs && Sound(h, slug)
    ensures slug in NeedsMap(h, slugs) && h.read(slug).Parsed?
    ensures need in NeedsMap(h, slugs)[slug] <==>
              var m := h.read(slug).manifest;
              (exists d :: d in m.dependencies && d.0 == need) || (m.isExtension && m.base != "" && m.base == need)
  {
    DeclaredElements(ManifestOf(h, slug).dependencies);
  }

  /** What a set of plugins needs to be loadable, over the host. */
  lemma LoadableIff(h: Host, slugs: set<string>)
    ensures Loadable(h, slugs) <==>
              (forall s :: s in slugs ==> Admissible(h, s) && !NeedsFail(h, slugs, s)) && Acyclic(NeedsMap(h, slugs))
  {
    forall s ensures Sound(h, s) <==> Admissible(h, s) { FaultIsFirstFailure(h, s); }
    if forall s :: s in slugs ==> Sound(h, s) {
      forall s | s in slugs ensures NeedsMet(h, slugs, s) <==> !NeedsFail(h, slugs, s) { NeedsMetIff(h, slugs, s); }
    }
  }

  lemma BeforeGrows(xs: seq<string>, last: string, x: string, y: string)
    requires x in xs && (y == last || Before(xs, x, y))
    ensures Before(xs + [last], x, y)
  {
    var ys := xs + [last];
    if Before(xs, x, y) {
      var i, j :| 0 <= i < j < |xs| && xs[i] == x && xs[j] == y;
      assert ys[i] == x && ys[j] == y;
    } else {
      var i :| 0 <= i < |xs| && xs[i] == x;
      assert ys[i] == x && ys[|xs|] == y;
    }
  }

  // Errors of one more plugin at the end.
  lemma OrderGrows(slugs: seq<string>, last: string, errors: seq<Error>, more: seq<Error>)
    requires InListOrder(slugs, errors) && (forall e :: e in errors ==> e.plugin in slugs) && forall e :: e in more ==> e.plugin == last
    ensures InListOrder(slugs + [last], errors + more)
  {
    var all := errors + more;
    forall i, j | 0 <= i < j < |all| ensures all[i].plugin == all[j].plugin || Before(slugs + [last], all[i].plugin, all[j].plugin) {
      if i < |errors| && all[i].plugin != all[j].plugin {
        assert all[i] == errors[i] && (if j < |errors| then all[j] == errors[j] else all[j] == more[j - |errors|]);
        BeforeGrows(slugs, last, all[i].plugin, all[j].plugin);
      }
    }
  }

  lemma {:induction false} StepOneExplained(h: Host, slugs: seq<string>)
    ensures InListOrder(slugs, StepOneErrors(h, slugs))
    ensures forall e :: e in StepOneErrors(h, slugs) <==> e.plugin in slugs && Rejects(h, e.plugin, e.code)
  {
    if slugs != [] {
      var before, last := slugs[..|slugs| - 1], slugs[|slugs| - 1];
      var more := if Sound(h, last) then [] else [Error(Fault(h, last).value, last)];
      assert slugs == before + [last];
      StepOneExplained(h, before);
      FaultIsFirstFailure(h, last);
      OrderGrows(before, last, StepOneErrors(h, before), more);
      assert forall e :: e in more <==> e.plugin == last && Rejects(h, last, e.code);
    }
  }

  lemma {:induction false} DependencyErrorsExplained(h: Host, present: set<string>, slug: string, ds: seq<(string, string)>)
    requires forall s :: s in present ==> Sound(h, s)
    ensures forall e :: e in DependencyErrors(h, present, slug, ds) <==>
              e.plugin == slug && ((e.code == MISSING_DEPENDENCY && exists d :: d in ds && d.0 !in present)
                                   || (e.code == INCOMPATIBLE_DEPENDENCY && exists d :: d in ds && TooOld(h, present, d)))
  {
    if ds != [] {
      var before, last := ds[..|ds| - 1], ds[|ds| - 1];
      assert ds == before + [last];
      DependencyErrorsExplained(h, present, slug, before);
      if last.0 in present { FaultIsFirstFailure(h, last.0); }
      assert forall d :: d in ds <==> d in before || d == last;
      assert last in ds;
      var more := if last.0 !in present then [Error(MISSING_DEPENDENCY, slug)]
                  else if TooOld(h, present, last) then [Error(INCOMPATIBLE_DEPENDENCY, slug)] else [];
      assert DependencyErrors(h, present, slug, ds) == DependencyErrors(h, present, slug, before) + more;
    }
  }

  lemma NeedErrorsExplained(h: Host, present: set<string>, slug: string)
    requires Sound(h, slug) && forall s :: s in present ==> Sound(h, s)
    ensures h.read(slug).Parsed?
    ensures forall e :: e in NeedErrors(h, present, slug) <==> e.plugin == slug && NeedFails(h, present, slug, e.code)
  {
    DependencyErrorsExplained(h, present, slug, ManifestOf(h, slug).dependencies);
  }

  lemma {:induction false} StepTwoExplained(h: Host, present: set<string>, slugs: seq<string>)
    requires (forall s :: s in slugs ==> Sound(h, s)) && forall s :: s in present ==> Sound(h, s)
    ensures InListOrder(slugs, StepTwoErrors(h, present, slugs))
    ensures forall e :: e in StepTwoErrors(h, present, slugs) <==>
              e.plugin in slugs && h.read(e.plugin).Parsed? && NeedFails(h, present, e.plugin, e.code)
  {
    if slugs != [] {
      var before, last := slugs[..|slugs| - 1], slugs[|slugs| - 1];
      assert slugs == before + [last];
      StepTwoExplained(h, present, before);
      NeedErrorsExplained(h, present, last);
      OrderGrows(before, last, StepTwoErrors(h, present, before), NeedErrors(h, present, last));
    }
  }

  lemma {:induction false} DedupKeepsOrder(slugs: seq<string>, x: string, y: string)
    requires Before(Dedup(slugs), x, y)
    ensures Before(slugs, x, y)
  {
    var before, last := slugs[..|slugs| - 1], slugs[|slugs| - 1];
    assert slugs == before + [last];
    DedupSame(before);
    var d := Dedup(before);
    var i, j :| 0 <= i < j < |Dedup(slugs)| && Dedup(slugs)[i] == x && Dedup(slugs)[j] == y;
    assert x == d[i] && x in Elements(before);
    if j < |d| {
      assert d[i] == x && d[j] == y && Before(d, x, y);
      DedupKeepsOrder(before, x, y);
    }
    BeforeGrows(before, last, x, y);
  }

  /** The errors of every rejection are explained by the host. */
  lemma ErrsExplained(h: Host, installed: seq<string>, errors: seq<Error>)
    requires Errs(h, installed, errors)
    ensures Explained(h, installed, errors)
  {
    StepOneExplained(h, installed);
    StepOneNone(h, installed);
    forall s ensures Sound(h, s) <==> Admissible(h, s) { FaultIsFirstFailure(h, s); }
    if StepOneErrors(h, installed) == [] {
      var present, slugs := Elements(installed), Dedup(installed);
      DedupSame(installed);
      ValidatedSound(h, installed, slugs);
      StepTwoExplained(h, present, slugs);
      StepTwoNone(h, present, slugs);
      forall s | s in installed ensures NeedsMet(h, present, s) <==> !NeedsFail(h, present, s) { NeedsMetIff(h, present, s); }
      var second := StepTwoErrors(h, present, slugs);
      forall x, y | Before(slugs, x, y) ensures Before(installed, x, y) { DedupKeepsOrder(installed, x, y); }
      assert InListOrder(installed, second);
      assert forall s :: s in slugs <==> s in installed;
    }
  }

  method CheckPlugins(h: Host, installed: seq<string>) returns (errors: seq<Error>, validated: seq<string>)
    ensures errors == StepOneErrors(h, installed)
    ensures errors == [] ==> validated == Dedup(installed)
  {
    errors, validated := [], [];
    for i := 0 to |installed|
      invariant errors == StepOneErrors(h, installed[..i])
      invariant errors == [] ==> validated == Dedup(installed[..i])
    {
      var slug := installed[i];
      assert installed[..i + 1][..i] == installed[..i];
      var fault := Fault(h, slug);
      if fault.Some? {
        errors := errors + [Error(fault.value, slug)];
      } else if slug !in validated {
        validated := validated + [slug];
      }
    }
    assert installed[..|installed|] == installed;
  }

  /** The edges of one plugin and the errors found while collecting them. */
  method CollectNeeds(h: Host, validated: seq<string>, slug: string) returns (deps: seq<string>, errors: seq<Error>)
    requires slug in validated && forall s :: s in validated ==> Sound(h, s)
    ensures errors == NeedErrors(h, Elements(validated), slug)
    ensures errors == [] ==> deps == NeedsOf(h, slug)
  {
    var m := ManifestOf(h, slug);
    deps, errors := [], [];
    for j := 0 to |m.dependencies|
      invariant errors == DependencyErrors(h, Elements(validated), slug, m.dependencies[..j])
      invariant errors == [] ==> deps == DeclaredSlugs(m.dependencies[..j])
    {
      var (depSlug, depRange) := m.dependencies[j];
      assert m.dependencies[..j + 1][..j] == m.dependencies[..j];
      if depSlug !in validated {
        errors := errors + [Error(MISSING_DEPENDENCY, slug)];
      } else if !h.satisfies(ManifestOf(h, depSlug).version, depRange) {
        errors := errors + [Error(INCOMPATIBLE_DEPENDENCY, slug)];
      } else {
        deps := deps + [depSlug];
      }
    }
    assert m.dependencies[..|m.dependencies|] == m.dependencies;
    if m.isExtension && m.base != "" {
      if m.base !in validated {
        errors := errors + [Error(MISSING_BASE_PLUGIN, slug)];
      } else if m.base !in deps {
        deps := deps + [m.base];
      }
    }
  }

  method BuildAdjacency(h: Host, validated: seq<string>) returns (errors: seq<Error>, adjacency: map<string, seq<string>>)
    requires forall s :: s in validated ==> Sound(h, s)
    ensures errors == StepTwoErrors(h, Elements(validated), validated)
    ensures errors == [] ==> adjacency == NeedsMap(h, Elements(validated))
  {
    adjacency, errors := map[], [];
    ghost var present := Elements(validated);
    for i := 0 to |validated|
      invariant AdjacencyOf(h, present, validated[..i], errors, adjacency)
    {
      var slug := validated[i];
      var deps, more := CollectNeeds(h, validated, slug);
      NextAdjacency(h, present, validated, i, errors, adjacency, deps, more);
      adjacency := adjacency[slug := deps];
      errors := errors + more;
    }
    assert validated[..|validated|] == validated;
  }

  // The errors and edges of the slugs done so far.
  ghost predicate AdjacencyOf(h: Host, present: set<string>, done: seq<string>, errors: seq<Error>, adjacency: map<string, seq<string>>)
    requires forall s :: s in done ==> Sound(h, s)
  {
    && errors == StepTwoErrors(h, present, done)
    && adjacency.Keys == Elements(done)
    && (errors == [] ==> forall s :: s in adjacency ==> adjacency[s] == NeedsOf(h, s))
  }

  lemma NextAdjacency(h: Host, present: set<string>, slugs: seq<string>, i: nat, errors: seq<Error>,
                      adjacency: map<string, seq<string>>, deps: seq<string>, more: seq<Error>)
    requires i < |slugs| && forall s :: s in slugs ==> Sound(h, s)
    requires AdjacencyOf(h, present, slugs[..i], errors, adjacency)
    requires more == NeedErrors(h, present, slugs[i]) && (more == [] ==> deps == NeedsOf(h, slugs[i]))
    ensures AdjacencyOf(h, present, slugs[..i + 1], errors + more, adjacency[slugs[i] := deps])
  {
    StepTwoSnoc(h, present, slugs, i);
    assert Elements(slugs[..i + 1]) == Elements(slugs[..i]) + {slugs[i]};
  }

  lemma StepTwoSnoc(h: Host, present: set<string>, slugs: seq<string>, i: nat)
    requires i < |slugs| && forall s :: s in slugs ==> Sound(h, s)
    ensures StepTwoErrors(h, present, slugs[..i + 1])
         == StepTwoErrors(h, present, slugs[..i]) + NeedErrors(h, present, slugs[i])
  {
    assert slugs[..i + 1][..i] == slugs[..i];
  }

  // The three steps.
  method RunSteps(h: Host, installed: seq<string>) returns (r: Result)
    ensures r.Resolved? <==> Loadable(h, Elements(installed))
    ensures r.Resolved? ==>
              DependencyOrder(Graph(Dedup(installed), NeedsMap(h, Elements(installed))), r.plugins)
    ensures r.Rejected? ==> r.errors != [] && Errs(h, installed, r.errors)
  {
    var errors, validated := CheckPlugins(h, installed);
    StepOneNone(h, installed);
    if |errors| > 0 {
      return Rejected(errors);
    }
    DedupSame(installed);
    ValidatedSound(h, installed, validated);
    var adjacency;
    errors, adjacency := BuildAdjacency(h, validated);
    StepTwoNone(h, Elements(installed), validated);
    if |errors| > 0 {
      assert exists s :: s in Elements(installed) && !NeedsMet(h, Elements(installed), s);
      return Rejected(errors);
    }
    GraphWellFormed(h, Elements(installed), validated);
    var sorted := Sort(Graph(validated, adjacency));
    match sorted {
      case Cyclic(cycle) =>
        FirstOfAll(installed, adjacency, cycle[0]);
        return Rejected([Error(CIRCULAR_DEPENDENCY, cycle[0])]);
      case Sorted(order) => return Resolved(order);
    }
  }

  /** Resolves exactly the loadable sets, each plugin after those it needs; what is resolved passes all
      checks, and a rejection lists the reasons of the first step that has any. */
  method ResolvePlugins(h: Host, installed: seq<string>) returns (r: Result)
    ensures r.Resolved? <==> Loadable(h, Elements(installed))
    ensures r.Resolved? ==>
              && DependencyOrder(Graph(Dedup(installed), NeedsMap(h, Elements(installed))), r.plugins)
              && (forall s :: s in r.plugins <==> s in installed)
              && (forall s :: s in installed ==> Admissible(h, s) && !NeedsFail(h, Elements(installed), s))
    ensures r.Rejected? ==> r.errors != [] && Errs(h, installed, r.errors) && Explained(h, installed, r.errors)
  {
    r := RunSteps(h, installed);
    LoadableIff(h, Elements(installed));
    if r.Rejected? {
      ErrsExplained(h, installed, r.errors);
    } else {
      DedupSame(installed);
      assert forall s :: (s in r.plugins <==> s in Elements(r.plugins)) && (s in installed <==> s in Elements(installed));
    }
  }

  lemma ValidatedSound(h: Host, installed: seq<string>, validated: seq<string>)
    requires Elements(validated) == Elements(installed) && forall s :: s in installed ==> Sound(h, s)
    ensures forall s :: s in validated ==> s in installed && Sound(h, s)
    ensures forall s :: s in Elements(installed) ==> s in validated && Sound(h, s)
  {
    forall s ensures s in validated <==> s in installed {
      assert s in Elements(validated) <==> s in Elements(installed);
    }
  }

  lemma GraphWellFormed(h: Host, present: set<string>, validated: seq<string>)
    requires Distinct(validated) && Elements(validated) == present
    requires forall s :: s in present ==> Sound(h, s) && NeedsMet(h, present, s)
    ensures WellFormed(Graph(validated, NeedsMap(h, present)))
  {
    var deps := NeedsMap(h, present);
    forall s, i | s in deps && 0 <= i < |deps[s]| ensures deps[s][i] in deps {
      NeedsArePresent(h, present, s);
    }
  }
}
