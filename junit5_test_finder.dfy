/**
  The JUnit 5 test finder: classification of a type binding as a test, of a
  Java model type through its binding, and the search for all tests in a
  container (closing each test class found under its subclasses).

  Java model types (IType) and type bindings (ITypeBinding) are two id
  spaces: ElementId for the former, TypeId (an index into the World) for the
  latter. Everything the finder asks a foreign collaborator
  (CoreTestSearchEngine, the AST parser, JavaCore) is an oracle value here.
 */
module JUnit5TestFinder {
  import opened Wrappers
  import opened Graphs
  import opened TypeBindings
  import opened Annotations

  type ElementId = nat

  /**
    Answers of the foreign collaborators used while classifying:
    - accessibleClasses: CoreTestSearchEngine.isAccessibleClass;
    - suiteClasses: CoreTestSearchEngine.hasSuiteMethod;
    - bindings: the type binding the AST parser resolves for a model type,
      absent when parsing yields none;
    - testImplementors: CoreTestSearchEngine.isTestImplementor on bindings.
   */
  datatype Oracles = Oracles(
    accessibleClasses: set<ElementId>,
    suiteClasses: set<ElementId>,
    bindings: map<ElementId, TypeId>,
    testImplementors: set<TypeId>)

  predicate OraclesValid(w: World, o: Oracles) {
    forall e :: e in o.bindings ==> o.bindings[e] < |w.types|
  }

  /** An ITypeHierarchy: its classes and, for every model type, its direct subclasses. */
  datatype TypeHierarchy = TypeHierarchy(allClasses: seq<ElementId>, subclasses: seq<seq<ElementId>>)

  predicate HierarchyValid(h: TypeHierarchy) {
    && (forall i :: 0 <= i < |h.allClasses| ==> h.allClasses[i] < |h.subclasses|)
    && (forall t, i :: 0 <= t < |h.subclasses| && 0 <= i < |h.subclasses[t]| ==> h.subclasses[t][i] < |h.subclasses|)
  }

  ghost function SubclassGraph(h: TypeHierarchy): (g: Graph)
    ensures |g| == |h.subclasses|
  {
    seq(|h.subclasses|, t requires 0 <= t < |h.subclasses| => set x | x in h.subclasses[t])
  }

  /** The element findTestsInContainer is asked about: a type, or any other container. */
  datatype JavaElement = TypeElement(id: ElementId) | ContainerElement

  /**
    What the search gets from its collaborators for one container: the
    region (CoreTestSearchEngine.getRegion), its type hierarchy
    (JavaCore.newTypeHierarchy), the classes findTestImplementorClasses adds
    (None when the JUnit 3.8 Test interface is not on the project's path) and
    the classes findSuiteMethods adds.
   */
  datatype SearchScope = SearchScope(
    region: set<ElementId>,
    hierarchy: TypeHierarchy,
    testInterfaceImplementors: Option<set<ElementId>>,
    suiteMethodClasses: set<ElementId>)

  // ---------------------------------------------------------------------------
  // Specification

  /** The decision rule of isTest(ITypeBinding). */
  ghost predicate IsTestBinding(w: World, o: Oracles, b: TypeId)
    requires Valid(w) && b < |w.types|
  {
    && !w.types[b].isAbstract
    && (|| TypeOrSuperTypeAnnotated(w, b, RUN_WITH)
        || SomeMethodAnnotated(w, b, TEST_4)
        || SomeMethodAnnotated(w, b, TESTABLE)
        || TypeOrSuperTypeAnnotated(w, b, TESTABLE)
        || b in o.testImplementors)
  }

  /** internalIsTest: an accessible class that has a suite method, or whose resolved binding is a test. */
  ghost predicate IsTestElement(w: World, o: Oracles, e: ElementId)
    requires Valid(w) && OraclesValid(w, o)
  {
    && e in o.accessibleClasses
    && (e in o.suiteClasses || (e in o.bindings && IsTestBinding(w, o, o.bindings[e])))
  }

  /** The classes of the hierarchy that are tests and lie in the region: where the search starts closing. */
  ghost function Seeds(w: World, o: Oracles, scope: SearchScope): set<ElementId>
    requires Valid(w) && OraclesValid(w, o)
  {
    set i | 0 <= i < |scope.hierarchy.allClasses| && IsTestElement(w, o, scope.hierarchy.allClasses[i])
            && scope.hierarchy.allClasses[i] in scope.region
      :: scope.hierarchy.allClasses[i]
  }

  /** The seeds and all their transitive subclasses. */
  ghost function SubclassClosure(h: TypeHierarchy, seeds: set<ElementId>): set<ElementId> {
    set x | 0 <= x < |h.subclasses| && DescendsFromSeed(h, seeds, x)
  }

  ghost predicate DescendsFromSeed(h: TypeHierarchy, seeds: set<ElementId>, x: ElementId) {
    exists s :: s in seeds && Reaches(SubclassGraph(h), s, x)
  }

  /**
    What closing the seeds adds to a result that already holds `present`:
    the classes a seed reaches through subclass links without passing
    through a class already present (the descent stops at those).
   */
  ghost function NewSubclassClosure(h: TypeHierarchy, seeds: set<ElementId>, present: set<ElementId>): set<ElementId> {
    set x | 0 <= x < |h.subclasses| && DescendsAvoiding(h, seeds, x, present)
  }

  ghost predicate DescendsAvoiding(h: TypeHierarchy, seeds: set<ElementId>, x: ElementId, present: set<ElementId>) {
    exists s :: s in seeds && ReachesAvoiding(SubclassGraph(h), s, x, present)
  }

  ghost function Extras(scope: SearchScope): set<ElementId> {
    (if scope.testInterfaceImplementors.Some? then scope.testInterfaceImplementors.value else {})
    + scope.suiteMethodClasses
  }

  // ---------------------------------------------------------------------------
  // Operations

  /**
    isTest(ITypeBinding): never for an abstract binding; otherwise RunWith on
    the type or a superclass, org.junit.Test or Testable on some reachable
    method, Testable on the type or a superclass, or else the legacy
    test-implementor check.
   */
  method IsTest(w: World, o: Oracles, b: TypeId) returns (r: bool)
    requires Valid(w) && b < |w.types|
    ensures w.types[b].isAbstract ==> !r
    ensures !w.types[b].isAbstract ==>
      (r <==> || TypeOrSuperTypeAnnotated(w, b, RUN_WITH)
              || SomeMethodAnnotated(w, b, TEST_4)
              || SomeMethodAnnotated(w, b, TESTABLE)
              || TypeOrSuperTypeAnnotated(w, b, TESTABLE)
              || b in o.testImplementors)
    ensures r == IsTestBinding(w, o, b)
  {
    if w.types[b].isAbstract {
      return false;
    }
    var runWith := AnnotatesTypeOrSuperTypes(w, b, RUN_WITH);
    if runWith {
      return true;
    }
    var test4 := AnnotatesAtLeastOneMethod(w, b, TEST_4);
    if test4 {
      return true;
    }
    var testableMethod := AnnotatesAtLeastOneMethod(w, b, TESTABLE);
    if testableMethod {
      return true;
    }
    var testableType := AnnotatesTypeOrSuperTypes(w, b, TESTABLE);
    if testableType {
      return true;
    }
    return b in o.testImplementors;
  }

  /**
    internalIsTest(IType): false for a class that is not accessible; true for
    one with a suite method; otherwise the verdict on the binding the parser
    resolves, and false when it resolves none.
   */
  method InternalIsTest(w: World, o: Oracles, e: ElementId) returns (r: bool)
    requires Valid(w) && OraclesValid(w, o)
    ensures e !in o.accessibleClasses ==> !r
    ensures e in o.accessibleClasses && e in o.suiteClasses ==> r
    ensures e in o.accessibleClasses && e !in o.suiteClasses ==>
      (r <==> e in o.bindings && IsTestBinding(w, o, o.bindings[e]))
    ensures r == IsTestElement(w, o, e)
  {
    if e in o.accessibleClasses {
      if e in o.suiteClasses {
        return true;
      }
      if e in o.bindings {
        r := IsTest(w, o, o.bindings[e]);
        return;
      }
    }
    return false;
  }

  /**
    addTypeAndSubtypes: adds the type and, when it was not yet present, its
    subclasses, recursively. The result only grows, contains the type
    afterwards, gains only the type and its transitive subclasses, is left
    alone when the type was already present, and gains every transitive
    subclass when none of them was present before.
   */
  method AddTypeAndSubtypes(h: TypeHierarchy, t: ElementId, result: TypeSet)
    requires HierarchyValid(h) && t < |h.subclasses|
    modifies result
    decreases |Below(|h.subclasses|) - result.elements|
    ensures old(result.elements) <= result.elements
    ensures t in result.elements
    ensures forall x :: x in result.elements - old(result.elements) ==>
      x < |h.subclasses| && Reaches(SubclassGraph(h), t, x)
    ensures t in old(result.elements) ==> result.elements == old(result.elements)
    ensures GrownClosed(SubclassGraph(h), old(result.elements), result.elements)
    ensures (forall x :: Reaches(SubclassGraph(h), t, x) ==> x !in old(result.elements)) ==>
      forall x :: Reaches(SubclassGraph(h), t, x) ==> x in result.elements
    ensures forall x :: x in result.elements - old(result.elements) ==>
      x < |h.subclasses| && ReachesAvoiding(SubclassGraph(h), t, x, old(result.elements))
    ensures result.elements == old(result.elements) + ReachableAvoiding(SubclassGraph(h), t, old(result.elements))
  {
    ghost var g := SubclassGraph(h);
    ghost var start := result.elements;
    var added := result.Add(t);
    if added {
      AvoidingRefl(g, t, start);
      assert result.elements - start == {t};
      var subclasses := h.subclasses[t];
      for i := 0 to |subclasses|
        invariant start + {t} <= result.elements
        invariant forall j :: 0 <= j < i ==> subclasses[j] in result.elements
        invariant GrownClosed(g, start + {t}, result.elements)
        invariant forall x :: x in result.elements - start ==> x < |g| && ReachesAvoiding(g, t, x, start)
      {
        var s := subclasses[i];
        assert Edge(g, t, s) by {
          assert g[t] == set x | x in h.subclasses[t];
        }
        FewerMissing(Below(|h.subclasses|), start, result.elements, t);
        ghost var before := result.elements;
        AddTypeAndSubtypes(h, s, result);
        SubtypesStep(g, t, s, start, start + {t}, before, result.elements);
        PrefixStaysIn(subclasses, i, before, result.elements);
      }
      forall y | Edge(g, t, y)
        ensures y in result.elements
      {
        assert g[t] == set x | x in h.subclasses[t];
      }
      assert GrownClosed(g, start, result.elements);
      AddedExactly(g, start, t, result.elements);
      AddedReached(g, start, t, result.elements);
      if forall x :: Reaches(g, t, x) ==> x !in start {
        forall x | Reaches(g, t, x)
          ensures x in result.elements
        {
          ClosedReach(g, start, result.elements, t, x);
        }
      }
    } else {
      ReachesRefl(g, t);
      AvoidingFromAvoided(g, t, start);
    }
  }

  /** The subclasses already visited stay in the set when the set grows to hold the next one. */
  lemma PrefixStaysIn(subclasses: seq<ElementId>, i: nat, before: set<ElementId>, after: set<ElementId>)
    requires i < |subclasses| && before <= after && subclasses[i] in after
    requires forall j :: 0 <= j < i ==> subclasses[j] in before
    ensures forall j :: 0 <= j < i + 1 ==> subclasses[j] in after
  {
  }

  /**
    A walk from t that keeps the set closed and adds only what t reaches
    without passing through `start` adds exactly that.
   */
  lemma AddedExactly(g: Graph, start: set<nat>, t: nat, grown: set<nat>)
    requires start <= grown && t in grown - start
    requires GrownClosed(g, start, grown)
    requires forall x :: x in grown - start ==> x < |g| && ReachesAvoiding(g, t, x, start)
    ensures grown == start + ReachableAvoiding(g, t, start)
  {
    forall x | x in ReachableAvoiding(g, t, start)
      ensures x in grown
    {
      ClosedReachAvoiding(g, start, grown, t, x);
    }
  }

  /** What a walk adds without passing through `start` is reached from t. */
  lemma AddedReached(g: Graph, start: set<nat>, t: nat, grown: set<nat>)
    requires forall x :: x in grown - start ==> x < |g| && ReachesAvoiding(g, t, x, start)
    ensures forall x :: x in grown - start ==> x < |g| && Reaches(g, t, x)
  {
    forall x | x in grown - start
      ensures Reaches(g, t, x)
    {
      AvoidingStart(g, t, x, start);
    }
  }

  /** Nothing is reachable from a node without passing through a set that holds it. */
  lemma AvoidingFromAvoided(g: Graph, a: nat, avoid: set<nat>)
    requires a in avoid
    ensures ReachableAvoiding(g, a, avoid) == {}
  {
    forall x | 0 <= x < |g|
      ensures !ReachesAvoiding(g, a, x, avoid)
    {
      forall p | IsPath(g, p) && p[0] == a && p[|p| - 1] == x
        ensures !(forall k :: 0 <= k < |p| ==> p[k] !in avoid)
      {
        assert p[0] in avoid;
      }
    }
  }

  /**
    One recursive call on a direct subclass s of t keeps the loop's
    invariants: what was added since `start` is reached from t without
    passing through `start`, and what was added since `closedFrom` has its
    subclasses in the set.
   */
  lemma SubtypesStep(g: Graph, t: nat, s: nat, start: set<nat>, closedFrom: set<nat>, before: set<nat>, after: set<nat>)
    requires Edge(g, t, s) && t !in start
    requires start <= before && closedFrom <= before && before <= after
    requires forall x :: x in before - start ==> x < |g| && ReachesAvoiding(g, t, x, start)
    requires forall x :: x in after - before ==> x < |g| && ReachesAvoiding(g, s, x, before)
    requires GrownClosed(g, closedFrom, before) && GrownClosed(g, before, after)
    ensures forall x :: x in after - start ==> x < |g| && ReachesAvoiding(g, t, x, start)
    ensures GrownClosed(g, closedFrom, after)
  {
    forall x | x in after - start
      ensures x < |g| && ReachesAvoiding(g, t, x, start)
    {
      if x in before {
        assert x in before - start;
      } else {
        assert x in after - before;
        AvoidingMono(g, s, x, before, start);
        AvoidingStep(g, t, s, x, start);
      }
    }
  }

  /**
    findTestsInContainer: rejects a null element or result set; a type that
    is itself a test is added alone; otherwise every class of the hierarchy
    that is a test and lies in the region is added with all its transitive
    subclasses, followed by the JUnit 3.8 Test implementors and the classes
    with suite methods. `ok` is false where the source throws
    IllegalArgumentException.
   */
  method FindTestsInContainer(w: World, o: Oracles, element: Option<JavaElement>, result: TypeSet?, scope: SearchScope)
    returns (ok: bool)
    requires Valid(w) && OraclesValid(w, o) && HierarchyValid(scope.hierarchy)
    modifies result
    ensures ok <==> element.Some? && result != null
    ensures !ok && result != null ==> result.elements == old(result.elements)
    ensures ok && element.value.TypeElement? && IsTestElement(w, o, element.value.id) ==>
      result.elements == old(result.elements) + {element.value.id}
    ensures ok && !(element.value.TypeElement? && IsTestElement(w, o, element.value.id)) ==>
      && old(result.elements) <= result.elements
      && Seeds(w, o, scope) <= result.elements
      && Extras(scope) <= result.elements
      && result.elements <= old(result.elements) + SubclassClosure(scope.hierarchy, Seeds(w, o, scope)) + Extras(scope)
    ensures ok && !(element.value.TypeElement? && IsTestElement(w, o, element.value.id)) && old(result.elements) == {} ==>
      result.elements == SubclassClosure(scope.hierarchy, Seeds(w, o, scope)) + Extras(scope)
    ensures ok && !(element.value.TypeElement? && IsTestElement(w, o, element.value.id)) ==>
      result.elements == old(result.elements)
        + NewSubclassClosure(scope.hierarchy, Seeds(w, o, scope), old(result.elements)) + Extras(scope)
  {
    if element.None? || result == null {
      return false;
    }
    ok := true;
    if element.value.TypeElement? {
      var isTest := InternalIsTest(w, o, element.value.id);
      if isTest {
        var _ := result.Add(element.value.id);
        return;
      }
    }
    var h := scope.hierarchy;
    ghost var g := SubclassGraph(h);
    ghost var seeds := Seeds(w, o, scope);
    ghost var closure := SubclassClosure(h, seeds);
    var allClasses := h.allClasses;
    for i := 0 to |allClasses|
      invariant old(result.elements) <= result.elements
      invariant result.elements - old(result.elements) <= closure
      invariant forall j :: 0 <= j < i && allClasses[j] in seeds ==> allClasses[j] in result.elements
      invariant GrownClosed(g, old(result.elements), result.elements)
      invariant result.elements - old(result.elements) <= NewSubclassClosure(h, seeds, old(result.elements))
    {
      var candidate := allClasses[i];
      var isTest := InternalIsTest(w, o, candidate);
      if isTest && candidate in scope.region {
        assert candidate in seeds;
        ghost var before := result.elements;
        AddTypeAndSubtypes(h, candidate, result);
        forall x | x in result.elements - before
          ensures x in closure
        {
        }
        SeedStep(h, seeds, old(result.elements), candidate, before, result.elements);
      }
    }
    assert seeds <= result.elements;
    ghost var afterClosure := result.elements;
    SeedsClosed(h, seeds, old(result.elements), afterClosure);
    if old(result.elements) == {} {
      forall x | x in closure
        ensures x in afterClosure
      {
        var s :| s in seeds && Reaches(g, s, x);
        ClosedReach(g, {}, afterClosure, s, x);
      }
    }
    if scope.testInterfaceImplementors.Some? {
      result.AddAll(scope.testInterfaceImplementors.value);
    }
    result.AddAll(scope.suiteMethodClasses);
  }

  /** One closing call on a seed adds only classes that seed reaches without passing through `start`. */
  lemma SeedStep(h: TypeHierarchy, seeds: set<ElementId>, start: set<ElementId>, seed: ElementId,
                 before: set<ElementId>, after: set<ElementId>)
    requires seed in seeds && start <= before <= after
    requires before - start <= NewSubclassClosure(h, seeds, start)
    requires forall x :: x in after - before ==> x < |h.subclasses| && ReachesAvoiding(SubclassGraph(h), seed, x, before)
    ensures after - start <= NewSubclassClosure(h, seeds, start)
  {
    forall x | x in after - start
      ensures x in NewSubclassClosure(h, seeds, start)
    {
      if x !in before {
        assert x in after - before;
        AvoidingMono(SubclassGraph(h), seed, x, before, start);
        assert DescendsAvoiding(h, seeds, x, start);
      } else {
        assert x in before - start;
      }
    }
  }

  /** A set closed since `start` that holds every seed holds everything the seeds reach without passing through `start`. */
  lemma SeedsClosed(h: TypeHierarchy, seeds: set<ElementId>, start: set<ElementId>, grown: set<ElementId>)
    requires seeds <= grown && GrownClosed(SubclassGraph(h), start, grown)
    ensures NewSubclassClosure(h, seeds, start) <= grown
  {
    forall x | x in NewSubclassClosure(h, seeds, start)
      ensures x in grown
    {
      var s :| s in seeds && ReachesAvoiding(SubclassGraph(h), s, x, start);
      ClosedReachAvoiding(SubclassGraph(h), start, grown, s, x);
    }
  }

  // ---------------------------------------------------------------------------
  // Properties

  /**
    A concrete class is a test as soon as some class on its superclass's
    chain carries RunWith.
   */
  lemma RunWithIsInherited(w: World, o: Oracles, b: TypeId, s: TypeId)
    requires Valid(w) && b < |w.types| && s < |w.types|
    requires !w.types[b].isAbstract && w.types[b].superclass == Some(s)
    requires ChainTypeAnnotated(w, s, RUN_WITH)
    ensures IsTestBinding(w, o, b)
  {
    TypeOrSuperTypeOnChain(w, s, RUN_WITH);
  }

  /**
    A concrete class is a test when an interface it implements, or a
    super-interface of that one, declares a method carrying org.junit.Test.
   */
  lemma InterfaceTestMethodMakesTest(w: World, o: Oracles, b: TypeId, n: nat, j: TypeId)
    requires Valid(w) && b < |w.types| && n < |w.types[b].interfaces| && j < |w.types|
    requires !w.types[b].isAbstract
    requires Reaches(InterfaceGraph(w), w.types[b].interfaces[n], j) && DeclaredMethodAnnotated(w, j, TEST_4)
    ensures IsTestBinding(w, o, b)
  {
    assert TypeValid(w, b);
    InterfaceMethodReach(w, w.types[b].interfaces[n], TEST_4);
    assert InterfaceMethodAnnotated(w, w.types[b].interfaces[n], TEST_4);
    assert ImplementsAnnotatedInterface(w, b, TEST_4);
  }

  /** Three classes in a line: 1 extends 0 and 2 extends 1. */
  function LineHierarchy(): (h: TypeHierarchy)
    ensures HierarchyValid(h)
  {
    TypeHierarchy([0], [[1], [2], []])
  }

  /**
    The descent stops at a class already present: starting from {1},
    closing 0 adds 0 alone, although 2 is a transitive subclass of 0.
   */
  lemma StopsAtPresentSubclass()
    ensures ReachableAvoiding(SubclassGraph(LineHierarchy()), 0, {1}) == {0}
    ensures Reaches(SubclassGraph(LineHierarchy()), 0, 2)
  {
    var h := LineHierarchy();
    var g := SubclassGraph(h);
    assert g[0] == {1} && g[1] == {2};
    AvoidingRefl(g, 0, {1});
    forall x | x in ReachableAvoiding(g, 0, {1})
      ensures x == 0
    {
      AvoidingBlocked(g, 0, x, {1});
    }
    assert IsPath(g, [0, 1, 2]);
  }
}
