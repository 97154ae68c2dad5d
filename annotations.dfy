/**
  The nested Annotation class of the JUnit 5 test finder: whether a type
  binding, its superclasses or the methods it can reach carry an annotation
  with a given qualified name. For the testable marker only, an annotation
  also matches when the name occurs among the annotations of its annotation
  type, transitively (meta-annotations).

  Each Java instance of the class only holds its name, so the name is passed
  to every member here as `name`.
 */
module Annotations {
  import opened Wrappers
  import opened Graphs
  import opened TypeBindings

  const RUN_WITH: string := "org.junit.runner.RunWith"
  const TEST_4: string := "org.junit.Test"
  /** JUnitCorePlugin.JUNIT5_TESTABLE_ANNOTATION_NAME. */
  const TESTABLE: string := "org.junit.platform.commons.annotation.Testable"

  // ---------------------------------------------------------------------------
  // Specification

  /**
    matchesAnnotationName: a resolved annotation type whose qualified name is
    exactly `name`. A null type never matches.
   */
  predicate MatchesAnnotationName(w: World, annotationType: Option<TypeId>, name: string): (r: bool)
    ensures annotationType.None? ==> !r
  {
    annotationType.Some? && annotationType.value < |w.types| && w.types[annotationType.value].qualifiedName == name
  }

  /** The comparison is exact: one annotation type matches at most one name. */
  lemma MatchesAtMostOneName(w: World, annotationType: Option<TypeId>, name: string, other: string)
    requires MatchesAnnotationName(w, annotationType, name)
    ensures MatchesAnnotationName(w, annotationType, other) <==> other == name
  {
  }

  /** x is reached from a meta-annotation of t: an annotation type on t, one on that type, and so on. */
  ghost predicate InMetaHierarchy(w: World, t: TypeId, x: TypeId) {
    exists y :: Edge(MetaGraph(w), t, y) && Reaches(MetaGraph(w), y, x)
  }

  ghost function MetaHierarchy(w: World, t: TypeId): set<TypeId> {
    set x | 0 <= x < |w.types| && InMetaHierarchy(w, t, x)
  }

  /** The meta-annotation match of a non-null annotation: only for the testable marker. */
  ghost predicate MatchesInHierarchy(w: World, annotation: AnnotationBinding, name: string)
    requires annotation.AnnotationBinding?
  {
    && name == TESTABLE
    && annotation.annotationType.Some?
    && exists x :: x in MetaHierarchy(w, annotation.annotationType.value) && MatchesAnnotationName(w, Some(x), name)
  }

  ghost predicate EntryMatches(w: World, annotation: AnnotationBinding, name: string)
    requires annotation.AnnotationBinding?
  {
    MatchesAnnotationName(w, annotation.annotationType, name) || MatchesInHierarchy(w, annotation, name)
  }

  /** Some entry before the first null entry of the array matches. */
  ghost predicate AnnotationListMatches(w: World, annotations: seq<AnnotationBinding>, name: string) {
    exists i :: 0 <= i < |annotations| && NoNullBefore(annotations, i) && annotations[i].AnnotationBinding?
      && EntryMatches(w, annotations[i], name)
  }

  ghost predicate NoNullBefore(annotations: seq<AnnotationBinding>, i: nat)
    requires i <= |annotations|
  {
    forall j :: 0 <= j < i ==> annotations[j].AnnotationBinding?
  }

  /**
    The type or one of its superclasses has matching annotations; interfaces
    do not count. ChainTypeAnnotated below states the same as "some type on
    the superclass chain", and TypeOrSuperTypeOnChain proves them equal.
   */
  ghost predicate TypeOrSuperTypeAnnotated(w: World, t: TypeId, name: string)
    requires Valid(w) && t < |w.types|
    decreases t
  {
    assert TypeValid(w, t);
    || TypeAnnotated(w, t, name)
    || (w.types[t].superclass.Some? && TypeOrSuperTypeAnnotated(w, w.types[t].superclass.value, name))
  }

  /** The type's own annotations match. */
  ghost predicate TypeAnnotated(w: World, t: TypeId, name: string)
    requires t < |w.types|
  {
    AnnotationListMatches(w, w.types[t].annotations, name)
  }

  ghost predicate DeclaredMethodAnnotated(w: World, t: TypeId, name: string)
    requires t < |w.types|
  {
    var methods := w.types[t].declaredMethods;
    exists m :: 0 <= m < |methods| && AnnotationListMatches(w, methods[m].annotations, name)
  }

  /**
    A declared method of i or, recursively, of one of its super-interfaces is
    annotated. InterfaceMethodReach proves this is "a declared method of an
    interface reachable from i through super-interface links".
   */
  ghost predicate InterfaceMethodAnnotated(w: World, i: TypeId, name: string)
    requires Valid(w) && i < |w.types|
    decreases i
  {
    assert TypeValid(w, i);
    var superInterfaces := w.types[i].interfaces;
    || DeclaredMethodAnnotated(w, i, name)
    || exists n :: 0 <= n < |superInterfaces| && InterfaceMethodAnnotated(w, superInterfaces[n], name)
  }

  /** The reference form: some interface reachable from i declares an annotated method. */
  ghost predicate ReachableInterfaceAnnotated(w: World, i: TypeId, name: string) {
    exists j :: 0 <= j < |w.types| && Reaches(InterfaceGraph(w), i, j) && DeclaredMethodAnnotated(w, j, name)
  }

  ghost predicate ImplementsAnnotatedInterface(w: World, c: TypeId, name: string)
    requires Valid(w) && c < |w.types|
  {
    assert TypeValid(w, c);
    var interfaces := w.types[c].interfaces;
    exists n :: 0 <= n < |interfaces| && InterfaceMethodAnnotated(w, interfaces[n], name)
  }

  /**
    Some method the type can reach is annotated: a declared method of a class
    on its superclass chain, or a method of an interface that a class on the
    chain implements directly or through super-interfaces.
   */
  ghost predicate SomeMethodAnnotated(w: World, t: TypeId, name: string)
    requires Valid(w) && t < |w.types|
  {
    ChainDeclaresAnnotatedMethod(w, t, name) || ChainImplementsAnnotatedInterface(w, t, name)
  }

  /** The type or a superclass declares an annotated method (the first loop of annotatesAtLeastOneMethod). */
  ghost predicate ChainDeclaresAnnotatedMethod(w: World, t: TypeId, name: string)
    requires Valid(w) && t < |w.types|
    decreases t
  {
    assert TypeValid(w, t);
    || DeclaredMethodAnnotated(w, t, name)
    || (w.types[t].superclass.Some? && ChainDeclaresAnnotatedMethod(w, w.types[t].superclass.value, name))
  }

  /** The type or a superclass implements an annotated interface (the second loop). */
  ghost predicate ChainImplementsAnnotatedInterface(w: World, t: TypeId, name: string)
    requires Valid(w) && t < |w.types|
    decreases t
  {
    assert TypeValid(w, t);
    || ImplementsAnnotatedInterface(w, t, name)
    || (w.types[t].superclass.Some? && ChainImplementsAnnotatedInterface(w, w.types[t].superclass.value, name))
  }

  // The same three properties as "some type on the superclass chain".

  ghost predicate ChainTypeAnnotated(w: World, t: TypeId, name: string)
    requires Valid(w) && t < |w.types|
  {
    var chain := SuperclassChain(w, Some(t));
    exists k :: 0 <= k < |chain| && TypeAnnotated(w, chain[k], name)
  }

  ghost predicate ChainMemberDeclares(w: World, t: TypeId, name: string)
    requires Valid(w) && t < |w.types|
  {
    var chain := SuperclassChain(w, Some(t));
    exists k :: 0 <= k < |chain| && DeclaredMethodAnnotated(w, chain[k], name)
  }

  ghost predicate ChainMemberImplements(w: World, t: TypeId, name: string)
    requires Valid(w) && t < |w.types|
  {
    var chain := SuperclassChain(w, Some(t));
    exists k :: 0 <= k < |chain| && ImplementsAnnotatedInterface(w, chain[k], name)
  }

  // ---------------------------------------------------------------------------
  // Operations

  /** annotatesTypeOrSuperTypes: walks the superclass chain and tests each type's own annotations. */
  method AnnotatesTypeOrSuperTypes(w: World, t: TypeId, name: string) returns (r: bool)
    requires Valid(w) && t < |w.types|
    ensures r == TypeOrSuperTypeAnnotated(w, t, name)
    ensures r <==> ChainTypeAnnotated(w, t, name)
  {
    TypeOrSuperTypeOnChain(w, t, name);
    var curr: Option<TypeId> := Some(t);
    while curr.Some?
      invariant curr.Some? ==> curr.value < |w.types|
      invariant TypeOrSuperTypeAnnotated(w, t, name) <==> curr.Some? && TypeOrSuperTypeAnnotated(w, curr.value, name)
      decreases if curr.Some? then curr.value + 1 else 0
    {
      assert TypeValid(w, curr.value);
      var found := Annotates(w, w.types[curr.value].annotations, name);
      if found {
        return true;
      }
      curr := w.types[curr.value].superclass;
    }
    return false;
  }

  /**
    annotatesAtLeastOneMethod: first the declared methods along the superclass
    chain, then the methods of the interfaces of each class on the chain.
   */
  method AnnotatesAtLeastOneMethod(w: World, t: TypeId, name: string) returns (r: bool)
    requires Valid(w) && t < |w.types|
    ensures r == SomeMethodAnnotated(w, t, name)
    ensures r <==> ChainMemberDeclares(w, t, name) || ChainMemberImplements(w, t, name)
  {
    DeclaresOnChain(w, t, name);
    ImplementsOnChain(w, t, name);
    var curr: Option<TypeId> := Some(t);
    while curr.Some?
      invariant curr.Some? ==> curr.value < |w.types|
      invariant ChainDeclaresAnnotatedMethod(w, t, name) <==>
        curr.Some? && ChainDeclaresAnnotatedMethod(w, curr.value, name)
      decreases if curr.Some? then curr.value + 1 else 0
    {
      assert TypeValid(w, curr.value);
      var found := AnnotatesDeclaredMethods(w, curr.value, name);
      if found {
        return true;
      }
      curr := w.types[curr.value].superclass;
    }

    curr := Some(t);
    while curr.Some?
      invariant curr.Some? ==> curr.value < |w.types|
      invariant ChainImplementsAnnotatedInterface(w, t, name) <==>
        curr.Some? && ChainImplementsAnnotatedInterface(w, curr.value, name)
      decreases if curr.Some? then curr.value + 1 else 0
    {
      assert TypeValid(w, curr.value);
      var superInterfaces := w.types[curr.value].interfaces;
      for i := 0 to |superInterfaces|
        invariant forall j :: 0 <= j < i ==> !InterfaceMethodAnnotated(w, superInterfaces[j], name)
      {
        var found := AnnotatesMethodsInInterface(w, superInterfaces[i], name);
        if found {
          assert ImplementsAnnotatedInterface(w, curr.value, name);
          return true;
        }
      }
      curr := w.types[curr.value].superclass;
    }
    return false;
  }

  /** annotatesMethodsInInterface: the interface's declared methods, then its super-interfaces, recursively. */
  method AnnotatesMethodsInInterface(w: World, t: TypeId, name: string) returns (r: bool)
    requires Valid(w) && t < |w.types|
    ensures r == InterfaceMethodAnnotated(w, t, name)
    decreases t
  {
    var declared := AnnotatesDeclaredMethods(w, t, name);
    if declared {
      return true;
    }
    assert TypeValid(w, t);
    var superInterfaces := w.types[t].interfaces;
    for i := 0 to |superInterfaces|
      invariant forall j :: 0 <= j < i ==> !InterfaceMethodAnnotated(w, superInterfaces[j], name)
    {
      var found := AnnotatesMethodsInInterface(w, superInterfaces[i], name);
      if found {
        return true;
      }
    }
    return false;
  }

  /** annotatesDeclaredMethods: some declared method of the type itself is annotated. */
  method AnnotatesDeclaredMethods(w: World, t: TypeId, name: string) returns (r: bool)
    requires Valid(w) && t < |w.types|
    ensures r == DeclaredMethodAnnotated(w, t, name)
  {
    assert TypeValid(w, t);
    var declaredMethods := w.types[t].declaredMethods;
    for i := 0 to |declaredMethods|
      invariant forall m :: 0 <= m < i ==> !AnnotationListMatches(w, declaredMethods[m].annotations, name)
    {
      var found := Annotates(w, declaredMethods[i].annotations, name);
      if found {
        return true;
      }
    }
    return false;
  }

  /**
    annotates: scans the array in order; a null entry ends the scan with
    false, a direct name match or (for the testable marker) a meta-annotation
    match ends it with true.
   */
  method Annotates(w: World, annotations: seq<AnnotationBinding>, name: string) returns (r: bool)
    requires Valid(w) && AnnotationsInRange(annotations, |w.types|)
    ensures r == AnnotationListMatches(w, annotations, name)
  {
    for i := 0 to |annotations|
      invariant NoNullBefore(annotations, i)
      invariant forall j :: 0 <= j < i ==> !EntryMatches(w, annotations[j], name)
    {
      var annotation := annotations[i];
      if annotation.NullAnnotation? {
        return false;
      }
      if MatchesAnnotationName(w, annotation.annotationType, name) {
        assert EntryMatches(w, annotations[i], name);
        return true;
      }
      var inHierarchy := MatchesAnnotationNameInHierarchy(w, annotation, name);
      if inHierarchy {
        assert EntryMatches(w, annotations[i], name);
        return true;
      }
    }
    return false;
  }

  /**
    matchesAnnotationNameInHierarchy: false unless the name is the testable
    marker; otherwise collects the meta-annotation hierarchy of the
    annotation's type and looks for the name in it.
   */
  method MatchesAnnotationNameInHierarchy(w: World, annotation: AnnotationBinding, name: string) returns (r: bool)
    requires Valid(w) && annotation.AnnotationBinding?
    requires annotation.annotationType.Some? ==> annotation.annotationType.value < |w.types|
    ensures name != TESTABLE ==> !r
    ensures r == MatchesInHierarchy(w, annotation, name)
  {
    if TESTABLE != name {
      return false;
    }
    var hierarchy := new TypeSet();
    CollectAnnotationsInHierarchy(w, annotation, hierarchy);
    var collected := hierarchy.elements;
    var remaining := collected;
    while remaining != {}
      invariant remaining <= collected
      invariant forall x :: x in collected - remaining ==> !MatchesAnnotationName(w, Some(x), name)
      decreases |remaining|
    {
      var candidate :| candidate in remaining;
      if MatchesAnnotationName(w, Some(candidate), name) {
        return true;
      }
      remaining := remaining - {candidate};
    }
    return false;
  }

  /**
    collectAnnotationsInHierarchy: adds to `hierarchy` the types of the
    annotations on the annotation's type and, for each type it newly adds,
    recurses into that type. Terminates on cyclic meta-annotation graphs
    because it recurses only after a successful add. Started from an empty
    set it collects exactly the meta-annotation hierarchy.
   */
  method CollectAnnotationsInHierarchy(w: World, annotation: AnnotationBinding, hierarchy: TypeSet)
    requires Valid(w) && annotation.AnnotationBinding?
    requires annotation.annotationType.Some? ==> annotation.annotationType.value < |w.types|
    modifies hierarchy
    decreases |AllTypes(w) - hierarchy.elements|
    ensures old(hierarchy.elements) <= hierarchy.elements
    ensures annotation.annotationType.None? ==> hierarchy.elements == old(hierarchy.elements)
    ensures annotation.annotationType.Some? ==>
      forall y :: Edge(MetaGraph(w), annotation.annotationType.value, y) ==> y in hierarchy.elements
    ensures annotation.annotationType.Some? ==>
      GrownWithin(w, annotation.annotationType.value, old(hierarchy.elements), hierarchy.elements)
    ensures GrownClosed(MetaGraph(w), old(hierarchy.elements), hierarchy.elements)
    ensures annotation.annotationType.Some? && old(hierarchy.elements) == {} ==>
      hierarchy.elements == MetaHierarchy(w, annotation.annotationType.value)
  {
    var annotationTypeOfThis := annotation.annotationType;
    if annotationTypeOfThis.Some? {
      var t := annotationTypeOfThis.value;
      assert TypeValid(w, t);
      var annotations := w.types[t].annotations;
      for i := 0 to |annotations|
        invariant old(hierarchy.elements) <= hierarchy.elements
        invariant GrownWithin(w, t, old(hierarchy.elements), hierarchy.elements)
        invariant GrownClosed(MetaGraph(w), old(hierarchy.elements), hierarchy.elements)
        invariant forall j :: 0 <= j < i && annotations[j].AnnotationBinding? && annotations[j].annotationType.Some? ==>
          annotations[j].annotationType.value in hierarchy.elements
      {
        var annotationBinding := annotations[i];
        if annotationBinding.AnnotationBinding? {
          var annotationType := annotationBinding.annotationType;
          if annotationType.Some? {
            var u := annotationType.value;
            MetaEdge(w, t, i);
            ghost var before := hierarchy.elements;
            var added := hierarchy.Add(u);
            if !added {
              assert hierarchy.elements == before;
            } else {
              FewerMissing(AllTypes(w), old(hierarchy.elements), hierarchy.elements, u);
              CollectAnnotationsInHierarchy(w, annotationBinding, hierarchy);
              CollectStep(w, t, u, old(hierarchy.elements), before, hierarchy.elements);
            }
          }
        }
      }
      forall y | Edge(MetaGraph(w), t, y)
        ensures y in hierarchy.elements
      {
        assert MetaGraph(w)[t] == AnnotationTypes(annotations);
      }
      if old(hierarchy.elements) == {} {
        forall x | x in MetaHierarchy(w, t)
          ensures x in hierarchy.elements
        {
          ghost var y :| Edge(MetaGraph(w), t, y) && Reaches(MetaGraph(w), y, x);
          assert hierarchy.elements - {} == hierarchy.elements;
          ClosedReach(MetaGraph(w), {}, hierarchy.elements, y, x);
        }
        assert hierarchy.elements <= MetaHierarchy(w, t) by {
          assert hierarchy.elements - old(hierarchy.elements) == hierarchy.elements;
        }
      }
    }
  }

  /** Everything added since `before` lies in the meta-annotation hierarchy of t. */
  ghost predicate GrownWithin(w: World, t: TypeId, before: set<TypeId>, now: set<TypeId>) {
    forall x :: x in now - before ==> x < |w.types| && InMetaHierarchy(w, t, x)
  }

  /** One newly added type u, followed by the recursive collection from u, keeps the loop's invariants. */
  lemma CollectStep(w: World, t: TypeId, u: TypeId, start: set<TypeId>, before: set<TypeId>, after: set<TypeId>)
    requires Valid(w) && Edge(MetaGraph(w), t, u)
    requires start <= before && u !in before && before + {u} <= after
    requires GrownWithin(w, t, start, before) && GrownClosed(MetaGraph(w), start, before)
    requires forall y :: Edge(MetaGraph(w), u, y) ==> y in after
    requires GrownWithin(w, u, before + {u}, after) && GrownClosed(MetaGraph(w), before + {u}, after)
    ensures GrownWithin(w, t, start, after) && GrownClosed(MetaGraph(w), start, after)
  {
    MetaEdgeInRange(w, t, u);
    forall x | x in after - start
      ensures x < |w.types| && InMetaHierarchy(w, t, x)
    {
      if x == u {
        MetaHierarchyStep(w, t, u, x);
      } else if x !in before {
        assert x in after - (before + {u});
        MetaHierarchyStep(w, t, u, x);
      } else {
        assert x in before - start;
      }
    }
  }

  ghost function AllTypes(w: World): (all: set<TypeId>)
    ensures forall t: TypeId :: t in all <==> t < |w.types|
  {
    Below(|w.types|)
  }

  lemma MetaHierarchyStep(w: World, t: TypeId, u: TypeId, x: TypeId)
    requires Edge(MetaGraph(w), t, u)
    requires x == u || InMetaHierarchy(w, u, x)
    ensures InMetaHierarchy(w, t, x)
  {
    if x == u {
      ReachesRefl(MetaGraph(w), u);
    } else {
      var y :| Edge(MetaGraph(w), u, y) && Reaches(MetaGraph(w), y, x);
      ReachesStep(MetaGraph(w), u, y, x);
    }
  }

  // ---------------------------------------------------------------------------
  // Properties

  /**
    annotatesTypeOrSuperTypes inspects exactly the superclass chain: the
    walk's answer holds iff some type on the chain from t, t included, has
    matching annotations.
   */
  lemma {:induction false} TypeOrSuperTypeOnChain(w: World, t: TypeId, name: string)
    requires Valid(w) && t < |w.types|
    ensures TypeOrSuperTypeAnnotated(w, t, name) <==> ChainTypeAnnotated(w, t, name)
    decreases t
  {
    assert TypeValid(w, t);
    var chain := SuperclassChain(w, Some(t));
    var sup := w.types[t].superclass;
    var rest := SuperclassChain(w, sup);
    assert chain == [t] + rest;
    if sup.Some? {
      TypeOrSuperTypeOnChain(w, sup.value, name);
      if TypeOrSuperTypeAnnotated(w, sup.value, name) {
        var k :| 0 <= k < |rest| && TypeAnnotated(w, rest[k], name);
        assert chain[k + 1] == rest[k];
      }
      if ChainTypeAnnotated(w, t, name) && !TypeAnnotated(w, t, name) {
        var k :| 0 <= k < |chain| && TypeAnnotated(w, chain[k], name);
        assert rest[k - 1] == chain[k];
      }
    } else {
      assert chain == [t];
    }
  }

  /** The first loop of annotatesAtLeastOneMethod inspects exactly the declared methods of the chain. */
  lemma {:induction false} DeclaresOnChain(w: World, t: TypeId, name: string)
    requires Valid(w) && t < |w.types|
    ensures ChainDeclaresAnnotatedMethod(w, t, name) <==> ChainMemberDeclares(w, t, name)
    decreases t
  {
    assert TypeValid(w, t);
    var chain := SuperclassChain(w, Some(t));
    var sup := w.types[t].superclass;
    var rest := SuperclassChain(w, sup);
    assert chain == [t] + rest;
    if sup.Some? {
      DeclaresOnChain(w, sup.value, name);
      if ChainDeclaresAnnotatedMethod(w, sup.value, name) {
        var k :| 0 <= k < |rest| && DeclaredMethodAnnotated(w, rest[k], name);
        assert chain[k + 1] == rest[k];
      }
      if ChainMemberDeclares(w, t, name) && !DeclaredMethodAnnotated(w, t, name) {
        var k :| 0 <= k < |chain| && DeclaredMethodAnnotated(w, chain[k], name);
        assert rest[k - 1] == chain[k];
      }
    } else {
      assert chain == [t];
    }
  }

  /** The second loop inspects exactly the interfaces of the classes on the chain. */
  lemma {:induction false} ImplementsOnChain(w: World, t: TypeId, name: string)
    requires Valid(w) && t < |w.types|
    ensures ChainImplementsAnnotatedInterface(w, t, name) <==> ChainMemberImplements(w, t, name)
    decreases t
  {
    assert TypeValid(w, t);
    var chain := SuperclassChain(w, Some(t));
    var sup := w.types[t].superclass;
    var rest := SuperclassChain(w, sup);
    assert chain == [t] + rest;
    if sup.Some? {
      ImplementsOnChain(w, sup.value, name);
      if ChainImplementsAnnotatedInterface(w, sup.value, name) {
        var k :| 0 <= k < |rest| && ImplementsAnnotatedInterface(w, rest[k], name);
        assert chain[k + 1] == rest[k];
      }
      if ChainMemberImplements(w, t, name) && !ImplementsAnnotatedInterface(w, t, name) {
        var k :| 0 <= k < |chain| && ImplementsAnnotatedInterface(w, chain[k], name);
        assert rest[k - 1] == chain[k];
      }
    } else {
      assert chain == [t];
    }
  }

  /**
    annotatesMethodsInInterface searches exactly the super-interface graph:
    its recursion holds iff some interface reachable from i, i included,
    declares an annotated method.
   */
  lemma {:induction false} InterfaceMethodReach(w: World, i: TypeId, name: string)
    requires Valid(w) && i < |w.types|
    ensures InterfaceMethodAnnotated(w, i, name) <==> ReachableInterfaceAnnotated(w, i, name)
    decreases i
  {
    assert TypeValid(w, i);
    var g := InterfaceGraph(w);
    var superInterfaces := w.types[i].interfaces;
    if DeclaredMethodAnnotated(w, i, name) {
      ReachesRefl(g, i);
    } else if InterfaceMethodAnnotated(w, i, name) {
      var n :| 0 <= n < |superInterfaces| && InterfaceMethodAnnotated(w, superInterfaces[n], name);
      InterfaceMethodReach(w, superInterfaces[n], name);
      var j :| 0 <= j < |w.types| && Reaches(g, superInterfaces[n], j) && DeclaredMethodAnnotated(w, j, name);
      InterfaceEdge(w, i, n);
      ReachesStep(g, i, superInterfaces[n], j);
    }
    if ReachableInterfaceAnnotated(w, i, name) && !DeclaredMethodAnnotated(w, i, name) {
      var j :| 0 <= j < |w.types| && Reaches(g, i, j) && DeclaredMethodAnnotated(w, j, name);
      if j != i {
        ReachesUnfold(g, i, j);
        var b :| Edge(g, i, b) && Reaches(g, b, j);
        InterfaceEdgeInverse(w, i, b);
        var n :| 0 <= n < |superInterfaces| && superInterfaces[n] == b;
        InterfaceMethodReach(w, b, name);
        assert InterfaceMethodAnnotated(w, superInterfaces[n], name);
      }
    }
  }

  /**
    annotates stops at the first null entry: whatever follows it, the array
    matches exactly when the entries before it do.
   */
  lemma NullEntryStopsScan(w: World, before: seq<AnnotationBinding>, after: seq<AnnotationBinding>, name: string)
    ensures AnnotationListMatches(w, before + [NullAnnotation] + after, name) <==> AnnotationListMatches(w, before, name)
  {
    var all := before + [NullAnnotation] + after;
    if AnnotationListMatches(w, all, name) {
      forall i | |before| <= i < |all|
        ensures !NoNullBefore(all, i) || all[i].NullAnnotation?
      {
        assert all[|before|] == NullAnnotation;
      }
      var i :| 0 <= i < |all| && NoNullBefore(all, i) && all[i].AnnotationBinding? && EntryMatches(w, all[i], name);
      assert i < |before|;
      assert all[i] == before[i];
      assert NoNullBefore(before, i) by {
        forall j | 0 <= j < i ensures before[j].AnnotationBinding? {
          assert all[j] == before[j];
        }
      }
    }
    if AnnotationListMatches(w, before, name) {
      var i :| 0 <= i < |before| && NoNullBefore(before, i) && before[i].AnnotationBinding? && EntryMatches(w, before[i], name);
      assert all[i] == before[i];
      assert NoNullBefore(all, i) by {
        forall j | 0 <= j < i ensures all[j].AnnotationBinding? {
          assert all[j] == before[j];
        }
      }
    }
  }

  /** A node no edge leads into is reached from no other node. */
  lemma NoIncomingEdge(g: Graph, a: nat, x: nat)
    requires a != x
    requires forall y :: 0 <= y < |g| ==> x !in g[y]
    ensures !Reaches(g, a, x)
  {
    forall p | IsPath(g, p) && p[0] == a
      ensures p[|p| - 1] != x
    {
      if |p| >= 2 {
        assert Edge(g, p[|p| - 2], p[|p| - 1]);
      }
    }
  }

  /**
    A cyclic meta-annotation graph: Fast is annotated with Tagged, Tagged with
    Fast and with the testable marker; FastTest declares a method annotated
    with Fast.
   */
  function CyclicWorld(): (w: World)
    ensures Valid(w)
  {
    var w := World([
      TypeBinding("com.example.Fast", false, None, [], [], [AnnotationBinding(Some(1))]),
      TypeBinding("com.example.Tagged", false, None, [], [], [AnnotationBinding(Some(0)), AnnotationBinding(Some(2))]),
      TypeBinding(TESTABLE, false, None, [], [], []),
      TypeBinding("com.example.FastTest", false, None, [], [MethodBinding([AnnotationBinding(Some(0))])], [])]);
    assert TypeValid(w, 0) && TypeValid(w, 1) && TypeValid(w, 2) && TypeValid(w, 3);
    w
  }

  /** The meta-annotation graph of that world, written out. */
  lemma CyclicMetaGraph()
    ensures MetaGraph(CyclicWorld()) == [{1}, {0, 2}, {}, {}]
  {
    var w := CyclicWorld();
    var g := MetaGraph(w);
    MetaEdge(w, 0, 0);
    MetaEdge(w, 1, 0);
    MetaEdge(w, 1, 1);
    assert g[0] == {1} by {
      assert g[0] == AnnotationTypes(w.types[0].annotations);
    }
    assert g[1] == {0, 2} by {
      assert g[1] == AnnotationTypes(w.types[1].annotations);
    }
    assert g[2] == {} by {
      assert g[2] == AnnotationTypes(w.types[2].annotations);
    }
    assert g[3] == {} by {
      assert g[3] == AnnotationTypes(w.types[3].annotations);
    }
  }

  /** Along the cycle Fast, Tagged, Fast the walk from Fast meets all three annotation types ... */
  lemma CyclicReached()
    ensures InMetaHierarchy(CyclicWorld(), 0, 0)
    ensures InMetaHierarchy(CyclicWorld(), 0, 1)
    ensures InMetaHierarchy(CyclicWorld(), 0, 2)
  {
    var g := MetaGraph(CyclicWorld());
    CyclicMetaGraph();
    ReachesRefl(g, 0);
    ReachesRefl(g, 1);
    ReachesRefl(g, 2);
    ReachesStep(g, 1, 0, 0);
    ReachesStep(g, 1, 2, 2);
  }

  /** ... and never the annotated class, which no annotation refers to. */
  lemma CyclicNotReached()
    ensures !InMetaHierarchy(CyclicWorld(), 0, 3)
  {
    var g := MetaGraph(CyclicWorld());
    CyclicMetaGraph();
    NoIncomingEdge(g, 1, 3);
  }

  /** The walk from Fast follows the cycle and collects exactly Fast, Tagged and Testable. */
  lemma CyclicMetaHierarchy()
    ensures MetaHierarchy(CyclicWorld(), 0) == {0, 1, 2}
  {
    var w := CyclicWorld();
    CyclicReached();
    CyclicNotReached();
    var h := MetaHierarchy(w, 0);
    assert {0, 1, 2} <= h;
    forall x | x in h
      ensures x in {0, 1, 2}
    {
      assert x < 4 && x != 3;
    }
  }

  /** So the method annotated with Fast carries the testable marker, though its class does not. */
  lemma CyclicTestableMethod()
    ensures SomeMethodAnnotated(CyclicWorld(), 3, TESTABLE)
    ensures !TypeOrSuperTypeAnnotated(CyclicWorld(), 3, TESTABLE)
  {
    var w := CyclicWorld();
    CyclicMetaHierarchy();
    assert MatchesAnnotationName(w, Some(2), TESTABLE);
    var m := w.types[3].declaredMethods[0].annotations;
    assert EntryMatches(w, m[0], TESTABLE);
    assert NoNullBefore(m, 0);
    assert DeclaredMethodAnnotated(w, 3, TESTABLE);
    assert SuperclassChain(w, Some(3)) == [3];
    assert w.types[3].annotations == [];
  }
}
