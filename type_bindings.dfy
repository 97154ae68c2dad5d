/**
  The binding world the JUnit 5 test finder inspects: a finite, immutable
  table of resolved type bindings (ITypeBinding), each with its modifiers,
  superclass, interfaces, declared methods and annotations. A reference to
  another binding is its index in the table.
 */
module TypeBindings {
  import opened Wrappers
  import opened Graphs

  type TypeId = nat

  /**
    One entry of an annotation array: a null entry, or an annotation binding
    whose annotation type may fail to resolve (null).
   */
  datatype AnnotationBinding = NullAnnotation | AnnotationBinding(annotationType: Option<TypeId>)

  datatype MethodBinding = MethodBinding(annotations: seq<AnnotationBinding>)

  datatype TypeBinding = TypeBinding(
    qualifiedName: string,
    isAbstract: bool,
    superclass: Option<TypeId>,
    interfaces: seq<TypeId>,
    declaredMethods: seq<MethodBinding>,
    annotations: seq<AnnotationBinding>)

  datatype World = World(types: seq<TypeBinding>)

  predicate AnnotationsInRange(annotations: seq<AnnotationBinding>, n: nat) {
    forall i :: 0 <= i < |annotations| && annotations[i].AnnotationBinding? && annotations[i].annotationType.Some? ==>
      annotations[i].annotationType.value < n
  }

  /**
    Every reference stays inside the table, and superclass and interface
    links point to smaller ids: the superclass chain and the super-interface
    graph are acyclic, as the Java type system guarantees. Annotation types
    may refer to any type, cycles included.
   */
  predicate TypeValid(w: World, t: TypeId)
    requires t < |w.types|
  {
    var b := w.types[t];
    && (b.superclass.Some? ==> b.superclass.value < t)
    && (forall i :: 0 <= i < |b.interfaces| ==> b.interfaces[i] < t)
    && AnnotationsInRange(b.annotations, |w.types|)
    && (forall m :: 0 <= m < |b.declaredMethods| ==> AnnotationsInRange(b.declaredMethods[m].annotations, |w.types|))
  }

  predicate Valid(w: World) {
    forall t :: 0 <= t < |w.types| ==> TypeValid(w, t)
  }

  /**
    The superclass chain starting at c: c itself, its superclass, and so on
    up to a type without superclass. Empty when c is null.
   */
  function SuperclassChain(w: World, c: Option<TypeId>): (chain: seq<TypeId>)
    requires Valid(w) && (c.Some? ==> c.value < |w.types|)
    ensures c.None? <==> chain == []
    ensures c.Some? ==> chain[0] == c.value
    ensures forall k :: 0 <= k < |chain| ==> chain[k] < |w.types|
    ensures forall k :: 0 <= k < |chain| - 1 ==> w.types[chain[k]].superclass == Some(chain[k + 1])
    ensures chain != [] ==> w.types[chain[|chain| - 1]].superclass.None?
    decreases if c.Some? then c.value + 1 else 0
  {
    match c
    case None => []
    case Some(t) =>
      assert TypeValid(w, t);
      [t] + SuperclassChain(w, w.types[t].superclass)
  }

  /** The super-interface graph: an edge from each type to each interface it lists. */
  ghost function InterfaceGraph(w: World): (g: Graph)
    ensures |g| == |w.types|
  {
    seq(|w.types|, t requires 0 <= t < |w.types| => set i | i in w.types[t].interfaces)
  }

  /** The annotation types of the non-null, resolved entries of an annotation array. */
  ghost function AnnotationTypes(annotations: seq<AnnotationBinding>): set<TypeId> {
    set i | 0 <= i < |annotations| && annotations[i].AnnotationBinding? && annotations[i].annotationType.Some?
      :: annotations[i].annotationType.value
  }

  /** The meta-annotation graph: an edge from each type to the types of the annotations on it. */
  ghost function MetaGraph(w: World): (g: Graph)
    ensures |g| == |w.types|
  {
    seq(|w.types|, t requires 0 <= t < |w.types| => AnnotationTypes(w.types[t].annotations))
  }

  lemma InterfaceEdge(w: World, t: TypeId, i: nat)
    requires t < |w.types| && i < |w.types[t].interfaces|
    ensures Edge(InterfaceGraph(w), t, w.types[t].interfaces[i])
  {
    assert InterfaceGraph(w)[t] == set x | x in w.types[t].interfaces;
  }

  lemma InterfaceEdgeInverse(w: World, t: TypeId, x: nat)
    requires Edge(InterfaceGraph(w), t, x)
    ensures exists i :: 0 <= i < |w.types[t].interfaces| && w.types[t].interfaces[i] == x
  {
    assert InterfaceGraph(w)[t] == set y | y in w.types[t].interfaces;
  }

  lemma MetaEdge(w: World, t: TypeId, i: nat)
    requires t < |w.types| && i < |w.types[t].annotations|
    requires w.types[t].annotations[i].AnnotationBinding? && w.types[t].annotations[i].annotationType.Some?
    ensures Edge(MetaGraph(w), t, w.types[t].annotations[i].annotationType.value)
  {
    assert MetaGraph(w)[t] == AnnotationTypes(w.types[t].annotations);
  }

  lemma MetaEdgeInRange(w: World, t: TypeId, x: nat)
    requires Valid(w) && Edge(MetaGraph(w), t, x)
    ensures x < |w.types|
  {
    assert TypeValid(w, t);
    assert MetaGraph(w)[t] == AnnotationTypes(w.types[t].annotations);
  }

  /** A java.util.HashSet of ids, updated in place. */
  class TypeSet {
    var elements: set<nat>

    constructor ()
      ensures elements == {}
    {
      elements := {};
    }

    /** Set.add: inserts x and reports whether it was absent before. */
    method Add(x: nat) returns (added: bool)
      modifies this
      ensures elements == old(elements) + {x}
      ensures added <==> x !in old(elements)
    {
      added := x !in elements;
      elements := elements + {x};
    }

    /** Set.addAll, the effect of the search engine's calls that add to a result set. */
    method AddAll(xs: set<nat>)
      modifies this
      ensures elements == old(elements) + xs
    {
      elements := elements + xs;
    }
  }
}
