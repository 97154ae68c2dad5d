# JUnit 5 test finder and composite Self Encapsulate Field, in Dafny

This project models two pieces of Eclipse JDT and proves properties of the models.

**The JUnit 5 test finder** (`JUnit5TestFinder`) decides whether a Java type is a runnable test. It also collects every test type of a search container.

- The nested `Annotation` helper looks for one annotation name in three places:
  - on a type binding or any class of its superclass chain;
  - on the declared methods of that chain;
  - on the methods of every interface the chain implements, directly or through super-interfaces.
- For the JUnit Platform `@Testable` marker only, it also follows meta-annotations, with a visited set that makes the walk terminate on cycles.
- `isTest(ITypeBinding)` combines these checks into a fixed rule.
- `addTypeAndSubtypes` closes a test type under its subclasses.

**The composite Self Encapsulate Field refactoring** (`SelfEncapsulateFieldCompositeRefactoring`) runs an ordered list of per-field refactorings through the refactoring protocol:

- initial conditions on every unit;
- final conditions on the selected units only;
- change creation on the selected units only.

Each phase merges the per-unit results, in list order, into one status or one composite change.

Files:

- `wrappers.dfy`: `Option`.
- `graphs.dfy`: finite graphs over node ids, path reachability, and reachability along paths that avoid a given set. It has the closure lemmas the set-growing walks rely on.
- `type_bindings.dfy`: the binding world and `TypeSet`.
  - The world is an immutable table of type bindings. Each binding has a qualified name, an abstract flag, a superclass, interfaces, declared methods and an annotation array.
  - It gives the super-interface and meta-annotation graphs.
  - `TypeSet` is the in-place `HashSet` of ids.
  - A well-formed world gives superclass and interface links smaller ids than the type itself. This stands in for Java's acyclic type hierarchy, which the code walks without a guard. Annotation links may form cycles.
- `annotations.dfy`: the `Annotation` class.
  - Each method mirrors its Java loop or recursion.
  - Each is proved equal to a specification predicate.
  - Lemmas relate those predicates to reference forms: "some type on the superclass chain", "some interface reachable in the super-interface graph", "exactly the meta-annotation types reachable from the annotation's type".
- `junit5_test_finder.dfy`: the finder.
  - `isTest(ITypeBinding)`, `internalIsTest`, `addTypeAndSubtypes` and the control skeleton of `findTestsInContainer`.
  - Foreign collaborators are oracle values.
  - Java model types (`IType`) and type bindings (`ITypeBinding`) are two id spaces.
- `sef_composite.dfy`: the coordinator.
  - It is a class over a fixed list of units.
  - Each unit is a value: a selected flag and the outcome (result or thrown exception) of each of its three operations.
  - A thrown exception aborts the phase and reaches the caller unchanged.

## Model

Paths are relative to the repository root.

| member | source | states |
|---|---|---|
| TypeBindings.SuperclassChain | org.eclipse.jdt.junit.core/src/org/eclipse/jdt/internal/junit/launcher/JUnit5TestFinder.java:64-69 | the chain the walk visits: empty iff the start is null, starts at the start type, each next element is the superclass of the one before, and it ends at a type without superclass |
| TypeBindings.TypeSet.constructor | org.eclipse.jdt.junit.core/src/org/eclipse/jdt/internal/junit/launcher/JUnit5TestFinder.java:150 | `new HashSet<>()`: the set starts empty |
| TypeBindings.TypeSet.AddAll | org.eclipse.jdt.junit.core/src/org/eclipse/jdt/internal/junit/launcher/JUnit5TestFinder.java:211-215 | how the search engine adds its classes to the caller's `result`: afterwards the set is the old set together with every given class, and nothing else |
| TypeBindings.TypeSet.Add | org.eclipse.jdt.junit.core/src/org/eclipse/jdt/internal/junit/launcher/JUnit5TestFinder.java:167 | `Set.add`: the element is in the set afterwards, nothing else changes, and the result says whether it was absent before |
| Annotations.AnnotatesTypeOrSuperTypes | org.eclipse.jdt.junit.core/src/org/eclipse/jdt/internal/junit/launcher/JUnit5TestFinder.java:63-71 | true iff some type on the superclass chain, the type itself included, has an annotation array that matches the name; interfaces are never consulted |
| Annotations.AnnotatesAtLeastOneMethod | org.eclipse.jdt.junit.core/src/org/eclipse/jdt/internal/junit/launcher/JUnit5TestFinder.java:73-94 | true iff a declared method of some class on the superclass chain matches, or some class on the chain implements an interface with a matching method (directly or through super-interfaces) |
| Annotations.AnnotatesMethodsInInterface | org.eclipse.jdt.junit.core/src/org/eclipse/jdt/internal/junit/launcher/JUnit5TestFinder.java:96-107 | true iff the interface declares a matching method or one of its super-interfaces does, recursively; InterfaceMethodReach relates this to graph reachability |
| Annotations.AnnotatesDeclaredMethods | org.eclipse.jdt.junit.core/src/org/eclipse/jdt/internal/junit/launcher/JUnit5TestFinder.java:109-118 | true iff the annotation array of some declared method of the type matches |
| Annotations.Annotates | org.eclipse.jdt.junit.core/src/org/eclipse/jdt/internal/junit/launcher/JUnit5TestFinder.java:120-143 | true iff some entry before the first null entry matches: its annotation type is non-null with exactly the qualified name, or (testable marker only) the name occurs in its meta-annotation hierarchy |
| Annotations.MatchesAnnotationName | org.eclipse.jdt.junit.core/src/org/eclipse/jdt/internal/junit/launcher/JUnit5TestFinder.java:135-143 | a null annotation type never matches; otherwise the type must resolve and its qualified name must be exactly the name |
| Annotations.MatchesAtMostOneName | org.eclipse.jdt.junit.core/src/org/eclipse/jdt/internal/junit/launcher/JUnit5TestFinder.java:138 | the comparison is exact string equality: an annotation type that matches one name matches another name iff the two are equal |
| Annotations.MatchesAnnotationNameInHierarchy | org.eclipse.jdt.junit.core/src/org/eclipse/jdt/internal/junit/launcher/JUnit5TestFinder.java:145-159 | false for every name other than the testable marker; otherwise true iff some type in the annotation type's meta-annotation hierarchy has the name |
| Annotations.CollectAnnotationsInHierarchy | org.eclipse.jdt.junit.core/src/org/eclipse/jdt/internal/junit/launcher/JUnit5TestFinder.java:161-173 | terminates on cyclic meta-annotation graphs (it recurses only after a successful add, so the unvisited types shrink); the set only grows; a null annotation type leaves it unchanged; every direct meta-annotation type ends in it; every added type is reachable; started empty it holds exactly the meta-annotation hierarchy |
| Annotations.CollectStep | org.eclipse.jdt.junit.core/src/org/eclipse/jdt/internal/junit/launcher/JUnit5TestFinder.java:164-169 | one successful add followed by the recursive collection keeps "everything added is reachable" and "every added type has its meta-annotation types in the set" |
| Annotations.TypeOrSuperTypeOnChain | org.eclipse.jdt.junit.core/src/org/eclipse/jdt/internal/junit/launcher/JUnit5TestFinder.java:63-71 | the type-then-superclass recursion holds iff some element of the superclass chain has matching annotations, both directions |
| Annotations.DeclaresOnChain | org.eclipse.jdt.junit.core/src/org/eclipse/jdt/internal/junit/launcher/JUnit5TestFinder.java:75-80 | the first loop of annotatesAtLeastOneMethod answers iff some class on the chain declares a matching method, both directions |
| Annotations.ImplementsOnChain | org.eclipse.jdt.junit.core/src/org/eclipse/jdt/internal/junit/launcher/JUnit5TestFinder.java:82-91 | the second loop answers iff some class on the chain has a direct interface with a matching method, both directions |
| Annotations.InterfaceMethodReach | org.eclipse.jdt.junit.core/src/org/eclipse/jdt/internal/junit/launcher/JUnit5TestFinder.java:96-107 | the recursive interface search holds iff some interface reachable from the start through super-interface links, the start included, declares a matching method, both directions |
| Annotations.NullEntryStopsScan | org.eclipse.jdt.junit.core/src/org/eclipse/jdt/internal/junit/launcher/JUnit5TestFinder.java:121-124 | a null entry ends the scan: the array matches iff the entries before the null do, whatever follows |
| Annotations.CyclicMetaHierarchy | org.eclipse.jdt.junit.core/src/org/eclipse/jdt/internal/junit/launcher/JUnit5TestFinder.java:161-173 | in the fixed world CyclicWorld, where the annotation types Fast and Tagged annotate each other, Tagged also carries the testable marker, and the marker type has no annotations, the hierarchy of Fast is exactly {Fast, Tagged, Testable} |
| Annotations.CyclicTestableMethod | org.eclipse.jdt.junit.core/src/org/eclipse/jdt/internal/junit/launcher/JUnit5TestFinder.java:145-159 | in that world, a method carrying only the first annotation counts as testable-annotated, while its class does not carry the marker |
| JUnit5TestFinder.IsTest | org.eclipse.jdt.junit.core/src/org/eclipse/jdt/internal/junit/launcher/JUnit5TestFinder.java:274-285 | an abstract binding is never a test; a concrete one is a test iff RunWith on the type or a superclass, org.junit.Test on a reachable method, Testable on a reachable method, Testable on the type or a superclass, or else the test-implementor oracle |
| JUnit5TestFinder.InternalIsTest | org.eclipse.jdt.junit.core/src/org/eclipse/jdt/internal/junit/launcher/JUnit5TestFinder.java:235-267 | false for an inaccessible class; true for an accessible one with a suite method; otherwise the verdict of isTest on the resolved binding, and false when none resolves |
| JUnit5TestFinder.AddTypeAndSubtypes | org.eclipse.jdt.junit.core/src/org/eclipse/jdt/internal/junit/launcher/JUnit5TestFinder.java:221-228 | the result only grows and holds the type afterwards; a type already present is not descended into (nothing changes); the descent stops at every subclass already present, so the new set is exactly the old set plus the transitive subclasses of the type reached along subclass links that avoid the old set (and, if no descendant was present, all transitive subclasses) |
| JUnit5TestFinder.SubtypesStep | org.eclipse.jdt.junit.core/src/org/eclipse/jdt/internal/junit/launcher/JUnit5TestFinder.java:224-226 | one recursive call on a direct subclass keeps "new elements are reached from the type without passing through the old set" and "new elements have their subclasses in the set" |
| JUnit5TestFinder.StopsAtPresentSubclass | org.eclipse.jdt.junit.core/src/org/eclipse/jdt/internal/junit/launcher/JUnit5TestFinder.java:222-225 | in the hierarchy where 1 extends 0 and 2 extends 1, closing 0 over the result {1} adds 0 alone, although 2 is a transitive subclass of 0 |
| JUnit5TestFinder.FindTestsInContainer | org.eclipse.jdt.junit.core/src/org/eclipse/jdt/internal/junit/launcher/JUnit5TestFinder.java:178-219 | a null element or result is rejected and changes nothing; an element that is itself a test type is added alone; otherwise the result becomes exactly the old set, plus the classes reached from a hierarchy class that is a test and lies in the region along subclass links avoiding the old set, plus the JUnit 3.8 implementors and suite-method classes; from an empty result that is the seeds' whole subclass closure plus those extras |
| JUnit5TestFinder.RunWithIsInherited | org.eclipse.jdt.junit.core/src/org/eclipse/jdt/internal/junit/launcher/JUnit5TestFinder.java:278 | a concrete class whose superclass chain from its superclass carries RunWith is a test |
| JUnit5TestFinder.InterfaceTestMethodMakesTest | org.eclipse.jdt.junit.core/src/org/eclipse/jdt/internal/junit/launcher/JUnit5TestFinder.java:279 | a concrete class is a test when an interface reachable from one of its own interfaces declares a method carrying org.junit.Test |
| SelfEncapsulateFieldComposite.SelfEncapsulateFieldCompositeRefactoring.constructor | org.eclipse.jdt.core.manipulation/refactoring/org/eclipse/jdt/internal/corext/refactoring/sef/SelfEncapsulateFieldCompositeRefactoring.java:25-27 | the coordinator holds exactly the given list, which is immutable afterwards |
| SelfEncapsulateFieldComposite.SelfEncapsulateFieldCompositeRefactoring.GetRefactorings | org.eclipse.jdt.core.manipulation/refactoring/org/eclipse/jdt/internal/corext/refactoring/sef/SelfEncapsulateFieldCompositeRefactoring.java:21-23 | returns the very list given to the constructor |
| SelfEncapsulateFieldComposite.SelfEncapsulateFieldCompositeRefactoring.CheckInitialConditions | org.eclipse.jdt.core.manipulation/refactoring/org/eclipse/jdt/internal/corext/refactoring/sef/SelfEncapsulateFieldCompositeRefactoring.java:35-41 | visits every unit, selected or not: returns normally iff no unit throws, then with the entries of every unit's status in list order; otherwise throws what the first throwing unit threw; an empty list gives an empty status |
| SelfEncapsulateFieldComposite.SelfEncapsulateFieldCompositeRefactoring.CheckFinalConditions | org.eclipse.jdt.core.manipulation/refactoring/org/eclipse/jdt/internal/corext/refactoring/sef/SelfEncapsulateFieldCompositeRefactoring.java:53-59 | the same over the selected units only, in list order; no selected unit gives an empty status |
| SelfEncapsulateFieldComposite.SelfEncapsulateFieldCompositeRefactoring.CreateChange | org.eclipse.jdt.core.manipulation/refactoring/org/eclipse/jdt/internal/corext/refactoring/sef/SelfEncapsulateFieldCompositeRefactoring.java:44-50 | a composite named "Self Encapsulate" holding the children of the selected units' changes in list order, or the first failure among the selected units; no selected unit gives an empty composite |
| SelfEncapsulateFieldComposite.MergeStatuses | org.eclipse.jdt.core.manipulation/refactoring/org/eclipse/jdt/internal/corext/refactoring/sef/SelfEncapsulateFieldCompositeRefactoring.java:36-40 | the loop of both condition phases: a fresh status and one merge per unit, aborted by the first unit that throws |
| SelfEncapsulateFieldComposite.MergeChanges | org.eclipse.jdt.core.manipulation/refactoring/org/eclipse/jdt/internal/corext/refactoring/sef/SelfEncapsulateFieldCompositeRefactoring.java:45-49 | the loop of the change phase: a fresh composite and one merge per unit, aborted by the first unit that throws |
| SelfEncapsulateFieldComposite.Selected | org.eclipse.jdt.core.manipulation/refactoring/org/eclipse/jdt/internal/corext/refactoring/sef/SelfEncapsulateFieldCompositeRefactoring.java:46 | the filter shared by the final and change phases: a unit is kept iff it is in the list and selected, and never more units than the list has |
| SelfEncapsulateFieldComposite.SelectedAppend | org.eclipse.jdt.core.manipulation/refactoring/org/eclipse/jdt/internal/corext/refactoring/sef/SelfEncapsulateFieldCompositeRefactoring.java:55 | the filter keeps list order: filtering a concatenation concatenates the filtered parts |
| SelfEncapsulateFieldComposite.UnselectedIsSkipped | org.eclipse.jdt.core.manipulation/refactoring/org/eclipse/jdt/internal/corext/refactoring/sef/SelfEncapsulateFieldCompositeRefactoring.java:55 | an unselected unit anywhere in the list contributes nothing to the final and change phases |
| SelfEncapsulateFieldComposite.AllSelected | org.eclipse.jdt.core.manipulation/refactoring/org/eclipse/jdt/internal/corext/refactoring/sef/SelfEncapsulateFieldCompositeRefactoring.java:46 | when every unit is selected the final and change phases visit the whole list |
| SelfEncapsulateFieldComposite.PhaseEntriesAppend | org.eclipse.jdt.core.manipulation/refactoring/org/eclipse/jdt/internal/corext/refactoring/sef/SelfEncapsulateFieldCompositeRefactoring.java:37-39 | the merged entries of a split list are those of the first part followed by those of the second |
| SelfEncapsulateFieldComposite.ChangeChildrenAppend | org.eclipse.jdt.core.manipulation/refactoring/org/eclipse/jdt/internal/corext/refactoring/sef/SelfEncapsulateFieldCompositeRefactoring.java:46-48 | the merged children of a split list are those of the first part followed by those of the second |
| SelfEncapsulateFieldComposite.RefactoringStatus.Merge | org.eclipse.jdt.core.manipulation/refactoring/org/eclipse/jdt/internal/corext/refactoring/sef/SelfEncapsulateFieldCompositeRefactoring.java:38 | `RefactoringStatus.merge` as abstracted here: the merged status has this status's entries first, then the other's, and no others |
| SelfEncapsulateFieldComposite.CompositeChange.Merge | org.eclipse.jdt.core.manipulation/refactoring/org/eclipse/jdt/internal/corext/refactoring/sef/SelfEncapsulateFieldCompositeRefactoring.java:47 | `CompositeChange.merge` as abstracted here: the composite keeps its own name; its children are its old children followed by the other change's children, and no others |
| SelfEncapsulateFieldComposite.MergeSeverity | org.eclipse.jdt.core.manipulation/refactoring/org/eclipse/jdt/internal/corext/refactoring/sef/SelfEncapsulateFieldCompositeRefactoring.java:38 | merging keeps the highest severity: the merged status's severity is the larger of the two |
| SelfEncapsulateFieldComposite.MiddleUnitUnselected | org.eclipse.jdt.core.manipulation/refactoring/org/eclipse/jdt/internal/corext/refactoring/sef/SelfEncapsulateFieldCompositeRefactoring.java:44-50 | with three units and the second unselected, the change phase visits the first and third only and the composite holds their children in that order |

## Left out

- The AST parser (`ASTParser`, `createBindings`, `findDeclaringNode`, `isAvailable`) in `internalIsTest` is an oracle. It maps a model type to the binding it resolves, or to nothing, which gives false.
- `CoreTestSearchEngine` and `JavaCore` are oracle values: `isAccessibleClass`, `hasSuiteMethod`, `isTestImplementor`, `getRegion`, `newTypeHierarchy`, `findType`, `findTestImplementorClasses` and `findSuiteMethods`. The last two contribute given sets of classes.
- Progress monitors (`beginTask`, `SubProgressMonitor`, `done`, the null-monitor default) are not modelled. Cancellation through the monitor is not modelled either. A cancelled monitor makes `createBindings`, `createAST`, `newTypeHierarchy` or `findSuiteMethods` throw `OperationCanceledException`. That would abort the search and leave whatever was already added in the caller's set.
- In the finder, `CoreException` and `JavaModelException` from collaborators are not modelled. In the composite, exceptions from the units are modelled as outcomes.
- The public `isTest(IType)` only forwards to `internalIsTest` with no monitor. It is the same as `InternalIsTest` here.
- The constructor and `getName` of the `Annotation` class become the `name` parameter and the three name constants. The testable marker's value is the JUnit Platform name `org.junit.platform.commons.annotation.Testable`. The plugin class that declares it, `JUnitCorePlugin.java`, is not part of this model.
- Iteration order of the `HashSet` in `matchesAnnotationNameInHierarchy` is not modelled. The model picks elements in any order, and the result does not depend on it.
- Set membership for bindings and model types is by id. `equals` and `hashCode` of the Java objects are not modelled.
- A cyclic superclass or interface chain is excluded by the well-formedness assumption. On one, `annotatesTypeOrSuperTypes`, `annotatesAtLeastOneMethod` and `annotatesMethodsInInterface` would not terminate.
- `getName` of the composite returns a translated message from `RefactoringCoreMessages`, which is not part of this model.
- Internals of `RefactoringStatus.merge` and `CompositeChange.merge` are abstracted:
  - a status is its sequence of entries and merge appends them;
  - a composite change is its name and children and merge appends the children;
  - severity is derived from the entries (MergeSeverity);
  - the ltk `merge` also empties the merged change, which is not modelled.
- The cast of each unit's change to `DynamicValidationRefactoringChange` is not modelled. A change of another class would throw `ClassCastException`.
- `SelfEncapsulateFieldRefactoring` itself (its conditions, its change, its `isSeletced` flag setter) is not modelled. Each unit is a fixed set of answers. The model does not capture any effect one unit's call has on another.
- The list is a value. Aliasing of the caller's `List` is not captured; the coordinator itself never mutates it.
- The code has no wrapper that records which unit failed. The unit's own exception reaches the caller unchanged, and the status merged so far is discarded. The model follows the code: the failing unit's index is only a ghost witness in the contracts.
- UI wiring (`RefactorActionGroup.java`, `JavaSearchGroup.java`, the Self Encapsulate Field wizard pages) and test fixtures are not part of this model.
