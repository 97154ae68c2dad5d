/**
  The composite Self Encapsulate Field refactoring: one refactoring that
  drives an ordered list of per-field refactorings through the three phases
  of the ltk protocol. Initial conditions are checked on every field
  refactoring, final conditions and change creation only on the selected
  ones; each phase merges the per-field results, in list order, into one
  status or one composite change.

  A per-field refactoring is a value: its selected flag and what each of its
  three operations returns or throws. A status is the sequence of its
  entries, and merging appends them; a composite change is its name and its
  children, and merging appends the children of the merged change.
 */
module SelfEncapsulateFieldComposite {

  datatype Severity = OK | INFO | WARNING | ERROR | FATAL {
    function Rank(): nat {
      match this
      case OK => 0
      case INFO => 1
      case WARNING => 2
      case ERROR => 3
      case FATAL => 4
    }
  }

  datatype StatusEntry = StatusEntry(severity: Severity, message: string)

  datatype RefactoringStatus = RefactoringStatus(entries: seq<StatusEntry>) {
    /** RefactoringStatus.merge: the other status's entries follow this one's. */
    function Merge(other: RefactoringStatus): (r: RefactoringStatus)
      ensures |r.entries| == |entries| + |other.entries|
      ensures r.entries[..|entries|] == entries && r.entries[|entries|..] == other.entries
    {
      RefactoringStatus(entries + other.entries)
    }
  }

  /** One leaf change, known only by its name. */
  datatype Change = Change(name: string)

  datatype CompositeChange = CompositeChange(name: string, children: seq<Change>) {
    /** CompositeChange.merge: the other change's children follow this one's. */
    function Merge(other: CompositeChange): (r: CompositeChange)
      ensures r.name == name
      ensures |r.children| == |children| + |other.children|
      ensures r.children[..|children|] == children && r.children[|children|..] == other.children
    {
      CompositeChange(name, children + other.children)
    }
  }

  /** A CoreException or an OperationCanceledException thrown by a per-field refactoring. */
  datatype Failure = CoreFailure(message: string) | OperationCanceled

  /** What a call returns, or the exception it throws. */
  datatype Outcome<+T> = Returned(value: T) | Threw(failure: Failure)

  datatype FieldRefactoring = FieldRefactoring(
    selected: bool,
    initialConditions: Outcome<RefactoringStatus>,
    finalConditions: Outcome<RefactoringStatus>,
    change: Outcome<CompositeChange>)

  const COMPOSITE_CHANGE_NAME: string := "Self Encapsulate"

  // ---------------------------------------------------------------------------
  // Specification

  datatype Phase = Initial | Final

  function StatusOf(u: FieldRefactoring, phase: Phase): Outcome<RefactoringStatus> {
    match phase
    case Initial => u.initialConditions
    case Final => u.finalConditions
  }

  /** The units a phase visits all return normally. */
  ghost predicate AllReturn(units: seq<FieldRefactoring>, phase: Phase) {
    forall k :: 0 <= k < |units| ==> StatusOf(units[k], phase).Returned?
  }

  /** Unit k is the first one of the list to throw in the phase. */
  ghost predicate FirstToThrow(units: seq<FieldRefactoring>, phase: Phase, k: nat) {
    && k < |units|
    && StatusOf(units[k], phase).Threw?
    && forall j :: 0 <= j < k ==> StatusOf(units[j], phase).Returned?
  }

  /** The entries of the statuses the units return in the phase, in list order. */
  ghost function PhaseEntries(units: seq<FieldRefactoring>, phase: Phase): seq<StatusEntry> {
    if units == [] then []
    else
      var last := StatusOf(units[|units| - 1], phase);
      PhaseEntries(units[..|units| - 1], phase) + (if last.Returned? then last.value.entries else [])
  }

  ghost predicate AllChangesReturn(units: seq<FieldRefactoring>) {
    forall k :: 0 <= k < |units| ==> units[k].change.Returned?
  }

  ghost predicate FirstChangeToThrow(units: seq<FieldRefactoring>, k: nat) {
    && k < |units|
    && units[k].change.Threw?
    && forall j :: 0 <= j < k ==> units[j].change.Returned?
  }

  /** The children of the changes the units create, in list order. */
  ghost function ChangeChildren(units: seq<FieldRefactoring>): seq<Change> {
    if units == [] then []
    else
      var last := units[|units| - 1].change;
      ChangeChildren(units[..|units| - 1]) + (if last.Returned? then last.value.children else [])
  }

  /** fRefactorings.stream().filter(isSeletced).toList(): the selected units, in list order. */
  function Selected(units: seq<FieldRefactoring>): (r: seq<FieldRefactoring>)
    ensures forall u :: u in r <==> u in units && u.selected
    ensures |r| <= |units|
  {
    if units == [] then []
    else (if units[0].selected then [units[0]] else []) + Selected(units[1..])
  }

  /** The highest severity among the entries, OK for none: RefactoringStatus.getSeverity. */
  function MaxSeverity(entries: seq<StatusEntry>): nat {
    if entries == [] then 0
    else Max(entries[0].severity.Rank(), MaxSeverity(entries[1..]))
  }

  function Max(a: nat, b: nat): nat {
    if a < b then b else a
  }

  // ---------------------------------------------------------------------------
  // The coordinator

  class SelfEncapsulateFieldCompositeRefactoring {
    /** fRefactorings, final: fixed at construction. */
    const refactorings: seq<FieldRefactoring>

    constructor (refactorings: seq<FieldRefactoring>)
      ensures this.refactorings == refactorings
    {
      this.refactorings := refactorings;
    }

    /** getRefactorings: the list given to the constructor. */
    method GetRefactorings() returns (r: seq<FieldRefactoring>)
      ensures r == refactorings
    {
      return refactorings;
    }

    /**
      checkInitialConditions: every unit, selected or not, in list order; the
      first exception aborts the phase, otherwise the fresh status holds each
      unit's entries in that order.
     */
    method CheckInitialConditions() returns (r: Outcome<RefactoringStatus>)
      ensures r.Returned? <==> AllReturn(refactorings, Initial)
      ensures r.Returned? ==> r.value.entries == PhaseEntries(refactorings, Initial)
      ensures r.Threw? ==> exists k: nat :: FirstToThrow(refactorings, Initial, k)
                                     && r.failure == refactorings[k].initialConditions.failure
      ensures refactorings == [] ==> r == Returned(RefactoringStatus([]))
    {
      r := MergeStatuses(refactorings, Initial);
    }

    /**
      checkFinalConditions: only the selected units, in list order, merged
      into a fresh status; unselected units contribute nothing.
     */
    method CheckFinalConditions() returns (r: Outcome<RefactoringStatus>)
      ensures r.Returned? <==> AllReturn(Selected(refactorings), Final)
      ensures r.Returned? ==> r.value.entries == PhaseEntries(Selected(refactorings), Final)
      ensures r.Threw? ==> exists k: nat :: FirstToThrow(Selected(refactorings), Final, k)
                                     && r.failure == Selected(refactorings)[k].finalConditions.failure
      ensures Selected(refactorings) == [] ==> r == Returned(RefactoringStatus([]))
    {
      var selected := Selected(refactorings);
      r := MergeStatuses(selected, Final);
    }

    /**
      createChange: the changes of exactly the selected units, in list order,
      merged into one composite change named "Self Encapsulate".
     */
    method CreateChange() returns (r: Outcome<CompositeChange>)
      ensures r.Returned? <==> AllChangesReturn(Selected(refactorings))
      ensures r.Returned? ==> r.value == CompositeChange(COMPOSITE_CHANGE_NAME, ChangeChildren(Selected(refactorings)))
      ensures r.Threw? ==> exists k: nat :: FirstChangeToThrow(Selected(refactorings), k)
                                     && r.failure == Selected(refactorings)[k].change.failure
      ensures Selected(refactorings) == [] ==> r == Returned(CompositeChange(COMPOSITE_CHANGE_NAME, []))
    {
      var selected := Selected(refactorings);
      r := MergeChanges(selected);
    }
  }

  /** The loop of createChange: a fresh composite and one merge per unit. */
  method MergeChanges(units: seq<FieldRefactoring>) returns (r: Outcome<CompositeChange>)
    ensures r.Returned? <==> AllChangesReturn(units)
    ensures r.Returned? ==> r.value == CompositeChange(COMPOSITE_CHANGE_NAME, ChangeChildren(units))
    ensures r.Threw? ==> exists k: nat :: FirstChangeToThrow(units, k) && r.failure == units[k].change.failure
    ensures units == [] ==> r == Returned(CompositeChange(COMPOSITE_CHANGE_NAME, []))
  {
    var change := CompositeChange(COMPOSITE_CHANGE_NAME, []);
    for i := 0 to |units|
      invariant AllChangesReturn(units[..i])
      invariant change == CompositeChange(COMPOSITE_CHANGE_NAME, ChangeChildren(units[..i]))
    {
      assert units[..i + 1][..i] == units[..i];
      match units[i].change {
        case Threw(failure) =>
          assert FirstChangeToThrow(units, i);
          return Threw(failure);
        case Returned(c) =>
          change := change.Merge(c);
      }
    }
    assert units[..|units|] == units;
    return Returned(change);
  }

  /** The loop shared by both condition-checking phases: a fresh status and one merge per unit. */
  method MergeStatuses(units: seq<FieldRefactoring>, phase: Phase) returns (r: Outcome<RefactoringStatus>)
    ensures r.Returned? <==> AllReturn(units, phase)
    ensures r.Returned? ==> r.value.entries == PhaseEntries(units, phase)
    ensures r.Threw? ==> exists k: nat :: FirstToThrow(units, phase, k) && r.failure == StatusOf(units[k], phase).failure
    ensures units == [] ==> r == Returned(RefactoringStatus([]))
  {
    var status := RefactoringStatus([]);
    for i := 0 to |units|
      invariant AllReturn(units[..i], phase)
      invariant status.entries == PhaseEntries(units[..i], phase)
    {
      assert units[..i + 1][..i] == units[..i];
      match StatusOf(units[i], phase) {
        case Threw(failure) =>
          assert FirstToThrow(units, phase, i);
          return Threw(failure);
        case Returned(s) =>
          status := status.Merge(s);
      }
    }
    assert units[..|units|] == units;
    return Returned(status);
  }

  // ---------------------------------------------------------------------------
  // Properties

  /** Selection keeps list order: filtering a concatenation concatenates the filtered parts. */
  lemma {:induction false} SelectedAppend(a: seq<FieldRefactoring>, b: seq<FieldRefactoring>)
    ensures Selected(a + b) == Selected(a) + Selected(b)
  {
    if a == [] {
      assert a + b == b;
    } else {
      assert (a + b)[1..] == a[1..] + b;
      SelectedAppend(a[1..], b);
    }
  }

  /**
    An unselected unit contributes nothing to the final phase and to the
    change phase: removing it leaves the visited units as they were.
   */
  lemma UnselectedIsSkipped(a: seq<FieldRefactoring>, u: FieldRefactoring, b: seq<FieldRefactoring>)
    requires !u.selected
    ensures Selected(a + [u] + b) == Selected(a + b)
  {
    SelectedAppend(a + [u], b);
    SelectedAppend(a, [u]);
    SelectedAppend(a, b);
    assert Selected([u]) == [];
  }

  /** When every unit is selected, the final phases visit the whole list. */
  lemma {:induction false} AllSelected(units: seq<FieldRefactoring>)
    requires forall k :: 0 <= k < |units| ==> units[k].selected
    ensures Selected(units) == units
  {
    if units != [] {
      AllSelected(units[1..]);
    }
  }

  /** Merging phase results is associative over list splits: the entries of a + b are those of a, then of b. */
  lemma {:induction false} PhaseEntriesAppend(a: seq<FieldRefactoring>, b: seq<FieldRefactoring>, phase: Phase)
    ensures PhaseEntries(a + b, phase) == PhaseEntries(a, phase) + PhaseEntries(b, phase)
    decreases |b|
  {
    if b == [] {
      assert a + b == a;
    } else {
      var b' := b[..|b| - 1];
      assert (a + b)[..|a + b| - 1] == a + b';
      assert (a + b)[|a + b| - 1] == b[|b| - 1];
      PhaseEntriesAppend(a, b', phase);
    }
  }

  lemma {:induction false} ChangeChildrenAppend(a: seq<FieldRefactoring>, b: seq<FieldRefactoring>)
    ensures ChangeChildren(a + b) == ChangeChildren(a) + ChangeChildren(b)
    decreases |b|
  {
    if b == [] {
      assert a + b == a;
    } else {
      var b' := b[..|b| - 1];
      assert (a + b)[..|a + b| - 1] == a + b';
      assert (a + b)[|a + b| - 1] == b[|b| - 1];
      ChangeChildrenAppend(a, b');
    }
  }

  /** The severity of a merged status is the larger of the two severities. */
  lemma {:induction false} MergeSeverity(s: RefactoringStatus, t: RefactoringStatus)
    ensures MaxSeverity(s.Merge(t).entries) == Max(MaxSeverity(s.entries), MaxSeverity(t.entries))
    decreases |s.entries|
  {
    if s.entries != [] {
      var rest := RefactoringStatus(s.entries[1..]);
      assert s.Merge(t).entries[1..] == rest.Merge(t).entries;
      MergeSeverity(rest, t);
    } else {
      assert s.Merge(t).entries == t.entries;
    }
  }

  /**
    Three units with the second one unselected: the initial phase visits all
    three, the final and change phases only the first and the third, and the
    composite holds their changes' children in list order.
   */
  lemma {:induction false} MiddleUnitUnselected(u1: FieldRefactoring, u2: FieldRefactoring, u3: FieldRefactoring)
    requires u1.selected && !u2.selected && u3.selected
    requires u1.change.Returned? && u3.change.Returned?
    ensures Selected([u1, u2, u3]) == [u1, u3]
    ensures ChangeChildren(Selected([u1, u2, u3])) == u1.change.value.children + u3.change.value.children
  {
    SelectedThree(u1, u2, u3);
    ChangeChildrenTwo(u1, u3);
  }

  lemma SelectedThree(u1: FieldRefactoring, u2: FieldRefactoring, u3: FieldRefactoring)
    requires u1.selected && !u2.selected && u3.selected
    ensures Selected([u1, u2, u3]) == [u1, u3]
  {
    assert [u1, u2, u3] == [u1] + [u2] + [u3];
    UnselectedIsSkipped([u1], u2, [u3]);
    assert [u1] + [u3] == [u1, u3];
    SelectedAppend([u1], [u3]);
    assert [u1][..0] == [] && [u3][..0] == [];
    assert Selected([u1]) == [u1] && Selected([u3]) == [u3];
  }

  lemma ChangeChildrenTwo(u1: FieldRefactoring, u3: FieldRefactoring)
    requires u1.change.Returned? && u3.change.Returned?
    ensures ChangeChildren([u1, u3]) == u1.change.value.children + u3.change.value.children
  {
    assert [u1] + [u3] == [u1, u3];
    ChangeChildrenAppend([u1], [u3]);
    assert [u1][..0] == [] && [u3][..0] == [];
    assert ChangeChildren([u1]) == u1.change.value.children;
    assert ChangeChildren([u3]) == u3.change.value.children;
  }
}
