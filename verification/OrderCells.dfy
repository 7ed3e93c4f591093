/** Which vector elements a handler reads and writes: those it changes, and which of the free list. */
module OrderCells {
  import opened Common
  import opened Orders

  lemma RequestChanges(m: Manager, ev: Event)
    requires Shape(m) && (ev.NewOrder? || ev.CancelOrder? || ev.EditOrder?)
    ensures var m' := Handle(m, ev).m;
            && |m'.idMap| == |m.idMap| && |m'.entries| == |m.entries| && m'.free == m.free
            && (forall i :: 0 <= i < |m.idMap| && m'.idMap[i] != m.idMap[i] ==> MapCell(i) in Accesses(m, ev))
            && (forall s :: 0 <= s < |m.entries| && m'.entries[s] != m.entries[s] ==> Entry(s) in Accesses(m, ev))
  {
    var all := Accesses(m, ev);
    if all != [] { assert all[0] in all; }
    if |all| > 2 { assert all[1] in all && all[2] in all; }
    if |all| > 3 { assert all[3] in all; }
    if |all| > 4 { assert all[4] in all; }
  }

  lemma ReportChanges(m: Manager, ev: Event)
    requires Shape(m) && Defined(m, ev) && !ev.NewOrder? && !ev.CancelOrder? && !ev.EditOrder?
    ensures var m' := Handle(m, ev).m;
            && |m'.idMap| == |m.idMap| && |m'.free| == |m.free| && |m'.entries| == |m.entries|
            && (forall i :: 0 <= i < |m.idMap| && m'.idMap[i] != m.idMap[i] ==> MapCell(i) in Accesses(m, ev))
            && (forall j :: 0 <= j < |m.free| && m'.free[j] != m.free[j] ==> FreeCell(j) in Accesses(m, ev))
            && (forall s :: 0 <= s < |m.entries| && m'.entries[s] != m.entries[s] ==> Entry(s) in Accesses(m, ev))
  {
    var all := Accesses(m, ev);
    if all != [] { assert all[0] in all; }
    if |all| > 1 { assert all[1] in all; }
    if |all| > 2 { assert all[2] in all; }
    if |all| > 3 { assert all[3] in all; }
    if |all| > 4 { assert all[4] in all; }
  }

  /** Every element that a handler changes is among those it is said to touch. */
  lemma ChangedIsAccessed(m: Manager, ev: Event)
    requires Shape(m) && Defined(m, ev)
    ensures var m' := Handle(m, ev).m;
            && |m'.idMap| == |m.idMap| && |m'.free| == |m.free| && |m'.entries| == |m.entries|
            && (forall i :: 0 <= i < |m.idMap| && m'.idMap[i] != m.idMap[i] ==> MapCell(i) in Accesses(m, ev))
            && (forall j :: 0 <= j < |m.free| && m'.free[j] != m.free[j] ==> FreeCell(j) in Accesses(m, ev))
            && (forall s :: 0 <= s < |m.entries| && m'.entries[s] != m.entries[s] ==> Entry(s) in Accesses(m, ev))
  {
    if ev.NewOrder? || ev.CancelOrder? || ev.EditOrder? { RequestChanges(m, ev); } else { ReportChanges(m, ev); }
  }

  /** The element of the free list that an event hands out or gives back; a replacement that goes through
      reads the next free one, which it does not take. */
  predicate OfFreeList(m: Manager, ev: Event, j: nat)
    requires Shape(m) && Defined(m, ev)
  {
    var m' := Handle(m, ev).m;
    if m'.freePtr == m.freePtr + 1 then j == m.freePtr
    else if m'.freePtr == m.freePtr - 1 then j == m'.freePtr
    else ev.EditOrder? && m'.nextId == m.nextId + 1 && j == m.freePtr
  }

  lemma RequestTakes(m: Manager, ev: Event, j: nat)
    requires Shape(m) && (ev.NewOrder? || ev.CancelOrder? || ev.EditOrder?)
    ensures FreeCell(j) in Accesses(m, ev) <==> OfFreeList(m, ev, j)
  {
    var all := Accesses(m, ev);
    if all != [] { assert all[0] in all; }
    if |all| > 2 { assert all[1] in all && all[2] in all; }
  }

  lemma ReportGivesBack(m: Manager, ev: Event, j: nat)
    requires Shape(m) && Defined(m, ev) && !ev.NewOrder? && !ev.CancelOrder? && !ev.EditOrder?
    ensures FreeCell(j) in Accesses(m, ev) <==> OfFreeList(m, ev, j)
  {
    var all := Accesses(m, ev);
    if |all| > 2 { assert all[2] in all; }
    if |all| > 3 { assert all[3] in all; }
  }

  /** Of the free list a handler touches exactly that element. */
  lemma FreeListAccesses(m: Manager, ev: Event, j: nat)
    requires Shape(m) && Defined(m, ev)
    ensures FreeCell(j) in Accesses(m, ev) <==> OfFreeList(m, ev, j)
  {
    if ev.NewOrder? || ev.CancelOrder? || ev.EditOrder? { RequestTakes(m, ev, j); } else { ReportGivesBack(m, ev, j); }
  }
}
