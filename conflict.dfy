/** Selection and conflict engine of the scheduler: the set of selected
    session ids (a JS `Set`, so iterated in insertion order), the single
    conflict alert, and the set of cards whose description is expanded. */
module Conflict {
  import opened Wrappers
  import opened Sessions
  import opened Seqs

  /** The overlap test of `checkTimeConflict`: half-open intervals intersect. */
  predicate Overlaps(selected: Session, w: Session) {
    selected.start < w.end && selected.end > w.start
  }

  lemma OverlapsSymmetric(a: Session, b: Session)
    ensures Overlaps(a, b) <==> Overlaps(b, a)
  {
  }

  /** Sessions that only touch at an endpoint do not conflict. */
  lemma TouchingDoNotOverlap(a: Session, b: Session)
    requires a.end == b.start
    ensures !Overlaps(a, b) && !Overlaps(b, a)
  {
  }

  /** Every selected id names a session of the catalog. */
  predicate AllKnown(data: seq<Session>, sel: seq<int>) {
    forall id :: id in sel ==> HasId(data, id)
  }

  /** The first selected session, in selection order, that overlaps `w`. */
  function FirstConflict(data: seq<Session>, sel: seq<int>, w: Session): (r: Option<Session>)
    requires AllKnown(data, sel)
    ensures r.None? <==> forall k :: 0 <= k < |sel| ==> !Overlaps(Lookup(data, sel[k]), w)
    ensures r.Some? ==> exists k :: 0 <= k < |sel| && r.value == Lookup(data, sel[k]) &&
                          Overlaps(r.value, w) &&
                          forall j :: 0 <= j < k ==> !Overlaps(Lookup(data, sel[j]), w)
  {
    if sel == [] then None
    else
      var s := Lookup(data, sel[0]);
      if Overlaps(s, w) then Some(s)
      else
        var r := FirstConflict(data, sel[1..], w);
        FirstConflictSkip(data, sel, w, r);
        r
  }

  /** A first conflict in the tail, behind a head that does not overlap, is
      the first conflict of the whole selection. */
  lemma FirstConflictSkip(data: seq<Session>, sel: seq<int>, w: Session, r: Option<Session>)
    requires AllKnown(data, sel) && sel != [] && !Overlaps(Lookup(data, sel[0]), w)
    requires r.None? <==> forall k :: 0 <= k < |sel| - 1 ==> !Overlaps(Lookup(data, sel[1..][k]), w)
    requires r.Some? ==> exists k :: 0 <= k < |sel| - 1 && r.value == Lookup(data, sel[1..][k]) &&
                           Overlaps(r.value, w) &&
                           forall j :: 0 <= j < k ==> !Overlaps(Lookup(data, sel[1..][j]), w)
    ensures r.None? <==> forall k :: 0 <= k < |sel| ==> !Overlaps(Lookup(data, sel[k]), w)
    ensures r.Some? ==> exists k :: 0 <= k < |sel| && r.value == Lookup(data, sel[k]) &&
                          Overlaps(r.value, w) &&
                          forall j :: 0 <= j < k ==> !Overlaps(Lookup(data, sel[j]), w)
  {
    assert forall k :: 1 <= k < |sel| ==> sel[k] == sel[1..][k - 1];
    if r.Some? {
      var k :| 0 <= k < |sel| - 1 && r.value == Lookup(data, sel[1..][k]) &&
               Overlaps(r.value, w) &&
               forall j :: 0 <= j < k ==> !Overlaps(Lookup(data, sel[1..][j]), w);
      assert sel[k + 1] == sel[1..][k];
    }
  }

  /** No two distinct selected sessions overlap. */
  predicate ConflictFree(data: seq<Session>, sel: seq<int>)
    requires AllKnown(data, sel)
  {
    forall a, b :: a in sel && b in sel && a != b ==> !Overlaps(Lookup(data, a), Lookup(data, b))
  }

  /** `Set.prototype.delete` on an insertion-ordered set. */
  function Remove(s: seq<int>, x: int): (r: seq<int>)
    ensures forall y :: y in r <==> y in s && y != x
    ensures NoDups(s) ==> NoDups(r)
    ensures SubseqOf(r, s)
  {
    if s == [] then []
    else
      var p := Remove(s[..|s| - 1], x);
      var last := s[|s| - 1];
      assert s == s[..|s| - 1] + [last];
      if last == x then
        assert SubseqOf(p, s) by { assert p != [] ==> p[|p| - 1] in p; }
        p
      else
        assert NoDups(s) ==> last !in s[..|s| - 1];
        assert (p + [last])[..|p|] == p;
        p + [last]
  }

  /** A set toggle: remove the member, or add the non-member at the end. */
  function Toggled(s: seq<int>, x: int): (r: seq<int>)
    ensures forall y :: y in r <==> (y in s <==> y != x)
    ensures NoDups(s) ==> NoDups(r)
  {
    if x in s then Remove(s, x) else s + [x]
  }

  /** Toggling twice restores membership, and restores the very sequence
      when the id was absent. */
  lemma ToggledTwice(s: seq<int>, x: int)
    ensures forall y :: y in Toggled(Toggled(s, x), x) <==> y in s
    ensures x !in s ==> Toggled(Toggled(s, x), x) == s
  {
    if x !in s {
      RemoveAbsentLast(s, x);
    }
  }

  lemma {:induction false} RemoveAbsent(s: seq<int>, x: int)
    requires x !in s
    ensures Remove(s, x) == s
  {
    if s != [] {
      RemoveAbsent(s[..|s| - 1], x);
    }
  }

  lemma RemoveAbsentLast(s: seq<int>, x: int)
    requires x !in s
    ensures Remove(s + [x], x) == s
  {
    assert (s + [x])[..|s|] == s;
    RemoveAbsent(s, x);
  }

  /** Deselecting keeps the selection conflict-free. */
  lemma RemoveKeepsConflictFree(data: seq<Session>, sel: seq<int>, x: int)
    requires AllKnown(data, sel) && ConflictFree(data, sel)
    ensures AllKnown(data, Remove(sel, x)) && ConflictFree(data, Remove(sel, x))
  {
  }

  /** Adding a session that conflicts with no selected session keeps the
      selection conflict-free. */
  lemma AddKeepsConflictFree(data: seq<Session>, sel: seq<int>, w: Session)
    requires UniqueIds(data) && w in data
    requires AllKnown(data, sel) && ConflictFree(data, sel)
    requires FirstConflict(data, sel, w).None?
    ensures AllKnown(data, sel + [w.id]) && ConflictFree(data, sel + [w.id])
  {
    LookupOwnId(data, w);
    var sel' := sel + [w.id];
    forall a, b | a in sel' && b in sel' && a != b
      ensures !Overlaps(Lookup(data, a), Lookup(data, b))
    {
      if a == w.id || b == w.id {
        var other := if a == w.id then b else a;
        assert other in sel;
        var k :| 0 <= k < |sel| && sel[k] == other;
        assert !Overlaps(Lookup(data, sel[k]), w);
      }
    }
  }

  lemma AddKeepsFacts(data: seq<Session>, sel: seq<int>, w: Session)
    requires UniqueIds(data) && w in data && w.id !in sel
    requires NoDups(sel) && AllKnown(data, sel) && FirstConflict(data, sel, w).None?
    ensures NoDups(sel + [w.id]) && AllKnown(data, sel + [w.id])
    ensures forall id :: id != w.id ==> (id in sel + [w.id] <==> id in sel)
    ensures ConflictFree(data, sel) ==> ConflictFree(data, sel + [w.id])
  {
    LookupOwnId(data, w);
    if ConflictFree(data, sel) {
      AddKeepsConflictFree(data, sel, w);
    }
  }

  /** The alert shown after a rejected selection: the candidate and the
      selected session it overlaps. */
  datatype ConflictAlert = ConflictAlert(workshop: Session, conflict: Session)

  /** The state the `WorkshopScheduler` component keeps for selection:
      `selectedWorkshops`, `conflictAlert` and `expandedCards`, over the
      fixed catalog `data`. */
  class Scheduler {
    const data: seq<Session>
    var selected: seq<int>
    var alert: Option<ConflictAlert>
    var expanded: seq<int>

    ghost predicate Valid()
      reads this
    {
      UniqueIds(data) && NoDups(selected) && AllKnown(data, selected) && NoDups(expanded)
    }

    /** The selected sessions are pairwise non-overlapping. */
    ghost predicate ConflictFreeSelection()
      reads this
      requires Valid()
    {
      ConflictFree(data, selected)
    }

    /** The initial state: nothing selected, no alert, no card expanded. */
    constructor (catalog: seq<Session>)
      requires UniqueIds(catalog)
      ensures Valid() && ConflictFreeSelection()
      ensures data == catalog && selected == [] && alert == None && expanded == []
    {
      data := catalog;
      selected := [];
      alert := None;
      expanded := [];
    }

    /** `checkTimeConflict`: scans the selection in insertion order and
        returns the first selected session overlapping `w`. */
    method CheckTimeConflict(w: Session) returns (r: Option<Session>)
      requires Valid()
      ensures r == FirstConflict(data, selected, w)
    {
      for i := 0 to |selected|
        invariant forall k :: 0 <= k < i ==> !Overlaps(Lookup(data, selected[k]), w)
      {
        assert HasId(data, selected[i]) by { assert selected[i] in selected; }
        var s := Find(data, selected[i]).value;
        if s.start < w.end && s.end > w.start {
          ghost var f := FirstConflict(data, selected, w);
          assert f.Some? && f.value == s by {
            var k :| 0 <= k < |selected| && f.value == Lookup(data, selected[k]) &&
                     Overlaps(f.value, w) &&
                     forall j :: 0 <= j < k ==> !Overlaps(Lookup(data, selected[j]), w);
            assert k == i;
          }
          return Some(s);
        }
      }
      return None;
    }

    /** `handleWorkshopSelect`: deselects a selected session; otherwise
        selects it when it conflicts with nothing, or raises the alert. */
    method HandleWorkshopSelect(w: Session)
      requires Valid() && w in data
      modifies this
      ensures Valid() && expanded == old(expanded)
      ensures old(w.id in selected) ==>
                selected == Remove(old(selected), w.id) && alert == None
      ensures !old(w.id in selected) && old(FirstConflict(data, selected, w)).Some? ==>
                selected == old(selected) &&
                alert == Some(ConflictAlert(w, old(FirstConflict(data, selected, w)).value))
      ensures !old(w.id in selected) && old(FirstConflict(data, selected, w)).None? ==>
                selected == old(selected) + [w.id] && alert == None
      ensures forall id :: id != w.id ==> (id in selected <==> id in old(selected))
      ensures old(ConflictFreeSelection()) ==> ConflictFreeSelection()
    {
      var newSelected := selected;
      if w.id in newSelected {
        if ConflictFree(data, newSelected) {
          RemoveKeepsConflictFree(data, newSelected, w.id);
        }
        newSelected := Remove(newSelected, w.id);
        selected := newSelected;
        alert := None;
      } else {
        var conflict := CheckTimeConflict(w);
        if conflict.Some? {
          alert := Some(ConflictAlert(w, conflict.value));
        } else {
          ghost var before := newSelected;
          LookupOwnId(data, w);
          AddKeepsFacts(data, before, w);
          newSelected := newSelected + [w.id];
          selected := newSelected;
          alert := None;
        }
      }
    }

    /** `toggleCardExpansion`: shows or hides a card's full description. */
    method ToggleCardExpansion(id: int)
      requires Valid()
      modifies this
      ensures Valid()
      ensures expanded == Toggled(old(expanded), id)
      ensures selected == old(selected) && alert == old(alert)
    {
      var newExpanded := expanded;
      if id in newExpanded {
        newExpanded := Remove(newExpanded, id);
      } else {
        newExpanded := newExpanded + [id];
      }
      expanded := newExpanded;
    }
  }
}
