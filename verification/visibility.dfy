/**
 * The visibility tracker of `useObserver`: it owns the contiguous range of child indices
 * currently observed near the viewport and answers "is the index range [start, end) near
 * the viewport" for the window tree.
 *
 * A DOM element is an opaque `Handle`; the container is `Some(children)` (its direct
 * children in order) or `None` when the container reference is not attached. An
 * observation batch is a sequence of `Entry` values, in delivery order.
 */
module Visibility {
  import opened Wrappers
  import opened Extended

  type Handle = nat

  /** One IntersectionObserver entry: its target, whether the target is still connected, and whether it intersects. */
  datatype Entry = Entry(target: Handle, connected: bool, intersecting: bool)

  /** The visibility state `{min, max}`. */
  datatype Range = Range(min: Ext, max: Ext)

  /** The initial state: nothing observed yet. */
  const Unobserved := Range(PosInf, NegInf)

  /** The two shapes the state takes: unobserved, or a finite, ordered range of indices. */
  predicate WellFormed(r: Range)
  {
    r == Unobserved || (r.min.Fin? && r.max.Fin? && 0 <= r.min.n <= r.max.n)
  }

  /**
   * The near-viewport test of `isVisible`: everything is visible before the first
   * observation; otherwise [start, end) must reach within one index of the range.
   */
  function NearViewport(start: int, end: int, r: Range): (b: bool)
    ensures r.min == PosInf ==> b
    ensures r.min.Fin? && r.max.Fin? ==> (b <==> start <= r.max.n + 1 && end >= r.min.n - 1)
  {
    if r.min == PosInf then true
    else !(Less(Plus(r.max, 1), Fin(start)) || Less(Fin(end), Plus(r.min, -1)))
  }

  /** A query around {3, 7}: a range overlapping it is visible, one well past it is not. */
  lemma NearViewportExample()
    ensures NearViewport(2, 8, Range(Fin(3), Fin(7)))
    ensures !NearViewport(10, 12, Range(Fin(3), Fin(7)))
  {
  }

  /**
   * A range that contains a near-viewport range is near the viewport too, so a tree node
   * is never collapsed while one of its sub-ranges would be shown.
   */
  lemma NearViewportMonotone(start: int, end: int, start': int, end': int, r: Range)
    requires WellFormed(r)
    requires start' <= start && end <= end'
    requires NearViewport(start, end, r)
    ensures NearViewport(start', end', r)
  {
  }

  /** Whether the persistent index table marks position `i` as visible (an absent entry is falsy). */
  predicate Marked(vis: map<int, bool>, i: int)
  {
    i in vis && vis[i]
  }

  /**
   * The range the batch handler folds out of the index table over the first `n` positions:
   * the least and greatest marked position, or `Unobserved` if none is marked.
   */
  function VisibleRange(vis: map<int, bool>, n: nat): (r: Range)
    ensures WellFormed(r)
    ensures r == Unobserved <==> forall i :: 0 <= i < n ==> !Marked(vis, i)
    ensures r.min.Fin? ==> r.max.n < n && Marked(vis, r.min.n) && Marked(vis, r.max.n)
    ensures r.min.Fin? ==> forall i :: 0 <= i < n && Marked(vis, i) ==> r.min.n <= i <= r.max.n
  {
    if n == 0 then Unobserved
    else
      var r := VisibleRange(vis, n - 1);
      if Marked(vis, n - 1) then Range(Min(Fin(n - 1), r.min), Max(Fin(n - 1), r.max)) else r
  }

  /** The `min`/`max` loop of the batch handler over the container's `n` children. */
  method FoldRange(vis: map<int, bool>, n: nat) returns (r: Range)
    ensures r == VisibleRange(vis, n)
  {
    var min, max := PosInf, NegInf;
    var i := 0;
    while i < n
      invariant 0 <= i <= n
      invariant Range(min, max) == VisibleRange(vis, i)
    {
      if i in vis && vis[i] {
        min := Min(Fin(i), min);
        max := Max(Fin(i), max);
      }
      i := i + 1;
    }
    r := Range(min, max);
  }

  /** What the first loop of the batch handler keeps per element: its last reported visibility, and which elements are observed. */
  datatype Marks = Marks(seen: map<Handle, bool>, observed: set<Handle>)

  /** One entry: unobserve a disconnected target (or any target while the container is absent), else record it. */
  function Record(m: Marks, e: Entry, containerPresent: bool): Marks
  {
    if !e.connected || !containerPresent then Marks(m.seen, m.observed - {e.target})
    else Marks(m.seen[e.target := e.intersecting], m.observed)
  }

  /**
   * The entries of a batch, applied in delivery order. A batch only ever unobserves, never
   * registers, and never drops an element from the visibility map.
   */
  function RecordAll(m: Marks, es: seq<Entry>, containerPresent: bool): (r: Marks)
    ensures r.observed <= m.observed
    ensures m.seen.Keys <= r.seen.Keys
  {
    if es == [] then m
    else Record(RecordAll(m, es[..|es| - 1], containerPresent), es[|es| - 1], containerPresent)
  }

  /** Whether some entry of `es` with target `t` is recorded rather than unobserved. */
  predicate RecordedIn(es: seq<Entry>, t: Handle, containerPresent: bool)
  {
    exists k :: 0 <= k < |es| && es[k].target == t && es[k].connected && containerPresent
  }

  /** Whether some entry of `es` with target `t` is unobserved. */
  predicate DroppedIn(es: seq<Entry>, t: Handle, containerPresent: bool)
  {
    exists k :: 0 <= k < |es| && es[k].target == t && (!es[k].connected || !containerPresent)
  }

  /**
   * What a batch does to one element: it stays observed unless one of its entries was
   * dropped; it gains a recorded visibility only through a connected entry while the
   * container is present; without such an entry its recorded visibility is untouched.
   */
  lemma {:induction false} RecordAllEffect(m: Marks, es: seq<Entry>, containerPresent: bool, t: Handle)
    ensures t in RecordAll(m, es, containerPresent).observed
            <==> t in m.observed && !DroppedIn(es, t, containerPresent)
    ensures t in RecordAll(m, es, containerPresent).seen
            <==> t in m.seen || RecordedIn(es, t, containerPresent)
    ensures !RecordedIn(es, t, containerPresent) && t in m.seen
            ==> RecordAll(m, es, containerPresent).seen[t] == m.seen[t]
  {
    if es != [] {
      var init, last := es[..|es| - 1], es[|es| - 1];
      RecordAllEffect(m, init, containerPresent, t);
      assert es == init + [last];
      if DroppedIn(es, t, containerPresent) {
        var k :| 0 <= k < |es| && es[k].target == t && (!es[k].connected || !containerPresent);
        if k < |init| { assert init[k] == es[k]; }
      }
      if DroppedIn(init, t, containerPresent) {
        var k :| 0 <= k < |init| && init[k].target == t && (!init[k].connected || !containerPresent);
        assert es[k] == init[k];
      }
      if RecordedIn(es, t, containerPresent) {
        var k :| 0 <= k < |es| && es[k].target == t && es[k].connected && containerPresent;
        if k < |init| { assert init[k] == es[k]; }
      }
      if RecordedIn(init, t, containerPresent) {
        var k :| 0 <= k < |init| && init[k].target == t && init[k].connected && containerPresent;
        assert es[k] == init[k];
      }
    }
  }

  /**
   * The value recorded for an element is the `intersecting` flag of its last connected
   * entry in the batch, when the container is present.
   */
  lemma {:induction false} RecordAllLast(m: Marks, es: seq<Entry>, containerPresent: bool, t: Handle, k: int)
    requires 0 <= k < |es| && es[k].target == t && es[k].connected && containerPresent
    requires forall j :: k < j < |es| && es[j].target == t ==> !es[j].connected
    ensures t in RecordAll(m, es, containerPresent).seen
    ensures RecordAll(m, es, containerPresent).seen[t] == es[k].intersecting
  {
    var init := es[..|es| - 1];
    if k < |es| - 1 {
      forall j | k < j < |init| && init[j].target == t
        ensures !init[j].connected
      {
        assert init[j] == es[j];
      }
      assert init[k] == es[k];
      RecordAllLast(m, init, containerPresent, t, k);
    }
  }

  /** The targets of a batch. */
  function Targets(es: seq<Entry>): set<Handle>
  {
    set e | e in es :: e.target
  }

  /** With the container absent a batch records nothing: every target in it is only unobserved. */
  lemma {:induction false} RecordAllWithoutContainer(m: Marks, es: seq<Entry>)
    ensures RecordAll(m, es, false).seen == m.seen
    ensures RecordAll(m, es, false).observed == m.observed - Targets(es)
  {
    if es != [] {
      var init := es[..|es| - 1];
      RecordAllWithoutContainer(m, init);
      assert es == init + [es[|es| - 1]];
      assert Targets(es) == Targets(init) + {es[|es| - 1].target};
    }
  }

  /**
   * The second half of the first children loop: the index table after copying the known
   * visibility of each child, by position. Children not yet seen leave their slot alone.
   */
  function CopyKnown(vis: map<int, bool>, seen: map<Handle, bool>, children: seq<Handle>): (r: map<int, bool>)
    ensures vis.Keys <= r.Keys
    ensures forall i :: i in r && i !in vis ==> 0 <= i < |children|
  {
    if children == [] then vis
    else
      var i := |children| - 1;
      var r := CopyKnown(vis, seen, children[..i]);
      if children[i] in seen then r[i := seen[children[i]]] else r
  }

  /**
   * Slot `i` of the index table after the copy: overwritten with the element's visibility when
   * the child at position `i` has been seen, otherwise exactly what it was before.
   */
  lemma {:induction false} CopyKnownAt(vis: map<int, bool>, seen: map<Handle, bool>, children: seq<Handle>, i: int)
    ensures i in CopyKnown(vis, seen, children) <==> i in vis || (0 <= i < |children| && children[i] in seen)
    ensures 0 <= i < |children| && children[i] in seen ==> CopyKnown(vis, seen, children)[i] == seen[children[i]]
    ensures i in vis && !(0 <= i < |children| && children[i] in seen) ==> CopyKnown(vis, seen, children)[i] == vis[i]
  {
    if children != [] {
      var last := |children| - 1;
      CopyKnownAt(vis, seen, children[..last], i);
      if 0 <= i < last {
        assert children[..last][i] == children[i];
      }
    }
  }

  /** The `add` list of the batch handler: the children not yet seen, in container order. */
  function Unseen(seen: map<Handle, bool>, children: seq<Handle>): (add: seq<Handle>)
    ensures |add| <= |children|
    ensures forall k :: 0 <= k < |add| ==> add[k] !in seen
  {
    if children == [] then []
    else
      var last := children[|children| - 1];
      Unseen(seen, children[..|children| - 1]) + (if last in seen then [] else [last])
  }

  /** An element is queued exactly when it is a child of the container that has not been seen. */
  lemma {:induction false} UnseenMembers(seen: map<Handle, bool>, children: seq<Handle>, h: Handle)
    ensures h in Unseen(seen, children) <==> h in children && h !in seen
  {
    if children != [] {
      var init, last := children[..|children| - 1], children[|children| - 1];
      UnseenMembers(seen, init, h);
      assert children == init + [last];
    }
  }

  /** Children listed once each are queued at most once each. */
  lemma {:induction false} UnseenDistinct(seen: map<Handle, bool>, children: seq<Handle>)
    requires forall p, q :: 0 <= p < q < |children| ==> children[p] != children[q]
    ensures forall i, j :: 0 <= i < j < |Unseen(seen, children)| ==> Unseen(seen, children)[i] != Unseen(seen, children)[j]
  {
    if children != [] {
      var init, last := children[..|children| - 1], children[|children| - 1];
      UnseenDistinct(seen, init);
      UnseenMembers(seen, init, last);
      assert last !in init;
    }
  }

  /** The first children loop of the batch handler: copy known visibilities by position, queue the rest. */
  method CopyKnownChildren(vis: map<int, bool>, seen: map<Handle, bool>, children: seq<Handle>)
    returns (vis': map<int, bool>, add: seq<Handle>)
    ensures vis' == CopyKnown(vis, seen, children)
    ensures add == Unseen(seen, children)
  {
    vis', add := vis, [];
    var j := 0;
    while j < |children|
      invariant 0 <= j <= |children|
      invariant vis' == CopyKnown(vis, seen, children[..j])
      invariant add == Unseen(seen, children[..j])
    {
      ghost var prefix := children[..j + 1];
      assert prefix[..j] == children[..j] && prefix[j] == children[j];
      if children[j] in seen {
        vis' := vis'[j := seen[children[j]]];
      } else {
        add := add + [children[j]];
      }
      j := j + 1;
    }
    assert children[..|children|] == children;
  }

  /** The children at positions [lo, hi) that exist. */
  function ChildrenIn(children: seq<Handle>, lo: int, hi: int): set<Handle>
    decreases hi - lo
  {
    if hi <= lo then {}
    else ChildrenIn(children, lo, hi - 1) + (if 0 <= hi - 1 < |children| then {children[hi - 1]} else {})
  }

  /** A range of positions yields at most as many children as it is wide. */
  lemma {:induction false} ChildrenInSize(children: seq<Handle>, lo: int, hi: int)
    decreases hi - lo
    ensures |ChildrenIn(children, lo, hi)| <= if hi <= lo then 0 else hi - lo
  {
    if hi > lo {
      ChildrenInSize(children, lo, hi - 1);
      var g := ChildrenIn(children, lo, hi - 1);
      var more: set<Handle> := if 0 <= hi - 1 < |children| then {children[hi - 1]} else {};
      assert |g + more| <= |g| + |more|;
    }
  }

  /** An element is among `ChildrenIn(children, lo, hi)` exactly when it is the child at some existing position in [lo, hi). */
  lemma {:induction false} ChildrenInMembers(children: seq<Handle>, lo: int, hi: int, h: Handle)
    decreases hi - lo
    ensures h in ChildrenIn(children, lo, hi) <==> exists i :: lo <= i < hi && 0 <= i < |children| && children[i] == h
  {
    if hi > lo {
      ChildrenInMembers(children, lo, hi - 1, h);
    }
  }

  /** Only children of the container are ever registered. */
  lemma {:induction false} ChildrenInWithin(children: seq<Handle>, lo: int, hi: int)
    decreases hi - lo
    ensures ChildrenIn(children, lo, hi) <= set h | h in children
  {
    if hi > lo {
      ChildrenInWithin(children, lo, hi - 1);
    }
  }

  /**
   * The elements `isVisible(start, end)` registers for observation: only for a query exactly
   * one leaf group wide, only the existing children in [start, end), never more than `branch`.
   */
  function LeafGroup(container: Option<seq<Handle>>, start: int, end: int, branch: nat): (g: set<Handle>)
    ensures g != {} ==> container.Some? && end - start == branch
    ensures container.Some? ==> g <= set h | h in container.value
    ensures |g| <= branch
  {
    if container.Some? && end - start == branch then
      ChildrenInWithin(container.value, start, end);
      ChildrenInSize(container.value, start, end);
      ChildrenIn(container.value, start, end)
    else {}
  }

  /** The error the source raises when it calls a method on an undefined observer. */
  datatype Fault = TypeError

  /**
   * The registration of `isVisible` as the source writes it: with no IntersectionObserver in
   * the platform the observer is `undefined`, yet the loop still calls `observer.observe`
   * on the first existing child of a leaf-group query, which throws.
   */
  function LeafGroupAsWritten(observerPresent: bool, container: Option<seq<Handle>>, start: int, end: int, branch: nat)
    : (r: Result<set<Handle>, Fault>)
    ensures r.Failure? <==> !observerPresent && LeafGroup(container, start, end, branch) != {}
    ensures r.Success? && observerPresent ==> r.value == LeafGroup(container, start, end, branch)
  {
    var g := LeafGroup(container, start, end, branch);
    if observerPresent || g == {} then Success(g) else Failure(TypeError)
  }

  /** A leaf-group query over three attached children, on a platform without IntersectionObserver, throws. */
  lemma LeafGroupAsWrittenThrows()
    ensures LeafGroupAsWritten(false, Some([7, 8, 9]), 0, 3, 3) == Failure(TypeError)
  {
    assert [7, 8, 9][0] == 7;
    ChildrenInMembers([7, 8, 9], 0, 3, 7);
    assert 7 in LeafGroup(Some([7, 8, 9]), 0, 3, 3);
  }

  /**
   * The tracker. `checkVisibility` is the caller's override, `observerPresent` whether the
   * platform provides IntersectionObserver; the observer exists only when there is no
   * override and the platform has one.
   */
  class Tracker {
    const branch: nat
    const checkVisibility: Option<(int, int) -> bool>
    const observerPresent: bool

    /** Last reported visibility per element (the source's `visibilitySet`). */
    var seen: map<Handle, bool>
    /** Persistent visibility per child position (the source's `vis`). */
    var vis: map<int, bool>
    /** Elements the observer currently watches. */
    var observed: set<Handle>
    /** Elements queued for observation on the next tick. */
    var pending: seq<Handle>
    /** The visibility state. */
    var range: Range

    predicate HasObserver()
    {
      checkVisibility.None? && observerPresent
    }

    ghost predicate Valid()
      reads this
    {
      WellFormed(range) &&
      (!HasObserver() ==> range == Unobserved && seen == map[] && observed == {} && pending == [])
    }

    constructor (branch: nat, checkVisibility: Option<(int, int) -> bool>, observerPresent: bool)
      ensures Valid()
      ensures this.branch == branch && this.checkVisibility == checkVisibility
      ensures this.observerPresent == observerPresent
      ensures range == Unobserved && seen == map[] && vis == map[] && observed == {} && pending == []
    {
      this.branch := branch;
      this.checkVisibility := checkVisibility;
      this.observerPresent := observerPresent;
      seen, vis, observed, pending := map[], map[], {}, [];
      range := Unobserved;
    }

    /**
     * `isVisible(start, end)`: the override's answer verbatim when there is one; otherwise
     * the near-viewport test, after registering a leaf group's children for observation.
     * Registration happens only when the observer exists.
     */
    method IsVisible(start: int, end: int, container: Option<seq<Handle>>) returns (b: bool)
      requires Valid()
      modifies this`observed
      ensures Valid()
      ensures checkVisibility.Some? ==> b == checkVisibility.value(start, end) && observed == old(observed)
      ensures checkVisibility.None? ==> b == NearViewport(start, end, range)
      ensures checkVisibility.None? && !observerPresent ==> b && observed == old(observed)
      ensures HasObserver() ==> observed == old(observed) + LeafGroup(container, start, end, branch)
      ensures old(observed) <= observed
    {
      if checkVisibility.Some? {
        return checkVisibility.value(start, end);
      }
      if observerPresent && container.Some? && end - start == branch {
        Register(container.value, start, end);
      }
      b := NearViewport(start, end, range);
    }

    /** The registration loop of `isVisible`: observe every existing child at positions [start, end). */
    method Register(children: seq<Handle>, start: int, end: int)
      requires Valid() && HasObserver() && start <= end
      modifies this`observed
      ensures Valid()
      ensures observed == old(observed) + ChildrenIn(children, start, end)
    {
      var i := start;
      while i < end
        invariant start <= i <= end
        invariant observed == old(observed) + ChildrenIn(children, start, i)
      {
        assert ChildrenIn(children, start, i + 1)
            == ChildrenIn(children, start, i) + (if 0 <= i < |children| then {children[i]} else {});
        if 0 <= i < |children| {
          observed := observed + {children[i]};
        }
        i := i + 1;
      }
    }

    /**
     * One observation batch. Entries are recorded or unobserved in order; with the container
     * attached, known visibilities are copied into the index table by position, unseen
     * children are queued, and the range is refolded and replaced only if it changed.
     */
    method OnBatch(entries: seq<Entry>, container: Option<seq<Handle>>) returns (changed: bool)
      requires Valid() && HasObserver()
      modifies this`seen, this`observed, this`vis, this`pending, this`range
      ensures Valid()
      ensures Marks(seen, observed) == RecordAll(Marks(old(seen), old(observed)), entries, container.Some?)
      ensures container.None? ==> vis == old(vis) && pending == old(pending) && range == old(range)
      ensures container.Some? ==> vis == CopyKnown(old(vis), seen, container.value)
      ensures container.Some? ==> pending == old(pending) + Unseen(seen, container.value)
      ensures container.Some? ==> range == VisibleRange(vis, |container.value|)
      ensures changed <==> range != old(range)
    {
      RecordEntries(entries, container.Some?);
      if container.None? {
        return false;
      }
      var add;
      vis, add := CopyKnownChildren(vis, seen, container.value);
      var r := FoldRange(vis, |container.value|);
      pending := pending + add;
      changed := r != range;
      if changed {
        range := r;
      }
    }

    /** The first loop of the batch handler: each entry recorded or unobserved, in order. */
    method RecordEntries(entries: seq<Entry>, containerPresent: bool)
      requires Valid() && HasObserver()
      modifies this`seen, this`observed
      ensures Valid()
      ensures Marks(seen, observed) == RecordAll(Marks(old(seen), old(observed)), entries, containerPresent)
    {
      var i := 0;
      while i < |entries|
        invariant 0 <= i <= |entries|
        invariant Marks(seen, observed) == RecordAll(Marks(old(seen), old(observed)), entries[..i], containerPresent)
      {
        var e := entries[i];
        assert entries[..i + 1][..i] == entries[..i];
        if !e.connected || !containerPresent {
          observed := observed - {e.target};
        } else {
          seen := seen[e.target := e.intersecting];
        }
        i := i + 1;
      }
      assert entries[..|entries|] == entries;
    }

    /** The deferred tick: every queued element is registered with the observer. */
    method Tick()
      requires Valid()
      modifies this`observed, this`pending
      ensures Valid()
      ensures observed == old(observed) + (set h | h in old(pending)) && pending == []
    {
      observed := observed + (set h | h in pending);
      pending := [];
    }
  }
}

/** A client of the tracker: bootstrap, one observation batch, and the deferred registration. */
module VisibilityScenario {
  import opened Wrappers
  import opened Extended
  import opened Visibility

  /** Before any batch every query is visible, and a leaf-group query registers its children. */
  method BootstrapScenario()
  {
    var children := [100, 101, 102, 103];
    var t := new Tracker(2, None, true);
    assert ChildrenIn(children, 0, 1) == {100};
    assert ChildrenIn(children, 0, 2) == {100, 101};
    var b := t.IsVisible(0, 2, Some(children));
    assert b && t.observed == {100, 101};
    b := t.IsVisible(0, 3, Some(children));
    assert b && t.observed == {100, 101};
  }

  /**
   * With only the second of children [100, 101, 102, 103] seen visible, the index table marks
   * position 1 alone and the two children never seen are queued.
   */
  lemma BatchTable(seen: map<Handle, bool>)
    requires seen == map[100 := false, 101 := true]
    ensures VisibleRange(CopyKnown(map[], seen, [100, 101, 102, 103]), 4) == Range(Fin(1), Fin(1))
    ensures 102 in Unseen(seen, [100, 101, 102, 103]) && 103 in Unseen(seen, [100, 101, 102, 103])
  {
    var children := [100, 101, 102, 103];
    var vis := CopyKnown(map[], seen, children);
    forall i | 0 <= i < 4
      ensures Marked(vis, i) <==> i == 1
    {
      CopyKnownAt(map[], seen, children, i);
    }
    assert VisibleRange(vis, 2) == Range(Fin(1), Fin(1));
    UnseenMembers(seen, children, 102);
    UnseenMembers(seen, children, 103);
  }

  /**
   * A batch reporting only the second of four children visible narrows the range to {1, 1}
   * and queues the two children not seen yet, which stay unobserved until the tick.
   */
  method BatchScenario()
  {
    var children := [100, 101, 102, 103];
    var t := new Tracker(2, None, true);
    var batch := [Entry(100, true, false), Entry(101, true, true)];
    assert batch[..1] == [batch[0]] && [batch[0]][..0] == [];
    assert RecordAll(Marks(map[], {}), [batch[0]], true) == Marks(map[100 := false], {});
    assert RecordAll(Marks(map[], {}), batch, true) == Marks(map[100 := false, 101 := true], {});
    var changed := t.OnBatch(batch, Some(children));
    assert t.seen == map[100 := false, 101 := true];
    BatchTable(t.seen);
    assert t.range == Range(Fin(1), Fin(1)) && changed;
    assert 102 !in t.observed && 102 in t.pending && 103 in t.pending;
    var b := t.IsVisible(3, 4, Some(children));
    assert !b;
    t.Tick();
    assert 102 in t.observed && 103 in t.observed;
  }
}
