/**
 * The controller of `DynamicList`: it sizes the window tree, decides when to ask the load
 * cooperator for another page (at most one request outstanding), forwards visibility
 * changes, shows the empty placeholder, and fails the render once a load has failed.
 *
 * The cooperator is given per call as `Option<Cooperator>`: `None` when the list has no
 * `load` prop, otherwise what `hasMore()` answers now and whether `onVisibilityChange` is set.
 */
module Pagination {
  import opened Wrappers
  import opened Extended
  import opened Visibility

  /** `b` to the power `k`. */
  function Pow(b: nat, k: nat): nat
  {
    if k == 0 then 1 else b * Pow(b, k - 1)
  }

  /** `Math.pow(branch, branch - 1)`: a branch of 0 asks for 0 to the power -1, which is Infinity. */
  function RootSize(branch: nat): (r: Ext)
    ensures r == PosInf <==> branch == 0
    ensures r != NegInf
    ensures branch == 1 ==> r == Fin(1)
  {
    if branch == 0 then PosInf else Fin(Pow(branch, branch - 1))
  }

  /** `b^k` is at least `b` once there is one factor, so a root of branch >= 2 spans a whole leaf group. */
  lemma {:induction false} PowAtLeastBase(b: nat, k: nat)
    requires b >= 1 && k >= 1
    ensures Pow(b, k) >= b
  {
    if k > 1 {
      PowAtLeastBase(b, k - 1);
      assert Pow(b, k) == b * Pow(b, k - 1);
    }
  }

  /** Beyond branch 1 the root holds at least one full group of `branch` leaves. */
  lemma RootSizeBounds(branch: nat)
    ensures branch >= 2 ==> RootSize(branch).n >= branch
  {
    if branch >= 2 {
      PowAtLeastBase(branch, branch - 1);
    }
  }

  /** The default fan-out of 5 gives a root of 625 slots; a fan-out of 3 gives 9. */
  lemma RootSizeExamples()
    ensures RootSize(5) == Fin(625)
    ensures RootSize(3) == Fin(9)
  {
  }

  /** What the load cooperator answers now: `hasMore()`, and whether it listens to visibility. */
  datatype Cooperator = Cooperator(hasMore: bool, listens: bool)

  /** `!load?.hasMore()`: there are no more pages unless a cooperator says there are. */
  function DoneFrom(coop: Option<Cooperator>): bool
  {
    !(coop.Some? && coop.value.hasMore)
  }

  /**
   * The length handed to the window tree. Loading slots exist only while more data may come,
   * and then exactly one page of them follows the known rows; once done, the tree covers the
   * known rows and nothing else.
   */
  function RenderedLength(length: nat, done: bool, pageSize: nat): (n: nat)
    ensures n >= length
    ensures n > length ==> !done
  {
    (if done then 0 else pageSize) + length
  }

  /** Whether the empty placeholder is rendered. */
  function ShowEmpty(done: bool, length: nat): bool
  {
    done && length == 0
  }

  /** `!done && !loadingMore && visibility.max + 1 >= length`: whether the pagination effect starts a load. */
  function ShouldLoad(done: bool, loadingMore: bool, max: Ext, length: nat): (b: bool)
    ensures b ==> !done && !loadingMore
    ensures max == NegInf ==> !b
    ensures max.Fin? ==> (b <==> !done && !loadingMore && max.n + 1 >= length)
  {
    !done && !loadingMore && !Less(Plus(max, 1), Fin(length))
  }

  /**
   * The empty placeholder goes with an empty tree and a quiet cooperator: it is shown exactly
   * when no more data will come and none is known, and then no slot is rendered and no load starts.
   */
  lemma EmptyStateExclusive(done: bool, loadingMore: bool, max: Ext, length: nat, pageSize: nat)
    ensures ShowEmpty(done, length) ==> RenderedLength(length, done, pageSize) == 0
    ensures ShowEmpty(done, length) ==> !ShouldLoad(done, loadingMore, max, length)
    ensures !ShowEmpty(done, length) && done ==> RenderedLength(length, done, pageSize) > 0
  {
  }

  /**
   * The prefetch frontier: while more data may come and no load is outstanding, a visible
   * maximum anywhere from the last known row through the loading slots starts a load.
   */
  lemma FrontierTriggersLoad(length: nat, pageSize: nat, i: int)
    requires length - 1 <= i < RenderedLength(length, false, pageSize)
    ensures ShouldLoad(false, false, Fin(i), length)
  {
  }

  /** The call the visibility effect makes: `onVisibilityChange(min, max)`, only for a finite `min`. */
  function Notification(v: Range): Option<(int, Ext)>
  {
    if v.min.Fin? then Some((v.min.n, v.max)) else None
  }

  /** For a range the tracker produces, a notification carries two finite, ordered indices. */
  lemma NotificationFinite(v: Range)
    requires WellFormed(v)
    ensures Notification(v).Some? ==> Notification(v).value.1.Fin?
    ensures Notification(v).Some? ==> 0 <= Notification(v).value.0 <= Notification(v).value.1.n
    ensures v == Unobserved ==> Notification(v).None?
  {
  }

  /** The value a rejected load carries; only a truthy one makes the render throw. */
  datatype Reason = Undefined | Falsy | Thrown(id: nat)

  predicate Truthy(e: Reason)
  {
    e.Thrown?
  }

  /** What one successful render hands on: the tree's size, fan-out and length, and the empty flag. */
  datatype View = View(rootSize: Ext, branch: nat, length: nat, empty: bool)

  /** The last entry of a list of effect flags turned off: the cleanup of the latest effect run. */
  function CleanedUp(valid: seq<bool>): (r: seq<bool>)
    ensures |r| == |valid|
    ensures |r| > 0 ==> !r[|r| - 1] && r[..|r| - 1] == valid[..|valid| - 1]
  {
    if valid == [] then [] else valid[|valid| - 1 := false]
  }

  class Controller {
    const branch: nat
    const pageSize: nat

    /** No more pages to load. */
    var done: bool
    /** The single-flight guard. */
    var loadingMore: bool
    /** The captured load failure, `Undefined` until one is stored. */
    var err: Reason
    /** The number of known rows as of the last render (`length.current`). */
    var length: nat
    /** The `valid` flag of every pagination effect run so far, oldest first. */
    var valid: seq<bool>
    /** The effect runs whose `loadMore()` has not settled yet. */
    var inFlight: seq<nat>
    /** The dependencies (rows identity, `visibility.max`) of the last pagination effect run. */
    var deps: Option<(nat, Ext)>
    /** The visibility value of the last visibility effect run. */
    var shown: Option<Range>
    var mounted: bool

    /**
     * Single flight: at most one load is outstanding, and the guard is set exactly while one
     * is. Only the latest effect run can still be valid, and none once unmounted.
     */
    ghost predicate Valid()
      reads this
    {
      |inFlight| <= 1 &&
      (loadingMore <==> |inFlight| == 1) &&
      (forall j :: 0 <= j < |inFlight| ==> inFlight[j] < |valid|) &&
      (forall k :: 0 <= k < |valid| - 1 ==> !valid[k]) &&
      (!mounted && |valid| > 0 ==> !valid[|valid| - 1]) &&
      (deps.None? <==> valid == [])
    }

    /** Mounting: `done` starts as `!load?.hasMore()`, nothing is loading and no effect has run. */
    constructor (branch: nat, pageSize: nat, coop: Option<Cooperator>)
      ensures Valid()
      ensures this.branch == branch && this.pageSize == pageSize
      ensures done == DoneFrom(coop) && !loadingMore && err == Undefined && length == 0
      ensures valid == [] && inFlight == [] && deps == None && shown == None && mounted
    {
      this.branch := branch;
      this.pageSize := pageSize;
      done := DoneFrom(coop);
      loadingMore := false;
      err := Undefined;
      length := 0;
      valid, inFlight := [], [];
      deps, shown := None, None;
      mounted := true;
    }

    /**
     * One render and its effects, for rows with identity `rowsId` and `rowCount` entries and
     * the tracker's visibility `v`. The render throws a truthy captured error and then no effect
     * runs. Otherwise the pagination effect reruns when the rows or `v.max` changed: it cleans up
     * the previous run, recomputes `done`, and starts a load if the guard admits one. The
     * visibility effect runs when `v` changed and forwards a finite range to a listening cooperator.
     */
    method Commit(rowsId: nat, rowCount: nat, v: Range, coop: Option<Cooperator>)
      returns (out: Result<View, Reason>, fired: bool, call: Option<(int, Ext)>)
      requires Valid() && mounted
      modifies this
      ensures Valid() && mounted
      ensures length == rowCount && err == old(err)
      ensures Truthy(old(err)) ==> out == Failure(old(err)) && !fired && call == None
      ensures Truthy(old(err)) ==> done == old(done) && loadingMore == old(loadingMore) && valid == old(valid)
                                   && inFlight == old(inFlight) && deps == old(deps) && shown == old(shown)
      ensures !Truthy(old(err)) ==>
        out == Success(View(RootSize(branch), branch, RenderedLength(rowCount, old(done), pageSize),
                             ShowEmpty(old(done), rowCount)))
      ensures var rerun := !Truthy(old(err)) && old(deps) != Some((rowsId, v.max));
        && (rerun ==> done == DoneFrom(coop) && valid == CleanedUp(old(valid)) + [true]
                      && deps == Some((rowsId, v.max)))
        && (!rerun ==> done == old(done) && valid == old(valid) && deps == old(deps))
        && (fired <==> rerun && ShouldLoad(DoneFrom(coop), old(loadingMore), v.max, rowCount))
      ensures old(loadingMore) ==> !fired
      ensures fired ==> loadingMore && inFlight == [|valid| - 1]
      ensures !fired ==> loadingMore == old(loadingMore) && inFlight == old(inFlight)
      ensures var ran := !Truthy(old(err)) && old(shown) != Some(v);
        && (ran ==> shown == Some(v))
        && (!ran ==> shown == old(shown))
        && call == (if ran && coop.Some? && coop.value.listens then Notification(v) else None)
    {
      length := rowCount;
      fired, call := false, None;
      if Truthy(err) {
        return Failure(err), false, None;
      }
      out := Success(View(RootSize(branch), branch, RenderedLength(length, done, pageSize), ShowEmpty(done, length)));
      fired := PaginationEffect(rowsId, v.max, coop);
      call := VisibilityEffect(v, coop);
    }

    /**
     * The pagination effect, keyed on the rows and `v.max`: when either changed it cleans up the
     * previous run, recomputes `done`, and starts a load if the guard admits one.
     */
    method PaginationEffect(rowsId: nat, vmax: Ext, coop: Option<Cooperator>) returns (fired: bool)
      requires Valid() && mounted
      modifies this`valid, this`deps, this`done, this`loadingMore, this`inFlight
      ensures Valid()
      ensures var rerun := old(deps) != Some((rowsId, vmax));
        && (rerun ==> done == DoneFrom(coop) && valid == CleanedUp(old(valid)) + [true]
                      && deps == Some((rowsId, vmax)))
        && (!rerun ==> done == old(done) && valid == old(valid) && deps == old(deps))
        && (fired <==> rerun && ShouldLoad(DoneFrom(coop), old(loadingMore), vmax, length))
      ensures old(loadingMore) ==> !fired
      ensures fired ==> loadingMore && inFlight == [|valid| - 1]
      ensures !fired ==> loadingMore == old(loadingMore) && inFlight == old(inFlight)
    {
      fired := false;
      if deps != Some((rowsId, vmax)) {
        valid := CleanedUp(valid);
        deps := Some((rowsId, vmax));
        done := DoneFrom(coop);
        valid := valid + [true];
        if ShouldLoad(done, loadingMore, vmax, length) {
          loadingMore := true;
          inFlight := inFlight + [|valid| - 1];
          fired := true;
        }
      }
    }

    /**
     * The visibility effect, keyed on the whole range: when it changed, a finite range is
     * forwarded to a cooperator that listens.
     */
    method VisibilityEffect(v: Range, coop: Option<Cooperator>) returns (call: Option<(int, Ext)>)
      requires Valid()
      modifies this`shown
      ensures Valid()
      ensures var ran := old(shown) != Some(v);
        && (ran ==> shown == Some(v))
        && (!ran ==> shown == old(shown))
        && call == (if ran && coop.Some? && coop.value.listens then Notification(v) else None)
    {
      call := None;
      if shown != Some(v) {
        shown := Some(v);
        if coop.Some? && coop.value.listens {
          call := Notification(v);
        }
      }
    }

    /** The outstanding load resolved: the guard is released and nothing else changes. */
    method LoadSucceeded()
      requires Valid() && loadingMore
      modifies this`loadingMore, this`inFlight
      ensures Valid()
      ensures !loadingMore && inFlight == []
    {
      loadingMore := false;
      inFlight := [];
    }

    /**
     * The outstanding load rejected with `e`: the reason is stored only if the effect run that
     * started the load has not been cleaned up; the guard is released either way.
     */
    method LoadFailed(e: Reason)
      requires Valid() && loadingMore
      modifies this`loadingMore, this`inFlight, this`err
      ensures Valid()
      ensures !loadingMore && inFlight == []
      ensures err == if old(valid[inFlight[0]]) then e else old(err)
    {
      if valid[inFlight[0]] {
        err := e;
      }
      loadingMore := false;
      inFlight := [];
    }

    /** Unmounting runs the latest effect's cleanup, so a load still outstanding can no longer store its failure. */
    method Unmount()
      requires Valid() && mounted
      modifies this`mounted, this`valid
      ensures Valid() && !mounted
      ensures valid == CleanedUp(old(valid))
    {
      mounted := false;
      valid := CleanedUp(valid);
    }
  }
}

/** A client of the controller: ten rows loaded a page at a time until the cooperator has no more. */
module PaginationScenario {
  import opened Wrappers
  import opened Extended
  import opened Visibility
  import opened Pagination

  /**
   * Ten rows, a cooperator that has more, pages of 5, fan-out 3: the root holds 9 slots; a
   * visible maximum of 9 starts one load, a further advance while it is outstanding starts
   * none; once it resolves with 15 rows and no more to come, the tree covers exactly 15 rows.
   */
  method PrefetchScenario()
  {
    var c := new Controller(3, 5, Some(Cooperator(true, true)));
    var out, fired, call := c.Commit(1, 10, Unobserved, Some(Cooperator(true, true)));
    assert out == Success(View(Fin(9), 3, 15, false)) && !fired && call == None;
    out, fired, call := c.Commit(1, 10, Range(Fin(4), Fin(9)), Some(Cooperator(true, true)));
    assert fired && call == Some((4, Fin(9)));
    out, fired, call := c.Commit(1, 10, Range(Fin(5), Fin(11)), Some(Cooperator(true, true)));
    assert !fired;
    c.LoadSucceeded();
    out, fired, call := c.Commit(2, 15, Range(Fin(5), Fin(11)), Some(Cooperator(false, true)));
    assert !fired && c.done;
    out, fired, call := c.Commit(2, 15, Range(Fin(5), Fin(11)), Some(Cooperator(false, true)));
    assert out == Success(View(Fin(9), 3, 15, false)) && !fired && call == None;
  }
}
