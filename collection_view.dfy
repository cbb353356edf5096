/** The binder that applies a `DataHolderUpdate` to a collection view
    (`Reactive.dataUpdates()` on `UICollectionView`). The collection view is
    abstract: it records, in order, each evaluation of an update's deferred
    index-path closure and each view operation requested of it. */
module CollectionViewUpdates {
  import opened ListViewModel

  /** An update to the bound list. Each handled variant carries the index paths
      its deferred closure yields when evaluated; `None` is the value the update
      stream is replaced by when it fails. */
  datatype DataHolderUpdate =
    | Reload(updates: seq<IndexPath>)
    | DeleteItems(updates: seq<IndexPath>)
    | DeleteSections(updates: seq<IndexPath>)
    | InsertItems(updates: seq<IndexPath>)
    | InsertSections(updates: seq<IndexPath>)
    | Move(updates: seq<IndexPath>)
    | None

  /** An operation requested inside a batch update. */
  datatype BatchOp =
    | DeleteItemsAt(paths: seq<IndexPath>)
    | InsertItemsAt(paths: seq<IndexPath>)
    | DeleteSectionsIn(sections: set<int>)
    | InsertSectionsIn(sections: set<int>)

  /** A view operation requested of the collection view. */
  datatype ViewOp = ReloadData | PerformBatchUpdates(ops: seq<BatchOp>)

  /** What the collection view observes: an evaluation of an update's closure,
      or a requested view operation. */
  datatype Event = Evaluated | Requested(op: ViewOp)

  // ---------------------------------------------------------------------------
  // Section sets: IndexSet(indexPaths.compactMap { $0.last })
  // ---------------------------------------------------------------------------

  /** `Int.max` on a 64-bit platform. */
  const IntMax: int := 0x7FFF_FFFF_FFFF_FFFF

  /** The values Foundation's `IndexSet` accepts, `0 ..< Int.max - 1`; any other
      value makes the underlying `NSIndexSet` raise a range exception. */
  predicate InIndexSetRange(x: int)
  {
    0 <= x < IntMax - 1
  }

  /** `path.last == Some(x)`. */
  predicate EndsWith(path: IndexPath, x: int)
  {
    |path| > 0 && path[|path| - 1] == x
  }

  /** Every non-empty path ends with a value `IndexSet` accepts: exactly the
      closure results on which building the section set does not trap. */
  predicate LastsInRange(paths: seq<IndexPath>)
  {
    forall p :: p in paths && |p| > 0 ==> InIndexSetRange(p[|p| - 1])
  }

  /** `indexPaths.compactMap { $0.last }`: the last component of every
      non-empty path, in order; empty paths are dropped. */
  function LastComponents(paths: seq<IndexPath>): (lasts: seq<int>)
    ensures |lasts| <= |paths|
  {
    if paths == [] then []
    else (if |paths[0]| == 0 then [] else [paths[0][|paths[0]| - 1]]) + LastComponents(paths[1..])
  }

  /** A value is a last component exactly when some non-empty path ends with it. */
  lemma {:induction false} LastComponentsMembers(paths: seq<IndexPath>, x: int)
    ensures x in LastComponents(paths) <==> exists p :: p in paths && EndsWith(p, x)
  {
    if paths != [] {
      LastComponentsMembers(paths[1..], x);
      if EndsWith(paths[0], x) {
        assert paths[0] in paths;
      }
      if x in LastComponents(paths[1..]) {
        var p :| p in paths[1..] && EndsWith(p, x);
        assert p in paths;
      }
      if exists p :: p in paths && EndsWith(p, x) {
        var p :| p in paths && EndsWith(p, x);
        if p == paths[0] {
          assert LastComponents(paths) == [x] + LastComponents(paths[1..]);
        } else {
          assert p in paths[1..];
        }
      }
    }
  }

  /** `IndexSet(_:)` over a sequence of integers: inserts each element in turn. */
  function IndexSet(xs: seq<int>): (s: set<int>)
    requires forall x :: x in xs ==> InIndexSetRange(x)
    ensures forall x :: x in s <==> x in xs
    ensures |s| <= |xs|
  {
    if xs == [] then {}
    else
      assert xs == [xs[0]] + xs[1..];
      {xs[0]} + IndexSet(xs[1..])
  }

  /** The sections a section update names: a section is named exactly when
      some non-empty path ends with it, so order, repetition and empty paths
      do not matter, and two paths with the same last component name one
      section. */
  function SectionSet(paths: seq<IndexPath>): (s: set<int>)
    requires LastsInRange(paths)
    ensures forall x :: x in s <==> exists p :: p in paths && EndsWith(p, x)
    ensures |s| <= |paths|
  {
    assert forall x :: x in LastComponents(paths) <==> exists p :: p in paths && EndsWith(p, x) by {
      forall x { LastComponentsMembers(paths, x); }
    }
    IndexSet(LastComponents(paths))
  }

  /** compactMap distributes over concatenation. */
  lemma {:induction false} LastComponentsAppend(a: seq<IndexPath>, b: seq<IndexPath>)
    ensures LastComponents(a + b) == LastComponents(a) + LastComponents(b)
  {
    if a == [] {
      assert a + b == b;
    } else {
      var head := if |a[0]| == 0 then [] else [a[0][|a[0]| - 1]];
      calc {
        LastComponents(a + b);
        { assert (a + b)[0] == a[0]; }
        head + LastComponents((a + b)[1..]);
        { assert (a + b)[1..] == a[1..] + b; LastComponentsAppend(a[1..], b); }
        head + (LastComponents(a[1..]) + LastComponents(b));
        (head + LastComponents(a[1..])) + LastComponents(b);
        LastComponents(a) + LastComponents(b);
      }
    }
  }

  /** The section set of a concatenation is the union of the section sets. */
  lemma SectionSetAppend(a: seq<IndexPath>, b: seq<IndexPath>)
    requires LastsInRange(a) && LastsInRange(b)
    ensures SectionSet(a + b) == SectionSet(a) + SectionSet(b)
  {
  }

  /** An empty path contributes no section. */
  lemma EmptyPathNamesNoSection(paths: seq<IndexPath>)
    requires LastsInRange(paths)
    ensures SectionSet(paths + [[]]) == SectionSet(paths)
  {
  }

  /** Only which paths occur matters: lists holding the same paths, in any
      order and with any repetition, name the same sections. */
  lemma SectionSetOnlyPathSet(a: seq<IndexPath>, b: seq<IndexPath>)
    requires LastsInRange(a)
    requires forall p :: p in a <==> p in b
    ensures LastsInRange(b)
    ensures SectionSet(a) == SectionSet(b)
  {
  }

  /** For one-component paths (`IndexPath(index:)`), the sections named are the
      components themselves. */
  lemma SectionSetOfSingletons(paths: seq<IndexPath>)
    requires forall k :: 0 <= k < |paths| ==> |paths[k]| == 1
    requires LastsInRange(paths)
    ensures SectionSet(paths) == set k | 0 <= k < |paths| :: paths[k][0]
  {
    var firsts := set k | 0 <= k < |paths| :: paths[k][0];
    var named := SectionSet(paths);
    assert named <= firsts by {
      forall x | x in named
        ensures x in firsts
      {
        var p :| p in paths && EndsWith(p, x);
        var k :| 0 <= k < |paths| && paths[k] == p;
        assert |p| == 1 && p[0] == x;
      }
    }
    assert firsts <= named by {
      forall x | x in firsts
        ensures x in named
      {
        var k :| 0 <= k < |paths| && paths[k][0] == x;
        assert paths[k] in paths && EndsWith(paths[k], x);
      }
    }
  }

  // ---------------------------------------------------------------------------
  // The dispatch table and its trace
  // ---------------------------------------------------------------------------

  /** The updates the binder applies without trapping: a section update's
      closure must return paths whose section set `IndexSet` accepts. */
  predicate Applicable(update: DataHolderUpdate)
  {
    (update.DeleteSections? || update.InsertSections?) ==> LastsInRange(update.updates)
  }

  /** The events that applying `update` adds to the collection view's trace. */
  function Effect(update: DataHolderUpdate): (events: seq<Event>)
    requires Applicable(update)
    ensures |events| <= 2
    ensures events == [] <==> update.None?
    ensures update.Move? <==> events == [Evaluated]
  {
    match update
    case Reload(_) => [Evaluated, Requested(ReloadData)]
    case DeleteItems(paths) => [Evaluated, Requested(PerformBatchUpdates([DeleteItemsAt(paths)]))]
    case DeleteSections(paths) => [Evaluated, Requested(PerformBatchUpdates([DeleteSectionsIn(SectionSet(paths))]))]
    case InsertItems(paths) => [Evaluated, Requested(PerformBatchUpdates([InsertItemsAt(paths)]))]
    case InsertSections(paths) => [Evaluated, Requested(PerformBatchUpdates([InsertSectionsIn(SectionSet(paths))]))]
    case Move(_) => [Evaluated]
    case None => []
  }

  /** The view operations requested in a trace, in order. */
  function Requests(trace: seq<Event>): (ops: seq<ViewOp>)
    ensures |ops| <= |trace|
  {
    if trace == [] then []
    else (if trace[0].Requested? then [trace[0].op] else []) + Requests(trace[1..])
  }

  /** The number of closure evaluations in a trace. */
  function Evaluations(trace: seq<Event>): (n: nat)
    ensures n <= |trace|
  {
    if trace == [] then 0
    else (if trace[0].Evaluated? then 1 else 0) + Evaluations(trace[1..])
  }

  lemma {:induction false} RequestsAppend(a: seq<Event>, b: seq<Event>)
    ensures Requests(a + b) == Requests(a) + Requests(b)
  {
    if a == [] {
      assert a + b == b;
    } else {
      var head := if a[0].Requested? then [a[0].op] else [];
      calc {
        Requests(a + b);
        { assert (a + b)[0] == a[0]; }
        head + Requests((a + b)[1..]);
        { assert (a + b)[1..] == a[1..] + b; RequestsAppend(a[1..], b); }
        head + (Requests(a[1..]) + Requests(b));
        (head + Requests(a[1..])) + Requests(b);
        Requests(a) + Requests(b);
      }
    }
  }

  lemma {:induction false} EvaluationsAppend(a: seq<Event>, b: seq<Event>)
    ensures Evaluations(a + b) == Evaluations(a) + Evaluations(b)
  {
    if a == [] {
      assert a + b == b;
    } else {
      var head := if a[0].Evaluated? then 1 else 0;
      calc {
        Evaluations(a + b);
        { assert (a + b)[0] == a[0]; }
        head + Evaluations((a + b)[1..]);
        { assert (a + b)[1..] == a[1..] + b; EvaluationsAppend(a[1..], b); }
        head + (Evaluations(a[1..]) + Evaluations(b));
        (head + Evaluations(a[1..])) + Evaluations(b);
        Evaluations(a) + Evaluations(b);
      }
    }
  }

  /** An evaluation followed by one request requests exactly that operation. */
  lemma RequestsAfterEvaluation(op: ViewOp)
    ensures Requests([Evaluated, Requested(op)]) == [op]
  {
  }

  /** The view operations applying `update` requests: none for `Move` and
      `None`, a full reload for `Reload`, one batch for the four others. */
  function RequestsFor(update: DataHolderUpdate): (ops: seq<ViewOp>)
    requires Applicable(update)
    ensures |ops| <= 1
    ensures ops == [] <==> update.Move? || update.None?
    ensures ops == [ReloadData] <==> update.Reload?
  {
    var events := Effect(update);
    if |events| == 2 then
      RequestsAfterEvaluation(events[1].op);
      Requests(events)
    else
      assert |events| == 1 ==> events[1..] == [];
      Requests(events)
  }

  /** Every variant but `None` evaluates its closure exactly once, and that
      evaluation comes before any view operation it requests; `None` does
      nothing at all. */
  lemma EvaluatedOnceFirst(update: DataHolderUpdate)
    requires Applicable(update)
    ensures Evaluations(Effect(update)) == if update.None? then 0 else 1
    ensures !update.None? ==> Effect(update)[0] == Evaluated
    ensures forall k :: 0 < k < |Effect(update)| ==> Effect(update)[k].Requested?
  {
  }

  /** The item variants pass the closure's paths, unchanged and in order, to a
      batch whose only operation deletes or inserts them. */
  lemma ItemUpdatesPassPaths(update: DataHolderUpdate)
    requires update.DeleteItems? || update.InsertItems?
    ensures exists op :: RequestsFor(update) == [PerformBatchUpdates([op])] &&
                         (op.DeleteItemsAt? || op.InsertItemsAt?) &&
                         (op.DeleteItemsAt? <==> update.DeleteItems?) &&
                         op.paths == update.updates
  {
    var op := if update.DeleteItems? then DeleteItemsAt(update.updates) else InsertItemsAt(update.updates);
    RequestsAfterEvaluation(PerformBatchUpdates([op]));
    assert RequestsFor(update) == [PerformBatchUpdates([op])];
  }

  /** The section variants pass, in one batch with one operation, the set of
      last components of the closure's non-empty paths. */
  lemma SectionUpdatesPassLastComponents(update: DataHolderUpdate, x: int)
    requires update.DeleteSections? || update.InsertSections?
    requires Applicable(update)
    ensures exists op :: RequestsFor(update) == [PerformBatchUpdates([op])] &&
                         (op.DeleteSectionsIn? || op.InsertSectionsIn?) &&
                         (op.DeleteSectionsIn? <==> update.DeleteSections?) &&
                         (x in op.sections <==> exists p :: p in update.updates && EndsWith(p, x))
  {
    var s := SectionSet(update.updates);
    var op := if update.DeleteSections? then DeleteSectionsIn(s) else InsertSectionsIn(s);
    RequestsAfterEvaluation(PerformBatchUpdates([op]));
    assert RequestsFor(update) == [PerformBatchUpdates([op])];
  }

  /** Appending an update's effect to a trace appends its requests to the
      trace's requests and adds one evaluation unless the update is `None`. */
  lemma EffectExtendsTrace(trace: seq<Event>, update: DataHolderUpdate)
    requires Applicable(update)
    ensures Requests(trace + Effect(update)) == Requests(trace) + RequestsFor(update)
    ensures Evaluations(trace + Effect(update)) == Evaluations(trace) + (if update.None? then 0 else 1)
  {
    RequestsAppend(trace, Effect(update));
    EvaluationsAppend(trace, Effect(update));
    EvaluatedOnceFirst(update);
  }

  /** A UICollectionView, as far as the binder can see it. */
  class CollectionView {
    /** Every closure evaluation and view request so far, oldest first. */
    var trace: seq<Event>

    constructor ()
      ensures trace == []
    {
      trace := [];
    }

    /** The view operations requested so far. */
    function Log(): (ops: seq<ViewOp>)
      reads this
    {
      Requests(trace)
    }

    /** The number of closures evaluated so far. */
    function EvaluationCount(): (n: nat)
      reads this
    {
      Evaluations(trace)
    }

    /** Runs an update's deferred closure and yields its index paths. */
    method Evaluate(updates: seq<IndexPath>) returns (paths: seq<IndexPath>)
      modifies this
      ensures paths == updates
      ensures trace == old(trace) + [Evaluated]
    {
      paths := updates;
      trace := trace + [Evaluated];
    }

    /** `reloadData()`. */
    method ReloadData()
      modifies this
      ensures trace == old(trace) + [Requested(ViewOp.ReloadData)]
    {
      trace := trace + [Requested(ViewOp.ReloadData)];
    }

    /** `performBatchUpdates(_:completion:)` whose update block requests `ops`;
        `completed` is what UIKit later reports to the completion block, which
        returns without looking at it. */
    method PerformBatchUpdates(ops: seq<BatchOp>, completed: bool)
      modifies this
      ensures trace == old(trace) + [Requested(ViewOp.PerformBatchUpdates(ops))]
    {
      trace := trace + [Requested(ViewOp.PerformBatchUpdates(ops))];
    }

    /** The binder's closure applied to one update. It reports nothing back, and
        what it does does not depend on `completed`. */
    method ApplyDataUpdate(update: DataHolderUpdate, completed: bool)
      requires Applicable(update)
      modifies this
      ensures trace == old(trace) + Effect(update)
      ensures Log() == old(Log()) + RequestsFor(update)
      ensures EvaluationCount() == old(EvaluationCount()) + (if update.None? then 0 else 1)
    {
      match update {
        case Reload(updates) =>
          var _ := Evaluate(updates);
          ReloadData();
        case DeleteItems(updates) =>
          var indexPaths := Evaluate(updates);
          PerformBatchUpdates([DeleteItemsAt(indexPaths)], completed);
        case DeleteSections(updates) =>
          var indexPaths := Evaluate(updates);
          var indexSet := SectionSet(indexPaths);
          PerformBatchUpdates([DeleteSectionsIn(indexSet)], completed);
        case InsertItems(updates) =>
          var indexPaths := Evaluate(updates);
          PerformBatchUpdates([InsertItemsAt(indexPaths)], completed);
        case InsertSections(updates) =>
          var indexPaths := Evaluate(updates);
          var indexSet := SectionSet(indexPaths);
          PerformBatchUpdates([InsertSectionsIn(indexSet)], completed);
        case Move(updates) =>
          var _ := Evaluate(updates);
        case None =>
      }
      assert trace == old(trace) + Effect(update);
      EffectExtendsTrace(old(trace), update);
    }
  }
}
