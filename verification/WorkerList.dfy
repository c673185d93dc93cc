/**
  The list of live workers, arranged so that consecutive slots use different TURN paths as evenly as
  the live set allows.
*/
module WorkerList {
  /** `path` stands for the TURN path; only its order matters here. */
  datatype Worker = Worker(id: nat, incarnation: nat, path: int)

  predicate UniqueIds(workers: seq<Worker>)
  {
    forall i, j | 0 <= i < j < |workers| :: workers[i].id != workers[j].id
  }

  ghost function Members(workers: seq<Worker>): set<Worker>
  {
    set w | w in workers
  }

  // ---------------------------------------------------------------------------------------------
  // What an arrangement must be.
  // ---------------------------------------------------------------------------------------------

  function PathCount(workers: seq<Worker>, path: int): nat
  {
    if workers == [] then 0
    else PathCount(workers[..|workers| - 1], path) + if workers[|workers| - 1].path == path then 1 else 0
  }

  /** The round of the worker in slot `i`: how many workers of its path come before it. */
  function Round(workers: seq<Worker>, i: nat): nat
    requires i < |workers|
  {
    PathCount(workers[..i], workers[i].path)
  }

  predicate Precedes(roundA: int, pathA: int, roundB: int, pathB: int)
  {
    roundA < roundB || (roundA == roundB && pathA < pathB)
  }

  /** Rounds follow each other; within a round the paths ascend, within a path the ids ascend. */
  predicate Interleaved(workers: seq<Worker>)
  {
    && (forall i, j | 0 <= i < j < |workers| ::
          Precedes(Round(workers, i), workers[i].path, Round(workers, j), workers[j].path))
    && (forall i, j | 0 <= i < j < |workers| && workers[i].path == workers[j].path :: workers[i].id < workers[j].id)
  }

  ghost predicate Arranges(workers: seq<Worker>, live: set<Worker>)
  {
    Interleaved(workers) && Members(workers) == live
  }

  lemma {:induction false} CountGrows(workers: seq<Worker>, path: int, i: nat, j: nat)
    requires i <= j <= |workers|
    ensures PathCount(workers[..i], path) <= PathCount(workers[..j], path)
    decreases j
  {
    if i < j {
      CountGrows(workers, path, i, j - 1);
      assert workers[..j][..j - 1] == workers[..j - 1];
    }
  }

  /** The first slot from `i` on that holds the path, if its count grows before `j`. */
  lemma {:induction false} NextOfPath(workers: seq<Worker>, path: int, i: nat, j: nat) returns (k: nat)
    requires i < j <= |workers| && PathCount(workers[..i], path) < PathCount(workers[..j], path)
    ensures i <= k < j && workers[k].path == path && PathCount(workers[..k], path) == PathCount(workers[..i], path)
    decreases j - i
  {
    assert workers[..i + 1][..i] == workers[..i];
    if workers[i].path == path {
      k := i;
    } else {
      k := NextOfPath(workers, path, i + 1, j);
    }
  }

  lemma {:induction false} LastOfPath(workers: seq<Worker>, path: int, j: nat) returns (k: nat)
    requires j <= |workers| && PathCount(workers[..j], path) > 0
    ensures k < j && workers[k].path == path && PathCount(workers[..k], path) == PathCount(workers[..j], path) - 1
    decreases j
  {
    assert workers[..j][..j - 1] == workers[..j - 1];
    if workers[j - 1].path == path {
      k := j - 1;
    } else {
      k := LastOfPath(workers, path, j - 1);
    }
  }

  lemma SlotsInOrder(workers: seq<Worker>, i: nat, j: nat)
    requires Interleaved(workers) && i < j < |workers|
    ensures Precedes(PathCount(workers[..i], workers[i].path), workers[i].path,
                     PathCount(workers[..j], workers[j].path), workers[j].path)
  {
    assert Precedes(Round(workers, i), workers[i].path, Round(workers, j), workers[j].path);
  }

  /**
    Balance: while some worker of a path is still to come, no other path is more than one worker
    ahead of it. So two paths that both have workers left differ by at most one.
  */
  lemma EveryPrefixIsBalanced(workers: seq<Worker>, k: nat, path: int, other: int)
    requires Interleaved(workers) && k <= |workers|
    requires PathCount(workers[..k], path) < PathCount(workers, path)
    ensures PathCount(workers[..k], other) <= PathCount(workers[..k], path) + 1
  {
    hide Interleaved;
    if PathCount(workers[..k], other) > 0 {
      assert workers[..|workers|] == workers;
      var behind := LastOfPath(workers, other, k);
      var coming := NextOfPath(workers, path, k, |workers|);
      SlotsInOrder(workers, behind, coming);
    }
  }

  lemma NotEarlier(workers: seq<Worker>, k: nat)
    requires Interleaved(workers) && k < |workers|
    ensures workers[k] !in workers[..k]
  {
  }

  lemma HeldLater(workers: seq<Worker>, k: nat, w: Worker) returns (j: nat)
    requires k <= |workers| && w in workers && w !in workers[..k]
    ensures k <= j < |workers| && workers[j] == w
  {
    assert forall i | 0 <= i < k :: workers[i] in workers[..k];
    j :| 0 <= j < |workers| && workers[j] == w;
  }

  lemma MoreIsComing(workers: seq<Worker>, k: nat, j: nat)
    requires k <= j < |workers|
    ensures PathCount(workers[..k], workers[j].path) < PathCount(workers, workers[j].path)
  {
    CountGrows(workers, workers[j].path, k, j);
    CountGrows(workers, workers[j].path, j + 1, |workers|);
    assert workers[..j + 1][..j] == workers[..j] && workers[..|workers|] == workers;
  }

  /** A slot comes before the next slot of any other path that still has workers to come. */
  lemma SlotComesFirst(workers: seq<Worker>, k: nat, path: int)
    requires Interleaved(workers) && k < |workers| && path != workers[k].path
    requires PathCount(workers[..k], path) < PathCount(workers, path)
    ensures Precedes(PathCount(workers[..k], workers[k].path), workers[k].path, PathCount(workers[..k], path), path)
  {
    assert workers[..|workers|] == workers;
    var next := NextOfPath(workers, path, k, |workers|);
    SlotsInOrder(workers, k, next);
  }

  /** Two arrangements of the same workers cannot part in any slot. */
  lemma SameSlot(a: seq<Worker>, b: seq<Worker>, k: nat)
    requires Interleaved(a) && Interleaved(b) && Members(a) == Members(b)
    requires k < |a| && k < |b| && a[..k] == b[..k]
    ensures a[k] == b[k]
  {
    hide Precedes;
    NotEarlier(a, k);
    NotEarlier(b, k);
    assert a[k] in Members(a) && b[k] in Members(b);
    var inB := HeldLater(b, k, a[k]);
    var inA := HeldLater(a, k, b[k]);
    if a[k].path != b[k].path {
      MoreIsComing(b, k, inB);
      MoreIsComing(a, k, inA);
      SlotComesFirst(a, k, b[k].path);
      SlotComesFirst(b, k, a[k].path);
      OneWay(PathCount(a[..k], a[k].path), a[k].path, PathCount(a[..k], b[k].path), b[k].path);
    }
  }

  lemma OneWay(roundA: int, pathA: int, roundB: int, pathB: int)
    ensures !(Precedes(roundA, pathA, roundB, pathB) && Precedes(roundB, pathB, roundA, pathA))
  {
  }

  lemma {:induction false} SamePrefix(a: seq<Worker>, b: seq<Worker>, k: nat)
    requires Interleaved(a) && Interleaved(b) && Members(a) == Members(b)
    requires k <= |a| && k <= |b|
    ensures a[..k] == b[..k]
  {
    if k > 0 {
      SamePrefix(a, b, k - 1);
      SameSlot(a, b, k - 1);
      assert a[..k] == a[..k - 1] + [a[k - 1]] && b[..k] == b[..k - 1] + [b[k - 1]];
    }
  }

  lemma NotShorter(a: seq<Worker>, b: seq<Worker>)
    requires Interleaved(a) && Interleaved(b) && Members(a) == Members(b)
    ensures |a| <= |b|
  {
    if |a| > |b| {
      assert a[|b|] in Members(a) && a[|b|] in Members(b) && b[..|b|] == b;
      SamePrefix(a, b, |b|);
      NotEarlier(a, |b|);
    }
  }

  /** The arrangement depends only on the set of live workers. */
  lemma ArrangementIsDetermined(a: seq<Worker>, b: seq<Worker>, live: set<Worker>)
    requires Arranges(a, live) && Arranges(b, live)
    ensures a == b
  {
    NotShorter(a, b);
    NotShorter(b, a);
    SamePrefix(a, b, |a|);
    assert a[..|a|] == a && b[..|b|] == b;
  }

  // ---------------------------------------------------------------------------------------------
  // The algorithm.
  // ---------------------------------------------------------------------------------------------

  predicate Below(a: Worker, b: Worker)
  {
    a.path < b.path || (a.path == b.path && a.id < b.id)
  }

  predicate Sorted(workers: seq<Worker>)
  {
    forall i, j | 0 <= i < j < |workers| :: Below(workers[i], workers[j])
  }

  function Insert(workers: seq<Worker>, w: Worker): seq<Worker>
  {
    if workers == [] || Below(w, workers[0]) then [w] + workers else [workers[0]] + Insert(workers[1..], w)
  }

  /** The sort by path and then id. */
  function SortByPath(workers: seq<Worker>): seq<Worker>
  {
    if workers == [] then [] else Insert(SortByPath(workers[1..]), workers[0])
  }

  lemma {:induction false} InsertMembers(workers: seq<Worker>, w: Worker)
    ensures Members(Insert(workers, w)) == Members(workers) + {w}
  {
    if workers != [] && !Below(w, workers[0]) {
      InsertMembers(workers[1..], w);
      assert workers == [workers[0]] + workers[1..];
      assert forall v :: v in Insert(workers[1..], w) <==> v in Members(Insert(workers[1..], w));
    }
  }

  lemma {:induction false} InsertSorts(workers: seq<Worker>, w: Worker)
    requires Sorted(workers) && forall v | v in workers :: v.id != w.id
    ensures Sorted(Insert(workers, w))
  {
    if workers != [] && !Below(w, workers[0]) {
      assert workers[0] in workers;
      InsertSorts(workers[1..], w);
      InsertMembers(workers[1..], w);
      forall v | v in Insert(workers[1..], w) ensures Below(workers[0], v) {
        assert v in Members(Insert(workers[1..], w));
      }
    }
  }

  lemma {:induction false} SortKeeps(workers: seq<Worker>)
    requires UniqueIds(workers)
    ensures Sorted(SortByPath(workers)) && Members(SortByPath(workers)) == Members(workers)
  {
    if workers != [] {
      SortKeeps(workers[1..]);
      forall v | v in SortByPath(workers[1..]) ensures v.id != workers[0].id {
        assert v in Members(workers[1..]);
      }
      InsertSorts(SortByPath(workers[1..]), workers[0]);
      InsertMembers(SortByPath(workers[1..]), workers[0]);
      assert workers == [workers[0]] + workers[1..];
    }
  }

  /** Groups of one path each, the paths ascending. */
  predicate Grouped(groups: seq<seq<Worker>>)
  {
    && (forall g | 0 <= g < |groups| :: groups[g] != [] && Sorted(groups[g]))
    && (forall g, x | 0 <= g < |groups| && 0 <= x < |groups[g]| :: groups[g][x].path == groups[g][0].path)
    && (forall g, h | 0 <= g < h < |groups| :: groups[g][0].path < groups[h][0].path)
  }

  ghost predicate Holds(groups: seq<seq<Worker>>, w: Worker)
  {
    exists g, x | 0 <= g < |groups| && 0 <= x < |groups[g]| :: groups[g][x] == w
  }

  method GroupByPath(sorted: seq<Worker>) returns (groups: seq<seq<Worker>>)
    requires Sorted(sorted)
    ensures Grouped(groups)
    ensures forall w :: Holds(groups, w) <==> w in sorted
  {
    groups := [];
    for i := 0 to |sorted|
      invariant Grouped(groups)
      invariant forall w :: Holds(groups, w) <==> w in sorted[..i]
      invariant groups != [] ==> i > 0 && groups[|groups| - 1][|groups[|groups| - 1]| - 1] == sorted[i - 1]
      invariant groups == [] ==> i == 0
    {
      ghost var before := groups;
      var last := |groups| - 1;
      if groups != [] && groups[last][0].path == sorted[i].path {
        groups := groups[last := groups[last] + [sorted[i]]];
      } else {
        groups := groups + [[sorted[i]]];
      }
      GroupGains(before, groups, sorted[i]);
      assert sorted[..i + 1] == sorted[..i] + [sorted[i]];
    }
    assert sorted[..|sorted|] == sorted;
  }

  lemma GroupGains(before: seq<seq<Worker>>, after: seq<seq<Worker>>, w: Worker)
    requires after == before + [[w]] || (before != [] && after == before[|before| - 1 := before[|before| - 1] + [w]])
    ensures forall v :: Holds(after, v) <==> Holds(before, v) || v == w
  {
    forall v ensures Holds(after, v) <==> Holds(before, v) || v == w {
      if Holds(before, v) {
        var g, x :| 0 <= g < |before| && 0 <= x < |before[g]| && before[g][x] == v;
        assert after[g][x] == v;
      }
      assert after[|after| - 1][|after[|after| - 1]| - 1] == w;
      if Holds(after, v) && v != w {
        var g, x :| 0 <= g < |after| && 0 <= x < |after[g]| && after[g][x] == v;
        assert before[g][x] == v;
      }
    }
  }

  /** The place of a slot's worker in the groups. */
  datatype Place = Place(offset: nat, group: nat)

  predicate Before(a: Place, b: Place)
  {
    a.offset < b.offset || (a.offset == b.offset && a.group < b.group)
  }

  /**
    Everything placed before `next` has been taken, in order: slot `i` holds the worker at `places[i]`.
  */
  predicate TakenUpTo(workers: seq<Worker>, places: seq<Place>, groups: seq<seq<Worker>>, next: Place)
  {
    && |workers| == |places|
    && (forall i | 0 <= i < |places| ::
          places[i].group < |groups| && places[i].offset < |groups[places[i].group]| &&
          workers[i] == groups[places[i].group][places[i].offset] && Before(places[i], next))
    && (forall i, j | 0 <= i < j < |places| :: Before(places[i], places[j]))
    && (forall g, x | 0 <= g < |groups| && 0 <= x < |groups[g]| && Before(Place(x, g), next) :: Place(x, g) in places)
  }

  lemma TakeOne(workers: seq<Worker>, places: seq<Place>, groups: seq<seq<Worker>>, next: Place)
    requires TakenUpTo(workers, places, groups, next) && next.group < |groups|
    ensures next.offset < |groups[next.group]| ==>
              TakenUpTo(workers + [groups[next.group][next.offset]], places + [next], groups,
                  Place(next.offset, next.group + 1))
    ensures next.offset >= |groups[next.group]| ==>
              TakenUpTo(workers, places, groups, Place(next.offset, next.group + 1))
  {
  }

  lemma RoundOver(workers: seq<Worker>, places: seq<Place>, groups: seq<seq<Worker>>, offset: nat)
    requires TakenUpTo(workers, places, groups, Place(offset, |groups|))
    ensures TakenUpTo(workers, places, groups, Place(offset + 1, 0))
  {
  }

  /** The round of a slot is its offset in its group. */
  lemma {:induction false} CountIsOffset(workers: seq<Worker>, places: seq<Place>, groups: seq<seq<Worker>>,
      next: Place, g: nat)
    requires Grouped(groups) && TakenUpTo(workers, places, groups, next) && g < |groups|
    ensures PathCount(workers, groups[g][0].path) == Taken(|groups[g]|, g, next)
    decreases |workers|
  {
    if workers != [] {
      var last := |workers| - 1;
      var place := places[last];
      DropLast(workers, places, groups, next);
      CountIsOffset(workers[..last], places[..last], groups, place, g);
      assert workers[last].path == groups[g][0].path <==> place.group == g;
      BetweenLastAndNext(workers, places, groups, next, g);
    } else {
      NothingTaken(places, groups, next, g);
    }
  }

  /** How many workers of a group of this size come before `next`. */
  function Taken(size: nat, g: nat, next: Place): nat
  {
    var full := if g < next.group then next.offset + 1 else next.offset;
    if full < size then full else size
  }

  lemma NothingTaken(places: seq<Place>, groups: seq<seq<Worker>>, next: Place, g: nat)
    requires Grouped(groups) && TakenUpTo([], places, groups, next) && g < |groups|
    ensures Taken(|groups[g]|, g, next) == 0
  {
    assert !Before(Place(0, g), next) by {
      assert 0 < |groups[g]|;
      assert Place(0, g) !in places;
    }
  }

  lemma DropLast(workers: seq<Worker>, places: seq<Place>, groups: seq<seq<Worker>>, next: Place)
    requires TakenUpTo(workers, places, groups, next) && workers != []
    ensures TakenUpTo(workers[..|workers| - 1], places[..|workers| - 1], groups, places[|workers| - 1])
  {
    var last := |workers| - 1;
    forall g, x | 0 <= g < |groups| && 0 <= x < |groups[g]| && Before(Place(x, g), places[last])
      ensures Place(x, g) in places[..last]
    {
      assert Before(Place(x, g), next);
      var i :| 0 <= i < |places| && places[i] == Place(x, g);
      assert places[..last][i] == Place(x, g);
    }
  }

  lemma BetweenLastAndNext(workers: seq<Worker>, places: seq<Place>, groups: seq<seq<Worker>>, next: Place, g: nat)
    requires Grouped(groups) && TakenUpTo(workers, places, groups, next) && workers != [] && g < |groups|
    ensures var place := places[|workers| - 1];
            Taken(|groups[g]|, g, next) == Taken(|groups[g]|, g, place) + if place.group == g then 1 else 0
  {
    var place := places[|workers| - 1];
    var t := Taken(|groups[g]|, g, place) + if place.group == g then 1 else 0;
    if t < |groups[g]| {
      assert Place(t, g) !in places && !Before(Place(t, g), next);
    }
  }

  /** Taking the groups in turn, one worker each, gives an arrangement. */
  lemma TakenInTurnIsInterleaved(workers: seq<Worker>, places: seq<Place>, groups: seq<seq<Worker>>, next: Place)
    requires Grouped(groups) && TakenUpTo(workers, places, groups, next)
    ensures Interleaved(workers)
  {
    hide Grouped, TakenUpTo;
    forall i, j | 0 <= i < j < |workers|
      ensures Precedes(Round(workers, i), workers[i].path, Round(workers, j), workers[j].path)
      ensures workers[i].path == workers[j].path ==> workers[i].id < workers[j].id
    {
      RoundIsOffset(workers, places, groups, next, i);
      RoundIsOffset(workers, places, groups, next, j);
      PlacesInOrder(workers, places, groups, next, i, j);
    }
  }

  lemma RoundIsOffset(workers: seq<Worker>, places: seq<Place>, groups: seq<seq<Worker>>, next: Place, i: nat)
    requires Grouped(groups) && TakenUpTo(workers, places, groups, next) && i < |workers|
    ensures |places| == |workers| && Round(workers, i) == places[i].offset
  {
    PrefixTaken(workers, places, groups, next, i);
    CountIsOffset(workers[..i], places[..i], groups, places[i], places[i].group);
  }

  lemma PlacesInOrder(workers: seq<Worker>, places: seq<Place>, groups: seq<seq<Worker>>, next: Place, i: nat, j: nat)
    requires Grouped(groups) && TakenUpTo(workers, places, groups, next) && i < j < |workers| == |places|
    ensures Precedes(places[i].offset, workers[i].path, places[j].offset, workers[j].path)
    ensures workers[i].path == workers[j].path ==> workers[i].id < workers[j].id
  {
    var a, b := places[i], places[j];
    assert Before(a, b);
    if a.group == b.group {
      assert Below(groups[a.group][a.offset], groups[a.group][b.offset]);
    } else {
      assert groups[a.group][0].path != groups[b.group][0].path;
    }
  }

  lemma {:induction false} PrefixTaken(workers: seq<Worker>, places: seq<Place>, groups: seq<seq<Worker>>,
      next: Place, i: nat)
    requires TakenUpTo(workers, places, groups, next) && i < |workers|
    ensures TakenUpTo(workers[..i], places[..i], groups, places[i])
    decreases |workers|
  {
    var last := |workers| - 1;
    DropLast(workers, places, groups, next);
    if i < last {
      PrefixTaken(workers[..last], places[..last], groups, places[last], i);
      assert workers[..last][..i] == workers[..i] && places[..last][..i] == places[..i];
    }
  }

  /** Sorts, groups by path, and takes one worker of each group per round until a round adds none. */
  method InterleaveTurnPaths(workers: seq<Worker>) returns (arranged: seq<Worker>)
    requires UniqueIds(workers)
    ensures Arranges(arranged, Members(workers))
  {
    hide Grouped, TakenUpTo, Interleaved;
    var sorted := SortByPath(workers);
    SortKeeps(workers);
    var groups := GroupByPath(sorted);
    arranged := [];
    ghost var places: seq<Place> := [];
    NothingYet(groups);
    var offset := 0;
    var added := true;
    while added
      invariant Grouped(groups) && TakenUpTo(arranged, places, groups, Place(offset, 0))
      invariant !added ==> forall g | 0 <= g < |groups| :: |groups[g]| < offset
      decreases added, Longest(groups) - offset
    {
      added := false;
      for g := 0 to |groups|
        invariant TakenUpTo(arranged, places, groups, Place(offset, g))
        invariant !added ==> forall h | 0 <= h < g :: |groups[h]| <= offset
        invariant added ==> offset < Longest(groups)
      {
        TakeOne(arranged, places, groups, Place(offset, g));
        if offset < |groups[g]| {
          LongestBounds(groups, g);
          arranged, places := arranged + [groups[g][offset]], places + [Place(offset, g)];
          added := true;
        }
      }
      RoundOver(arranged, places, groups, offset);
      offset := offset + 1;
    }
    TakenInTurnIsInterleaved(arranged, places, groups, Place(offset, 0));
    AllTaken(arranged, places, groups, offset);
    assert Members(arranged) == Members(sorted);
  }

  lemma NothingYet(groups: seq<seq<Worker>>)
    ensures TakenUpTo([], [], groups, Place(0, 0))
  {
  }

  function Longest(groups: seq<seq<Worker>>): nat
  {
    if groups == [] then 0
    else
      var rest := Longest(groups[..|groups| - 1]);
      if |groups[|groups| - 1]| > rest then |groups[|groups| - 1]| else rest
  }

  lemma {:induction false} LongestBounds(groups: seq<seq<Worker>>, g: nat)
    requires g < |groups|
    ensures |groups[g]| <= Longest(groups)
  {
    if g < |groups| - 1 {
      LongestBounds(groups[..|groups| - 1], g);
    }
  }

  lemma AllTaken(workers: seq<Worker>, places: seq<Place>, groups: seq<seq<Worker>>, offset: nat)
    requires TakenUpTo(workers, places, groups, Place(offset, 0))
    requires forall g | 0 <= g < |groups| :: |groups[g]| < offset
    ensures forall w :: w in workers <==> Holds(groups, w)
  {
    forall w ensures w in workers <==> Holds(groups, w) {
      if Holds(groups, w) {
        var g, x :| 0 <= g < |groups| && 0 <= x < |groups[g]| && groups[g][x] == w;
        assert Place(x, g) in places;
        var i :| 0 <= i < |places| && places[i] == Place(x, g);
        assert workers[i] == w;
      }
      if w in workers {
        var i :| 0 <= i < |workers| && workers[i] == w;
        assert groups[places[i].group][places[i].offset] == w;
      }
    }
  }

  // ---------------------------------------------------------------------------------------------
  // The dispatcher's list over any history.
  // ---------------------------------------------------------------------------------------------

  datatype Change = Register(worker: Worker) | Unregister(id: nat, incarnation: nat)

  /** The live workers after one change, as a plain set. */
  ghost function Changed(live: set<Worker>, change: Change): set<Worker>
  {
    match change
    case Register(worker) => (set w | w in live && w.id != worker.id) + {worker}
    case Unregister(id, incarnation) => set w | w in live && (w.id != id || w.incarnation != incarnation)
  }

  ghost function Live(history: seq<Change>): set<Worker>
  {
    if history == [] then {} else Changed(Live(history[..|history| - 1]), history[|history| - 1])
  }

  lemma {:induction false} LiveIdsAreUnique(history: seq<Change>, a: Worker, b: Worker)
    requires a in Live(history) && b in Live(history) && a.id == b.id
    ensures a == b
  {
    if history != [] {
      var before, change := history[..|history| - 1], history[|history| - 1];
      if a in Live(before) && b in Live(before) {
        LiveIdsAreUnique(before, a, b);
      }
    }
  }

  /** An unregister that names another incarnation than the live one changes nothing. */
  lemma StaleUnregisterIsHarmless(history: seq<Change>, w: Worker, incarnation: nat)
    requires w in Live(history) && w.incarnation != incarnation
    ensures Live(history + [Unregister(w.id, incarnation)]) == Live(history)
  {
    assert (history + [Unregister(w.id, incarnation)])[..|history|] == history;
    forall v | v in Live(history) && v.id == w.id ensures v == w {
      LiveIdsAreUnique(history, v, w);
    }
  }

  /** This change takes the worker out of the list. */
  predicate Removes(change: Change, w: Worker)
  {
    match change
    case Register(worker) => worker.id == w.id
    case Unregister(id, incarnation) => id == w.id && incarnation == w.incarnation
  }

  /**
    Exactly who is live: a worker that some registration brought in and no later change took out, neither another
    registration of its id nor an unregister of its id and incarnation.
  */
  lemma {:induction false} LiveExactly(history: seq<Change>, w: Worker)
    ensures w in Live(history) <==>
            exists i | 0 <= i < |history| ::
              history[i] == Change.Register(w) && forall j | i < j < |history| :: !Removes(history[j], w)
  {
    if history != [] {
      var n := |history| - 1;
      var before := history[..n];
      LiveExactly(before, w);
      if history[n] == Change.Register(w) {
        assert w in Live(history);
      } else if w in Live(before) && !Removes(history[n], w) {
        var i :| 0 <= i < n && before[i] == Change.Register(w) && forall j | i < j < n :: !Removes(before[j], w);
        assert history[i] == Change.Register(w);
        forall j | i < j < |history| ensures !Removes(history[j], w) {
          if j < n {
            assert !Removes(before[j], w);
          }
        }
      } else if w !in Live(before) {
        forall i | 0 <= i < n && history[i] == Change.Register(w)
          ensures exists j | i < j < n :: Removes(history[j], w)
        {
          assert before[i] == Change.Register(w);
          var j :| i < j < n && Removes(before[j], w);
          assert Removes(history[j], w);
        }
      }
    }
  }

  /** `Vec::retain`. */
  function Retain(workers: seq<Worker>, keep: Worker -> bool): seq<Worker>
  {
    if workers == [] then []
    else
      var earlier := Retain(workers[..|workers| - 1], keep);
      if keep(workers[|workers| - 1]) then earlier + [workers[|workers| - 1]] else earlier
  }

  lemma {:induction false} RetainKeeps(workers: seq<Worker>, keep: Worker -> bool)
    requires UniqueIds(workers)
    ensures UniqueIds(Retain(workers, keep))
    ensures Members(Retain(workers, keep)) == set w | w in workers && keep(w)
  {
    if workers != [] {
      var earlier := workers[..|workers| - 1];
      RetainKeeps(earlier, keep);
      assert workers == earlier + [workers[|workers| - 1]];
      forall w | w in Retain(earlier, keep) ensures w in earlier && keep(w) && w.id != workers[|workers| - 1].id {
        assert w in Members(Retain(earlier, keep));
        var i :| 0 <= i < |earlier| && workers[i] == w;
      }
      forall w | w in earlier && keep(w) ensures w in Retain(earlier, keep) {
        assert w in Members(Retain(earlier, keep));
      }
    }
  }

  class Dispatcher {
    var workers: seq<Worker>
    ghost var history: seq<Change>

    ghost predicate Valid()
      reads this
    {
      Arranges(workers, Live(history))
    }

    constructor ()
      ensures Valid() && history == [] && workers == []
    {
      workers, history := [], [];
      new;
      assert Interleaved([]) && Members([]) == Live([]);
    }

    method Register(worker: Worker)
      requires Valid()
      modifies this
      ensures Valid() && history == old(history) + [Change.Register(worker)]
      ensures Members(workers) == (set w | w in old(workers) && w.id != worker.id) + {worker}
    {
      hide Interleaved;
      ArrangedIdsAreUnique(workers, history);
      var updated := Retain(workers, (w: Worker) => w.id != worker.id);
      RetainKeeps(workers, (w: Worker) => w.id != worker.id);
      forall w | w in updated ensures w.id != worker.id && w in workers {
        assert w in Members(updated);
      }
      assert Members(updated + [worker]) == Members(updated) + {worker};
      updated := updated + [worker];
      workers := InterleaveTurnPaths(updated);
      assert (history + [Change.Register(worker)])[..|history|] == history;
      history := history + [Change.Register(worker)];
    }

    method Unregister(id: nat, incarnation: nat)
      requires Valid()
      modifies this
      ensures Valid() && history == old(history) + [Change.Unregister(id, incarnation)]
      ensures Members(workers) == set w | w in old(workers) && !(w.id == id && w.incarnation == incarnation)
      ensures (forall w | w in old(workers) && w.id == id :: w.incarnation != incarnation) ==> workers == old(workers)
    {
      hide Interleaved;
      ArrangedIdsAreUnique(workers, history);
      ghost var before := workers;
      var updated := Retain(workers, (w: Worker) => w.id != id || w.incarnation != incarnation);
      RetainKeeps(workers, (w: Worker) => w.id != id || w.incarnation != incarnation);
      workers := InterleaveTurnPaths(updated);
      assert (history + [Change.Unregister(id, incarnation)])[..|history|] == history;
      history := history + [Change.Unregister(id, incarnation)];
      if forall w | w in before && w.id == id :: w.incarnation != incarnation {
        assert Members(workers) == Members(before);
        ArrangementIsDetermined(workers, before, Members(before));
      }
    }
  }

  lemma ArrangedIdsAreUnique(workers: seq<Worker>, history: seq<Change>)
    requires Arranges(workers, Live(history))
    ensures UniqueIds(workers)
  {
    forall i, j | 0 <= i < j < |workers| ensures workers[i].id != workers[j].id {
      assert workers[i] in Members(workers) && workers[j] in Members(workers);
      NotEarlier(workers, j);
      assert workers[i] == workers[..j][i];
      if workers[i].id == workers[j].id {
        LiveIdsAreUnique(history, workers[i], workers[j]);
      }
    }
  }

  /** Two dispatchers with the same live workers hold the same list, whatever their histories. */
  lemma ListDependsOnlyOnLiveSet(a: seq<Worker>, b: seq<Worker>, first: seq<Change>, second: seq<Change>)
    requires Arranges(a, Live(first)) && Arranges(b, Live(second)) && Live(first) == Live(second)
    ensures a == b
  {
    ArrangementIsDetermined(a, b, Live(first));
  }
}
