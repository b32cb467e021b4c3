// Finding a two-step conversion through a lossless intermediate format, counting
// all of them, and rebuilding one from its persisted targets.
module Chain {
  import opened Options

  type Format = string

  /** The routing table on normalised formats, the formats that may stand in the
      middle of a chain, and the engines a step needs. */
  datatype Routes = Routes(
    targets: Format -> seq<Format>,
    whitelist: set<Format>,
    engines: (Format, Format) -> seq<string>)

  datatype Hop = Hop(from: Format, to: Format, requiredEngines: seq<string>)

  const MAX_CHAIN_DEPTH := 2

  function ToHops(r: Routes, path: seq<Format>): (hops: seq<Hop>)
    requires path != []
  {
    seq(|path| - 1, i requires 0 <= i < |path| - 1 => Hop(path[i], path[i + 1], r.engines(path[i], path[i + 1])))
  }

  predicate IsMiddle(r: Routes, start: Format, mid: Format) {
    mid != start && mid != "" && mid in r.whitelist
  }

  /** The middle format at place `i` of the start's targets leads to the target. */
  predicate LinksAt(r: Routes, start: Format, target: Format, i: nat)
    requires i < |r.targets(start)|
  {
    IsMiddle(r, start, r.targets(start)[i]) && target in r.targets(r.targets(start)[i])
  }

  ghost predicate Chainable(r: Routes, start: Format, target: Format) {
    && start != target && target != "" && target !in r.targets(start)
    && exists i :: 0 <= i < |r.targets(start)| && LinksAt(r, start, target, i)
  }

  /** The search skips `next` when standing at the end of `path`. */
  predicate Skipped(path: seq<Format>, next: Format)
    requires path != []
  {
    next == path[|path| - 1] || next == "" || next in path
  }

  /** What standing at the end of `path` and seeing `nexts` adds to the queue. */
  function Extensions(r: Routes, path: seq<Format>, nexts: seq<Format>): seq<seq<Format>>
    requires path != []
  {
    if nexts == [] then []
    else
      var next := nexts[|nexts| - 1];
      var before := Extensions(r, path, nexts[..|nexts| - 1]);
      if !Skipped(path, next) && next in r.whitelist && |path| + 1 <= MAX_CHAIN_DEPTH
      then before + [path + [next]]
      else before
  }

  /** `queue` holds paths through middle formats of `nexts`, in the order of their places,
      which `places` gives. */
  ghost predicate Lists(r: Routes, start: Format, nexts: seq<Format>, queue: seq<seq<Format>>, places: seq<int>) {
    && |queue| == |places|
    && (forall k :: 0 <= k < |places| ==>
          && 0 <= places[k] < |nexts| && IsMiddle(r, start, nexts[places[k]])
          && queue[k] == [start, nexts[places[k]]])
    && (forall j, k :: 0 <= j < k < |places| ==> places[j] < places[k])
  }

  /** The places of the middle formats, in order. */
  function Places(r: Routes, start: Format, nexts: seq<Format>): seq<int> {
    if nexts == [] then []
    else
      var before := Places(r, start, nexts[..|nexts| - 1]);
      if IsMiddle(r, start, nexts[|nexts| - 1]) then before + [|nexts| - 1] else before
  }

  lemma ListsMore(r: Routes, start: Format, nexts: seq<Format>, n: nat, queue: seq<seq<Format>>, places: seq<int>)
    requires |nexts| == n + 1 && Lists(r, start, nexts[..n], queue, places)
    ensures Lists(r, start, nexts, queue, places)
    ensures IsMiddle(r, start, nexts[n]) ==> Lists(r, start, nexts, queue + [[start, nexts[n]]], places + [n])
  {
    assert forall k :: 0 <= k < |places| ==> nexts[..n][places[k]] == nexts[places[k]];
  }

  lemma {:induction false} ExtensionsAreMiddles(r: Routes, start: Format, nexts: seq<Format>)
    ensures Lists(r, start, nexts, Extensions(r, [start], nexts), Places(r, start, nexts))
    ensures forall i :: 0 <= i < |nexts| && IsMiddle(r, start, nexts[i]) ==> i in Places(r, start, nexts)
  {
    if nexts == [] {
      assert Lists(r, start, nexts, [], []);
    } else {
      var n := |nexts| - 1;
      ExtensionsAreMiddles(r, start, nexts[..n]);
      ListsMore(r, start, nexts, n, Extensions(r, [start], nexts[..n]), Places(r, start, nexts[..n]));
      assert Skipped([start], nexts[n]) <==> nexts[n] == start || nexts[n] == "";
      assert [start] + [nexts[n]] == [start, nexts[n]];
    }
  }

  lemma {:induction false} NoLongPaths(r: Routes, path: seq<Format>, nexts: seq<Format>)
    requires |path| >= MAX_CHAIN_DEPTH
    ensures Extensions(r, path, nexts) == []
  {
    if nexts == [] {
    } else {
      NoLongPaths(r, path, nexts[..|nexts| - 1]);
    }
  }

  /** Follows all routes from the end of `path`: either one reaches the target, or
      the extended paths worth following join the queue. */
  method Expand(r: Routes, path: seq<Format>, target: Format, waiting: seq<seq<Format>>)
    returns (found: bool, queue: seq<seq<Format>>)
    requires path != []
    ensures found <==> target in r.targets(path[|path| - 1]) && !Skipped(path, target)
    ensures !found ==> queue == waiting + Extensions(r, path, r.targets(path[|path| - 1]))
  {
    var node := path[|path| - 1];
    var targets := r.targets(node);
    queue := waiting;
    for i := 0 to |targets|
      invariant queue == waiting + Extensions(r, path, targets[..i])
      invariant forall j :: 0 <= j < i && targets[j] == target ==> Skipped(path, target)
    {
      var next := targets[i];
      assert targets[..i + 1][..i] == targets[..i];
      if next == node || next == "" || next in path { continue; }
      var extended := path + [next];
      if next == target { return true, queue; }
      if next in r.whitelist && |extended| <= MAX_CHAIN_DEPTH {
        queue := queue + [extended];
      }
    }
    assert targets[..|targets|] == targets;
    found := false;
  }

  /** Every place that links is still listed, and the listed ones are in order. */
  ghost predicate Pending(r: Routes, start: Format, target: Format, queue: seq<seq<Format>>, places: seq<int>) {
    var nexts := r.targets(start);
    && Lists(r, start, nexts, queue, places)
    && forall i :: 0 <= i < |nexts| && LinksAt(r, start, target, i) ==> i in places
  }

  lemma PendingAtFirst(r: Routes, start: Format, target: Format)
    ensures Pending(r, start, target, Extensions(r, [start], r.targets(start)), Places(r, start, r.targets(start)))
  {
    ExtensionsAreMiddles(r, start, r.targets(start));
  }

  lemma PendingNext(r: Routes, start: Format, target: Format, queue: seq<seq<Format>>, places: seq<int>)
    requires Pending(r, start, target, queue, places) && queue != []
    requires !LinksAt(r, start, target, places[0])
    ensures Pending(r, start, target, queue[1..], places[1..])
  {
    forall i | 0 <= i < |r.targets(start)| && LinksAt(r, start, target, i) ensures i in places[1..] {
      var k :| 0 <= k < |places| && places[k] == i;
      assert places[1..][k - 1] == i;
    }
  }

  lemma PendingFound(r: Routes, start: Format, target: Format, queue: seq<seq<Format>>, places: seq<int>)
    requires Pending(r, start, target, queue, places) && queue != []
    ensures forall i :: 0 <= i < places[0] ==> !LinksAt(r, start, target, i)
  {
    forall i | 0 <= i < places[0] ensures !LinksAt(r, start, target, i) {
      assert forall k :: 0 <= k < |places| ==> places[0] <= places[k];
    }
  }

  /** Breadth-first search, at most two steps deep. It finds a chain exactly when
      there is one, and then the one through the first possible middle format. */
  method FindConversionChain(r: Routes, start: Format, target: Format) returns (chain: Option<seq<Hop>>, ghost place: int)
    ensures chain.Some? <==> Chainable(r, start, target)
    ensures chain.Some? ==>
              && 0 <= place < |r.targets(start)| && LinksAt(r, start, target, place)
              && (forall i :: 0 <= i < place ==> !LinksAt(r, start, target, i))
              && var mid := r.targets(start)[place];
                 chain.value == [Hop(start, mid, r.engines(start, mid)), Hop(mid, target, r.engines(mid, target))]
  {
    place := 0;
    if start == target { return None, 0; }
    if target in r.targets(start) { return None, 0; }
    var queue := [[start]];
    ghost var places: seq<int> := [];
    ghost var atStart := true;
    while queue != []
      invariant if atStart then queue == [[start]] else target == "" || Pending(r, start, target, queue, places)
      invariant !atStart ==> Lists(r, start, r.targets(start), queue, places)
      decreases atStart, |queue|
    {
      var path := queue[0];
      var waiting := queue[1..];
      var found;
      found, queue := Expand(r, path, target, waiting);
      if found {
        place := places[0];
        assert path == [start, r.targets(start)[place]] && path + [target] == [start, r.targets(start)[place], target];
        assert LinksAt(r, start, target, place);
        PendingFound(r, start, target, [path] + waiting, places);
        return Some(ToHops(r, path + [target])), place;
      }
      if atStart {
        atStart, places := false, Places(r, start, r.targets(start));
        PendingAtFirst(r, start, target);
      } else {
        NoLongPaths(r, path, r.targets(path[1]));
        if target != "" { PendingNext(r, start, target, [path] + waiting, places); }
        places := places[1..];
      }
    }
    return None, 0;
  }

  datatype Row = Row(source: Format, targets: seq<Format>)

  /** One row per source, and no nameless format. */
  predicate IsTable(rows: seq<Row>) {
    && (forall i, k :: 0 <= i < k < |rows| ==> rows[i].source != rows[k].source)
    && (forall i :: 0 <= i < |rows| ==> "" !in rows[i].targets)
  }

  function TargetsIn(rows: seq<Row>, f: Format): seq<Format> {
    if rows == [] then []
    else if rows[0].source == f then rows[0].targets
    else TargetsIn(rows[1..], f)
  }

  function ToSet(s: seq<Format>): set<Format> {
    set f | f in s
  }

  lemma {:induction false} RowIsFound(rows: seq<Row>, i: nat)
    requires IsTable(rows) && i < |rows|
    ensures TargetsIn(rows, rows[i].source) == rows[i].targets
  {
    if i == 0 {
    } else {
      RowIsFound(rows[1..], i - 1);
    }
  }

  lemma {:induction false} NoNamelessTarget(rows: seq<Row>, f: Format)
    requires IsTable(rows)
    ensures "" !in TargetsIn(rows, f)
  {
    if rows == [] {
    } else if rows[0].source != f {
      NoNamelessTarget(rows[1..], f);
    }
  }

  function FromRows(rows: seq<Row>, whitelist: set<Format>, engines: (Format, Format) -> seq<string>): Routes {
    Routes(f => TargetsIn(rows, f), whitelist, engines)
  }

  ghost predicate ReachedVia(rows: seq<Row>, mids: set<Format>, t: Format) {
    exists mid :: mid in mids && t != mid && t in TargetsIn(rows, mid)
  }

  lemma ReachedViaMore(rows: seq<Row>, mids: set<Format>, mid: Format, t: Format)
    ensures ReachedVia(rows, mids + {mid}, t) <==>
              ReachedVia(rows, mids, t) || (t != mid && t in TargetsIn(rows, mid))
  {
    if m :| m in mids && t != m && t in TargetsIn(rows, m) {
      assert m in mids + {mid};
    }
    if t != mid && t in TargetsIn(rows, mid) { assert mid in mids + {mid}; }
  }

  /** `reach` holds what the visited middle formats lead to. */
  ghost predicate Collected(rows: seq<Row>, row: Row, visited: set<Format>, reach: set<Format>) {
    forall t :: t in reach <==> t != row.source && t !in row.targets && ReachedVia(rows, visited, t)
  }

  lemma CollectedNone(rows: seq<Row>, row: Row)
    ensures Collected(rows, row, {}, {})
  {
  }

  /** What one more middle format adds. */
  function Visit(rows: seq<Row>, row: Row, reach: set<Format>, mid: Format): set<Format> {
    reach + (ToSet(TargetsIn(rows, mid)) - {mid, row.source} - ToSet(row.targets))
  }

  lemma CollectMore(rows: seq<Row>, row: Row, visited: set<Format>, reach: set<Format>, mid: Format)
    requires Collected(rows, row, visited, reach)
    ensures Collected(rows, row, visited + {mid}, Visit(rows, row, reach, mid))
  {
    var more := Visit(rows, row, reach, mid);
    forall t ensures t in more <==> t != row.source && t !in row.targets && ReachedVia(rows, visited + {mid}, t) {
      ReachedViaMore(rows, visited, mid, t);
    }
  }

  lemma CountedMeansChainable(rows: seq<Row>, r: Routes, row: Row, t: Format)
    requires IsTable(rows) && row in rows && r == FromRows(rows, r.whitelist, r.engines) && "" !in r.whitelist
    ensures Chainable(r, row.source, t) <==>
              && t != row.source && t !in row.targets
              && ReachedVia(rows, ToSet(row.targets) * r.whitelist - {row.source}, t)
  {
    var n :| 0 <= n < |rows| && rows[n] == row;
    RowIsFound(rows, n);
    var nexts := r.targets(row.source);
    assert nexts == row.targets;
    if mid :| mid in ToSet(row.targets) * r.whitelist - {row.source} && t != mid && t in TargetsIn(rows, mid)
              && t != row.source && t !in row.targets {
      NoNamelessTarget(rows, mid);
      var i :| 0 <= i < |nexts| && nexts[i] == mid;
      assert LinksAt(r, row.source, t, i);
    }
    if Chainable(r, row.source, t) {
      var i :| 0 <= i < |nexts| && LinksAt(r, row.source, t, i);
      assert nexts[i] in ToSet(row.targets) * r.whitelist - {row.source} && t != nexts[i];
    }
  }

  ghost predicate IsChainedSet(r: Routes, start: Format, reach: set<Format>) {
    forall t :: t in reach <==> Chainable(r, start, t)
  }

  lemma CollectedIsChained(rows: seq<Row>, r: Routes, row: Row, reach: set<Format>)
    requires IsTable(rows) && row in rows && r == FromRows(rows, r.whitelist, r.engines) && "" !in r.whitelist
    requires Collected(rows, row, ToSet(row.targets) * r.whitelist - {row.source}, reach)
    ensures IsChainedSet(r, row.source, reach)
  {
    forall t ensures t in reach <==> Chainable(r, row.source, t) {
      CountedMeansChainable(rows, r, row, t);
    }
  }

  /** Everything that the middle formats lead to. */
  method Collect(rows: seq<Row>, row: Row, middles: set<Format>) returns (reach: set<Format>)
    ensures Collected(rows, row, middles, reach)
  {
    reach := {};
    CollectedNone(rows, row);
    var mids := middles;
    ghost var visited: set<Format> := {};
    while mids != {}
      invariant visited + mids == middles && Collected(rows, row, visited, reach)
      decreases |mids|
    {
      var mid :| mid in mids;
      CollectMore(rows, row, visited, reach, mid);
      reach := Visit(rows, row, reach, mid);
      visited, mids := visited + {mid}, mids - {mid};
    }
    assert visited == middles;
  }

  /** One row of the route counter: exactly the targets for which the search
      finds a chain. */
  method ChainedTargets(rows: seq<Row>, r: Routes, row: Row) returns (reach: set<Format>)
    requires IsTable(rows) && row in rows && r == FromRows(rows, r.whitelist, r.engines)
    requires "" !in r.whitelist
    ensures IsChainedSet(r, row.source, reach)
  {
    reach := Collect(rows, row, ToSet(row.targets) * r.whitelist - {row.source});
    CollectedIsChained(rows, r, row, reach);
  }

  /** Every format that is a target in the table. */
  function AllTargets(rows: seq<Row>): set<Format> {
    set i, t | 0 <= i < |rows| && t in rows[i].targets :: t
  }

  /** The targets, other than itself, that a format has a route of its own to. */
  function DirectSet(r: Routes, start: Format): set<Format> {
    set t | t in r.targets(start) && t != start
  }

  /** The targets the search finds a chain to. */
  ghost function ChainedSet(rows: seq<Row>, r: Routes, start: Format): set<Format> {
    set t | t in AllTargets(rows) && Chainable(r, start, t)
  }

  ghost function DirectTotal(rows: seq<Row>, n: nat, r: Routes): nat
    requires n <= |rows|
  {
    if n == 0 then 0 else DirectTotal(rows, n - 1, r) + |DirectSet(r, rows[n - 1].source)|
  }

  ghost function ChainedTotal(rows: seq<Row>, n: nat, r: Routes): nat
    requires n <= |rows|
  {
    if n == 0 then 0 else ChainedTotal(rows, n - 1, r) + |ChainedSet(rows, r, rows[n - 1].source)|
  }

  /** The pairs of a source and a format that `reached` holds for it. */
  ghost function Pairs(rows: seq<Row>, n: nat, reached: Format -> set<Format>): set<(Format, Format)>
    requires n <= |rows|
  {
    set i, t | 0 <= i < n && t in reached(rows[i].source) :: (rows[i].source, t)
  }

  lemma {:induction false} PairsOfOne(source: Format, targets: set<Format>)
    ensures |set t | t in targets :: (source, t)| == |targets|
  {
    var pairs := set t | t in targets :: (source, t);
    if targets == {} {
      assert pairs == {};
    } else {
      var x :| x in targets;
      PairsOfOne(source, targets - {x});
      var rest := set t | t in targets - {x} :: (source, t);
      assert pairs == rest + {(source, x)} && (source, x) !in rest;
    }
  }

  lemma OneRowMore(rows: seq<Row>, n: nat, reached: Format -> set<Format>)
    requires IsTable(rows) && n < |rows|
    ensures |Pairs(rows, n + 1, reached)| == |Pairs(rows, n, reached)| + |reached(rows[n].source)|
  {
    var source := rows[n].source;
    var before, here := Pairs(rows, n, reached), set t | t in reached(source) :: (source, t);
    PairsOfOne(source, reached(source));
    assert Pairs(rows, n + 1, reached) == before + here;
    assert before !! here;
  }

  lemma NoPairs(rows: seq<Row>, reached: Format -> set<Format>)
    ensures Pairs(rows, 0, reached) == {}
  {
  }

  lemma {:induction false} DirectTotalIsPairs(rows: seq<Row>, n: nat, r: Routes)
    requires IsTable(rows) && n <= |rows|
    ensures DirectTotal(rows, n, r) == |Pairs(rows, n, f => DirectSet(r, f))|
  {
    if n == 0 {
      NoPairs(rows, f => DirectSet(r, f));
    } else {
      DirectTotalIsPairs(rows, n - 1, r);
      OneRowMore(rows, n - 1, f => DirectSet(r, f));
    }
  }

  lemma {:induction false} ChainedTotalIsPairs(rows: seq<Row>, n: nat, r: Routes)
    requires IsTable(rows) && n <= |rows|
    ensures ChainedTotal(rows, n, r) == |Pairs(rows, n, f => ChainedSet(rows, r, f))|
  {
    if n == 0 {
      NoPairs(rows, f => ChainedSet(rows, r, f));
    } else {
      ChainedTotalIsPairs(rows, n - 1, r);
      OneRowMore(rows, n - 1, f => ChainedSet(rows, r, f));
    }
  }

  lemma TotalsArePairs(rows: seq<Row>, r: Routes)
    requires IsTable(rows)
    ensures DirectTotal(rows, |rows|, r) == |Pairs(rows, |rows|, f => DirectSet(r, f))|
    ensures ChainedTotal(rows, |rows|, r) == |Pairs(rows, |rows|, f => ChainedSet(rows, r, f))|
  {
    DirectTotalIsPairs(rows, |rows|, r);
    ChainedTotalIsPairs(rows, |rows|, r);
  }

  lemma {:induction false} TargetIsListed(rows: seq<Row>, f: Format, t: Format)
    requires t in TargetsIn(rows, f)
    ensures t in AllTargets(rows)
  {
    if rows[0].source == f {
      assert t in rows[0].targets;
    } else {
      TargetIsListed(rows[1..], f, t);
      var i :| 0 <= i < |rows[1..]| && t in rows[1..][i].targets;
      assert t in rows[i + 1].targets;
    }
  }

  lemma ChainedSetIsReach(rows: seq<Row>, r: Routes, start: Format, reach: set<Format>)
    requires r == FromRows(rows, r.whitelist, r.engines) && IsChainedSet(r, start, reach)
    ensures reach == ChainedSet(rows, r, start)
  {
    forall t | Chainable(r, start, t) ensures t in AllTargets(rows) {
      var i :| 0 <= i < |r.targets(start)| && LinksAt(r, start, t, i);
      TargetIsListed(rows, r.targets(start)[i], t);
    }
    forall t ensures t in reach <==> t in ChainedSet(rows, r, start) {}
  }

  lemma OthersAreDirect(rows: seq<Row>, r: Routes, n: nat)
    requires IsTable(rows) && n < |rows| && r == FromRows(rows, r.whitelist, r.engines)
    ensures ToSet(rows[n].targets) - {rows[n].source} == DirectSet(r, rows[n].source)
  {
    RowIsFound(rows, n);
  }

  /** One row's share of the totals. */
  method CountRow(rows: seq<Row>, r: Routes, n: nat) returns (direct: nat, chained: nat)
    requires IsTable(rows) && n < |rows| && r == FromRows(rows, r.whitelist, r.engines) && "" !in r.whitelist
    ensures direct == |DirectSet(r, rows[n].source)| && chained == |ChainedSet(rows, r, rows[n].source)|
  {
    OthersAreDirect(rows, r, n);
    direct := |ToSet(rows[n].targets) - {rows[n].source}|;
    var reach := ChainedTargets(rows, r, rows[n]);
    ChainedSetIsReach(rows, r, rows[n].source, reach);
    chained := |reach|;
  }

  /** The loop over the rows. */
  method CountRows(rows: seq<Row>, r: Routes) returns (direct: nat, chained: nat)
    requires IsTable(rows) && r == FromRows(rows, r.whitelist, r.engines) && "" !in r.whitelist
    ensures direct == DirectTotal(rows, |rows|, r) && chained == ChainedTotal(rows, |rows|, r)
  {
    direct, chained := 0, 0;
    for n := 0 to |rows|
      invariant direct == DirectTotal(rows, n, r) && chained == ChainedTotal(rows, n, r)
    {
      var own, reached := CountRow(rows, r, n);
      direct, chained := direct + own, chained + reached;
    }
  }

  /** `count`: the number of pairs of a source and a target with a route of their own,
      and of those for which the search finds a chain. */
  method Count(rows: seq<Row>, r: Routes) returns (direct: nat, chained: nat)
    requires IsTable(rows) && r == FromRows(rows, r.whitelist, r.engines) && "" !in r.whitelist
    ensures direct == |Pairs(rows, |rows|, f => DirectSet(r, f))|
    ensures chained == |Pairs(rows, |rows|, f => ChainedSet(rows, r, f))|
  {
    direct, chained := CountRows(rows, r);
    TotalsArePairs(rows, r);
  }

  function TargetsOf(chain: seq<Hop>): (targets: seq<Format>)
    ensures |targets| == |chain| && forall i :: 0 <= i < |chain| ==> targets[i] == chain[i].to
  {
    seq(|chain|, i requires 0 <= i < |chain| => chain[i].to)
  }

  lemma OneHopMore(r: Routes, start: Format, targets: seq<Format>, n: nat)
    requires n < |targets|
    ensures var from := if n == 0 then start else targets[n - 1];
      ToHops(r, [start] + targets[..n + 1]) ==
        ToHops(r, [start] + targets[..n]) + [Hop(from, targets[n], r.engines(from, targets[n]))]
  {
  }

  /** Step `i` leads from the target before it, the first one from the input format, and needs
      the engines for that. */
  lemma HopsThroughTargets(r: Routes, inputFormat: Format, targets: seq<Format>, i: nat)
    requires i < |targets|
    ensures |ToHops(r, [inputFormat] + targets)| == |targets|
    ensures var from := if i == 0 then inputFormat else targets[i - 1];
      ToHops(r, [inputFormat] + targets)[i] == Hop(from, targets[i], r.engines(from, targets[i]))
  {
  }

  /** `from_hop_targets`: the chain whose steps end at the given targets. */
  method FromHopTargets(r: Routes, inputFormat: Format, targets: seq<Format>) returns (chain: Option<seq<Hop>>)
    ensures chain.None? <==> targets == []
    ensures chain.Some? ==> chain.value == ToHops(r, [inputFormat] + targets)
  {
    if targets == [] { return None; }
    var hops: seq<Hop> := [];
    for index := 0 to |targets|
      invariant hops == ToHops(r, [inputFormat] + targets[..index])
    {
      OneHopMore(r, inputFormat, targets, index);
      var from := if index == 0 then inputFormat else targets[index - 1];
      hops := hops + [Hop(from, targets[index], r.engines(if index == 0 then inputFormat else targets[index - 1], targets[index]))];
    }
    assert targets[..|targets|] == targets;
    chain := Some(hops);
  }

  /** Rebuilding a chain from its targets gives the same chain exactly when it
      starts from the format the search started from. A raw extension that
      normalisation changes, such as jpeg, does not. */
  lemma RebuiltUnchanged(r: Routes, start: Format, mid: Format, target: Format, inputFormat: Format)
    ensures var chain := ToHops(r, [start, mid, target]);
      ToHops(r, [inputFormat] + TargetsOf(chain)) == chain <==> inputFormat == start
  {
    var chain := ToHops(r, [start, mid, target]);
    assert TargetsOf(chain) == [mid, target];
    var again := ToHops(r, [inputFormat] + TargetsOf(chain));
    assert again[0].from == inputFormat && chain[0].from == start;
    if inputFormat == start { assert [inputFormat] + TargetsOf(chain) == [start, mid, target]; }
  }
}
