/**
  The planner: conditions on one table go into its scan, the others into the left-deep joins in
  FROM order, and a join may probe an index of its right table.
  */
module JoinPlanner {
  import opened Options
  import opened IndexKeys
  import opened ScanBounds
  import opened JoinQuery

  /** The index columns of every index of every table. */
  type IndexDefs = seq<seq<seq<nat>>>

  /** A scan with the conditions it filters by, over an index or over the whole table. */
  datatype ScanPlan = ScanPlan(table: nat, conds: seq<Conjunct>, index: Option<nat>)

  datatype Plan =
    | Leaf(scan: ScanPlan)
    | NestLoop(left: Plan, scan: ScanPlan, conds: seq<Conjunct>)
    | IndexNestLoop(left: Plan, scan: ScanPlan, conds: seq<Conjunct>)

  // -------------------------------------------------------------------------------------------
  // Choosing indexes

  predicate IsRange(op: CompOp) {
    op.LT? || op.GT? || op.LE? || op.GE?
  }

  predicate HasEqOn(conds: seq<Conjunct>, c: TabCol) {
    exists i :: 0 <= i < |conds| && conds[i].rhs.Val? && conds[i].op.EQ? && conds[i].lhs == c
  }

  predicate HasRangeOn(conds: seq<Conjunct>, c: TabCol) {
    exists i :: 0 <= i < |conds| && conds[i].rhs.Val? && IsRange(conds[i].op) && conds[i].lhs == c
  }

  /** Leading index columns a scan can use: equalities, then at most one range. */
  function ScanMatch(table: nat, cols: seq<nat>, conds: seq<Conjunct>): (n: nat)
    ensures n <= |cols|
  {
    if cols == [] then 0
    else if HasEqOn(conds, TabCol(table, cols[0])) then 1 + ScanMatch(table, cols[1..], conds)
    else if HasRangeOn(conds, TabCol(table, cols[0])) then 1
    else 0
  }

  predicate HasJoinEqOn(conds: seq<Conjunct>, c: TabCol) {
    exists i :: 0 <= i < |conds| && conds[i].rhs.Col? && conds[i].op.EQ? && (conds[i].lhs == c || conds[i].rhs.c == c)
  }

  /** A column whose value a lookup in the index can take from a constant or from the left row. */
  predicate IsBound(table: nat, col: nat, scanConds: seq<Conjunct>, joinConds: seq<Conjunct>) {
    HasEqOn(scanConds, TabCol(table, col)) || HasJoinEqOn(joinConds, TabCol(table, col))
  }

  /** Leading index columns a lookup can bind. */
  function JoinMatch(table: nat, cols: seq<nat>, scanConds: seq<Conjunct>, joinConds: seq<Conjunct>): (n: nat)
    ensures n <= |cols|
    ensures forall i :: 0 <= i < n ==> IsBound(table, cols[i], scanConds, joinConds)
    ensures n < |cols| ==> !IsBound(table, cols[n], scanConds, joinConds)
  {
    if cols != [] && IsBound(table, cols[0], scanConds, joinConds) then 1 + JoinMatch(table, cols[1..], scanConds, joinConds) else 0
  }

  /** All columns of the index are bound. */
  predicate FullyBound(table: nat, cols: seq<nat>, scanConds: seq<Conjunct>, joinConds: seq<Conjunct>) {
    forall i :: 0 <= i < |cols| ==> IsBound(table, cols[i], scanConds, joinConds)
  }

  lemma {:induction false} FullMatch(table: nat, cols: seq<nat>, scanConds: seq<Conjunct>, joinConds: seq<Conjunct>)
    ensures FullyBound(table, cols, scanConds, joinConds) <==> JoinMatch(table, cols, scanConds, joinConds) == |cols|
  {
    var n := JoinMatch(table, cols, scanConds, joinConds);
    assert n < |cols| ==> !IsBound(table, cols[n], scanConds, joinConds);
  }

  /** The first index with the longest usable prefix, or none if no prefix is usable. */
  ghost predicate ScanIndexIs(table: nat, indexes: seq<seq<nat>>, conds: seq<Conjunct>, r: Option<nat>) {
    match r
    case None => forall i :: 0 <= i < |indexes| ==> ScanMatch(table, indexes[i], conds) == 0
    case Some(b) =>
      && b < |indexes| && ScanMatch(table, indexes[b], conds) > 0
      && (forall i :: 0 <= i < |indexes| ==> ScanMatch(table, indexes[i], conds) <= ScanMatch(table, indexes[b], conds))
      && (forall i :: 0 <= i < b ==> ScanMatch(table, indexes[i], conds) < ScanMatch(table, indexes[b], conds))
  }

  method GetIndexCols(table: nat, indexes: seq<seq<nat>>, conds: seq<Conjunct>) returns (best: Option<nat>)
    ensures ScanIndexIs(table, indexes, conds, best)
  {
    best := None;
    var bestLen := 0;
    for k := 0 to |indexes|
      invariant best.None? ==> bestLen == 0
      invariant best.Some? ==> best.value < k && bestLen == ScanMatch(table, indexes[best.value], conds) && bestLen > 0
      invariant best.Some? ==> forall i :: 0 <= i < best.value ==> ScanMatch(table, indexes[i], conds) < bestLen
      invariant forall i :: 0 <= i < k ==> ScanMatch(table, indexes[i], conds) <= bestLen
    {
      var len := ScanMatch(table, indexes[k], conds);
      if len > bestLen {
        best, bestLen := Some(k), len;
      }
    }
  }

  /** The index a join would probe: the first with the longest bound prefix, if some column of it
      is bound by a join condition. */
  ghost predicate JoinIndexIs(table: nat, indexes: seq<seq<nat>>, scanConds: seq<Conjunct>, joinConds: seq<Conjunct>, r: Option<nat>) {
    match r
    case Some(b) =>
      && LongestBound(table, indexes, scanConds, joinConds, b)
      && exists i :: 0 <= i < |indexes[b]| && HasJoinEqOn(joinConds, TabCol(table, indexes[b][i]))
    case None =>
      forall b :: 0 <= b < |indexes| && LongestBound(table, indexes, scanConds, joinConds, b) ==>
        forall i :: 0 <= i < |indexes[b]| ==> !HasJoinEqOn(joinConds, TabCol(table, indexes[b][i]))
  }

  ghost predicate LongestBound(table: nat, indexes: seq<seq<nat>>, scanConds: seq<Conjunct>, joinConds: seq<Conjunct>, b: nat) {
    && b < |indexes| && JoinMatch(table, indexes[b], scanConds, joinConds) > 0
    && (forall i :: 0 <= i < |indexes| ==> JoinMatch(table, indexes[i], scanConds, joinConds) <= JoinMatch(table, indexes[b], scanConds, joinConds))
    && (forall i :: 0 <= i < b ==> JoinMatch(table, indexes[i], scanConds, joinConds) < JoinMatch(table, indexes[b], scanConds, joinConds))
  }

  method GetJoinIndexCols(table: nat, indexes: seq<seq<nat>>, scanConds: seq<Conjunct>, joinConds: seq<Conjunct>)
    returns (r: Option<nat>)
    ensures JoinIndexIs(table, indexes, scanConds, joinConds, r)
  {
    hide JoinMatch, HasJoinEqOn;
    var best: Option<nat> := None;
    var bestLen := 0;
    for k := 0 to |indexes|
      invariant best.None? ==> bestLen == 0
      invariant best.Some? ==> best.value < k && bestLen == JoinMatch(table, indexes[best.value], scanConds, joinConds) && bestLen > 0
      invariant best.Some? ==> forall i :: 0 <= i < best.value ==> JoinMatch(table, indexes[i], scanConds, joinConds) < bestLen
      invariant forall i :: 0 <= i < k ==> JoinMatch(table, indexes[i], scanConds, joinConds) <= bestLen
    {
      var len := JoinMatch(table, indexes[k], scanConds, joinConds);
      if len > bestLen {
        best, bestLen := Some(k), len;
      }
    }
    if best.None? {
      return None;
    }
    var cols := indexes[best.value];
    for i := 0 to |cols|
      invariant forall j :: 0 <= j < i ==> !HasJoinEqOn(joinConds, TabCol(table, cols[j]))
    {
      if HasJoinEqOn(joinConds, TabCol(table, cols[i])) {
        return best;
      }
    }
    r := None;
  }

  // -------------------------------------------------------------------------------------------
  // Placing conditions

  /** Conditions a scan takes: constants for its own columns, and columns of any one table. */
  predicate Pops(c: Conjunct, t: nat) {
    (c.lhs.tab == t && c.rhs.Val?) || (c.rhs.Col? && c.lhs.tab == c.rhs.c.tab)
  }

  predicate AllPopped(conds: seq<Conjunct>, t: nat) {
    forall i :: 0 <= i < |conds| ==> Pops(conds[i], t)
  }

  lemma {:induction false} TakenPopped(conds: seq<Conjunct>, t: nat)
    ensures AllPopped(Taken(conds, t), t)
  {
    if conds != [] {
      TakenPopped(conds[..|conds| - 1], t);
    }
  }

  /** Takes out the conditions a scan takes, and keeps the rest, both in order. */
  method PopConds(conds: seq<Conjunct>, t: nat) returns (solved: seq<Conjunct>, rest: seq<Conjunct>)
    ensures solved == Taken(conds, t) && rest == Left(conds, t)
  {
    solved, rest := [], [];
    for i := 0 to |conds|
      invariant solved == Taken(conds[..i], t) && rest == Left(conds[..i], t)
    {
      assert conds[..i + 1][..i] == conds[..i];
      if Pops(conds[i], t) {
        solved := solved + [conds[i]];
      } else {
        rest := rest + [conds[i]];
      }
    }
    assert conds[..|conds|] == conds;
  }

  function Taken(conds: seq<Conjunct>, t: nat): seq<Conjunct> {
    if conds == [] then [] else
      var n := |conds| - 1;
      Taken(conds[..n], t) + if Pops(conds[n], t) then [conds[n]] else []
  }

  function Left(conds: seq<Conjunct>, t: nat): seq<Conjunct> {
    if conds == [] then [] else
      var n := |conds| - 1;
      Left(conds[..n], t) + if Pops(conds[n], t) then [] else [conds[n]]
  }

  /** The conditions left after the scans of the first t tables took theirs. */
  function LeftAfter(conds: seq<Conjunct>, t: nat): seq<Conjunct> {
    if t == 0 then conds else Left(LeftAfter(conds, t - 1), t - 1)
  }

  /** A comparison of two columns of one table other than the first. */
  predicate SelfLater(c: Conjunct) {
    c.rhs.Col? && c.lhs.tab == c.rhs.c.tab && c.lhs.tab > 0
  }

  predicate NoSelfLater(conds: seq<Conjunct>) {
    forall i :: 0 <= i < |conds| ==> !SelfLater(conds[i])
  }

  /** The conditions without those. */
  function Effective(conds: seq<Conjunct>): seq<Conjunct> {
    if conds == [] then [] else
      var n := |conds| - 1;
      Effective(conds[..n]) + if SelfLater(conds[n]) then [] else [conds[n]]
  }

  /** The first table's scan takes its own conditions and all comparisons within one table; what it
      takes of other tables it does not apply. */
  lemma {:induction false} FirstTakes(conds: seq<Conjunct>)
    ensures On(Taken(conds, 0), 0) == On(Effective(conds), 0)
  {
    if conds != [] {
      var n := |conds| - 1;
      FirstTakes(conds[..n]);
      OnSnoc(Taken(conds[..n], 0), conds[n], Pops(conds[n], 0), 0);
      OnSnoc(Effective(conds[..n]), conds[n], !SelfLater(conds[n]), 0);
    }
  }

  lemma OnSnoc(A: seq<Conjunct>, c: Conjunct, add: bool, t: nat)
    ensures On(A + if add then [c] else [], t) == On(A, t) + if add && OnlyOn(c, t) then [c] else []
    ensures At(A + if add then [c] else [], t) == At(A, t) + if add && JoinsAt(c, t) then [c] else []
  {
    hide OnlyOn, JoinsAt;
    assert A + [] == A;
    if add {
      assert (A + [c])[..|A|] == A;
    }
  }

  /** What the scan of a later table takes. */
  lemma {:induction false} LaterTakes(conds: seq<Conjunct>, t: nat)
    requires t > 0
    ensures Taken(LeftAfter(conds, t), t) == On(Effective(conds), t)
  {
    LeftFilter(conds, t);
    TakenFilter(conds, t);
  }

  /** The conditions left before a table's turn are those that no earlier table takes. */
  predicate Survives(c: Conjunct, t: nat) {
    t == 0 || (if c.rhs.Val? then c.lhs.tab >= t else c.lhs.tab != c.rhs.c.tab)
  }

  function Survivors(conds: seq<Conjunct>, t: nat): seq<Conjunct> {
    if conds == [] then [] else
      var n := |conds| - 1;
      Survivors(conds[..n], t) + if Survives(conds[n], t) then [conds[n]] else []
  }

  lemma {:induction false} LeftFilter(conds: seq<Conjunct>, t: nat)
    ensures LeftAfter(conds, t) == Survivors(conds, t)
  {
    if t == 0 {
      AllSurvive(conds);
    } else {
      LeftFilter(conds, t - 1);
      LeftOfSurvivors(conds, t - 1);
    }
  }

  lemma {:induction false} AllSurvive(conds: seq<Conjunct>)
    ensures Survivors(conds, 0) == conds
  {
    if conds != [] {
      AllSurvive(conds[..|conds| - 1]);
    }
  }

  lemma {:induction false} LeftOfSurvivors(conds: seq<Conjunct>, t: nat)
    ensures Left(Survivors(conds, t), t) == Survivors(conds, t + 1)
  {
    if conds != [] {
      var n := |conds| - 1;
      LeftOfSurvivors(conds[..n], t);
      LeftSnoc(Survivors(conds[..n], t), conds[n], Survives(conds[n], t), t);
    }
  }

  lemma LeftSnoc(A: seq<Conjunct>, c: Conjunct, add: bool, t: nat)
    ensures Left(A + if add then [c] else [], t) == Left(A, t) + if add && !Pops(c, t) then [c] else []
    ensures Taken(A + if add then [c] else [], t) == Taken(A, t) + if add && Pops(c, t) then [c] else []
  {
    hide Pops;
    assert A + [] == A;
    if add {
      assert (A + [c])[..|A|] == A;
    }
  }

  lemma {:induction false} TakenFilter(conds: seq<Conjunct>, t: nat)
    requires t > 0
    ensures Taken(Survivors(conds, t), t) == On(Effective(conds), t)
  {
    if conds != [] {
      var n := |conds| - 1;
      TakenFilter(conds[..n], t);
      LeftSnoc(Survivors(conds[..n], t), conds[n], Survives(conds[n], t), t);
      OnSnoc(Effective(conds[..n]), conds[n], !SelfLater(conds[n]), t);
    }
  }

  /** The join with table t can use a condition that compares it with a table joined before. */
  predicate Connects(c: Conjunct, t: nat) {
    c.rhs.Col? && ((c.lhs.tab == t && c.rhs.c.tab < t) || (c.rhs.c.tab == t && c.lhs.tab < t))
  }

  /** Conditions over two tables of which the later one comes at place t or after. */
  function Waiting(conds: seq<Conjunct>, t: nat): (r: seq<Conjunct>)
    ensures forall i :: 0 <= i < |r| ==> r[i] in conds && !Covered(r[i], t)
  {
    if conds == [] then [] else
      var n := |conds| - 1;
      Waiting(conds[..n], t) + if Crosses(conds[n]) && !Covered(conds[n], t) then [conds[n]] else []
  }

  predicate Crosses(c: Conjunct) {
    c.rhs.Col? && c.lhs.tab != c.rhs.c.tab
  }

  method TakeJoinConds(conds: seq<Conjunct>, t: nat) returns (jc: seq<Conjunct>, rest: seq<Conjunct>)
    ensures jc == Joining(conds, t) && rest == NotJoining(conds, t)
  {
    jc, rest := [], [];
    for i := 0 to |conds|
      invariant jc == Joining(conds[..i], t) && rest == NotJoining(conds[..i], t)
    {
      assert conds[..i + 1][..i] == conds[..i];
      if Connects(conds[i], t) {
        jc := jc + [conds[i]];
      } else {
        rest := rest + [conds[i]];
      }
    }
    assert conds[..|conds|] == conds;
  }

  function Joining(conds: seq<Conjunct>, t: nat): seq<Conjunct> {
    if conds == [] then [] else
      var n := |conds| - 1;
      Joining(conds[..n], t) + if Connects(conds[n], t) then [conds[n]] else []
  }

  function NotJoining(conds: seq<Conjunct>, t: nat): seq<Conjunct> {
    if conds == [] then [] else
      var n := |conds| - 1;
      NotJoining(conds[..n], t) + if Connects(conds[n], t) then [] else [conds[n]]
  }

  lemma JoiningSnoc(A: seq<Conjunct>, c: Conjunct, add: bool, t: nat)
    ensures Joining(A + if add then [c] else [], t) == Joining(A, t) + if add && Connects(c, t) then [c] else []
    ensures NotJoining(A + if add then [c] else [], t) == NotJoining(A, t) + if add && !Connects(c, t) then [c] else []
  {
    hide Connects;
    assert A + [] == A;
    if add {
      assert (A + [c])[..|A|] == A;
    }
  }

  /** Each join takes the conditions whose later table it brings; the others wait for their table. */
  lemma {:induction false} WaitingStep(conds: seq<Conjunct>, t: nat)
    ensures Joining(Waiting(conds, t), t) == At(conds, t) == At(Effective(conds), t)
    ensures NotJoining(Waiting(conds, t), t) == Waiting(conds, t + 1)
  {
    if conds != [] {
      var n := |conds| - 1;
      WaitingStep(conds[..n], t);
      JoiningSnoc(Waiting(conds[..n], t), conds[n], Crosses(conds[n]) && !Covered(conds[n], t), t);
      OnSnoc(Effective(conds[..n]), conds[n], !SelfLater(conds[n]), t);
    }
  }

  /** What the scans leave are the conditions over two tables. */
  lemma {:induction false} WaitingStart(s: Schemas, conds: seq<Conjunct>)
    requires ConjunctsOk(s, conds) && |s| > 0
    ensures Survivors(conds, |s|) == Waiting(conds, 1)
  {
    hide ConjunctOk, Survives, Crosses, Covered;
    if conds != [] {
      var n := |conds| - 1;
      SurvivesCrossing(s, conds[n]);
      WaitingStart(s, conds[..n]);
    }
  }

  lemma SurvivesCrossing(s: Schemas, c: Conjunct)
    requires ConjunctOk(s, c) && |s| > 0
    ensures Survives(c, |s|) <==> Crosses(c) && !Covered(c, 1)
  {
    hide Fits;
  }

  /** No condition is left for the push-down after the last join. */
  lemma {:induction false} WaitingEnd(s: Schemas, conds: seq<Conjunct>)
    requires ConjunctsOk(s, conds)
    ensures Waiting(conds, |s|) == []
  {
    hide Fits;
    if conds != [] {
      var n := |conds| - 1;
      assert ConjunctOk(s, conds[n]);
      WaitingEnd(s, conds[..n]);
    }
  }

  // -------------------------------------------------------------------------------------------
  // The plan

  predicate DefsOk(s: Schemas, defs: IndexDefs) {
    |defs| == |s| && forall t, i, k :: 0 <= t < |defs| && 0 <= i < |defs[t]| && 0 <= k < |defs[t][i]| ==> defs[t][i][k] < |s[t]|
  }

  /** A left-deep plan over the first k tables with every condition in its place. */
  ghost predicate IsPlan(defs: IndexDefs, conds: seq<Conjunct>, k: nat, p: Plan)
    decreases p
  {
    k <= |defs| &&
    match p
    case Leaf(scan) => k == 1 && scan.table == 0 && scan.conds == Taken(conds, 0) && IndexOk(defs, scan) && ScanIndexOk(defs, scan)
    case NestLoop(left, scan, jc) => k > 1 && IsPlan(defs, conds, k - 1, left) && JoinOk(defs, conds, k - 1, scan, jc, false)
    case IndexNestLoop(left, scan, jc) => k > 1 && IsPlan(defs, conds, k - 1, left) && JoinOk(defs, conds, k - 1, scan, jc, true)
  }

  ghost predicate IndexOk(defs: IndexDefs, scan: ScanPlan) {
    scan.table < |defs| && (scan.index.Some? ==> scan.index.value < |defs[scan.table]|)
  }

  ghost predicate JoinOk(defs: IndexDefs, conds: seq<Conjunct>, t: nat, scan: ScanPlan, jc: seq<Conjunct>, probe: bool) {
    && scan.table == t && IndexOk(defs, scan) && scan.conds == On(Effective(conds), t) && jc == At(Effective(conds), t)
    && if probe then scan.index.Some? && JoinIndexIs(t, defs[t], scan.conds, jc, scan.index)
       else ScanIndexOk(defs, scan) && JoinIndexIs(t, defs[t], scan.conds, jc, None)
  }

  /** The scan runs over the index its own conditions ask for. */
  ghost predicate ScanIndexOk(defs: IndexDefs, scan: ScanPlan)
    requires scan.table < |defs|
  {
    ScanIndexIs(scan.table, defs[scan.table], scan.conds, scan.index)
  }

  /** Every probed index is bound in all its columns. */
  predicate ProbesBound(defs: IndexDefs, p: Plan) {
    match p
    case Leaf(_) => true
    case NestLoop(left, _, _) => ProbesBound(defs, left)
    case IndexNestLoop(left, scan, jc) => ProbesBound(defs, left) && ProbeBound(defs, scan, jc)
  }

  predicate ProbeBound(defs: IndexDefs, scan: ScanPlan, jc: seq<Conjunct>) {
    && scan.table < |defs| && scan.index.Some? && scan.index.value < |defs[scan.table]|
    && FullyBound(scan.table, defs[scan.table][scan.index.value], scan.conds, jc)
  }

  // -------------------------------------------------------------------------------------------
  // Building the executors

  /** A condition that does not start with a column of the scan's table must end with one, or the
      constructor of the index scan ends the program. */
  predicate Asserted(c: Conjunct, t: nat) {
    c.lhs.tab == t || (c.rhs.Col? && c.rhs.c.tab == t)
  }

  predicate AllAsserted(conds: seq<Conjunct>, t: nat) {
    forall i :: 0 <= i < |conds| ==> Asserted(conds[i], t)
  }

  /** The full scan takes any conditions. */
  predicate ScanBuilds(scan: ScanPlan) {
    scan.index.Some? ==> AllAsserted(scan.conds, scan.table)
  }

  /** The right side of an index join is not built as a scan. */
  predicate PlanBuilds(p: Plan) {
    match p
    case Leaf(scan) => ScanBuilds(scan)
    case NestLoop(left, scan, _) => PlanBuilds(left) && ScanBuilds(scan)
    case IndexNestLoop(left, _, _) => PlanBuilds(left)
  }

  method BuildScan(scan: ScanPlan) returns (ok: bool)
    ensures ok <==> ScanBuilds(scan)
  {
    if scan.index.Some? {
      for i := 0 to |scan.conds|
        invariant forall j :: 0 <= j < i ==> Asserted(scan.conds[j], scan.table)
      {
        var c := scan.conds[i];
        if c.lhs.tab != scan.table && !(c.rhs.Col? && c.rhs.c.tab == scan.table) {
          return false;
        }
      }
    }
    ok := true;
  }

  /** Builds the executors of a plan from its left end, or fails where the program ends. */
  method BuildPlan(p: Plan) returns (ok: bool)
    ensures ok <==> PlanBuilds(p)
    decreases p
  {
    match p {
      case Leaf(scan) =>
        ok := BuildScan(scan);
      case NestLoop(left, scan, _) =>
        ok := BuildPlan(left);
        if ok {
          ok := BuildScan(scan);
        }
      case IndexNestLoop(left, _, _) =>
        ok := BuildPlan(left);
    }
  }

  /** The first table has an index its conditions can use. */
  predicate FirstIndexed(defs: IndexDefs, conds: seq<Conjunct>) {
    |defs| > 0 && exists i :: 0 <= i < |defs[0]| && ScanMatch(0, defs[0][i], Taken(conds, 0)) > 0
  }

  lemma AssertedSnoc(A: seq<Conjunct>, c: Conjunct, t: nat)
    ensures AllAsserted(A + [c], t) <==> AllAsserted(A, t) && Asserted(c, t)
  {
    assert (A + [c])[..|A|] == A && (A + [c])[|A|] == c;
    assert forall i :: 0 <= i < |A| ==> (A + [c])[i] == A[i];
  }

  /** Of what the first table's scan takes, exactly the comparisons within a later table fail. */
  lemma {:induction false} TakenAsserted(conds: seq<Conjunct>)
    ensures AllAsserted(Taken(conds, 0), 0) <==> NoSelfLater(conds)
  {
    if conds != [] {
      var n := |conds| - 1;
      TakenAsserted(conds[..n]);
      AssertedSnoc(Taken(conds[..n], 0), conds[n], 0);
      assert Taken(conds[..n], 0) + [] == Taken(conds[..n], 0);
      assert NoSelfLater(conds) <==> NoSelfLater(conds[..n]) && !SelfLater(conds[n]);
    }
  }

  /** The executors of a query can be built exactly if its first table is scanned in full or no
      condition compares two columns of a later table. */
  lemma {:induction false} BuildsExactly(defs: IndexDefs, conds: seq<Conjunct>, k: nat, p: Plan)
    requires IsPlan(defs, conds, k, p)
    ensures PlanBuilds(p) <==> !FirstIndexed(defs, conds) || NoSelfLater(conds)
    decreases p
  {
    hide ScanMatch, Taken, NoSelfLater, JoinIndexIs, Effective, On, JoinQuery.At;
    match p
    case Leaf(scan) => TakenAsserted(conds);
    case NestLoop(left, scan, _) => BuildsExactly(defs, conds, k - 1, left);
    case IndexNestLoop(left, _, _) => BuildsExactly(defs, conds, k - 1, left);
  }

  // -------------------------------------------------------------------------------------------
  // Making the plan

  method MakeScan(defs: IndexDefs, t: nat, conds: seq<Conjunct>) returns (scan: ScanPlan)
    requires t < |defs|
    ensures scan.table == t && scan.conds == conds && IndexOk(defs, scan) && ScanIndexOk(defs, scan)
  {
    hide ScanMatch;
    var index := GetIndexCols(t, defs[t], conds);
    scan := ScanPlan(t, conds, index);
  }

  method MakeJoinPlan(defs: IndexDefs, left: Plan, scan: ScanPlan, jc: seq<Conjunct>) returns (p: Plan)
    requires IndexOk(defs, scan)
    ensures p.NestLoop? ==> p == NestLoop(left, scan, jc) && JoinIndexIs(scan.table, defs[scan.table], scan.conds, jc, None)
    ensures p.IndexNestLoop? ==> p == IndexNestLoop(left, scan.(index := p.scan.index), jc) && p.scan.index.Some?
    ensures p.IndexNestLoop? ==> JoinIndexIs(scan.table, defs[scan.table], scan.conds, jc, p.scan.index)
    ensures !p.Leaf?
  {
    var r := GetJoinIndexCols(scan.table, defs[scan.table], scan.conds, jc);
    if r.Some? {
      p := IndexNestLoop(left, scan.(index := r), jc);
    } else {
      p := NestLoop(left, scan, jc);
    }
  }

  lemma PlanStep(defs: IndexDefs, conds: seq<Conjunct>, t: nat, left: Plan, scan: ScanPlan, jc: seq<Conjunct>, p: Plan)
    requires 0 < t < |defs| && IsPlan(defs, conds, t, left) && scan.table == t && IndexOk(defs, scan) && ScanIndexOk(defs, scan)
    requires scan.conds == On(Effective(conds), t) && jc == At(Effective(conds), t)
    requires (p == NestLoop(left, scan, jc) && JoinIndexIs(t, defs[t], scan.conds, jc, None))
             || (p.IndexNestLoop? && p == IndexNestLoop(left, scan.(index := p.scan.index), jc) && p.scan.index.Some?
                 && JoinIndexIs(t, defs[t], scan.conds, jc, p.scan.index))
    ensures IsPlan(defs, conds, t + 1, p)
  {
    hide On, At, Effective, JoinMatch, HasJoinEqOn, ScanIndexIs;
  }

  /** Scans for all tables, then left-deep joins in FROM order. */
  method MakeOneRel(s: Schemas, defs: IndexDefs, conds: seq<Conjunct>) returns (p: Plan, pushed: seq<Conjunct>)
    requires |s| > 0 && ConjunctsOk(s, conds) && DefsOk(s, defs)
    ensures IsPlan(defs, conds, |s|, p) && pushed == []
  {
    hide ConjunctOk, JoinIndexIs, ScanIndexIs, Taken, Left, On, At, Effective, Waiting, Joining, NotJoining, Survivors;
    var scans, rest := MakeScans(s, defs, conds);
    p := Leaf(scans[0]);
    LeftFilter(conds, |s|);
    WaitingStart(s, conds);
    for t := 1 to |s|
      invariant rest == Waiting(conds, t) && IsPlan(defs, conds, t, p)
    {
      var jc;
      WaitingStep(conds, t);
      jc, rest := TakeJoinConds(rest, t);
      ghost var left := p;
      p := MakeJoinPlan(defs, p, scans[t], jc);
      PlanStep(defs, conds, t, left, scans[t], jc, p);
    }
    WaitingEnd(s, conds);
    pushed := rest;
  }

  method MakeScans(s: Schemas, defs: IndexDefs, conds: seq<Conjunct>) returns (scans: seq<ScanPlan>, rest: seq<Conjunct>)
    requires |s| > 0 && ConjunctsOk(s, conds) && DefsOk(s, defs)
    ensures |scans| == |s| && rest == LeftAfter(conds, |s|)
    ensures forall t :: 0 <= t < |s| ==> scans[t].table == t && IndexOk(defs, scans[t]) && ScanIndexOk(defs, scans[t])
    ensures scans[0].conds == Taken(conds, 0)
    ensures forall t :: 1 <= t < |s| ==> scans[t].conds == On(Effective(conds), t)
  {
    hide ConjunctOk, Taken, Left, On, Effective, ScanIndexIs;
    scans, rest := [], conds;
    for t := 0 to |s|
      invariant |scans| == t && rest == LeftAfter(conds, t)
      invariant forall i :: 0 <= i < t ==> scans[i].table == i && IndexOk(defs, scans[i]) && ScanIndexOk(defs, scans[i])
      invariant forall i :: 0 <= i < t ==> scans[i].conds == Taken(LeftAfter(conds, i), i)
    {
      var solved;
      solved, rest := PopConds(rest, t);
      var scan := MakeScan(defs, t, solved);
      scans := scans + [scan];
    }
    forall t | 1 <= t < |s| ensures scans[t].conds == On(Effective(conds), t) {
      LaterTakes(conds, t);
    }
  }
}
