/**
 The recursive-dependency check of the configuration language: a depth-first search that
 marks symbols with the CHECK flag (on the search path) and the CHECKED flag (visited),
 gives up a symbol as soon as one cycle through the path is found, and prints that cycle.
 */
module KconfigDeps {
  import opened Common
  import opened KconfigExpr

  datatype PropType = Prompt | Default | Choice | Select | Range

  /** struct property; an absent expression is a NULL pointer. */
  datatype Property = Property(kind: PropType, visible: Option<Expr>, expr: Option<Expr>)

  /** What the search reads of a symbol and never changes. */
  datatype Info = Info(isChoice: bool, revDep: Option<Expr>, props: seq<Property>)

  /** All symbols, and those that for_all_symbols visits, in its order. */
  datatype Graph = Graph(info: map<Symbol, Info>, listed: seq<Symbol>)

  function Mentioned(e: Expr): set<Symbol> {
    match e
    case Sym(s) => {s}
    case Not(x) => Mentioned(x)
    case And(l, r) => Mentioned(l) + Mentioned(r)
    case Or(l, r) => Mentioned(l) + Mentioned(r)
    case Equal(a, b) => {a, b}
    case Unequal(a, b) => {a, b}
  }

  function Within(e: Option<Expr>): set<Symbol> {
    if e.None? then {} else Mentioned(e.value)
  }

  /** Visibility counts for everything but choices and selects, values only for defaults. */
  function PropDeps(isChoice: bool, p: Property): set<Symbol> {
    if p.kind == Choice || p.kind == Select then {}
    else Within(p.visible) + if p.kind == Default && !isChoice then Within(p.expr) else {}
  }

  /** The symbols that a symbol depends on. */
  function Deps(i: Info): set<Symbol> {
    Within(i.revDep) + set k, d | 0 <= k < |i.props| && d in PropDeps(i.isChoice, i.props[k]) :: d
  }

  ghost predicate WellFormed(g: Graph) {
    (forall s, d | s in g.info && d in Deps(g.info[s]) :: d in g.info) &&
    (forall s | s in g.listed :: s in g.info)
  }

  ghost predicate Edge(g: Graph, s: Symbol, d: Symbol) {
    s in g.info && d in Deps(g.info[s])
  }

  ghost predicate Walk(g: Graph, p: seq<Symbol>) {
    forall i | 0 <= i < |p| - 1 :: Edge(g, p[i], p[i + 1])
  }

  ghost predicate Cycle(g: Graph, p: seq<Symbol>) {
    |p| >= 2 && Walk(g, p) && p[0] == p[|p| - 1]
  }

  ghost predicate LeadsTo(g: Graph, p: seq<Symbol>, s: Symbol) {
    |p| > 0 && Walk(g, p) && p[0] in g.listed && p[|p| - 1] == s
  }

  /** Some chain of dependencies leads from a listed symbol to s. */
  ghost predicate Reachable(g: Graph, s: Symbol) {
    exists p :: LeadsTo(g, p, s)
  }

  /** No dependency cycle can be reached from the listed symbols. */
  ghost predicate Acyclic(g: Graph) {
    forall p | Cycle(g, p) :: !Reachable(g, p[0])
  }

  lemma {:induction false} ReachStep(g: Graph, s: Symbol, d: Symbol)
    requires Reachable(g, s) && Edge(g, s, d)
    ensures Reachable(g, d)
  {
    var p :| LeadsTo(g, p, s);
    assert LeadsTo(g, p + [d], d);
  }

  function Backwards(p: seq<Symbol>): (r: seq<Symbol>)
    ensures |r| == |p| && forall i | 0 <= i < |p| :: r[i] == p[|p| - 1 - i]
  {
    seq(|p|, i requires 0 <= i < |p| => p[|p| - 1 - i])
  }

  /** Symbols ranked so that dependencies always go down, or lead to a symbol that was named. */
  ghost predicate Ranked(g: Graph, rank: map<Symbol, int>, named: set<Symbol>) {
    forall s, d | s in rank && Edge(g, s, d) :: d in named || (d in rank && rank[d] < rank[s])
  }

  lemma {:induction false} WalkDescends(g: Graph, rank: map<Symbol, int>, named: set<Symbol>, p: seq<Symbol>, n: nat)
    requires Ranked(g, rank, named) && Walk(g, p) && n < |p| && p[0] in rank
    requires forall i | 0 <= i < |p| :: p[i] !in named
    ensures p[n] in rank && rank[p[n]] <= rank[p[0]] - n
  {
    if n > 0 {
      WalkDescends(g, rank, named, p, n - 1);
      assert Edge(g, p[n - 1], p[n - 1 + 1]);
    }
  }

  /** Some symbol of p was named. */
  predicate Touches(p: seq<Symbol>, named: set<Symbol>) {
    exists i :: 0 <= i < |p| && p[i] in named
  }

  /** A cycle among ranked and named symbols has a named one. */
  lemma {:induction false} CycleNamed(g: Graph, rank: map<Symbol, int>, named: set<Symbol>, p: seq<Symbol>)
    requires Ranked(g, rank, named) && Cycle(g, p) && p[0] in rank.Keys + named
    ensures Touches(p, named)
  {
    if !Touches(p, named) {
      WalkDescends(g, rank, named, p, |p| - 1);
    }
  }

  /** Whoever follows dependencies from a listed symbol into a cycle meets a named symbol. */
  ghost predicate Cut(g: Graph, named: set<Symbol>) {
    forall q, p | Cycle(g, p) && LeadsTo(g, q, p[0]) :: Touches(q, named) || Touches(p, named)
  }

  lemma {:induction false} RankedCut(g: Graph, rank: map<Symbol, int>, named: set<Symbol>)
    requires Ranked(g, rank, named) && forall s | s in g.listed :: s in rank.Keys + named
    ensures Cut(g, named)
  {
    forall q, p | Cycle(g, p) && LeadsTo(g, q, p[0]) ensures Touches(q, named) || Touches(p, named) {
      if !Touches(q, named) {
        assert q[0] !in named;
        WalkDescends(g, rank, named, q, |q| - 1);
        CycleNamed(g, rank, named, p);
      }
    }
  }

  /** Where nothing was named, that is the absence of cycles. */
  lemma {:induction false} CutByNothing(g: Graph)
    ensures Cut(g, {}) <==> Acyclic(g)
  {
    if !Acyclic(g) {
      var p :| Cycle(g, p) && Reachable(g, p[0]);
      var q :| LeadsTo(g, q, p[0]);
      assert !Touches(q, {}) && !Touches(p, {});
    }
    if !Cut(g, {}) {
      var q, p :| Cycle(g, p) && LeadsTo(g, q, p[0]);
      assert Reachable(g, p[0]);
    }
  }

  function Weight(e: Option<Expr>): nat {
    if e.None? then 0 else Size(e.value)
  }

  /** When every symbol is listed, the search is about all cycles. */
  lemma {:induction false} AcyclicEverywhere(g: Graph)
    requires forall s | s in g.info :: s in g.listed
    ensures Acyclic(g) <==> forall p :: !Cycle(g, p)
  {
    forall p | Cycle(g, p) ensures Reachable(g, p[0]) {
      assert Edge(g, p[0], p[0 + 1]);
      assert LeadsTo(g, [p[0]], p[0]);
    }
  }

  /** A warning as printed: the symbol found twice, then back along the search path to it. */
  ghost predicate Report(g: Graph, line: seq<Symbol>) {
    Cycle(g, Backwards(line)) && Reachable(g, line[0])
  }

  /** The names printed so far on a line, each depending on the one before it. */
  ghost predicate Partial(g: Graph, line: seq<Symbol>) {
    |line| > 0 && Walk(g, Backwards(line))
  }

  lemma {:induction false} PartialExtends(g: Graph, line: seq<Symbol>, s: Symbol)
    requires Partial(g, line) && Edge(g, s, line[|line| - 1])
    ensures Partial(g, line + [s])
    ensures line[0] == s && Reachable(g, s) ==> Report(g, line + [s])
  {
    assert Backwards(line + [s]) == [s] + Backwards(line);
  }

  /** The dependencies read before the property with index k. */
  function DepsBefore(i: Info, k: nat): set<Symbol>
    requires k <= |i.props|
  {
    if k == 0 then Within(i.revDep) else DepsBefore(i, k - 1) + PropDeps(i.isChoice, i.props[k - 1])
  }

  lemma {:induction false} DepsBeforeAll(i: Info, k: nat)
    requires k <= |i.props|
    ensures DepsBefore(i, k) ==
      Within(i.revDep) + set j, d | 0 <= j < k && d in PropDeps(i.isChoice, i.props[j]) :: d
  {
    if k > 0 {
      DepsBeforeAll(i, k - 1);
    }
  }

  lemma {:induction false} DepsBeforeIsDeps(i: Info)
    ensures DepsBefore(i, |i.props|) == Deps(i)
  {
    DepsBeforeAll(i, |i.props|);
  }

  lemma {:induction false} DepsBeforeGrows(i: Info, j: nat, k: nat)
    requires j <= k <= |i.props|
    ensures DepsBefore(i, j) <= DepsBefore(i, k)
  {
    if j < k {
      DepsBeforeGrows(i, j, k - 1);
    }
  }

  /** The size of the expressions read before the property with index k. */
  function Total(i: Info, k: nat): nat
    requires k <= |i.props|
  {
    if k == 0 then Weight(i.revDep)
    else Total(i, k - 1) + 1 + Weight(i.props[k - 1].visible) + Weight(i.props[k - 1].expr)
  }

  lemma {:induction false} TotalGrows(i: Info, j: nat, k: nat)
    requires j <= k <= |i.props|
    ensures Total(i, j) <= Total(i, k)
  {
    if j < k {
      TotalGrows(i, j, k - 1);
    }
  }

  lemma {:induction false} RankExtends(g: Graph, rank: map<Symbol, int>, named: set<Symbol>, s: Symbol, top: int)
    requires Ranked(g, rank, named) && s in g.info && s !in rank && Deps(g.info[s]) <= rank.Keys + named
    requires forall d | d in rank :: rank[d] < top
    ensures Ranked(g, rank[s := top], named)
  {
  }

  lemma {:induction false} RankStays(g: Graph, rank: map<Symbol, int>, named: set<Symbol>, named': set<Symbol>)
    requires Ranked(g, rank, named) && named <= named'
    ensures Ranked(g, rank, named')
  {
  }

  ghost function Names(line: seq<Symbol>): set<Symbol> {
    set s | s in line
  }

  /** The symbols on any of the lines. */
  ghost function AllNames(lines: seq<seq<Symbol>>): set<Symbol> {
    set k, s | 0 <= k < |lines| && s in lines[k] :: s
  }

  ghost predicate LinesDisjoint(lines: seq<seq<Symbol>>) {
    forall j, k | 0 <= j < k < |lines| :: Names(lines[j]) !! Names(lines[k])
  }

  lemma {:induction false} OneMoreName(line: seq<Symbol>, s: Symbol)
    ensures Names(line + [s]) == Names(line) + {s} && Names([s]) == {s} && Names([]) == {}
  {
  }

  lemma {:induction false} OneMoreLine(lines: seq<seq<Symbol>>, line: seq<Symbol>)
    ensures AllNames(lines + [line]) == AllNames(lines) + Names(line)
    ensures LinesDisjoint(lines) && AllNames(lines) !! Names(line) ==> LinesDisjoint(lines + [line])
  {
    var more := lines + [line];
    assert more[|lines|] == line && forall k | 0 <= k < |lines| :: more[k] == lines[k];
    forall k | 0 <= k < |lines| ensures Names(lines[k]) <= AllNames(lines) {
    }
  }

  /** A number above every rank. */
  ghost function Above(rank: map<Symbol, int>): (n: int)
    ensures forall s | s in rank :: rank[s] < n
  {
    if rank == map[] then 0
    else
      var s :| s in rank;
      var n := Above(rank - {s});
      assert forall t | t in rank && t != s :: t in rank - {s};
      Max(n, rank[s] + 1)
  }

  /** Each symbol is printed on one line at most, and none on a finished line is still on the search path.
      Those finished and not printed are ranked. */
  ghost predicate Booked(
    g: Graph, lines: seq<seq<Symbol>>, line: seq<Symbol>, check: set<Symbol>, checked: set<Symbol>,
    rank: map<Symbol, int>)
  {
    var named := AllNames(lines) + Names(line);
    LinesDisjoint(lines) && AllNames(lines) !! check && AllNames(lines) !! Names(line) && named <= checked &&
    Ranked(g, rank, named) && rank.Keys == checked - check - named
  }

  /** The search finds sym on its path. */
  lemma {:induction false} BookedFound(
    g: Graph, lines: seq<seq<Symbol>>, check: set<Symbol>, checked: set<Symbol>, rank: map<Symbol, int>, sym: Symbol)
    requires Booked(g, lines, [], check, checked, rank) && sym in check && check <= checked
    ensures Booked(g, lines, [sym], check, checked, rank) && Names([sym]) == {sym}
  {
    hide Ranked, Names, AllNames, LinesDisjoint;
    NoLines();
    OneMoreName([], sym);
    RankStays(g, rank, AllNames(lines) + Names([]), AllNames(lines) + Names([sym]));
  }

  lemma {:induction false} BookedEnter(
    g: Graph, lines: seq<seq<Symbol>>, check: set<Symbol>, checked: set<Symbol>, rank: map<Symbol, int>, sym: Symbol)
    requires Booked(g, lines, [], check, checked, rank) && sym !in checked
    ensures Booked(g, lines, [], check + {sym}, checked + {sym}, rank)
  {
    hide Ranked, Names, AllNames, LinesDisjoint;
  }

  /** sym is printed and leaves the path. */
  lemma {:induction false} BookedPrinted(
    g: Graph, lines: seq<seq<Symbol>>, line: seq<Symbol>, check: set<Symbol>, checked: set<Symbol>,
    rank: map<Symbol, int>, sym: Symbol)
    requires Booked(g, lines, line, check, checked, rank) && sym in check && check <= checked
    ensures Booked(g, lines, line + [sym], check - {sym}, checked, rank)
    ensures Names(line) * check == {sym} ==> Booked(g, lines + [line + [sym]], [], check - {sym}, checked, rank)
    ensures Names(line + [sym]) * (check - {sym}) == Names(line) * (check - {sym})
  {
    hide Ranked, Names, AllNames, LinesDisjoint;
    OneMoreName(line, sym);
    OneMoreLine(lines, line + [sym]);
    NoLines();
    RankStays(g, rank, AllNames(lines) + Names(line), AllNames(lines) + Names(line + [sym]));
    assert AllNames(lines + [line + [sym]]) + Names([]) == AllNames(lines) + Names(line + [sym]);
  }

  /** sym is finished and was not printed. */
  lemma {:induction false} BookedDone(
    g: Graph, lines: seq<seq<Symbol>>, check: set<Symbol>, checked: set<Symbol>, rank: map<Symbol, int>, sym: Symbol)
    requires Booked(g, lines, [], check, checked, rank) && sym in check && check <= checked
    requires sym in g.info && Deps(g.info[sym]) <= checked - check
    ensures Booked(g, lines, [], check - {sym}, checked, rank[sym := Above(rank)])
  {
    hide Ranked, Names, AllNames, LinesDisjoint, Deps;
    NoLines();
    RankExtends(g, rank, AllNames(lines) + Names([]), sym, Above(rank));
  }

  lemma {:induction false} ListedReachable(g: Graph, s: Symbol)
    requires s in g.listed
    ensures Reachable(g, s)
  {
    assert LeadsTo(g, [s], s);
  }

  lemma {:induction false} NoLines()
    ensures AllNames([]) == {} && Names([]) == {}
  {
  }

  lemma {:induction false} ReportIsCycle(g: Graph, line: seq<Symbol>)
    requires Report(g, line)
    ensures !Acyclic(g)
  {
    assert Backwards(line)[0] == line[0];
  }

  class Checker {
    const g: Graph
    /** The symbols whose SYMBOL_CHECK and SYMBOL_CHECKED flags are set. */
    var check: set<Symbol>
    var checked: set<Symbol>
    /** Finished warnings, and the line being printed. */
    var lines: seq<seq<Symbol>>
    var line: seq<Symbol>
    /** The finished symbols that were not printed, in an order that respects dependency. */
    ghost var rank: map<Symbol, int>

    /** What holds at every moment of the search. */
    ghost predicate Valid()
      reads this
    {
      WellFormed(g) &&
      check <= checked <= g.info.Keys &&
      (forall s | s in checked :: Reachable(g, s)) &&
      (forall k | 0 <= k < |lines| :: Report(g, lines[k])) &&
      Booked(g, lines, line, check, checked, rank)
    }

    constructor (g: Graph)
      requires WellFormed(g)
      ensures Valid() && this.g == g && check == {} && checked == {} && lines == [] && line == []
    {
      this.g := g;
      check, checked, lines, line, rank := {}, {}, [], [], map[];
    }

    /** The outcome of a search, common to all levels of it. */
    ghost predicate Searched(wasCheck: set<Symbol>, wasChecked: set<Symbol>, r: Option<Symbol>)
      reads this
    {
      Valid() && check == wasCheck && wasChecked <= checked &&
      (r.None? ==> line == []) &&
      (r.Some? ==> Partial(g, line) && line[0] == r.value && r.value in check && Names(line) * check == {r.value})
    }

    method CheckExprDeps(e: Option<Expr>)
      returns (r: Option<Symbol>)
      requires Valid() && line == []
      requires forall d | d in Within(e) :: d in g.info && Reachable(g, d)
      modifies this
      decreases g.info.Keys - checked, Weight(e)
      ensures Searched(old(check), old(checked), r) && old(lines) <= lines
      ensures r.Some? ==> line[|line| - 1] in Within(e)
      ensures r.None? ==> forall d | d in Within(e) :: d in checked - check
    {
      hide Reachable, Report, Walk, WellFormed, Names, Booked;
      if e.None? {
        return None;
      }
      match e.value
      case Or(l, x) =>
        r := CheckExprDeps(Some(l));
        if r.None? {
          r := CheckExprDeps(Some(x));
        }
      case And(l, x) =>
        r := CheckExprDeps(Some(l));
        if r.None? {
          r := CheckExprDeps(Some(x));
        }
      case Not(x) =>
        r := CheckExprDeps(Some(x));
      case Equal(a, b) =>
        r := CheckDeps(a);
        if r.None? {
          r := CheckDeps(b);
        }
      case Unequal(a, b) =>
        r := CheckDeps(a);
        if r.None? {
          r := CheckDeps(b);
        }
      case Sym(s) =>
        r := CheckDeps(s);
    }

    method CheckDeps(sym: Symbol)
      returns (r: Option<Symbol>)
      requires Valid() && line == [] && sym in g.info && Reachable(g, sym)
      modifies this
      decreases g.info.Keys - checked, 0
      ensures Searched(old(check), old(checked), r) && sym in checked && old(lines) <= lines
      ensures r.Some? ==> line[|line| - 1] == sym
      ensures r.None? ==> sym !in check
    {
      hide Reachable, Report, Deps, Names, Booked, Above;
      if sym in check {
        BookedFound(g, lines, check, checked, rank, sym);
        line := [sym];
        return Some(sym);
      }
      if sym in checked {
        return None;
      }
      BookedEnter(g, lines, check, checked, rank, sym);
      check, checked := check + {sym}, checked + {sym};
      AllReachable(sym);
      r := CheckInfo(g.info[sym]);
      if r.Some? {
        PartialExtends(g, line, sym);
        BookedPrinted(g, lines, line, check, checked, rank, sym);
        line := line + [sym];
        if r.value == sym {
          lines, line := lines + [line], [];
          r := None;
        }
      } else {
        BookedDone(g, lines, check, checked, rank, sym);
        rank := rank[sym := Above(rank)];
      }
      check := check - {sym};
    }

    /** The middle of sym_check_deps: the reverse dependency, then the properties in turn. */
    method CheckInfo(i: Info)
      returns (r: Option<Symbol>)
      requires Valid() && line == []
      requires forall d | d in Deps(i) :: d in g.info && Reachable(g, d)
      modifies this
      decreases g.info.Keys - checked, Total(i, |i.props|) + 1
      ensures Searched(old(check), old(checked), r) && old(lines) <= lines
      ensures r.Some? ==> line[|line| - 1] in Deps(i)
      ensures r.None? ==> Deps(i) <= checked - check
    {
      hide Reachable, Report, Walk, Ranked, WellFormed, Deps, Within, Weight, Names, Booked;
      DepsBeforeIsDeps(i);
      DepsBeforeGrows(i, 0, |i.props|);
      TotalGrows(i, 0, |i.props|);
      r := CheckExprDeps(i.revDep);
      var k := 0;
      while r.None? && k < |i.props|
        invariant 0 <= k <= |i.props|
        invariant Searched(old(check), old(checked), r) && old(lines) <= lines
        invariant r.Some? ==> line[|line| - 1] in Deps(i)
        invariant r.None? ==> DepsBefore(i, k) <= checked - check
      {
        DepsBeforeGrows(i, k + 1, |i.props|);
        TotalGrows(i, k + 1, |i.props|);
        r := CheckPropDeps(i.isChoice, i.props[k]);
        k := k + 1;
      }
    }

    /** One turn of the loop over the properties of sym. */
    method CheckPropDeps(isChoice: bool, p: Property)
      returns (r: Option<Symbol>)
      requires Valid() && line == []
      requires forall d | d in PropDeps(isChoice, p) :: d in g.info && Reachable(g, d)
      modifies this
      decreases g.info.Keys - checked, 1 + Weight(p.visible) + Weight(p.expr)
      ensures Searched(old(check), old(checked), r) && old(lines) <= lines
      ensures r.Some? ==> line[|line| - 1] in PropDeps(isChoice, p)
      ensures r.None? ==> PropDeps(isChoice, p) <= checked - check
    {
      if p.kind == Choice || p.kind == Select {
        return None;
      }
      r := CheckExprDeps(p.visible);
      if r.Some? || p.kind != Default || isChoice {
        return;
      }
      r := CheckExprDeps(p.expr);
    }

    lemma {:induction false} AllReachable(sym: Symbol)
      requires sym in g.info && Reachable(g, sym)
      ensures forall d | d in Deps(g.info[sym]) :: Reachable(g, d)
    {
      forall d | d in Deps(g.info[sym]) ensures Reachable(g, d) {
        ReachStep(g, sym, d);
      }
    }

    /** The loop of the parser's end over all symbols. */
    method CheckAll()
      requires Valid() && check == {} && checked == {} && lines == [] && line == []
      modifies this
      ensures Valid() && check == {} && line == []
      ensures lines == [] <==> Acyclic(g)
      ensures forall k | 0 <= k < |lines| :: Report(g, lines[k])
      ensures LinesDisjoint(lines) && (forall s | s in g.listed :: s in checked) && Cut(g, AllNames(lines))
      ensures forall p | Cycle(g, p) && p[0] in checked :: Touches(p, AllNames(lines))
    {
      hide Reachable, Report, Ranked, Names, AllNames, LinesDisjoint, Cut, Acyclic, Touches, Walk;
      NoLines();
      for n := 0 to |g.listed|
        invariant Valid() && check == {} && line == []
        invariant forall m | 0 <= m < n :: g.listed[m] in checked
      {
        var s := g.listed[n];
        ListedReachable(g, s);
        var r := CheckDeps(s);
      }
      assert AllNames(lines) + Names([]) == AllNames(lines);
      RankedCut(g, rank, AllNames(lines));
      forall p | Cycle(g, p) && p[0] in checked ensures Touches(p, AllNames(lines)) {
        CycleNamed(g, rank, AllNames(lines), p);
      }
      if lines == [] {
        CutByNothing(g);
      } else {
        ReportIsCycle(g, lines[0]);
      }
    }
  }
}
