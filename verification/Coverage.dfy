/** Coverage routing (MutationASTRequestor and its StatementASTVisitor):
    every assert statement met while walking a compilation unit is looked
    up, by (package, first declared type, line), in the faulty and the seed
    line coverage, and enters the faulty pool with its coverage weight and
    the seed pool with weight 1. */
module Coverage {
  import opened Pool

  /** A line-coverage key: package name, class name and line number. */
  datatype LCNode = LCNode(packageName: string, className: string, lineNumber: int)

  /** The parts of a compilation unit the routing reads: its package
      declaration (absent in the default package) and the printed form of
      each top-level type declaration, in declaration order. */
  datatype CompilationUnit = CompilationUnit(package: Option<string>, types: seq<string>)

  /** Statement kinds: only assert statements are routed. */
  datatype StatementKind = AssertStatement | OtherStatement

  /** A statement node: its kind, the compilation unit at its root, and the
      line on which it starts. */
  datatype AstStatement = AstStatement(kind: StatementKind, root: CompilationUnit, startLine: int)

  /** The coverage key of a statement, or None when building it throws: the
      default package has no package declaration, and a unit without type
      declarations has no first type. */
  function KeyOf(s: AstStatement): (key: Option<LCNode>)
    ensures key.Some? <==> s.root.package.Some? && s.root.types != []
    ensures key.Some? ==> key.value.packageName == s.root.package.value
    ensures key.Some? ==> key.value.className == s.root.types[0]
    ensures key.Some? ==> key.value.lineNumber == s.startLine
  {
    match s.root.package
    case None => None
    case Some(p) => if s.root.types == [] then None else Some(LCNode(p, s.root.types[0], s.startLine))
  }

  /** What one statement adds to the faulty pool: one entry weighted by its
      faulty coverage when its key is covered, nothing otherwise. */
  function FaultyArrival(cov: map<LCNode, real>, key: LCNode, s: AstStatement): (e: seq<Entry<AstStatement>>)
    ensures |e| <= 1
    ensures e != [] <==> key in cov
    ensures e != [] ==> e[0].statement == s && e[0].weight == cov[key]
  {
    if key in cov then [Entry(s, cov[key])] else []
  }

  /** What one statement adds to the seed pool: one entry of weight 1 when
      its key is covered, nothing otherwise. */
  function SeedArrival(cov: map<LCNode, real>, key: LCNode, s: AstStatement): (e: seq<Entry<AstStatement>>)
    ensures |e| <= 1
    ensures e != [] <==> key in cov
    ensures e != [] ==> e[0].statement == s && e[0].weight == 1.0
  {
    if key in cov then [Entry(s, 1.0)] else []
  }

  /** The seed weight ignores the coverage value: two seed coverages that
      cover the same keys route every statement identically. */
  lemma SeedWeightIgnoresCoverage(cov1: map<LCNode, real>, cov2: map<LCNode, real>, key: LCNode, s: AstStatement)
    requires cov1.Keys == cov2.Keys
    ensures SeedArrival(cov1, key, s) == SeedArrival(cov2, key, s)
  {
  }

  /** A statement may enter both pools, one of them, or neither: each of the
      four combinations happens for a suitable pair of coverages. */
  lemma RoutesAreIndependent(key: LCNode, s: AstStatement)
    ensures FaultyArrival(map[key := 0.5], key, s) != [] && SeedArrival(map[key := 0.5], key, s) != []
    ensures FaultyArrival(map[key := 0.5], key, s) != [] && SeedArrival(map[], key, s) == []
    ensures FaultyArrival(map[], key, s) == [] && SeedArrival(map[key := 0.5], key, s) != []
    ensures FaultyArrival(map[], key, s) == [] && SeedArrival(map[], key, s) == []
  {
  }

  /** Whether a visit of s routes it, and throws doing so. */
  predicate Throws(s: AstStatement)
  {
    s.kind == AssertStatement && KeyOf(s).None?
  }

  /** The number of statements of a walk that are visited before the first
      one whose visit throws (all of them when none does). */
  function Reached(stmts: seq<AstStatement>): (n: nat)
    ensures n <= |stmts|
    ensures forall i :: 0 <= i < n ==> !Throws(stmts[i])
    ensures n < |stmts| ==> Throws(stmts[n])
  {
    if stmts == [] then 0
    else if Throws(stmts[0]) then 0
    else 1 + Reached(stmts[1..])
  }

  /** What a visit of s adds to the faulty pool when it does not throw. */
  function FaultyShare(cov: map<LCNode, real>, s: AstStatement): seq<Entry<AstStatement>>
  {
    if s.kind == AssertStatement && KeyOf(s).Some? then FaultyArrival(cov, KeyOf(s).value, s) else []
  }

  /** What a visit of s adds to the seed pool when it does not throw. */
  function SeedShare(cov: map<LCNode, real>, s: AstStatement): seq<Entry<AstStatement>>
  {
    if s.kind == AssertStatement && KeyOf(s).Some? then SeedArrival(cov, KeyOf(s).value, s) else []
  }

  /** Everything a walk over stmts adds to the faulty pool, in visit order. */
  function FaultyArrivals(cov: map<LCNode, real>, stmts: seq<AstStatement>): seq<Entry<AstStatement>>
  {
    if stmts == [] then []
    else FaultyArrivals(cov, stmts[..|stmts| - 1]) + FaultyShare(cov, stmts[|stmts| - 1])
  }

  /** Everything a walk over stmts adds to the seed pool, in visit order. */
  function SeedArrivals(cov: map<LCNode, real>, stmts: seq<AstStatement>): seq<Entry<AstStatement>>
  {
    if stmts == [] then []
    else SeedArrivals(cov, stmts[..|stmts| - 1]) + SeedShare(cov, stmts[|stmts| - 1])
  }

  /** What a walk adds when both routes feed one and the same pool. */
  function SharedArrivals(faultyCov: map<LCNode, real>, seedCov: map<LCNode, real>, stmts: seq<AstStatement>): seq<Entry<AstStatement>>
  {
    if stmts == [] then []
    else
      var s := stmts[|stmts| - 1];
      SharedArrivals(faultyCov, seedCov, stmts[..|stmts| - 1]) + FaultyShare(faultyCov, s) + SeedShare(seedCov, s)
  }

  /** Visiting one more statement extends each of the three arrival lists by
      that statement's share. */
  lemma ArrivalsStep(faultyCov: map<LCNode, real>, seedCov: map<LCNode, real>, stmts: seq<AstStatement>, i: nat)
    requires i < |stmts|
    ensures FaultyArrivals(faultyCov, stmts[..i + 1]) == FaultyArrivals(faultyCov, stmts[..i]) + FaultyShare(faultyCov, stmts[i])
    ensures SeedArrivals(seedCov, stmts[..i + 1]) == SeedArrivals(seedCov, stmts[..i]) + SeedShare(seedCov, stmts[i])
    ensures SharedArrivals(faultyCov, seedCov, stmts[..i + 1])
      == SharedArrivals(faultyCov, seedCov, stmts[..i]) + FaultyShare(faultyCov, stmts[i]) + SeedShare(seedCov, stmts[i])
  {
    assert stmts[..i + 1][..i] == stmts[..i];
  }

  /** Statements that are not assert statements never reach a pool. */
  lemma {:induction false} OnlyAssertsArrive(cov: map<LCNode, real>, stmts: seq<AstStatement>)
    requires forall i :: 0 <= i < |stmts| ==> stmts[i].kind != AssertStatement
    ensures FaultyArrivals(cov, stmts) == []
    ensures SeedArrivals(cov, stmts) == []
  {
    if stmts != [] {
      OnlyAssertsArrive(cov, stmts[..|stmts| - 1]);
    }
  }

  /** Every statement that reaches the faulty pool is a covered assert
      statement of the walk. */
  lemma {:induction false} FaultyArrivalsAreCovered(cov: map<LCNode, real>, stmts: seq<AstStatement>)
    ensures forall e :: e in FaultyArrivals(cov, stmts) ==>
      e.statement in stmts && e.statement.kind == AssertStatement
      && KeyOf(e.statement).Some? && KeyOf(e.statement).value in cov && e.weight == cov[KeyOf(e.statement).value]
  {
    if stmts != [] {
      var init := stmts[..|stmts| - 1];
      FaultyArrivalsAreCovered(cov, init);
      forall e | e in FaultyArrivals(cov, stmts)
        ensures e.statement in stmts && e.statement.kind == AssertStatement
          && KeyOf(e.statement).Some? && KeyOf(e.statement).value in cov && e.weight == cov[KeyOf(e.statement).value]
      {
        if e in FaultyArrivals(cov, init) {
          assert e.statement in init;
        } else {
          assert e.statement == stmts[|stmts| - 1];
        }
      }
    }
  }

  /** The requestor handed to the parser: two coverages and the two pools
      the visitor fills. */
  class MutationASTRequestor {
    const faultyLineCoverage: map<LCNode, real>
    const seedLineCoverage: map<LCNode, real>
    const faultyStatements: Statements<AstStatement>
    const seedStatements: Statements<AstStatement>

    ghost predicate Valid()
      reads this, faultyStatements, seedStatements
    {
      faultyStatements.Valid() && seedStatements.Valid()
    }

    constructor(faultyLineCoverage: map<LCNode, real>, seedLineCoverage: map<LCNode, real>,
                faultyStatements: Statements<AstStatement>, seedStatements: Statements<AstStatement>)
      ensures this.faultyLineCoverage == faultyLineCoverage && this.seedLineCoverage == seedLineCoverage
      ensures this.faultyStatements == faultyStatements && this.seedStatements == seedStatements
    {
      this.faultyLineCoverage := faultyLineCoverage;
      this.seedLineCoverage := seedLineCoverage;
      this.faultyStatements := faultyStatements;
      this.seedStatements := seedStatements;
    }

    /** acceptBinding ignores every binding. */
    method AcceptBinding(bindingKey: string)
      ensures unchanged(faultyStatements, seedStatements)
    {
    }

    /** insertStatement: ok is false when building the key throws, and then
        neither pool changes. Otherwise the faulty pool receives the
        statement with its coverage weight exactly when the key is covered
        there, and the seed pool receives it with weight 1 exactly when the
        key is covered there; when both fields hold the same pool it
        receives the faulty entry first. */
    method InsertStatement(s: AstStatement) returns (ok: bool)
      requires Valid()
      modifies faultyStatements, seedStatements
      ensures Valid()
      ensures ok <==> KeyOf(s).Some?
      ensures !ok ==> unchanged(faultyStatements, seedStatements)
      ensures ok && faultyStatements != seedStatements ==>
        faultyStatements.added == old(faultyStatements.added) + FaultyArrival(faultyLineCoverage, KeyOf(s).value, s)
        && seedStatements.added == old(seedStatements.added) + SeedArrival(seedLineCoverage, KeyOf(s).value, s)
      ensures ok && faultyStatements == seedStatements ==>
        faultyStatements.added == old(faultyStatements.added)
          + FaultyArrival(faultyLineCoverage, KeyOf(s).value, s) + SeedArrival(seedLineCoverage, KeyOf(s).value, s)
    {
      var key := KeyOf(s);
      if key.None? {
        return false;
      }
      if key.value in faultyLineCoverage {
        faultyStatements.AddStatement(s, faultyLineCoverage[key.value]);
      }
      if key.value in seedLineCoverage {
        seedStatements.AddStatement(s, 1.0);
      }
      ok := true;
    }

    /** The visitor's dispatch: an assert statement is routed and its
        children are not visited; any other statement is left alone and its
        children are visited. */
    method Visit(node: AstStatement) returns (ok: bool, visitChildren: bool)
      requires Valid()
      modifies faultyStatements, seedStatements
      ensures Valid()
      ensures visitChildren <==> node.kind != AssertStatement
      ensures ok <==> !Throws(node)
      ensures !ok || node.kind != AssertStatement ==> unchanged(faultyStatements, seedStatements)
      ensures ok && faultyStatements != seedStatements ==>
        faultyStatements.added == old(faultyStatements.added) + FaultyShare(faultyLineCoverage, node)
        && seedStatements.added == old(seedStatements.added) + SeedShare(seedLineCoverage, node)
      ensures ok && faultyStatements == seedStatements ==>
        faultyStatements.added == old(faultyStatements.added)
          + FaultyShare(faultyLineCoverage, node) + SeedShare(seedLineCoverage, node)
    {
      if node.kind == AssertStatement {
        ok := InsertStatement(node);
        visitChildren := false;
      } else {
        ok, visitChildren := true, true;
      }
    }

    /** Visits, in order, statements none of whose visits throws. The
        sequence is the walk as the visitor reaches it: the statements
        nested inside an assert statement, whose children Visit declines
        to enter, are already left out of it. */
    method VisitAll(stmts: seq<AstStatement>)
      requires Valid()
      requires forall i :: 0 <= i < |stmts| ==> !Throws(stmts[i])
      modifies faultyStatements, seedStatements
      ensures Valid()
      ensures faultyStatements != seedStatements ==>
        faultyStatements.added == old(faultyStatements.added) + FaultyArrivals(faultyLineCoverage, stmts)
        && seedStatements.added == old(seedStatements.added) + SeedArrivals(seedLineCoverage, stmts)
      ensures faultyStatements == seedStatements ==>
        faultyStatements.added == old(faultyStatements.added) + SharedArrivals(faultyLineCoverage, seedLineCoverage, stmts)
    {
      var i := 0;
      while i < |stmts|
        invariant 0 <= i <= |stmts|
        invariant Valid()
        invariant faultyStatements != seedStatements ==>
          faultyStatements.added == old(faultyStatements.added) + FaultyArrivals(faultyLineCoverage, stmts[..i])
          && seedStatements.added == old(seedStatements.added) + SeedArrivals(seedLineCoverage, stmts[..i])
        invariant faultyStatements == seedStatements ==>
          faultyStatements.added == old(faultyStatements.added)
            + SharedArrivals(faultyLineCoverage, seedLineCoverage, stmts[..i])
      {
        ArrivalsStep(faultyLineCoverage, seedLineCoverage, stmts, i);
        ghost var f0 := faultyStatements.added;
        var _, _ := Visit(stmts[i]);
        ConcatAssoc(old(faultyStatements.added), FaultyArrivals(faultyLineCoverage, stmts[..i]), FaultyShare(faultyLineCoverage, stmts[i]));
        ConcatAssoc(old(seedStatements.added), SeedArrivals(seedLineCoverage, stmts[..i]), SeedShare(seedLineCoverage, stmts[i]));
        ConcatAssoc(old(faultyStatements.added), SharedArrivals(faultyLineCoverage, seedLineCoverage, stmts[..i]),
          FaultyShare(faultyLineCoverage, stmts[i]) + SeedShare(seedLineCoverage, stmts[i]));
        ConcatAssoc(f0, FaultyShare(faultyLineCoverage, stmts[i]), SeedShare(seedLineCoverage, stmts[i]));
        ConcatAssoc(SharedArrivals(faultyLineCoverage, seedLineCoverage, stmts[..i]), FaultyShare(faultyLineCoverage, stmts[i]), SeedShare(seedLineCoverage, stmts[i]));
        i := i + 1;
      }
      assert stmts[..i] == stmts;
    }

    /** acceptAST: the statements of one compilation unit, in the order the
        walk visits them, with the children of assert statements left out
        as Visit asks. The walk stops at the first visit that throws;
        everything routed before it stays in the pools. */
    method AcceptAST(stmts: seq<AstStatement>) returns (ok: bool)
      requires Valid()
      modifies faultyStatements, seedStatements
      ensures Valid()
      ensures ok <==> Reached(stmts) == |stmts|
      ensures faultyStatements != seedStatements ==>
        faultyStatements.added == old(faultyStatements.added) + FaultyArrivals(faultyLineCoverage, stmts[..Reached(stmts)])
        && seedStatements.added == old(seedStatements.added) + SeedArrivals(seedLineCoverage, stmts[..Reached(stmts)])
      ensures faultyStatements == seedStatements ==>
        faultyStatements.added == old(faultyStatements.added)
          + SharedArrivals(faultyLineCoverage, seedLineCoverage, stmts[..Reached(stmts)])
    {
      var n := Reached(stmts);
      VisitAll(stmts[..n]);
      if n < |stmts| {
        // the visit of stmts[n] throws and changes nothing
        var visitChildren;
        ok, visitChildren := Visit(stmts[n]);
      } else {
        ok := true;
      }
    }
  }
}
