/** The repair search (class JRSRepair). For each candidate, generation 1,
    then 2, ... up to the generation limit. Each generation makes at least
    one attempt and at most the attempt budget: an attempt applies a random
    mutation, compiles and, when that succeeds, runs the tests, and the loop
    stops at the first attempt whose final status is non-negative. An
    attempt with a negative status (it did not compile, or its tests
    failed) is undone at once; a kept one is pushed on the patch stack and,
    once the deeper generations have returned, popped and undone. The documents are
    modelled by the sequence of mutations currently applied to them; the
    compiler, the test runner and the mutations' own work are oracles that
    may fail. */
module Search {
  import opened Pool

  /** The mutation operators. */
  datatype MutationKind = Addition | Replacement | Deletion | NullMutation

  /** The operator a mutation code selects: 100 is the null mutation, 1
      addition, 2 replacement, and every other code deletion. */
  function KindOf(code: int): (k: MutationKind)
    ensures k == NullMutation <==> code == 100
    ensures k == Addition <==> code == 1
    ensures k == Replacement <==> code == 2
  {
    if code == 100 then NullMutation
    else if code == 1 then Addition
    else if code == 2 then Replacement
    else Deletion
  }

  /** The least integer not below x. */
  function Ceil(x: real): (c: int)
    ensures x <= c as real < x + 1.0
  {
    if x.Floor as real == x then x.Floor else x.Floor + 1
  }

  /** The mutation code drawn from u in [0, 1): the ceiling of 3u. */
  function DrawCode(u: real): (code: int)
    requires 0.0 <= u < 1.0
    ensures 0 <= code <= 3
    ensures code == 0 <==> u == 0.0
  {
    Ceil(u * 3.0)
  }

  /** Which operator each part of [0, 1) selects: the null mutation never;
      addition on (0, 1/3], replacement on (1/3, 2/3], deletion on 0 and
      on (2/3, 1). */
  lemma DrawnKind(u: real)
    requires 0.0 <= u < 1.0
    ensures KindOf(DrawCode(u)) != NullMutation
    ensures KindOf(DrawCode(u)) == Addition <==> 0.0 < u <= 1.0 / 3.0
    ensures KindOf(DrawCode(u)) == Replacement <==> 1.0 / 3.0 < u <= 2.0 / 3.0
    ensures KindOf(DrawCode(u)) == Deletion <==> u == 0.0 || 2.0 / 3.0 < u
  {
    var c := DrawCode(u);
    assert u * 3.0 <= c as real < u * 3.0 + 1.0;
  }

  /** Whether an operator takes a seed statement. */
  predicate TakesSeed(k: MutationKind)
  {
    k == Addition || k == Replacement
  }

  /** A mutation: its operator, the faulty statement, and the seed statement
      for the operators that take one. */
  datatype Mutation<S> = Mutation(kind: MutationKind, faulty: S, seed: Option<S>)

  /** An entry of the patch stack: the candidate and generation that kept the
      mutation, and the mutation. */
  datatype Description<S> = Description(candidate: int, generation: int, mutation: Mutation<S>)

  /** A successful patch as logged: candidate, generation and the patch stack
      at that moment, bottom first. */
  datatype PatchRecord<S> = PatchRecord(candidate: int, generation: int, stack: seq<Description<S>>)

  datatype RepairOutcome = NotBuilt | Aborted | Finished

  /** How many generations a candidate runs from generation g on. */
  function Depth(g: int, generations: int): (d: int)
    ensures d == Max(1, generations - g + 1)
    decreases generations - g
  {
    if g < generations then 1 + Depth(g + 1, generations) else 1
  }

  /** The (candidate, generation) pairs entered from generation g on, in
      order: g recurses to g + 1 exactly when g is below the limit. */
  function Visits(candidate: int, g: int, generations: int): (v: seq<(int, int)>)
    ensures |v| == Depth(g, generations)
    ensures forall i :: 0 <= i < |v| ==> v[i] == (candidate, g + i)
    decreases generations - g
  {
    if g < generations then [(candidate, g)] + Visits(candidate, g + 1, generations) else [(candidate, g)]
  }

  /** The pairs entered by candidates 1 to n, in order. */
  function Candidates(n: nat, generations: int): seq<(int, int)>
  {
    if n == 0 then [] else Candidates(n - 1, generations) + Visits(n, 1, generations)
  }

  /** Every candidate runs the same number of generations. */
  lemma {:induction false} CandidatesLength(n: nat, generations: int)
    ensures |Candidates(n, generations)| == n * Max(1, generations)
  {
    if n > 0 {
      CandidatesLength(n - 1, generations);
    }
  }

  /** A compile budget of k calls per generation for d generations,
      extended by one more generation. */
  lemma BudgetStep(d: int, k: int, first: int, rest: int)
    requires 1 <= first <= k
    requires d <= rest <= d * k
    ensures d + 1 <= first + rest <= (d + 1) * k
  {
  }

  /** The budget of n candidates extended by one more candidate. */
  lemma CandidateStep(n: int, d: int, k: int, total: int, next: int)
    requires n * d <= total <= n * k
    requires d <= next <= k
    ensures (n + 1) * d <= total + next <= (n + 1) * k
  {
  }

  class JRSRepair<S(==)> {
    const faultyStatements: Statements<S>
    const seedStatements: Statements<S>
    /** The loaded source documents, by path. */
    const sourceFileContents: map<string, string>
    const mutationCandidates: int
    const mutationGenerations: int
    const mutationAttempts: int

    /** The patch stack, bottom first. */
    var patches: seq<Description<S>>
    /** The mutation code of the generation in progress. */
    var currentMutation: Option<int>
    /** The mutations applied to the documents, oldest first. */
    var applied: seq<Mutation<S>>

    /** Compiler calls so far. */
    ghost var compileCalls: nat
    /** Every (candidate, generation) entered, in order. */
    ghost var visits: seq<(int, int)>
    /** Every successful patch logged, in order. */
    ghost var recorded: seq<PatchRecord<S>>

    ghost predicate Valid()
      reads this, faultyStatements, seedStatements
    {
      && faultyStatements.Valid() && seedStatements.Valid()
      && (currentMutation.Some? ==> 0 <= currentMutation.value <= 3)
    }

    constructor(faultyStatements: Statements<S>, seedStatements: Statements<S>,
                sourceFileContents: map<string, string>,
                mutationCandidates: int, mutationGenerations: int, mutationAttempts: int)
      requires faultyStatements.Valid() && seedStatements.Valid()
      ensures Valid()
      ensures this.faultyStatements == faultyStatements && this.seedStatements == seedStatements
      ensures this.sourceFileContents == sourceFileContents
      ensures this.mutationCandidates == mutationCandidates
      ensures this.mutationGenerations == mutationGenerations
      ensures this.mutationAttempts == mutationAttempts
      ensures patches == [] && currentMutation.None? && applied == []
    {
      this.faultyStatements := faultyStatements;
      this.seedStatements := seedStatements;
      this.sourceFileContents := sourceFileContents;
      this.mutationCandidates := mutationCandidates;
      this.mutationGenerations := mutationGenerations;
      this.mutationAttempts := mutationAttempts;
      patches := [];
      currentMutation := None;
      applied := [];
      compileCalls := 0;
      visits := [];
      recorded := [];
    }

    /** getRandomMutation: the code is drawn only when none is set, and then
        lies in 0..3; the statements come from the pools, a seed only for
        the operators that take one. None when a pool draw finds no
        statement. */
    method GetRandomMutation() returns (m: Option<Mutation<S>>)
      requires Valid()
      modifies this
      ensures Valid()
      ensures currentMutation.Some?
      ensures old(currentMutation).Some? ==> currentMutation == old(currentMutation)
      ensures patches == old(patches) && applied == old(applied)
      ensures compileCalls == old(compileCalls) && visits == old(visits) && recorded == old(recorded)
      ensures m.Some? ==> m.value.kind == KindOf(currentMutation.value) && m.value.kind != NullMutation
      ensures m.Some? ==> m.value.faulty in faultyStatements.statements.Values
      ensures m.Some? ==> (m.value.seed.Some? <==> TakesSeed(m.value.kind))
      ensures m.Some? && m.value.seed.Some? ==> m.value.seed.value in seedStatements.statements.Values
    {
      if currentMutation.None? {
        var u: real :| 0.0 <= u < 1.0;
        currentMutation := Some(DrawCode(u));
      }
      var kind := KindOf(currentMutation.value);
      var uf: real :| 0.0 <= uf < 1.0;
      var faulty := faultyStatements.GetRandomStatement(uf);
      if faulty.None? {
        return None;
      }
      if TakesSeed(kind) {
        var us: real :| 0.0 <= us < 1.0;
        var seed := seedStatements.GetRandomStatement(us);
        if seed.None? {
          return None;
        }
        m := Some(Mutation(kind, faulty.value, Some(seed.value)));
      } else {
        m := Some(Mutation(kind, faulty.value, None));
      }
    }

    /** mutation.mutate(): applies m to the documents, or fails. */
    method Mutate(m: Mutation<S>) returns (ok: bool)
      modifies this
      ensures ok ==> applied == old(applied) + [m]
      ensures patches == old(patches) && currentMutation == old(currentMutation)
      ensures compileCalls == old(compileCalls) && visits == old(visits) && recorded == old(recorded)
    {
      ok := *;
      if ok {
        applied := applied + [m];
      }
    }

    /** mutation.undo(): m must be the last mutation applied; it is taken
        off the documents, or the undo fails. A successful undo is taken to
        remove exactly m, which the replacement mutation's undo as written
        does not do when an enclosing generation replaced the same
        statement (Rewriting.NestedUndoAsWrittenFails); its corrected undo
        does (Rewriting.NestedMutateUndoRestores). */
    method Undo(m: Mutation<S>) returns (ok: bool)
      requires applied != [] && applied[|applied| - 1] == m
      modifies this
      ensures ok ==> applied == old(applied)[..|old(applied)| - 1]
      ensures patches == old(patches) && currentMutation == old(currentMutation)
      ensures compileCalls == old(compileCalls) && visits == old(visits) && recorded == old(recorded)
    {
      ok := *;
      if ok {
        applied := applied[..|applied| - 1];
      }
    }

    /** compiler.compile(): a status, or a failure; every call counts. */
    method Compile() returns (ok: bool, status: int)
      modifies this
      ensures compileCalls == old(compileCalls) + 1
      ensures patches == old(patches) && applied == old(applied) && currentMutation == old(currentMutation)
      ensures visits == old(visits) && recorded == old(recorded)
    {
      compileCalls := compileCalls + 1;
      ok := *;
      status := *;
    }

    /** testExecutor.runTests(): a status, or a failure; the controller's
        own state is not touched. */
    method RunTests() returns (ok: bool, status: int)
      ensures unchanged(this)
    {
      ok := *;
      status := *;
    }

    /** logSuccesfullPatch: logs the current patch stack. */
    method LogSuccessfulPatch(candidate: int, generation: int)
      modifies this
      ensures recorded == old(recorded) + [PatchRecord(candidate, generation, patches)]
      ensures patches == old(patches) && applied == old(applied) && currentMutation == old(currentMutation)
      ensures compileCalls == old(compileCalls) && visits == old(visits)
    {
      recorded := recorded + [PatchRecord(candidate, generation, patches)];
    }

    /** One pass of the attempt loop: draw a mutation, apply it, compile
        and, when that succeeds, run the tests; then undo the mutation when
        the status is negative, or push it on the patch stack when it is
        not. A failing test run leaves the compile status in place. */
    method Attempt(candidate: int, generation: int)
      returns (ok: bool, compiled: int, mutation: Option<Mutation<S>>, ghost compileStatus: int, ghost testsRan: bool)
      requires Valid()
      modifies this
      ensures Valid()
      ensures ok && compileStatus < 0 ==> compiled == compileStatus && !testsRan
      ensures ok && compileStatus >= 0 && !testsRan ==> compiled == compileStatus
      ensures ok ==> mutation.Some? && currentMutation.Some?
      ensures ok ==> mutation.value.kind == KindOf(currentMutation.value)
      ensures ok ==> compileCalls == old(compileCalls) + 1
      ensures ok ==> applied == old(applied) + (if compiled >= 0 then [mutation.value] else [])
      ensures ok ==> patches == old(patches) + (if compiled >= 0 then [Description(candidate, generation, mutation.value)] else [])
      ensures old(currentMutation).Some? ==> currentMutation == old(currentMutation)
      ensures visits == old(visits) && recorded == old(recorded)
    {
      compiled := -1;
      compileStatus, testsRan := -1, false;
      mutation := GetRandomMutation();
      if mutation.None? {
        return false, compiled, mutation, compileStatus, testsRan;
      }
      var mutated := Mutate(mutation.value);
      if !mutated {
        return false, compiled, mutation, compileStatus, testsRan;
      }
      var compiledOk;
      compiledOk, compiled := Compile();
      compileStatus := compiled;
      if !compiledOk {
        return false, compiled, mutation, compileStatus, testsRan;
      }
      if compiled >= 0 {
        var testsOk, status := RunTests();
        if testsOk {
          compiled := status;
        }
        testsRan := testsOk;
      }
      if compiled < 0 {
        ok := Undo(mutation.value);
      } else {
        patches := patches + [Description(candidate, generation, mutation.value)];
        ok := true;
      }
    }

    /** The attempt loop of mutationIteration. It runs at least once and
        stops at the first attempt whose status is non-negative, or when the
        budget is spent. A failed attempt undoes its own mutation, so at most
        the last one stays applied and pushed: exactly when the final status
        is non-negative. Every attempt compiles once and uses the
        generation's one mutation code. */
    method Attempts(candidate: int, generation: int)
      returns (ok: bool, compiled: int, kept: Option<Mutation<S>>, attempts: int, ghost tried: seq<Mutation<S>>)
      requires Valid()
      modifies this
      ensures Valid()
      ensures ok ==> 1 <= attempts <= Max(1, mutationAttempts)
      ensures ok && compiled < 0 ==> attempts == Max(1, mutationAttempts)
      ensures ok ==> compileCalls == old(compileCalls) + attempts
      ensures ok ==> (kept.Some? <==> compiled >= 0)
      ensures ok ==> applied == old(applied) + (if kept.Some? then [kept.value] else [])
      ensures ok ==> patches == old(patches) + (if kept.Some? then [Description(candidate, generation, kept.value)] else [])
      ensures ok ==> currentMutation.Some?
      ensures ok && old(currentMutation).Some? ==> currentMutation == old(currentMutation)
      ensures ok ==> |tried| == attempts && forall t :: t in tried ==> t.kind == KindOf(currentMutation.value)
      ensures ok && kept.Some? ==> kept.value == tried[|tried| - 1]
      ensures visits == old(visits) && recorded == old(recorded)
    {
      attempts := 0;
      compiled := -1;
      kept := None;
      tried := [];
      var more := true;
      while more
        invariant Valid()
        invariant 0 <= attempts <= Max(1, mutationAttempts)
        invariant more ==> compiled < 0 && (attempts == 0 || attempts < mutationAttempts)
        invariant !more ==> 1 <= attempts && (compiled >= 0 || attempts == Max(1, mutationAttempts))
        invariant kept.Some? <==> compiled >= 0
        invariant compileCalls == old(compileCalls) + attempts
        invariant applied == old(applied) + (if kept.Some? then [kept.value] else [])
        invariant patches == old(patches) + (if kept.Some? then [Description(candidate, generation, kept.value)] else [])
        invariant attempts > 0 ==> currentMutation.Some?
        invariant old(currentMutation).Some? ==> currentMutation == old(currentMutation)
        invariant |tried| == attempts
        invariant forall t :: t in tried ==> t.kind == KindOf(currentMutation.value)
        invariant kept.Some? ==> kept.value == tried[|tried| - 1]
        invariant visits == old(visits) && recorded == old(recorded)
        decreases Max(1, mutationAttempts) - attempts + (if more then 1 else 0)
      {
        ghost var code := currentMutation;
        var attemptOk, mutation;
        ghost var compileStatus, testsRan;
        attemptOk, compiled, mutation, compileStatus, testsRan := Attempt(candidate, generation);
        if !attemptOk {
          return false, compiled, kept, attempts, tried;
        }
        assert attempts > 0 ==> currentMutation == code;
        tried := tried + [mutation.value];
        kept := if compiled >= 0 then mutation else None;
        attempts := attempts + 1;
        more := compiled < 0 && attempts < mutationAttempts;
      }
      ok := true;
    }

    /** The first part of mutationIteration: the generation is entered, the
        attempt loop runs, the mutation code is cleared and, for a positive
        status, the patch stack is logged with the kept mutation on top. */
    method Generation(candidate: int, generation: int)
      returns (ok: bool, compiled: int, kept: Option<Mutation<S>>, ghost logged: seq<PatchRecord<S>>)
      requires Valid()
      modifies this
      ensures Valid()
      ensures visits == old(visits) + [(candidate, generation)]
      ensures ok ==> 1 <= compileCalls - old(compileCalls) <= Max(1, mutationAttempts)
      ensures ok ==> (kept.Some? <==> compiled >= 0)
      ensures ok ==> applied == old(applied) + (if kept.Some? then [kept.value] else [])
      ensures ok ==> patches == old(patches) + (if kept.Some? then [Description(candidate, generation, kept.value)] else [])
      ensures ok ==> currentMutation.None?
      ensures ok ==> recorded == old(recorded) + logged
      ensures ok && compiled > 0 ==>
        logged == [PatchRecord(candidate, generation, old(patches) + [Description(candidate, generation, kept.value)])]
      ensures ok && compiled <= 0 ==> logged == []
    {
      visits := visits + [(candidate, generation)];
      logged := [];
      var attempts;
      ghost var tried;
      ok, compiled, kept, attempts, tried := Attempts(candidate, generation);
      if !ok {
        return;
      }
      currentMutation := None;
      if compiled > 0 {
        LogSuccessfulPatch(candidate, generation);
        logged := [PatchRecord(candidate, generation, patches)];
      }
    }

    /** The last part of mutationIteration for a kept mutation: the patch
        stack is popped and the mutation, the last one applied, undone. */
    method PopPatch(m: Mutation<S>) returns (ok: bool)
      requires Valid()
      requires patches != [] && applied != [] && applied[|applied| - 1] == m
      modifies this
      ensures Valid()
      ensures ok ==> patches == old(patches)[..|old(patches)| - 1] && applied == old(applied)[..|old(applied)| - 1]
      ensures currentMutation == old(currentMutation)
      ensures compileCalls == old(compileCalls) && visits == old(visits) && recorded == old(recorded)
    {
      patches := patches[..|patches| - 1];
      ok := Undo(m);
    }

    /** mutationIteration: on normal return the documents and the patch
        stack are as at entry and no mutation code is set. Generation g
        recurses to g + 1 exactly when g is below the limit, whatever its
        own status; each generation compiles at least once and at most
        max(1, mutationAttempts) times. A patch is logged for this
        generation exactly when its status is positive, with the stack
        holding this generation's mutation on top; deeper generations log
        only deeper patches. */
    method MutationIteration(candidate: int, generation: int)
      returns (ok: bool, ghost status: int, ghost kept: Option<Mutation<S>>, ghost logged: seq<PatchRecord<S>>)
      requires Valid()
      modifies this
      decreases mutationGenerations - generation
      ensures Valid()
      ensures ok ==> applied == old(applied) && patches == old(patches) && currentMutation.None?
      ensures ok ==> visits == old(visits) + Visits(candidate, generation, mutationGenerations)
      ensures ok ==> Depth(generation, mutationGenerations) <= compileCalls - old(compileCalls)
                       <= Depth(generation, mutationGenerations) * Max(1, mutationAttempts)
      ensures ok ==> (kept.Some? <==> status >= 0)
      ensures ok ==> recorded == old(recorded) + logged
      ensures ok && status > 0 ==>
        logged != [] && logged[0] == PatchRecord(candidate, generation, old(patches) + [Description(candidate, generation, kept.value)])
      ensures ok ==> forall r :: r in logged ==> r.candidate == candidate && generation <= r.generation
      ensures ok && status <= 0 ==> forall r :: r in logged ==> generation < r.generation
    {
      var compiled, mutation;
      ok, compiled, mutation, logged := Generation(candidate, generation);
      status, kept := compiled, mutation;
      if !ok {
        return;
      }
      ghost var calls1 := compileCalls;
      if generation < mutationGenerations {
        var deeperOk;
        ghost var deeperStatus, deeperKept, deeperLogged;
        deeperOk, deeperStatus, deeperKept, deeperLogged := MutationIteration(candidate, generation + 1);
        if !deeperOk {
          return false, status, kept, logged;
        }
        logged := logged + deeperLogged;
        ConcatAssoc(old(visits), [(candidate, generation)], Visits(candidate, generation + 1, mutationGenerations));
        assert [(candidate, generation)] + Visits(candidate, generation + 1, mutationGenerations)
          == Visits(candidate, generation, mutationGenerations);
        BudgetStep(Depth(generation + 1, mutationGenerations), Max(1, mutationAttempts),
                   calls1 - old(compileCalls), compileCalls - calls1);
      }
      if compiled >= 0 {
        ok := PopPatch(mutation.value);
      }
    }

    /** repair: refuses to start (NotBuilt) and changes nothing when there
        are no documents or either pool is empty. Otherwise it runs
        candidates 1, 2, ... mutationCandidates in order, each from
        generation 1, and stops at the first failure (Aborted); when all
        finish the documents and the patch stack are as at entry. */
    method Repair() returns (outcome: RepairOutcome)
      requires Valid()
      modifies this
      ensures Valid()
      ensures outcome == NotBuilt <==>
        sourceFileContents == map[] || faultyStatements.IsEmpty() || seedStatements.IsEmpty()
      ensures outcome == NotBuilt ==> unchanged(this)
      ensures outcome == Finished ==> applied == old(applied) && patches == old(patches)
      ensures outcome == Finished ==>
        visits == old(visits) + Candidates(Max(0, mutationCandidates), mutationGenerations)
      ensures outcome == Finished ==>
        Max(0, mutationCandidates) * Depth(1, mutationGenerations) <= compileCalls - old(compileCalls)
        <= Max(0, mutationCandidates) * (Depth(1, mutationGenerations) * Max(1, mutationAttempts))
    {
      if sourceFileContents == map[] || faultyStatements.IsEmpty() || seedStatements.IsEmpty() {
        return NotBuilt;
      }
      var d := Depth(1, mutationGenerations);
      var k := d * Max(1, mutationAttempts);
      var i := 0;
      while i < mutationCandidates
        invariant Valid()
        invariant 0 <= i <= Max(0, mutationCandidates)
        invariant applied == old(applied) && patches == old(patches)
        invariant visits == old(visits) + Candidates(i, mutationGenerations)
        invariant i * d <= compileCalls - old(compileCalls) <= i * k
      {
        ghost var calls0 := compileCalls;
        var ok;
        ghost var status, kept, logged;
        ok, status, kept, logged := MutationIteration(i + 1, 1);
        if !ok {
          return Aborted;
        }
        CandidateStep(i, d, k, calls0 - old(compileCalls), compileCalls - calls0);
        ConcatAssoc(old(visits), Candidates(i, mutationGenerations), Visits(i + 1, 1, mutationGenerations));
        i := i + 1;
      }
      outcome := Finished;
    }
  }
}
