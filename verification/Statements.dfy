/** The weighted statement pool of the repair search (class Statements): a
    running-total map from cumulative weight to statement, and a ceiling lookup
    on it that turns a uniform draw into a weighted random choice. */
module Pool {

  datatype Option<T> = None | Some(value: T)

  function Max(a: int, b: int): int
  {
    if a < b then b else a
  }

  /** One call of addStatement: the statement and the weight it was added with. */
  datatype Entry<S> = Entry(statement: S, weight: real)

  /** The abstract value of a pool: the cumulative-weight map and the running total. */
  datatype PoolState<S> = PoolState(entries: map<real, S>, total: real)

  /** One addStatement on a pool value: the total grows by the weight and the
      statement is put under the new total, replacing whatever was there. */
  function Put<S>(p: PoolState<S>, e: Entry<S>): (q: PoolState<S>)
    ensures q.total == p.total + e.weight
    ensures q.total in q.entries && q.entries[q.total] == e.statement
  {
    var t := p.total + e.weight;
    PoolState(p.entries[t := e.statement], t)
  }

  /** The pool that a sequence of addStatement calls builds from a fresh one. */
  function Build<S>(log: seq<Entry<S>>): (p: PoolState<S>)
    ensures log != [] ==> p.total in p.entries && p.entries[p.total] == log[|log| - 1].statement
  {
    if log == [] then PoolState(map[], 0.0)
    else Put(Build(log[..|log| - 1]), log[|log| - 1])
  }

  /** The n-th running total: the sum of the first n weights of the log. */
  function PrefixSum<S>(log: seq<Entry<S>>, n: nat): real
    requires n <= |log|
  {
    if n == 0 then 0.0 else PrefixSum(log, n - 1) + log[n - 1].weight
  }

  ghost predicate PositiveWeights<S>(log: seq<Entry<S>>)
  {
    forall i :: 0 <= i < |log| ==> log[i].weight > 0.0
  }

  ghost predicate NonNegativeWeights<S>(log: seq<Entry<S>>)
  {
    forall i :: 0 <= i < |log| ==> log[i].weight >= 0.0
  }

  /** Building the first m adds gives the m-th running total as the total. */
  lemma {:induction false} BuildTotalUpTo<S>(log: seq<Entry<S>>, m: nat)
    requires m <= |log|
    ensures Build(log[..m]).total == PrefixSum(log, m)
  {
    if m > 0 {
      BuildTotalUpTo(log, m - 1);
      assert log[..m][..m - 1] == log[..m - 1];
    }
  }

  /** The pool's total is the sum of every weight ever added. */
  lemma BuildTotal<S>(log: seq<Entry<S>>)
    ensures Build(log).total == PrefixSum(log, |log|)
  {
    BuildTotalUpTo(log, |log|);
    assert log[..|log|] == log;
  }

  /** A non-empty pool always holds its total as a key, under the statement added last. */
  lemma TotalIsKey<S>(log: seq<Entry<S>>)
    requires log != []
    ensures Build(log).total in Build(log).entries
    ensures Build(log).entries[Build(log).total] == log[|log| - 1].statement
  {
  }

  /** With positive weights the running totals, and so the keys in insertion
      order, are strictly increasing. */
  lemma {:induction false} PrefixSumsIncrease<S>(log: seq<Entry<S>>, i: nat, j: nat)
    requires PositiveWeights(log)
    requires i < j <= |log|
    ensures PrefixSum(log, i) < PrefixSum(log, j)
  {
    if i < j - 1 {
      PrefixSumsIncrease(log, i, j - 1);
    }
  }

  /** With positive weights no addStatement overwrites another: there is one key
      per statement added, the j-th running total maps to the j-th statement,
      and the largest key is the pool's total. */
  lemma BuildKeys<S>(log: seq<Entry<S>>)
    requires PositiveWeights(log)
    ensures |Build(log).entries| == |log|
    ensures forall j :: 1 <= j <= |log| ==>
      PrefixSum(log, j) in Build(log).entries && Build(log).entries[PrefixSum(log, j)] == log[j - 1].statement
    ensures forall k :: k in Build(log).entries ==> 0.0 < k <= Build(log).total
  {
    assert log[..|log|] == log;
    KeyCountUpTo(log, |log|);
    KeysWithinTotalUpTo(log, |log|);
    BuildTotal(log);
    forall j | 1 <= j <= |log|
      ensures PrefixSum(log, j) in Build(log).entries && Build(log).entries[PrefixSum(log, j)] == log[j - 1].statement
    {
      KeyOfAddUpTo(log, |log|, j);
    }
  }

  /** The first m adds with positive weights leave keys in (0, PrefixSum(m)]. */
  lemma {:induction false} KeysWithinTotalUpTo<S>(log: seq<Entry<S>>, m: nat)
    requires PositiveWeights(log)
    requires m <= |log|
    ensures forall k :: k in Build(log[..m]).entries ==> 0.0 < k <= PrefixSum(log, m)
  {
    if m > 0 {
      KeysWithinTotalUpTo(log, m - 1);
      BuildTotalUpTo(log, m - 1);
      PrefixSumsIncrease(log, m - 1, m);
      PrefixSumsIncrease(log, 0, m);
      assert log[..m][..m - 1] == log[..m - 1];
      var p := Build(log[..m - 1]);
      assert Build(log[..m]) == Put(p, log[m - 1]);
      forall k | k in Build(log[..m]).entries
        ensures 0.0 < k <= PrefixSum(log, m)
      {
        if k != PrefixSum(log, m) {
          assert k in p.entries;
        }
      }
    } else {
      assert log[..m] == [];
    }
  }

  /** After the first m adds with positive weights, the j-th running total
      (j <= m) is a key and holds the j-th statement. */
  lemma {:induction false} KeyOfAddUpTo<S>(log: seq<Entry<S>>, m: nat, j: nat)
    requires PositiveWeights(log)
    requires 1 <= j <= m <= |log|
    ensures PrefixSum(log, j) in Build(log[..m]).entries
    ensures Build(log[..m]).entries[PrefixSum(log, j)] == log[j - 1].statement
  {
    BuildTotalUpTo(log, m - 1);
    assert log[..m][..m - 1] == log[..m - 1];
    if j < m {
      KeyOfAddUpTo(log, m - 1, j);
      PrefixSumsIncrease(log, j, m);
    }
  }

  /** The first m adds with positive weights leave exactly m keys. */
  lemma {:induction false} KeyCountUpTo<S>(log: seq<Entry<S>>, m: nat)
    requires PositiveWeights(log)
    requires m <= |log|
    ensures |Build(log[..m]).entries| == m
  {
    if m > 0 {
      KeyCountUpTo(log, m - 1);
      KeysWithinTotalUpTo(log, m - 1);
      BuildTotalUpTo(log, m - 1);
      assert log[..m][..m - 1] == log[..m - 1];
      assert PrefixSum(log, m) !in Build(log[..m - 1]).entries;
    } else {
      assert log[..m] == [];
    }
  }

  /** An add whose running total lands on an existing key, such as a weight of
      zero, replaces the statement stored there and adds no entry. */
  lemma {:induction false} ZeroWeightOverwrites<S>(log: seq<Entry<S>>, s: S)
    requires log != []
    ensures Build(log + [Entry(s, 0.0)]).total == Build(log).total
    ensures Build(log + [Entry(s, 0.0)]).entries == Build(log).entries[Build(log).total := s]
    ensures |Build(log + [Entry(s, 0.0)]).entries| == |Build(log).entries|
  {
    var log' := log + [Entry(s, 0.0)];
    assert log'[..|log'| - 1] == log;
    TotalIsKey(log);
  }

  /** The least element of a non-empty finite set of reals. */
  ghost function MinOf(keys: set<real>): (m: real)
    requires keys != {}
    ensures m in keys
    ensures forall k :: k in keys ==> m <= k
    decreases |keys|
  {
    HasElement(keys);
    var y :| y in keys;
    var rest := keys - {y};
    assert forall k :: k in keys ==> k == y || k in rest;
    if rest == {} then y
    else
      var m := MinOf(rest);
      if y <= m then y else m
  }

  lemma HasElement(keys: set<real>)
    requires keys != {}
    ensures exists y :: y in keys
  {
    if forall y :: y !in keys { assert false; }
  }

  /** c is the ceiling of r among keys: a key at or above r, and no larger
      than any other key at or above r. */
  predicate IsCeiling(keys: set<real>, r: real, c: real)
  {
    c in keys && r <= c && forall k :: k in keys && r <= k ==> c <= k
  }

  /** At most one key is the ceiling of r. */
  lemma CeilingIsUnique(keys: set<real>, r: real)
    ensures forall a, b :: IsCeiling(keys, r, a) && IsCeiling(keys, r, b) ==> a == b
  {
  }

  /** NavigableMap.ceilingEntry on the key set: the smallest key at or above r,
      or nothing when every key is below r. */
  ghost function Ceiling(keys: set<real>, r: real): (c: Option<real>)
    ensures c.None? <==> forall k :: k in keys ==> k < r
    ensures c.Some? ==> IsCeiling(keys, r, c.value)
  {
    var above := set k | k in keys && r <= k;
    assert forall k :: k in keys && r <= k ==> k in above;
    if above == {} then None else Some(MinOf(above))
  }

  /** The statement a draw r selects: the one stored at the ceiling key of r. */
  ghost function Pick<S>(p: PoolState<S>, r: real): Option<S>
  {
    match Ceiling(p.entries.Keys, r)
    case None => None
    case Some(k) => Some(p.entries[k])
  }

  /** Weighted choice: with positive weights the i-th statement added is drawn
      for every draw in the interval (PrefixSum(i), PrefixSum(i + 1)],
      whose length is its weight (a draw of 0 selects the first statement). */
  lemma {:induction false} DrawSelectsInterval<S>(log: seq<Entry<S>>, i: nat, r: real)
    requires PositiveWeights(log)
    requires i < |log|
    requires 0.0 <= r <= PrefixSum(log, i + 1)
    requires i == 0 || PrefixSum(log, i) < r
    ensures Pick(Build(log), r) == Some(log[i].statement)
  {
    var n := |log| - 1;
    if i == n {
      DrawSelectsLast(log, r);
    } else {
      var prefix := log[..n];
      assert PositiveWeights(prefix);
      PrefixSumOfPrefix(log, n, i);
      PrefixSumOfPrefix(log, n, i + 1);
      DrawSelectsInterval(prefix, i, r);
      LaterAddKeepsPick(log, i, r);
    }
  }

  /** The converse, on keys: with positive weights the i-th running total
      is the ceiling of a draw r only when r lies in (PrefixSum(i),
      PrefixSum(i + 1)], or is at most PrefixSum(1) for the first
      statement; no draw outside that interval reaches the i-th entry. */
  lemma OnlyIntervalSelects<S>(log: seq<Entry<S>>, i: nat, r: real)
    requires PositiveWeights(log)
    requires i < |log|
    requires Ceiling(Build(log).entries.Keys, r) == Some(PrefixSum(log, i + 1))
    ensures r <= PrefixSum(log, i + 1)
    ensures i == 0 || PrefixSum(log, i) < r
  {
    if i > 0 {
      assert log[..|log|] == log;
      KeyOfAddUpTo(log, |log|, i);
      PrefixSumsIncrease(log, i, i + 1);
    }
  }

  /** A draw above every key of the pool before the last add selects the
      statement added last. */
  lemma DrawSelectsLast<S>(log: seq<Entry<S>>, r: real)
    requires PositiveWeights(log)
    requires log != []
    requires 0.0 <= r <= PrefixSum(log, |log|)
    requires |log| == 1 || PrefixSum(log, |log| - 1) < r
    ensures Pick(Build(log), r) == Some(log[|log| - 1].statement)
  {
    var n := |log| - 1;
    KeysWithinTotalUpTo(log, n);
    BuildTotalUpTo(log, n);
    PutPicksNew(Build(log[..n]), log[n], r);
  }

  /** The last add keeps the pick of a draw that an earlier statement's key
      already covers, because the new key is larger than that one. */
  lemma LaterAddKeepsPick<S>(log: seq<Entry<S>>, i: nat, r: real)
    requires PositiveWeights(log)
    requires i < |log| - 1
    requires r <= PrefixSum(log, i + 1)
    requires Pick(Build(log[..|log| - 1]), r) == Some(log[i].statement)
    ensures Pick(Build(log), r) == Some(log[i].statement)
  {
    var n := |log| - 1;
    var p := Build(log[..n]);
    EarlierKeyBelowLast(log, i);
    PutKeepsPick(p, log[n], r, PrefixSum(log, i + 1));
    assert Build(log) == Put(p, log[n]);
  }

  /** Before the last add, an earlier running total is a key below the key
      the last add creates. */
  lemma EarlierKeyBelowLast<S>(log: seq<Entry<S>>, i: nat)
    requires PositiveWeights(log)
    requires i < |log| - 1
    ensures PrefixSum(log, i + 1) in Build(log[..|log| - 1]).entries
    ensures PrefixSum(log, i + 1) < Build(log[..|log| - 1]).total + log[|log| - 1].weight
  {
    var n := |log| - 1;
    KeyOfAddUpTo(log, n, i + 1);
    BuildTotalUpTo(log, n);
    PrefixSumsIncrease(log, i + 1, n + 1);
  }

  /** A draw u * total, u in [0, 1), on a pool whose non-negative total is a
      key always selects a statement. */
  lemma PickWithinTotal<S>(p: PoolState<S>, u: real)
    requires p.total in p.entries && 0.0 <= p.total
    requires 0.0 <= u < 1.0
    ensures Pick(p, u * p.total).Some?
  {
    DrawHasCeiling(p.entries.Keys, p.total, u);
  }

  /** One add whose new key is at or above r, when every old key is below r,
      makes the new statement the pick of r. */
  lemma PutPicksNew<S>(p: PoolState<S>, e: Entry<S>, r: real)
    requires forall k :: k in p.entries ==> k < r
    requires r <= p.total + e.weight
    ensures Pick(Put(p, e), r) == Some(e.statement)
  {
    var t := p.total + e.weight;
    assert Put(p, e).entries.Keys == p.entries.Keys + {t};
    CeilingAtNewMaximum(p.entries.Keys, t, r);
  }

  /** One add whose new key lies above an old key at or above r keeps the
      pick of r. */
  lemma PutKeepsPick<S>(p: PoolState<S>, e: Entry<S>, r: real, k: real)
    requires k in p.entries && r <= k && k < p.total + e.weight
    ensures Pick(Put(p, e), r) == Pick(p, r)
  {
    var t := p.total + e.weight;
    var c := Ceiling(p.entries.Keys, r).value;
    assert c <= k;
    assert Put(p, e).entries.Keys == p.entries.Keys + {t};
    CeilingIgnoresLargerKey(p.entries.Keys, t, r);
  }

  /** Running totals do not depend on what is added later. */
  lemma {:induction false} PrefixSumOfPrefix<S>(log: seq<Entry<S>>, m: nat, n: nat)
    requires n <= m <= |log|
    ensures PrefixSum(log[..m], n) == PrefixSum(log, n)
  {
    if n > 0 {
      PrefixSumOfPrefix(log, m, n - 1);
    }
  }

  /** A key above every existing one and at or above r is the new ceiling of r. */
  lemma CeilingAtNewMaximum(keys: set<real>, t: real, r: real)
    requires forall k :: k in keys ==> k < r
    requires r <= t
    ensures Ceiling(keys + {t}, r) == Some(t)
  {
    assert IsCeiling(keys + {t}, r, t);
    CeilingIsUnique(keys + {t}, r);
  }

  /** A key above the ceiling of r does not change the ceiling of r. */
  lemma CeilingIgnoresLargerKey(keys: set<real>, t: real, r: real)
    requires Ceiling(keys, r).Some? && Ceiling(keys, r).value < t
    ensures Ceiling(keys + {t}, r) == Ceiling(keys, r)
  {
    var c := Ceiling(keys, r).value;
    assert IsCeiling(keys + {t}, r, c);
    CeilingIsUnique(keys + {t}, r);
  }

  /** The worked example of the pool: weights 1.0, 2.0 and 0.5 give running totals
      1.0, 3.0 and 3.5, and the draws 0.5, 1.0, 1.1 and 3.5 select the first,
      first, second and third statement. */
  lemma WeightedDrawExample()
    ensures var log := [Entry(1, 1.0), Entry(2, 2.0), Entry(3, 0.5)];
      && Pick(Build(log), 0.5) == Some(1)
      && Pick(Build(log), 1.0) == Some(1)
      && Pick(Build(log), 1.1) == Some(2)
      && Pick(Build(log), 3.5) == Some(3)
  {
    var log := [Entry(1, 1.0), Entry(2, 2.0), Entry(3, 0.5)];
    assert PositiveWeights(log);
    assert PrefixSum(log, 1) == 1.0;
    assert PrefixSum(log, 2) == 3.0;
    assert PrefixSum(log, 3) == 3.5;
    DrawSelectsInterval(log, 0, 0.5);
    DrawSelectsInterval(log, 0, 1.0);
    DrawSelectsInterval(log, 1, 1.1);
    DrawSelectsInterval(log, 2, 3.5);
  }

  /** A draw u * total with u in [0, 1) never exceeds a non-negative total. */
  lemma DrawWithinTotal(u: real, total: real)
    requires 0.0 <= u < 1.0 && 0.0 <= total
    ensures 0.0 <= u * total <= total
  {
  }

  /** A draw u * t, u in [0, 1), below a non-negative key t has a ceiling. */
  lemma DrawHasCeiling(keys: set<real>, t: real, u: real)
    requires t in keys
    requires 0.0 <= u < 1.0 && 0.0 <= t
    ensures Ceiling(keys, u * t).Some?
  {
    DrawWithinTotal(u, t);
  }

  /** The keys of a map in ascending order, each once: the least key first,
      then the others in ascending order. */
  ghost function SortedKeys(keys: set<real>): (ks: seq<real>)
    ensures |ks| == |keys|
    ensures forall k :: k in keys <==> k in ks
    decreases |keys|
  {
    if keys == {} then []
    else
      var m := MinOf(keys);
      assert forall k :: k in keys ==> k == m || k in keys - {m};
      [m] + SortedKeys(keys - {m})
  }

  ghost predicate Ascending(ks: seq<real>)
  {
    forall i, j :: 0 <= i < j < |ks| ==> ks[i] < ks[j]
  }

  /** A key below every key of an ascending sequence can go in front of it. */
  lemma ConsAscending(m: real, ks: seq<real>)
    requires Ascending(ks)
    requires forall k :: k in ks ==> m < k
    ensures Ascending([m] + ks)
  {
    var c := [m] + ks;
    forall i, j | 0 <= i < j < |c|
      ensures c[i] < c[j]
    {
      assert c[j] == ks[j - 1] && ks[j - 1] in ks;
      if i > 0 {
        assert c[i] == ks[i - 1];
      }
    }
  }

  /** The listing order is strictly ascending. */
  lemma {:induction false} SortedKeysAscending(keys: set<real>)
    ensures Ascending(SortedKeys(keys))
    decreases |keys|
  {
    if keys != {} {
      var m := MinOf(keys);
      var rest := SortedKeys(keys - {m});
      SortedKeysAscending(keys - {m});
      assert forall k :: k in rest ==> k in keys - {m};
      ConsAscending(m, rest);
    }
  }

  /** The "key : value" lines of the entries at keys ks, in the order of ks. */
  function Listing<S>(m: map<real, S>, ks: seq<real>, keyText: real -> string, valueText: S -> string): string
    requires forall k :: k in ks ==> k in m
  {
    if ks == [] then ""
    else
      var k := ks[|ks| - 1];
      Listing(m, ks[..|ks| - 1], keyText, valueText) + keyText(k) + " : " + valueText(m[k]) + "\n"
  }

  /** Concatenation is associative. */
  lemma ConcatAssoc<T>(a: seq<T>, b: seq<T>, c: seq<T>)
    ensures (a + b) + c == a + (b + c)
  {
  }

  /** The listing of a non-empty set starts with its least key. */
  lemma SortedKeysStep(keys: set<real>, k: real)
    requires k in keys
    requires forall k' :: k' in keys ==> k <= k'
    ensures SortedKeys(keys) == [k] + SortedKeys(keys - {k})
  {
    var m := MinOf(keys);
    assert k <= m && m <= k;
  }

  /** Listing one more key appends that key's line. */
  lemma ListingStep<S>(m: map<real, S>, ks: seq<real>, k: real, keyText: real -> string, valueText: S -> string)
    requires forall k' :: k' in ks ==> k' in m
    requires k in m
    ensures Listing(m, ks + [k], keyText, valueText) == Listing(m, ks, keyText, valueText) + keyText(k) + " : " + valueText(m[k]) + "\n"
  {
    assert (ks + [k])[..|ks|] == ks;
  }

  class Statements<S(==)> {
    var statements: map<real, S>
    var totalWeight: real
    /** Every addStatement call so far, in order. */
    ghost var added: seq<Entry<S>>

    ghost predicate Valid()
      reads this
    {
      Build(added) == PoolState(statements, totalWeight)
    }

    constructor ()
      ensures Valid() && added == []
      ensures statements == map[] && totalWeight == 0.0
    {
      statements := map[];
      totalWeight := 0.0;
      added := [];
    }

    /** addStatement: the total grows by exactly the weight and the statement is
        stored under the new total. */
    method AddStatement(s: S, weight: real)
      requires Valid()
      modifies this
      ensures Valid()
      ensures added == old(added) + [Entry(s, weight)]
      ensures totalWeight == old(totalWeight) + weight
      ensures statements == old(statements)[totalWeight := s]
    {
      totalWeight := totalWeight + weight;
      statements := statements[totalWeight := s];
      added := added + [Entry(s, weight)];
      assert added[..|added| - 1] == old(added);
    }

    /** The emptiness test the search controller makes before it starts. */
    predicate IsEmpty()
      reads this
      ensures IsEmpty() <==> statements.Keys == {}
    {
      statements == map[]
    }

    /** A pool is empty exactly when nothing was ever added to it. */
    lemma EmptyIffNothingAdded()
      requires Valid()
      ensures IsEmpty() <==> added == []
    {
      if added != [] { TotalIsKey(added); }
    }

    /** getRandomStatement with the uniform draw u = Math.random() passed in:
        the statement at the smallest key at or above u * totalWeight. On an
        empty pool the ceiling lookup finds nothing (the source then fails with
        a NullPointerException). */
    method GetRandomStatement(u: real) returns (s: Option<S>)
      requires Valid()
      requires 0.0 <= u < 1.0
      ensures s == Pick(PoolState(statements, totalWeight), u * totalWeight)
      ensures statements == map[] ==> s.None?
    {
      s := CeilingValue(u * totalWeight);
    }

    /** ceilingEntry(r).getValue(): the statement at the smallest key at or
        above r, or nothing when every key is below r. */
    function CeilingValue(r: real): (s: Option<S>)
      reads this
      ensures s == Pick(PoolState(statements, totalWeight), r)
      ensures s.Some? <==> exists k :: k in statements && r <= k
    {
      if forall k :: k in statements ==> k < r then None
      else
        var c := Ceiling(statements.Keys, r).value;
        CeilingIsUnique(statements.Keys, r);
        var key :| key in statements && IsCeiling(statements.Keys, r, key);
        Some(statements[key])
    }

    /** On a non-empty pool with a non-negative total every draw finds a key,
        because the total is itself a key and the draw does not exceed it. */
    lemma DrawSucceeds(u: real)
      requires Valid()
      requires statements != map[] && totalWeight >= 0.0
      requires 0.0 <= u < 1.0
      ensures Pick(PoolState(statements, totalWeight), u * totalWeight).Some?
    {
      if added == [] { assert false; }
      TotalIsKey(added);
      PickWithinTotal(Build(added), u);
    }

    /** toString: one "key : value" line per entry, in ascending key order. */
    method ToString(keyText: real -> string, valueText: S -> string) returns (s: string)
      ensures s == Listing(statements, SortedKeys(statements.Keys), keyText, valueText)
    {
      var entries := statements;
      var rest := entries.Keys;
      ghost var all := SortedKeys(entries.Keys);
      ghost var done: seq<real> := [];
      s := "";
      while rest != {}
        invariant rest <= entries.Keys
        invariant forall k :: k in done ==> k in entries
        invariant all == done + SortedKeys(rest)
        invariant s == Listing(entries, done, keyText, valueText)
        decreases |rest|
      {
        var k :| k in rest && forall k' :: k' in rest ==> k <= k';
        SortedKeysStep(rest, k);
        ListingStep(entries, done, k, keyText, valueText);
        ConcatAssoc(done, [k], SortedKeys(rest - {k}));
        s := s + keyText(k) + " : " + valueText(entries[k]) + "\n";
        done := done + [k];
        rest := rest - {k};
      }
      assert SortedKeys(rest) == [];
      assert all == done;
    }
  }
}
