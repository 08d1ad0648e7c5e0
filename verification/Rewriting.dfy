/** The replacement mutation and the document rewrite it works through.
    A block is a sequence of statement nodes; a node's identity is its id,
    so a copy of a node is a different node with the same text. For each
    entry of the block's statement list the rewrite keeps the original
    node and the node the entry holds now; a replace addresses the first
    entry whose original or current node is its target, and overwrites
    what that entry holds. The modified document is always re-rendered
    from the original text and the current entries, never patched from
    its previous text. */
module Rewriting {
  import opened Pool

  /** A statement node: its identity and its source text. */
  datatype Node = Node(id: nat, text: string)

  /** A faulty or seed statement: the node, and whether its parent is a
      block (the only place a replacement is made). */
  datatype SourceStatement = SourceStatement(statement: Node, parentIsBlock: bool)

  /** The entry a replace of target addresses: the first position whose
      original node or current node is target; None when no entry holds
      target either way. */
  function Locate(original: seq<Node>, current: seq<Node>, target: Node): (i: Option<nat>)
    requires |current| == |original|
    ensures i.None? <==> forall j :: 0 <= j < |original| ==> original[j] != target && current[j] != target
    ensures i.Some? ==> i.value < |original| && (original[i.value] == target || current[i.value] == target)
    ensures i.Some? ==> forall j :: 0 <= j < i.value ==> original[j] != target && current[j] != target
  {
    if original == [] then None
    else if original[0] == target || current[0] == target then Some(0)
    else
      match Locate(original[1..], current[1..], target)
      case None => None
      case Some(k) => Some(k + 1)
  }

  /** The text of a block: its statements' texts in order. */
  function Render(block: seq<Node>): (text: string)
    ensures block == [] ==> text == ""
    ensures |block| == 1 ==> text == block[0].text
  {
    if block == [] then "" else Render(block[..|block| - 1]) + block[|block| - 1].text
  }

  /** Rendering is compositional: a block split in two renders as the
      concatenation of its halves. */
  lemma {:induction false} RenderAppend(a: seq<Node>, b: seq<Node>)
    ensures Render(a + b) == Render(a) + Render(b)
    decreases |b|
  {
    if b == [] {
      assert a + b == a;
    } else {
      assert (a + b)[..|a + b| - 1] == a + b[..|b| - 1];
      RenderAppend(a, b[..|b| - 1]);
    }
  }

  /** Changing one entry changes only that entry's text in the rendering:
      the text before it and the text after it are kept. */
  lemma RenderReplace(block: seq<Node>, i: nat, n: Node)
    requires i < |block|
    ensures Render(block[i := n]) == Render(block[..i]) + n.text + Render(block[i + 1..])
  {
    assert block[i := n] == block[..i] + [n] + block[i + 1..];
    RenderAppend(block[..i] + [n], block[i + 1..]);
    RenderAppend(block[..i], [n]);
  }

  /** Mutate then undo on the list entries: after target's entry i is
      given a node found in no entry, a replace of that node addresses
      entry i again, so the undo writes target back into the same entry;
      when entry i held target, the entries are as before. */
  lemma ReplaceRoundTrip(original: seq<Node>, current: seq<Node>, target: Node, copy: Node, i: nat)
    requires |current| == |original|
    requires copy !in original && copy !in current
    requires Locate(original, current, target) == Some(i)
    ensures Locate(original, current[i := copy], copy) == Some(i)
    ensures current[i] == target ==> current[i := copy][i := target] == current
  {
    var mutated := current[i := copy];
    assert mutated[i] == copy;
    assert forall j :: 0 <= j < |original| ==> original[j] != copy;
    assert forall j :: 0 <= j < |mutated| && j != i ==> mutated[j] == current[j] && current[j] != copy;
  }

  /** Two replacement mutations of one statement, one nested inside the
      other: the inner mutate addresses the entry whose current node is the
      outer copy, the inner undo writes the statement itself back into it,
      and then no entry holds the outer copy, so the outer undo addresses
      nothing and is rejected. */
  lemma NestedReplaceLosesOuter(original: seq<Node>, current: seq<Node>, target: Node,
                                outer: Node, inner: Node, i: nat)
    requires |current| == |original|
    requires Locate(original, current, target) == Some(i) && current[i] == outer && outer != target
    requires outer !in original && forall j :: 0 <= j < |current| && j != i ==> current[j] != outer
    requires inner !in original && inner !in current
    ensures Locate(original, current[i := inner], inner) == Some(i)
    ensures Locate(original, current[i := inner][i := target], outer).None?
  {
    ReplaceRoundTrip(original, current, target, inner, i);
    var undone := current[i := inner][i := target];
    assert forall j :: 0 <= j < |undone| ==> undone[j] != outer;
  }

  /** Every node of the block has an id below bound. */
  ghost predicate IdsBelow(block: seq<Node>, bound: nat)
  {
    forall i :: 0 <= i < |block| ==> block[i].id < bound
  }

  /** One more than the largest id of the block. */
  function Bound(block: seq<Node>): (b: nat)
    ensures IdsBelow(block, b)
  {
    if block == [] then 0
    else
      var b := Bound(block[..|block| - 1]);
      var last := block[|block| - 1];
      var r := if last.id < b then b else last.id + 1;
      assert forall i :: 0 <= i < |block| - 1 ==> block[i] == block[..|block| - 1][i];
      r
  }

  /** A source document together with its AST rewrite: the original
      block, the node each of its entries holds now, the modified document
      text, and the next identity a copied node receives. */
  class DocumentASTRewrite {
    const original: seq<Node>
    var current: seq<Node>
    var modifiedDocument: string
    var nextId: nat

    ghost predicate Valid()
      reads this
    {
      |current| == |original| && IdsBelow(original, nextId) && IdsBelow(current, nextId)
    }

    /** The document text is the rendering of the current entries: the
        constructor makes it so, and every mutate and undo, successful or
        rejected, keeps it so. */
    ghost predicate Rendered()
      reads this
    {
      modifiedDocument == Render(current)
    }

    /** The entry a replace of target addresses now. */
    function Find(target: Node): Option<nat>
      reads this
      requires |current| == |original|
    {
      Locate(original, current, target)
    }

    constructor(original: seq<Node>)
      ensures Valid()
      ensures this.original == original && current == original && modifiedDocument == Render(original)
    {
      this.original := original;
      current := original;
      modifiedDocument := Render(original);
      nextId := Bound(original);
    }

    /** resetModifiedDocument: the text goes back to the original. */
    method ResetModifiedDocument()
      modifies this
      ensures modifiedDocument == Render(original)
      ensures current == old(current) && nextId == old(nextId)
    {
      modifiedDocument := Render(original);
    }

    /** rewriteAST followed by applying its text edits: the edits are
        computed against the original text, so the document must hold it;
        the result is the rendering of the current entries. */
    method ApplyRewrite()
      requires modifiedDocument == Render(original)
      modifies this
      ensures modifiedDocument == Render(current)
      ensures current == old(current) && nextId == old(nextId)
    {
      modifiedDocument := Render(current);
    }

    /** replace: the entry whose original or current node is target now
        holds replacement. A null target, or one that no entry holds, is
        rejected (ok is false) and nothing changes. */
    method Replace(target: Option<Node>, replacement: Node) returns (ok: bool)
      requires Valid()
      modifies this
      ensures Valid()
      ensures ok <==> target.Some? && old(Find(target.value)).Some?
      ensures ok ==> current == old(current)[old(Find(target.value)).value := replacement]
      ensures ok ==> nextId == Max(old(nextId), replacement.id + 1)
      ensures !ok ==> current == old(current) && nextId == old(nextId)
      ensures modifiedDocument == old(modifiedDocument)
    {
      if target.None? {
        return false;
      }
      var i := Find(target.value);
      if i.None? {
        return false;
      }
      nextId := Max(nextId, replacement.id + 1);
      current := current[i.value := replacement];
      ok := true;
    }

    /** copySubtree: a new node with the same text, whose identity occurs
        in no entry, original or current. */
    method CopySubtree(n: Node) returns (c: Node)
      requires Valid()
      modifies this
      ensures Valid()
      ensures c.text == n.text
      ensures c !in original && c !in current
      ensures current == old(current) && modifiedDocument == old(modifiedDocument)
    {
      c := Node(nextId, n.text);
      nextId := nextId + 1;
    }
  }

  /** The replacement mutation: replaces the faulty statement by a copy of
      the seed statement, remembering the copy for the undo. It also
      remembers the node the replaced entry held before, which only the
      restoring undo reads. */
  class ReplacementMutation {
    const docrwt: DocumentASTRewrite
    const faulty: SourceStatement
    const seed: SourceStatement
    /** The copy of the seed that replaced the faulty statement. */
    var replacementNode: Option<Node>
    /** The node the replaced entry held before the replace. */
    var displaced: Option<Node>

    constructor(docrwt: DocumentASTRewrite, faulty: SourceStatement, seed: SourceStatement)
      ensures this.docrwt == docrwt && this.faulty == faulty && this.seed == seed
      ensures replacementNode.None? && displaced.None?
    {
      this.docrwt := docrwt;
      this.faulty := faulty;
      this.seed := seed;
      replacementNode := None;
      displaced := None;
    }

    /** concreteMutate: outside a block nothing happens. In a block, a copy
        of the seed, new to the document, is remembered and put into the
        entry a replace of the faulty statement addresses; the document is
        re-rendered, and only that entry's text changes in it. The replace
        is rejected, and the entries and the text are kept, when no entry
        holds the faulty statement. */
    method ConcreteMutate() returns (ok: bool)
      requires docrwt.Valid()
      modifies this, docrwt
      ensures docrwt.Valid()
      ensures !faulty.parentIsBlock ==> ok && replacementNode == old(replacementNode) && unchanged(docrwt)
      ensures faulty.parentIsBlock ==>
        && replacementNode.Some?
        && replacementNode.value.text == seed.statement.text
        && replacementNode.value !in docrwt.original
        && replacementNode.value !in old(docrwt.current)
        && (ok <==> old(docrwt.Find(faulty.statement)).Some?)
      ensures faulty.parentIsBlock && ok ==>
        && docrwt.current == old(docrwt.current)[old(docrwt.Find(faulty.statement)).value := replacementNode.value]
        && docrwt.modifiedDocument == Render(docrwt.current)
        && docrwt.modifiedDocument
           == Render(old(docrwt.current)[..old(docrwt.Find(faulty.statement)).value]) + seed.statement.text
              + Render(old(docrwt.current)[old(docrwt.Find(faulty.statement)).value + 1..])
      ensures faulty.parentIsBlock && !ok ==>
        docrwt.current == old(docrwt.current) && docrwt.modifiedDocument == old(docrwt.modifiedDocument)
      ensures faulty.parentIsBlock && ok ==>
        displaced == Some(old(docrwt.current)[old(docrwt.Find(faulty.statement)).value])
      ensures !(faulty.parentIsBlock && ok) ==> displaced == old(displaced)
      ensures old(docrwt.Rendered()) ==> docrwt.Rendered()
    {
      if !faulty.parentIsBlock {
        return true;
      }
      var copy := docrwt.CopySubtree(seed.statement);
      replacementNode := Some(copy);
      ghost var before := docrwt.current;
      var i := docrwt.Find(faulty.statement);
      var held := if i.Some? then Some(docrwt.current[i.value]) else None;
      ok := docrwt.Replace(Some(faulty.statement), copy);
      if !ok {
        return;
      }
      displaced := held;
      docrwt.ResetModifiedDocument();
      docrwt.ApplyRewrite();
      RenderReplace(before, i.value, copy);
    }

    /** concreteUndo as the source has it: it always asks the rewrite to
        replace the remembered copy by the faulty statement. It is rejected,
        and nothing changes, when mutate remembered no copy or when no entry
        holds the copy any more; otherwise the faulty statement goes back
        into the copy's entry and the document is re-rendered. */
    method ConcreteUndo() returns (ok: bool)
      requires docrwt.Valid()
      modifies docrwt
      ensures docrwt.Valid()
      ensures old(docrwt.Rendered()) ==> docrwt.Rendered()
      ensures ok <==> replacementNode.Some? && old(docrwt.Find(replacementNode.value)).Some?
      ensures !ok ==> docrwt.current == old(docrwt.current) && docrwt.modifiedDocument == old(docrwt.modifiedDocument)
      ensures ok ==>
        && docrwt.current == old(docrwt.current)[old(docrwt.Find(replacementNode.value)).value := faulty.statement]
        && docrwt.modifiedDocument == Render(docrwt.current)
    {
      ok := docrwt.Replace(replacementNode, faulty.statement);
      if !ok {
        return;
      }
      docrwt.ResetModifiedDocument();
      docrwt.ApplyRewrite();
    }

    /** The corrected concreteUndo: when mutate replaced nothing there is
        nothing to undo; otherwise the entry that holds the copy gets back
        the node it held before the mutate, which is the faulty statement
        itself only when no enclosing mutation had replaced it already. */
    method ConcreteUndoRestoring() returns (ok: bool)
      requires docrwt.Valid()
      modifies docrwt
      ensures docrwt.Valid()
      ensures old(docrwt.Rendered()) ==> docrwt.Rendered()
      ensures displaced.None? ==> ok && unchanged(docrwt)
      ensures displaced.Some? ==> (ok <==> replacementNode.Some? && old(docrwt.Find(replacementNode.value)).Some?)
      ensures displaced.Some? && !ok ==>
        docrwt.current == old(docrwt.current) && docrwt.modifiedDocument == old(docrwt.modifiedDocument)
      ensures displaced.Some? && ok ==>
        && docrwt.current == old(docrwt.current)[old(docrwt.Find(replacementNode.value)).value := displaced.value]
        && docrwt.Rendered()
    {
      if displaced.None? {
        return true;
      }
      ok := docrwt.Replace(replacementNode, displaced.value);
      if !ok {
        return;
      }
      docrwt.ResetModifiedDocument();
      docrwt.ApplyRewrite();
    }
  }

  /** With the undo as written, a fresh replacement mutation whose faulty
      statement is not directly in a block cannot be undone: mutate makes
      no replacement and undo is rejected. */
  method NonBlockUndoFails(docrwt: DocumentASTRewrite, faulty: SourceStatement, seed: SourceStatement)
    returns (ok: bool)
    requires docrwt.Valid()
    requires !faulty.parentIsBlock
    modifies docrwt
    ensures !ok
  {
    var m := new ReplacementMutation(docrwt, faulty, seed);
    var _ := m.ConcreteMutate();
    ok := m.ConcreteUndo();
  }

  /** With the undo as written, two replacement mutations of one
      statement, the second made and undone while the first is applied, as
      two nested generations of the search make them. When the statement
      sits in a block, in one of its original entries, the inner undo
      writes the statement itself back over the outer copy, and the outer
      undo is rejected; outside a block the inner undo already is. */
  method NestedUndoAsWrittenFails(docrwt: DocumentASTRewrite, faulty: SourceStatement,
                                  outerSeed: SourceStatement, innerSeed: SourceStatement)
    returns (ok: bool)
    requires docrwt.Valid()
    modifies docrwt
    ensures !faulty.parentIsBlock ==> !ok
    ensures (faulty.parentIsBlock && old(docrwt.Find(faulty.statement)).Some? &&
             docrwt.original[old(docrwt.Find(faulty.statement)).value] == faulty.statement) ==> !ok
  {
    ghost var i := docrwt.Find(faulty.statement);
    var outer := new ReplacementMutation(docrwt, faulty, outerSeed);
    ok := outer.ConcreteMutate();
    if !ok {
      return;
    }
    ghost var afterOuter := docrwt.current;
    var inner := new ReplacementMutation(docrwt, faulty, innerSeed);
    ok := inner.ConcreteMutate();
    if !ok {
      return;
    }
    ok := inner.ConcreteUndo();
    if !ok {
      return;
    }
    if docrwt.original[i.value] == faulty.statement {
      ReplaceRoundTrip(docrwt.original, afterOuter, faulty.statement, inner.replacementNode.value, i.value);
      NestedReplaceLosesOuter(docrwt.original, afterOuter, faulty.statement,
                              outer.replacementNode.value, inner.replacementNode.value, i.value);
    }
    ok := outer.ConcreteUndo();
  }

  /** With the corrected undo, mutate followed by undo on a fresh
      replacement mutation: outside a block nothing changes; in a block
      both succeed exactly when some entry holds the faulty statement.
      Either way the entries end as they began, and a document that was the
      rendering of its entries ends with its text unchanged. */
  method MutateThenUndo(docrwt: DocumentASTRewrite, faulty: SourceStatement, seed: SourceStatement)
    returns (ok: bool)
    requires docrwt.Valid()
    modifies docrwt
    ensures docrwt.Valid()
    ensures !faulty.parentIsBlock ==> ok && unchanged(docrwt)
    ensures faulty.parentIsBlock ==> (ok <==> old(docrwt.Find(faulty.statement)).Some?)
    ensures docrwt.current == old(docrwt.current)
    ensures old(docrwt.Rendered()) ==> docrwt.modifiedDocument == old(docrwt.modifiedDocument)
  {
    ghost var before := docrwt.current;
    ghost var i := docrwt.Find(faulty.statement);
    var m := new ReplacementMutation(docrwt, faulty, seed);
    ok := m.ConcreteMutate();
    if !ok || !faulty.parentIsBlock {
      return;
    }
    ReplaceRoundTrip(docrwt.original, before, faulty.statement, m.replacementNode.value, i.value);
    ok := m.ConcreteUndoRestoring();
    assert before[i.value := m.replacementNode.value][i.value := before[i.value]] == before;
  }

  /** Two replacement mutations of one statement, the second made and
      undone while the first is applied, as two nested generations of the
      search make them, with the corrected undo. When the statement's entry
      is one of the block's original entries both mutations succeed, and
      whenever the whole sequence succeeds the entries end as they began,
      and so does the text of a document that was the rendering of its
      entries. */
  method NestedMutateUndoRestores(docrwt: DocumentASTRewrite, faulty: SourceStatement,
                                  outerSeed: SourceStatement, innerSeed: SourceStatement)
    returns (ok: bool)
    requires docrwt.Valid()
    modifies docrwt
    ensures docrwt.Valid()
    ensures !faulty.parentIsBlock ==> ok
    ensures (faulty.parentIsBlock && old(docrwt.Find(faulty.statement)).Some? &&
             docrwt.original[old(docrwt.Find(faulty.statement)).value] == faulty.statement) ==> ok
    ensures ok ==> docrwt.current == old(docrwt.current)
    ensures ok && old(docrwt.Rendered()) ==> docrwt.modifiedDocument == old(docrwt.modifiedDocument)
  {
    ghost var before := docrwt.current;
    ghost var i := docrwt.Find(faulty.statement);
    var outer := new ReplacementMutation(docrwt, faulty, outerSeed);
    ok := outer.ConcreteMutate();
    if !ok {
      return;
    }
    ok := MutateThenUndo(docrwt, faulty, innerSeed);
    if !ok {
      return;
    }
    if faulty.parentIsBlock {
      ReplaceRoundTrip(docrwt.original, before, faulty.statement, outer.replacementNode.value, i.value);
    }
    ok := outer.ConcreteUndoRestoring();
    if faulty.parentIsBlock {
      assert before[i.value := outer.replacementNode.value][i.value := before[i.value]] == before;
    }
  }
}
