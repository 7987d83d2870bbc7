/** Histories of inserts and clears on the heap tree. */
module TreeHistory {
  import opened Keys
  import opened RadixShape
  import opened RadixLookup
  import opened RadixHistory
  import opened PrefixTree

  /** Carry out one operation on the tree. */
  method Carry(tree: Tree, op: Op)
    requires tree.Valid()
    modifies tree, tree.nodes
    ensures tree.Valid() && fresh(tree.nodes - old(tree.nodes))
    ensures tree.Contents() == Apply(old(tree.Contents()), op)
  {
    match op
    case Insert(prompt, server) => tree.InsertInto(prompt, server);
    case Clear => tree.Reset();
  }

  /** A fresh tree that has been through a history satisfies the radix invariant and stores what the
      history says. */
  method Replay(ops: seq<Op>) returns (tree: Tree)
    ensures fresh(tree) && fresh(tree.nodes)
    ensures tree.Valid() && tree.Contents() == Run(ops)
  {
    tree := new Tree();
    assert ops[..0] == [];
    for i := 0 to |ops|
      invariant tree.Valid() && fresh(tree.nodes) && tree.Contents() == Run(ops[..i])
    {
      assert ops[..i + 1] == ops[..i] + [ops[i]];
      RunSnoc(ops[..i], ops[i]);
      Carry(tree, ops[i]);
    }
    assert ops[..|ops|] == ops;
  }

  /** Lookups in two heap trees that went through histories with the same live inserts, in whatever
      order, return the same entries, each once and shorter ones first. */
  method ReplayBoth(ops: seq<Op>, other: seq<Op>, prompt: Key) returns (mine: seq<Match>, theirs: seq<Match>)
    requires forall o :: o in Live(ops) <==> o in Live(other)
    ensures Ordered(mine) && Ordered(theirs)
    ensures forall e :: e in mine <==> e in theirs
  {
    var t := Replay(ops);
    var u := Replay(other);
    mine := t.FindPrefixMatches(prompt);
    theirs := u.FindPrefixMatches(prompt);
    RunExact(ops);
    RunExact(other);
    LookupOrdered(Run(ops), prompt);
    LookupOrdered(Run(other), prompt);
    forall e ensures e in mine <==> e in theirs {
      InsertionOrderIrrelevant(ops, other, t.shape, u.shape, prompt, e);
    }
  }
}
