/** The heap tree itself: nodes linked by child maps and rewritten in place. */
module PrefixTree {
  import opened Keys
  import opened RadixShape
  import opened RadixCanon
  import opened RadixLookup

  class GORGONode {
    var children: map<byte, GORGONode>
    var servers: seq<Ref>
    var prefix: Key

    // The bytes on the path from the root, which no insert changes.
    ghost const name: Key

    constructor (prefix: Key, servers: seq<Ref>, ghost name: Key)
      ensures children == map[] && this.servers == servers && this.prefix == prefix && this.name == name
    {
      this.name := name;
      children := map[];
      this.servers := servers;
      this.prefix := prefix;
    }

    /** This object's fields are those of a cell. */
    ghost predicate Matches(cell: Cell)
      reads this
    {
      && prefix == cell.prefix
      && servers == cell.servers
      && children.Keys == cell.kids.Keys
      && (forall c | c in children :: children[c].name == cell.kids[c])
    }
  }

  class Tree {
    var root: GORGONode

    // The node objects, each under its name, and the tree's shape as a value.
    ghost var nodes: set<GORGONode>
    ghost var at: map<Key, GORGONode>
    ghost var shape: Shape

    ghost predicate Fits(n: GORGONode)
      reads this, n
    {
      && n.name in at && at[n.name] == n
      && n.name in shape && n.Matches(shape[n.name])
      && (forall c | c in n.children :: n.children[c] in nodes)
    }

    ghost predicate Heap()
      reads this, nodes
    {
      && root in nodes && root.name == []
      && (forall n {:trigger Fits(n)} | n in nodes :: Fits(n))
    }

    ghost predicate Valid()
      reads this, nodes
    {
      Heap() && WellFormed(shape)
    }

    ghost function Contents(): Contents
      reads this
    {
      ContentsOf(shape)
    }

    lemma RootNamed()
      requires Valid()
      ensures root in nodes && root.name == [] && root.name in shape
    {
    }

    /** The heap nodes and the names of the shape are in one-to-one correspondence. */
    lemma {:induction false} NodeOf(k: Key) returns (n: GORGONode)
      requires Valid() && k in shape
      ensures n in nodes && n.name == k && forall m | m in nodes && m.name == k :: m == n
      decreases |k|
    {
      n := root;
      if k != [] {
        var q := Parent(shape, k);
        var m := NodeOf(q);
        assert Fits(m);
        n := m.children[k[|q|]];
      }
      assert forall m | m in nodes :: Fits(m);
    }

    /** A child pointer leads to the node the shape says. */
    lemma ChildOf(n: GORGONode, c: byte)
      requires Valid() && n in nodes && c in n.children
      ensures n.name in shape && c in shape[n.name].kids && n.children[c].name == shape[n.name].kids[c]
      ensures n.children[c] in nodes && n.children[c].name in shape
      ensures |n.children[c].name| == |n.name| + |n.children[c].prefix|
    {
      assert Fits(n) && Fits(n.children[c]) && EdgeOk(shape, n.name, c);
    }

    /** A node that was not touched, and whose cell did not change, still fits. */
    twostate lemma StillFits(n: GORGONode)
      requires old(Fits(n)) && unchanged(n) && old(nodes) <= nodes
      requires n.name in at && at[n.name] == n
      requires n.name in shape && n.name in old(shape) && shape[n.name] == old(shape)[n.name]
      ensures Fits(n)
    {
    }

    constructor ()
      ensures Valid() && Contents() == map[] && fresh(nodes)
    {
      root := new GORGONode([], [], []);
      shape := EMPTY;
      new;
      nodes, at := {root}, map[[] := root];
      EmptyWellFormed();
      assert Fits(root);
    }

    method Reset()
      modifies this
      ensures Valid() && Contents() == map[] && fresh(nodes)
    {
      root := new GORGONode([], [], []);
      nodes, at, shape := {root}, map[[] := root], EMPTY;
      EmptyWellFormed();
      assert Fits(root);
    }

    /** The child under the next byte of the prompt, and how much of its edge the prompt shares. */
    method Follow(node: GORGONode, prefix: Key, i: nat) returns (lookup: GORGONode, sharedLen: nat)
      requires Valid() && node in nodes && i < |prefix| && node.name == prefix[..i] && prefix[i] in node.children
      ensures lookup == node.children[prefix[i]] && lookup in nodes && lookup.name in shape && node.name in shape
      ensures prefix[i] in shape[node.name].kids && lookup.name == shape[node.name].kids[prefix[i]]
      ensures 0 < sharedLen <= |lookup.prefix| && i + sharedLen <= |prefix|
      ensures node.name < prefix[..i + sharedLen] <= lookup.name && |lookup.name| == i + |lookup.prefix|
      ensures i + sharedLen == Shared(prefix, lookup.name)
      ensures node.name + lookup.prefix[..sharedLen] == prefix[..i + sharedLen]
      ensures i + sharedLen < |prefix| && sharedLen < |lookup.prefix| ==>
                prefix[i + sharedLen] != lookup.name[i + sharedLen]
      ensures sharedLen == |lookup.prefix| ==> lookup.name == prefix[..i + sharedLen]
      ensures sharedLen < |lookup.prefix| ==> prefix[..i + sharedLen] < lookup.name
    {
      assert Fits(node);
      lookup := node.children[prefix[i]];
      Descend(shape, node.name, prefix);
      assert Fits(lookup);
      sharedLen := SharedPrefixLength(prefix[i..], lookup.prefix);
    }

    /** Hang a new leaf for p under `node`. */
    method HangLeaf(node: GORGONode, currentChar: byte, text: Key, ghost p: Key, server: Ref)
      requires Heap() && node in nodes && node.name in shape
      requires node.name < p && p !in shape && currentChar == p[|node.name|] && text == p[|node.name|..]
      modifies this`at, this`shape, this`nodes, node`children
      ensures Heap() && shape == AddLeaf(old(shape), node.name, p, server)
      ensures fresh(nodes - old(nodes)) && root == old(root)
    {
      assert Fits(node);
      var newNode := new GORGONode(text, [server], p);
      node.children := node.children[currentChar := newNode];
      shape, nodes, at := AddLeaf(shape, node.name, p, server), nodes + {newNode}, at[p := newNode];
      forall n | n in nodes ensures Fits(n) {
        if n != node && n != newNode {
          assert old(Fits(n));
          StillFits(n);
        }
      }
    }

    /** The pointer surgery of a split: a new node between `node` and its child `lookup`. */
    static method Relink(node: GORGONode, currentChar: byte, lookup: GORGONode, sharedLen: nat, ghost mid: Key)
      returns (newNode: GORGONode)
      requires node != lookup && sharedLen < |lookup.prefix|
      modifies node`children, lookup`prefix
      ensures fresh(newNode) && newNode.name == mid && newNode.servers == []
      ensures newNode.prefix == old(lookup.prefix)[..sharedLen]
      ensures newNode.children == map[old(lookup.prefix)[sharedLen] := lookup]
      ensures lookup.prefix == old(lookup.prefix)[sharedLen..]
      ensures node.children == old(node.children)[currentChar := newNode]
    {
      var matchingPart, oldRemainingPart := lookup.prefix[..sharedLen], lookup.prefix[sharedLen..];
      newNode := new GORGONode(matchingPart, [], mid);
      lookup.prefix := oldRemainingPart;
      newNode.children := newNode.children[oldRemainingPart[0] := lookup];
      node.children := node.children[currentChar := newNode];
    }

    /** Record a split whose pointer surgery is done. */
    ghost method AdoptSplit(node: GORGONode, lookup: GORGONode, newNode: GORGONode, mid: Key)
      requires root in nodes && root.name == []
      requires forall n | n in nodes && n != node && n != lookup :: Fits(n)
      requires node in nodes && lookup in nodes && newNode !in nodes
      requires node.name in at && at[node.name] == node && lookup.name in at && at[lookup.name] == lookup
      requires node.name in shape && lookup.name in shape && mid !in shape && newNode.name == mid
      requires |node.name| < |mid| < |lookup.name| && |shape[lookup.name].prefix| == |lookup.name| - |node.name|
      requires node.Matches(shape[node.name].(kids := shape[node.name].kids[lookup.name[|node.name|] := mid]))
      requires lookup.Matches(shape[lookup.name].(prefix := shape[lookup.name].prefix[|mid| - |node.name|..]))
      requires newNode.Matches(Cell(shape[lookup.name].prefix[..|mid| - |node.name|], [],
                                    map[lookup.name[|mid|] := lookup.name]))
      requires forall c | c in node.children :: node.children[c] in nodes + {newNode}
      requires forall n | n == lookup || n == newNode :: forall c | c in n.children :: n.children[c] in nodes
      modifies this`at, this`shape, this`nodes
      ensures Heap() && nodes == old(nodes) + {newNode}
      ensures shape == Split(old(shape), node.name, lookup.name, mid)
    {
      shape, nodes, at := Split(shape, node.name, lookup.name, mid), nodes + {newNode}, at[mid := newNode];
      assert Fits(node) && Fits(lookup) && Fits(newNode);
      forall n | n in old(nodes) && n != node && n != lookup ensures Fits(n) {
        assert old(Fits(n));
      }
    }

    method SplitNode(node: GORGONode, currentChar: byte, lookup: GORGONode, sharedLen: nat, ghost mid: Key)
      returns (newNode: GORGONode)
      requires Heap() && node in nodes && lookup in nodes && currentChar in node.children
      requires node.children[currentChar] == lookup && node.name in shape && lookup.name in shape
      requires |node.name| < |mid| < |lookup.name| && mid !in shape && currentChar == lookup.name[|node.name|]
      requires |lookup.prefix| == |shape[lookup.name].prefix| == |lookup.name| - |node.name|
      requires sharedLen == |mid| - |node.name| && lookup.prefix[sharedLen] == lookup.name[|mid|]
      modifies this`at, this`shape, this`nodes, node`children, lookup`prefix
      ensures Heap() && fresh(nodes - old(nodes)) && root == old(root)
      ensures newNode in nodes && newNode.name == mid && fresh(newNode)
      ensures shape == Split(old(shape), node.name, lookup.name, mid)
    {
      assert Fits(node) && Fits(lookup);
      newNode := Relink(node, currentChar, lookup, sharedLen, mid);
      forall n | n in nodes && n != node && n != lookup ensures Fits(n) {
        assert old(Fits(n));
      }
      AdoptSplit(node, lookup, newNode, mid);
    }

    method AppendServer(node: GORGONode, server: Ref)
      requires Heap() && node in nodes && node.name in shape
      modifies this`shape, node`servers
      ensures Heap() && shape == AddServer(old(shape), node.name, server)
    {
      assert Fits(node);
      node.servers := node.servers + [server];
      shape := AddServer(shape, node.name, server);
      forall n | n in nodes ensures Fits(n) {
        assert old(Fits(n));
      }
    }

    /** The no-child branch: the rest of the prompt becomes one new edge. */
    method InsertByLeaf(node: GORGONode, currentChar: byte, remainingText: Key, ghost prefix: Key, server: Ref)
      requires Valid() && node in nodes && currentChar !in node.children
      requires node.name < prefix && currentChar == prefix[|node.name|] && remainingText == prefix[|node.name|..]
      modifies this, node
      ensures Valid() && fresh(nodes - old(nodes)) && root == old(root)
      ensures prefix !in old(shape) && Contents() == Add(old(Contents()), prefix, server)
      ensures |shape| <= old(|shape|) + 2
    {
      assert Fits(node) && CellCompressed(shape, node.name);
      LeafInsert(shape, node.name, prefix, server);
      HangLeaf(node, currentChar, remainingText, prefix, server);
    }

    /** The split branch of an insert: cut the edge at mid, then end there or hang a leaf. */
    method InsertBySplit(node: GORGONode, currentChar: byte, lookup: GORGONode, sharedLen: nat, prefix: Key, i: nat,
                         server: Ref)
      requires Valid() && node in nodes && lookup in nodes && currentChar in node.children
      requires node.children[currentChar] == lookup && node.name in shape && lookup.name in shape
      requires currentChar in shape[node.name].kids && shape[node.name].kids[currentChar] == lookup.name
      requires i <= |prefix| && node.name < prefix[..i] < lookup.name && currentChar == prefix[|node.name|]
      requires i < |prefix| ==> prefix[i] != lookup.name[i]
      requires sharedLen == i - |node.name|
      modifies this, node, lookup
      ensures Valid() && fresh(nodes - old(nodes)) && root == old(root)
      ensures prefix !in old(shape) && Contents() == Add(old(Contents()), prefix, server)
      ensures |shape| <= old(|shape|) + 2
    {
      ghost var mid := prefix[..i];
      SplitInsert(shape, node.name, lookup.name, mid);
      assert Fits(lookup);
      var newNode := SplitNode(node, currentChar, lookup, sharedLen, mid);
      if i < |prefix| {
        LeafInsert(shape, mid, prefix, server);
        HangLeaf(newNode, prefix[i], prefix[i..], prefix, server);
      } else {
        assert mid == prefix;
        ServerInsert(shape, mid, server);
        AppendServer(newNode, server);
      }
    }

    /** The exact-hit branch: add the server to the node's list unless it is there. */
    method AddOnce(node: GORGONode, server: Ref)
      requires Valid() && node in nodes && node.name != []
      modifies this`shape, node`servers
      ensures Valid() && Contents() == Add(old(Contents()), node.name, server)
      ensures |shape| == old(|shape|)
      ensures server in Holds(old(Contents()), node.name) ==> shape == old(shape)
    {
      assert Fits(node);
      for j := 0 to |node.servers|
        invariant server !in node.servers[..j]
      {
        if node.servers[j] == server {
          return;
        }
      }
      ServerInsert(shape, node.name, server);
      AppendServer(node, server);
    }

    method InsertInto(prefix: Key, server: Ref)
      requires Valid()
      modifies this, nodes
      ensures Valid() && fresh(nodes - old(nodes)) && root == old(root)
      ensures Contents() == Add(old(Contents()), prefix, server)
      ensures |shape| <= old(|shape|) + 2
      ensures server in Holds(old(Contents()), prefix) ==> shape == old(shape)
    {
      var currentNode := root;
      var i := 0;
      while i < |prefix|
        invariant 0 <= i <= |prefix| && (i == |prefix| ==> prefix == [])
        invariant currentNode in nodes && currentNode.name == prefix[..i]
        invariant nodes == old(nodes) && shape == old(shape) && root == old(root) && Valid()
      {
        var currentChar := prefix[i];
        var remainingText := prefix[i..];
        if currentChar !in currentNode.children {
          InsertByLeaf(currentNode, currentChar, remainingText, prefix, server);
          return;
        }
        var lookup, sharedLen := Follow(currentNode, prefix, i);
        i := i + sharedLen;
        if sharedLen < |lookup.prefix| {
          InsertBySplit(currentNode, currentChar, lookup, sharedLen, prefix, i, server);
          return;
        }
        if i >= |prefix| {
          assert prefix[..i] == prefix;
          AddOnce(lookup, server);
          return;
        }
        currentNode := lookup;
      }
    }

    /** The proxy's insert: nothing happens for an empty prompt or a nil server. */
    method InsertPrefix(prefix: Key, server: Ref)
      requires Valid()
      modifies this, nodes
      ensures Valid() && fresh(nodes - old(nodes)) && root == old(root)
      ensures Contents() == if server == Nil then old(Contents()) else Add(old(Contents()), prefix, server)
      ensures |shape| <= old(|shape|) + 2
      ensures server in Holds(old(Contents()), prefix) ==> shape == old(shape)
    {
      if prefix == [] || server == Nil {
        return;
      }
      InsertInto(prefix, server);
    }

    /** What the servers of a child add to the entries, when the prompt shares n - i bytes of its edge. */
    lemma NextEntries(node: GORGONode, lookup: GORGONode, prompt: Key, i: nat, n: nat)
      requires Valid() && node in nodes && lookup in nodes && i < n <= |prompt|
      requires node.name in shape && node.name == prompt[..i] && prompt[..n] <= lookup.name
      requires prompt[i] in shape[node.name].kids && shape[node.name].kids[prompt[i]] == lookup.name
      requires n < |prompt| && n < |lookup.name| ==> prompt[n] != lookup.name[n]
      ensures NoRepeats(lookup.servers)
      ensures prompt[..n] < lookup.name ==>
                Lookup(Contents(), prompt) == UpTo(Contents(), prompt, i) + Tag(lookup.servers, n)
      ensures prompt[..n] == lookup.name ==>
                UpTo(Contents(), prompt, n) == UpTo(Contents(), prompt, i) + Tag(lookup.servers, n)
    {
      assert Fits(lookup);
      if prompt[..n] < lookup.name {
        LookupEndsInEdge(shape, node.name, lookup.name, prompt, n);
      } else {
        LookupThrough(shape, node.name, lookup.name, prompt);
      }
    }

    /** One step of a lookup: the child's servers are the next entries, and the last ones when the
        prompt leaves the tree inside the edge. */
    method LookAhead(node: GORGONode, prompt: Key, i: nat) returns (lookup: GORGONode, sharedLen: nat)
      requires Valid() && node in nodes && i < |prompt| && node.name == prompt[..i] && prompt[i] in node.children
      ensures lookup in nodes && lookup == node.children[prompt[i]] && NoRepeats(lookup.servers)
      ensures 0 < sharedLen <= |lookup.prefix| && i + sharedLen <= |prompt|
      ensures node.name + lookup.prefix[..sharedLen] == prompt[..i + sharedLen]
      ensures sharedLen < |lookup.prefix| ==>
                Lookup(Contents(), prompt) == UpTo(Contents(), prompt, i) + Tag(lookup.servers, i + sharedLen)
      ensures sharedLen == |lookup.prefix| ==>
                && lookup.name == prompt[..i + sharedLen]
                && UpTo(Contents(), prompt, i + sharedLen)
                   == UpTo(Contents(), prompt, i) + Tag(lookup.servers, i + sharedLen)
    {
      lookup, sharedLen := Follow(node, prompt, i);
      NextEntries(node, lookup, prompt, i, i + sharedLen);
    }

    /** A lookup that cannot go on from a node has all its entries. */
    lemma LookupStops(node: GORGONode, prompt: Key, i: nat)
      requires Valid() && node in nodes && i <= |prompt| && node.name == prompt[..i]
      requires i < |prompt| ==> prompt[i] !in node.children
      ensures Lookup(Contents(), prompt) == UpTo(Contents(), prompt, i)
    {
      assert Fits(node);
      LookupEndsAtNode(shape, node.name, prompt);
    }

    method FindPrefixMatches(prompt: Key) returns (matches: seq<Match>)
      requires Valid()
      ensures matches == Lookup(Contents(), prompt)
    {
      matches := [];
      var currentNode := root;
      var i := 0;
      while i < |prompt|
        invariant 0 <= i <= |prompt| && currentNode in nodes && currentNode.name == prompt[..i]
        invariant matches == UpTo(Contents(), prompt, i)
      {
        if prompt[i] !in currentNode.children {
          break;
        }
        var lookup, sharedLen := LookAhead(currentNode, prompt, i);
        ghost var before := matches;
        i := i + sharedLen;
        for j := 0 to |lookup.servers|
          invariant matches == before + Tag(lookup.servers[..j], i)
        {
          matches := matches + [Match(lookup.servers[j], i)];
        }
        assert lookup.servers[..|lookup.servers|] == lookup.servers;
        if sharedLen < |lookup.prefix| {
          return;
        }
        currentNode := lookup;
      }
      LookupStops(currentNode, prompt, i);
    }

    static method HasLocalMarker(peers: seq<Ref>) returns (found: bool)
      ensures found <==> Nil in peers
    {
      for j := 0 to |peers|
        invariant Nil !in peers[..j]
      {
        if peers[j] == Nil {
          return true;
        }
      }
      return false;
    }

    /** One step of the search for the local marker. */
    method LookAheadLocal(node: GORGONode, path: Key, i: nat, before: nat)
      returns (lookup: GORGONode, sharedLen: nat, matchedLen: nat)
      requires Valid() && node in nodes && i < |path| && node.name == path[..i] && path[i] in node.children
      requires before <= i && before == Longest(Nil, UpTo(Contents(), path, i))
      ensures lookup in nodes && 0 < sharedLen <= |lookup.prefix|
      ensures i + sharedLen <= |path| && matchedLen <= i + sharedLen
      ensures sharedLen < |lookup.prefix| ==> matchedLen == Longest(Nil, Lookup(Contents(), path))
      ensures sharedLen == |lookup.prefix| ==>
                && lookup.name == path[..i + sharedLen]
                && matchedLen == Longest(Nil, UpTo(Contents(), path, i + sharedLen))
    {
      lookup, sharedLen := LookAhead(node, path, i);
      LongestAppend(Nil, UpTo(Contents(), path, i), lookup.servers, i + sharedLen);
      var isLocal := HasLocalMarker(lookup.servers);
      matchedLen := if isLocal then i + sharedLen else before;
    }

    /** Where the prompt's last match against the local marker ends; 0 when there is none. */
    method FindLocalPrefixMatch(path: Key) returns (matchedLen: nat)
      requires Valid()
      ensures matchedLen == Longest(Nil, Lookup(Contents(), path))
    {
      var currentNode := root;
      matchedLen := 0;
      var i := 0;
      while i < |path|
        invariant 0 <= i <= |path| && currentNode in nodes && currentNode.name == path[..i]
        invariant matchedLen <= i && matchedLen == Longest(Nil, UpTo(Contents(), path, i))
      {
        if path[i] !in currentNode.children {
          break;
        }
        var lookup, sharedLen;
        lookup, sharedLen, matchedLen := LookAheadLocal(currentNode, path, i, matchedLen);
        i := i + sharedLen;
        if sharedLen < |lookup.prefix| {
          return;
        }
        currentNode := lookup;
      }
      LookupStops(currentNode, path, i);
    }
  }
}
