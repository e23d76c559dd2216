/**
 Removal of a key from a YAML tree in place (pkg/commons/utils.go, removeKey), proved against a recursive function
 on values.
 */
module PruneYaml {
  import opened Options

  datatype Kind = Document | Sequence | Mapping | Scalar | Alias

  /** The value of a yaml.Node; a mapping holds its keys and values in turn. */
  datatype Tree = Tree(kind: Kind, value: string, content: seq<Tree>)

  // ---------------------------------------------------------------- on values

  function Size(ts: seq<Tree>): nat
    decreases ts
  {
    if ts == [] then 0 else 1 + Size(ts[0].content) + Size(ts[1..])
  }

  /** A mapping without the pairs whose key is `key`. */
  function DropPairs(content: seq<Tree>, key: string): (r: seq<Tree>)
    ensures |r| <= |content| && (|content| - |r|) % 2 == 0
    decreases |content|
  {
    if |content| < 2 then content
    else if content[0].value == key then DropPairs(content[2..], key)
    else content[..2] + DropPairs(content[2..], key)
  }

  lemma {:induction false} SizeAppend(a: seq<Tree>, b: seq<Tree>)
    ensures Size(a + b) == Size(a) + Size(b)
    decreases |a|
  {
    if a == [] {
      assert a + b == b;
    } else {
      SizeAppend(a[1..], b);
      assert (a + b)[1..] == a[1..] + b;
    }
  }

  lemma {:induction false} DropPairsShrinks(content: seq<Tree>, key: string)
    ensures Size(DropPairs(content, key)) <= Size(content)
    decreases |content|
  {
    if |content| >= 2 {
      DropPairsShrinks(content[2..], key);
      SizeAppend(content[..2], content[2..]);
      SizeAppend(content[..2], DropPairs(content[2..], key));
      assert content == content[..2] + content[2..];
    }
  }

  lemma {:induction false} SizeAt(ts: seq<Tree>, i: nat)
    requires i < |ts|
    ensures Size([ts[i]]) <= Size(ts)
    decreases |ts|
  {
    assert Size([ts[0]]) == 1 + Size(ts[0].content) + Size([]);
    if i > 0 {
      SizeAt(ts[1..], i - 1);
    }
  }

  function PruneOne(t: Tree, key: string): Tree
    decreases Size([t]), 0
  {
    assert Size([t]) == 1 + Size(t.content) + Size([]);
    match t.kind
    case Mapping =>
      DropPairsShrinks(t.content, key);
      t.(content := Prune(DropPairs(t.content, key), key))
    case Sequence => t.(content := Prune(t.content, key))
    case _ => t
  }

  /** What removeKey() makes of a list of nodes. */
  function Prune(ts: seq<Tree>, key: string): (r: seq<Tree>)
    ensures |r| == |ts|
    decreases Size(ts), 1
  {
    seq(|ts|, i requires 0 <= i < |ts| => SizeAt(ts, i); PruneOne(ts[i], key))
  }

  /** No mapping that is reached through mappings and sequences has the key. */
  predicate KeyFree(t: Tree, key: string)
    decreases t
  {
    match t.kind
    case Mapping =>
      && (forall j | 0 <= j < |t.content| / 2 :: t.content[2 * j].value != key)
      && forall i | 0 <= i < |t.content| :: KeyFree(t.content[i], key)
    case Sequence => forall i | 0 <= i < |t.content| :: KeyFree(t.content[i], key)
    case _ => true
  }

  lemma {:induction false} DroppedKeys(content: seq<Tree>, key: string)
    ensures forall j | 0 <= j < |DropPairs(content, key)| / 2 :: DropPairs(content, key)[2 * j].value != key
    decreases |content|
  {
    if |content| >= 2 {
      DroppedKeys(content[2..], key);
      var rest := DropPairs(content[2..], key);
      var all := DropPairs(content, key);
      if content[0].value != key {
        forall j | 0 <= j < |all| / 2 ensures all[2 * j].value != key {
          assert j > 0 ==> all[2 * j] == rest[2 * (j - 1)];
        }
      }
    }
  }

  lemma PruneKeepsValue(t: Tree, key: string)
    ensures PruneOne(t, key).kind == t.kind && PruneOne(t, key).value == t.value
  {
  }

  /** The pruned tree is free of the key. */
  lemma {:induction false} PrunedIsKeyFree(t: Tree, key: string)
    ensures KeyFree(PruneOne(t, key), key)
    decreases Size([t])
  {
    assert Size([t]) == 1 + Size(t.content) + Size([]);
    if t.kind == Mapping || t.kind == Sequence {
      var c := if t.kind == Mapping then DropPairs(t.content, key) else t.content;
      DropPairsShrinks(t.content, key);
      forall i | 0 <= i < |c| ensures KeyFree(Prune(c, key)[i], key) {
        SizeAt(c, i);
        PrunedIsKeyFree(c[i], key);
      }
      if t.kind == Mapping {
        DroppedKeys(t.content, key);
        forall j | 0 <= j < |c| / 2 ensures Prune(c, key)[2 * j].value != key {
          PruneKeepsValue(c[2 * j], key);
        }
      }
    }
  }

  lemma {:induction false} NothingToDrop(content: seq<Tree>, key: string)
    requires forall j | 0 <= j < |content| / 2 :: content[2 * j].value != key
    ensures DropPairs(content, key) == content
    decreases |content|
  {
    if |content| >= 2 {
      assert content[0] == content[2 * 0];
      var rest := content[2..];
      forall j | 0 <= j < |rest| / 2 ensures rest[2 * j].value != key {
        assert rest[2 * j] == content[2 * (j + 1)];
      }
      NothingToDrop(rest, key);
      assert content == content[..2] + rest;
    }
  }

  /** A tree is left as it is exactly when it is free of the key. */
  lemma {:induction false} UnchangedIff(t: Tree, key: string)
    ensures PruneOne(t, key) == t <==> KeyFree(t, key)
    decreases Size([t])
  {
    assert Size([t]) == 1 + Size(t.content) + Size([]);
    if KeyFree(t, key) && (t.kind == Mapping || t.kind == Sequence) {
      if t.kind == Mapping {
        NothingToDrop(t.content, key);
      }
      forall i | 0 <= i < |t.content| ensures Prune(t.content, key)[i] == t.content[i] {
        SizeAt(t.content, i);
        UnchangedIff(t.content[i], key);
      }
    }
    PrunedIsKeyFree(t, key);
  }

  /** Pruning twice is pruning once. */
  lemma PruneIsIdempotent(t: Tree, key: string)
    ensures PruneOne(PruneOne(t, key), key) == PruneOne(t, key)
  {
    PrunedIsKeyFree(t, key);
    UnchangedIff(PruneOne(t, key), key);
  }

  // ---------------------------------------------------------------- what is kept

  /** A way down a tree: by the first pair with a key, or by position in a sequence. */
  datatype Step = Key(name: string) | Index(i: nat)

  function Lookup(content: seq<Tree>, name: string): Option<Tree>
    decreases |content|
  {
    if |content| < 2 then None
    else if content[0].value == name then Some(content[1])
    else Lookup(content[2..], name)
  }

  function Follow(t: Tree, path: seq<Step>): Option<Tree>
    decreases |path|
  {
    if path == [] then Some(t)
    else
      var next := match path[0]
        case Key(name) => if t.kind == Mapping then Lookup(t.content, name) else None
        case Index(i) => if t.kind == Sequence && i < |t.content| then Some(t.content[i]) else None;
      if next.None? then None else Follow(next.value, path[1..])
  }

  function PruneFound(t: Option<Tree>, key: string): Option<Tree> {
    if t.None? then None else Some(PruneOne(t.value, key))
  }

  lemma {:induction false} LookupPruned(content: seq<Tree>, key: string, name: string)
    ensures Lookup(Prune(content, key), name) == PruneFound(Lookup(content, name), key)
    decreases |content|
  {
    if |content| >= 2 {
      LookupPruned(content[2..], key, name);
      assert Prune(content, key)[2..] == Prune(content[2..], key);
      PruneKeepsValue(content[0], key);
    }
  }

  lemma {:induction false} LookupDropped(content: seq<Tree>, key: string, name: string)
    ensures Lookup(DropPairs(content, key), name) == if name == key then None else Lookup(content, name)
    decreases |content|
  {
    if |content| >= 2 {
      LookupDropped(content[2..], key, name);
      var rest := DropPairs(content[2..], key);
      assert (content[..2] + rest)[2..] == rest;
    }
  }

  /** Every way down that does not use the key leads to the same as before, pruned; one that uses it leads nowhere. */
  lemma {:induction false} PathsKept(t: Tree, key: string, path: seq<Step>)
    ensures Follow(PruneOne(t, key), path) == if Key(key) in path then None else PruneFound(Follow(t, path), key)
    decreases |path|
  {
    if path != [] {
      var c := t.content;
      match path[0]
      case Key(name) =>
        if t.kind == Mapping {
          LookupDropped(c, key, name);
          LookupPruned(DropPairs(c, key), key, name);
          if name != key && Lookup(c, name).Some? {
            PathsKept(Lookup(c, name).value, key, path[1..]);
          }
        }
      case Index(i) =>
        if t.kind == Sequence && i < |c| {
          PathsKept(c[i], key, path[1..]);
        }
      PathTail(t, key, path);
    }
  }

  lemma PathTail(t: Tree, key: string, path: seq<Step>)
    requires path != []
    ensures Key(key) in path <==> path[0] == Key(key) || Key(key) in path[1..]
  {
    assert path == [path[0]] + path[1..];
  }

  // ---------------------------------------------------------------- in place

  /** The nodes themselves; `repr` holds a node and all below it, and `tree` the value of the node. */
  class Node {
    const kind: Kind
    const value: string
    var content: seq<Node>
    ghost var repr: set<Node>
    ghost var tree: Tree

    constructor (kind: Kind, value: string, content: seq<Node>, ghost ts: seq<Tree>)
      requires Forest(content) && HaveTrees(content, ts)
      ensures Valid() && this.content == content && tree == Tree(kind, value, ts)
    {
      this.kind, this.value, this.content := kind, value, content;
      this.repr, this.tree := {this} + Footprint(content), Tree(kind, value, ts);
    }

    ghost predicate Valid()
      reads this, repr
      decreases repr, 0
    {
      && this in repr
      && (forall c | c in content :: c in repr && c.repr <= repr - {this} && c.Valid())
      && Apart(content)
      && tree.kind == kind && tree.value == value && HaveTrees(content, tree.content)
    }
  }

  /** Nodes that have nothing in common. */
  ghost predicate Apart(nodes: seq<Node>)
    reads nodes
  {
    forall i, j | 0 <= i < j < |nodes| :: nodes[i].repr !! nodes[j].repr
  }

  ghost predicate HaveTrees(nodes: seq<Node>, ts: seq<Tree>)
    reads nodes
  {
    |ts| == |nodes| && forall i | 0 <= i < |nodes| :: nodes[i].tree == ts[i]
  }

  ghost function Footprint(nodes: seq<Node>): set<Node>
    reads nodes
  {
    set n, x | n in nodes && x in n.repr :: x
  }

  ghost predicate Forest(nodes: seq<Node>)
    reads nodes, Footprint(nodes)
  {
    (forall n | n in nodes :: n.Valid()) && Apart(nodes)
  }

  /** removeKey(): the nodes stay, and what hangs below them is pruned in place. */
  method RemoveKey(nodes: seq<Node>, key: string, ghost ts: seq<Tree>) returns (newNodes: seq<Node>)
    requires Forest(nodes) && HaveTrees(nodes, ts)
    modifies Footprint(nodes)
    ensures newNodes == nodes && Forest(nodes) && HaveTrees(nodes, Prune(ts, key))
    ensures forall n | n in nodes :: n.repr <= old(n.repr)
    decreases Size(ts), 2
  {
    newNodes := [];
    for i := 0 to |nodes|
      invariant newNodes == nodes[..i] && Forest(nodes) && HaveTrees(nodes, Pruning(ts, i, key))
      invariant forall n | n in nodes :: n.repr <= old(n.repr)
    {
      SizeAt(ts, i);
      PruningStep(ts, i, key);
      PruneAmong(nodes, i, key, Pruning(ts, i, key));
      TakeOneMore(nodes, i);
      newNodes := newNodes + [nodes[i]];
    }
    assert Pruning(ts, |ts|, key) == Prune(ts, key);
    assert nodes[..|nodes|] == nodes;
  }

  lemma TakeOneMore<T>(s: seq<T>, i: nat)
    requires i < |s|
    ensures s[..i + 1] == s[..i] + [s[i]]
  {
  }

  /** Trees of which the first `i` are pruned. */
  function Pruning(ts: seq<Tree>, i: nat, key: string): seq<Tree>
    requires i <= |ts|
  {
    Prune(ts[..i], key) + ts[i..]
  }

  lemma PruningStep(ts: seq<Tree>, i: nat, key: string)
    requires i < |ts|
    ensures Pruning(ts, i, key)[i] == ts[i]
    ensures Pruning(ts, i, key)[i := PruneOne(ts[i], key)] == Pruning(ts, i + 1, key)
  {
    assert forall j | 0 <= j < i :: ts[..i][j] == ts[..i + 1][j];
  }

  /** The body of the loop of removeKey() does not reach the other nodes. */
  method PruneAmong(nodes: seq<Node>, i: nat, key: string, ghost ts: seq<Tree>)
    requires i < |nodes| && Forest(nodes) && HaveTrees(nodes, ts)
    modifies nodes[i].repr
    ensures Forest(nodes) && HaveTrees(nodes, ts[i := PruneOne(ts[i], key)])
    ensures forall n | n in nodes :: n.repr <= old(n.repr)
    decreases Size([ts[i]]), 1
  {
    assert nodes[i] in nodes;
    ghost var others := nodes[..i] + nodes[i + 1..];
    assert forall n | n in others :: n.repr !! nodes[i].repr && n.Valid();
    PruneNode(nodes[i], key);
    assert forall n | n in others :: n.Valid() && n.repr == old(n.repr) && n.tree == old(n.tree);
    forall j | 0 <= j < |nodes| && j != i ensures nodes[j] in others {
      assert nodes[j] == others[if j < i then j else j - 1];
    }
  }

  /** The body of the loop of removeKey(). */
  method PruneNode(node: Node, key: string)
    requires node.Valid()
    modifies node.repr
    ensures node.Valid() && node.repr <= old(node.repr)
    ensures node.tree == PruneOne(old(node.tree), key)
    decreases Size([node.tree]), 0
  {
    ghost var t := node.tree;
    assert Size([t]) == 1 + Size(t.content) + Size([]);
    if node.kind == Mapping {
      DropKeys(node, key);
      DropPairsShrinks(t.content, key);
      PruneContent(node, key);
    }
    if node.kind == Sequence {
      PruneContent(node, key);
    }
  }

  /** The recursive call for the content of a node. */
  method PruneContent(node: Node, key: string)
    requires node.Valid()
    modifies node.repr
    ensures node.Valid() && node.repr == old(node.repr)
    ensures node.tree == old(node.tree).(content := Prune(old(node.tree.content), key))
    decreases Size(node.tree.content), 3
  {
    var content := RemoveKey(node.content, key, node.tree.content);
    node.content := content;
    node.tree := node.tree.(content := Prune(node.tree.content, key));
  }

  /** What is left of a mapping whose first `j` pairs have been looked at. */
  function Dropping(c: seq<Tree>, j: nat, key: string): seq<Tree>
    requires 2 * j <= |c|
  {
    c[..2 * j] + DropPairs(c[2 * j..], key)
  }

  function WithoutPair<T>(c: seq<T>, j: nat): seq<T>
    requires 2 * j + 2 <= |c|
  {
    c[..j * 2] + c[j * 2 + 2..]
  }

  lemma WithoutPairAt<T>(c: seq<T>, j: nat)
    requires 2 * j + 2 <= |c|
    ensures forall i | 0 <= i < |c| - 2 :: WithoutPair(c, j)[i] == c[if i < 2 * j then i else i + 2]
    ensures forall x | x in WithoutPair(c, j) :: x in c
  {
  }

  lemma DroppingStep(c: seq<Tree>, j: nat, key: string)
    requires 2 * j + 2 <= |c|
    ensures Dropping(c, j, key)
            == if c[2 * j].value == key then Dropping(WithoutPair(c, j), j, key) else Dropping(c, j + 1, key)
  {
    var rest := c[2 * j..];
    assert rest[2..] == c[2 * j + 2..];
    if c[2 * j].value == key {
      var d := WithoutPair(c, j);
      assert d[..2 * j] == c[..2 * j] && d[2 * j..] == rest[2..];
    } else {
      assert c[..2 * j + 2] == c[..2 * j] + rest[..2];
    }
  }

  lemma DroppingEnd(c: seq<Tree>, j: nat, key: string)
    requires 2 * j <= |c| < 2 * j + 2
    ensures Dropping(c, j, key) == c
  {
  }

  /** One removal: append(node.Content[:j*2], node.Content[j*2+2:]...). */
  method DropPair(node: Node, j: nat)
    requires node.Valid() && 2 * j + 2 <= |node.content|
    modifies node
    ensures node.Valid() && node.repr == old(node.repr) && node.content == WithoutPair(old(node.content), j)
    ensures node.tree == old(node.tree).(content := WithoutPair(old(node.tree.content), j))
  {
    WithoutPairAt(node.content, j);
    WithoutPairAt(node.tree.content, j);
    ghost var c := node.content;
    node.content := node.content[..j * 2] + node.content[j * 2 + 2..];
    node.tree := node.tree.(content := WithoutPair(node.tree.content, j));
    assert forall i | 0 <= i < |node.content| :: node.content[i] == c[if i < 2 * j then i else i + 2];
    assert Apart(c);
  }

  /** The loop over the pairs of a mapping. */
  method DropKeys(node: Node, key: string)
    requires node.Valid()
    modifies node
    ensures node.Valid() && node.repr == old(node.repr)
    ensures node.tree == old(node.tree).(content := DropPairs(old(node.tree.content), key))
  {
    ghost var all := DropPairs(node.tree.content, key);
    var j := 0;
    assert Dropping(node.tree.content, 0, key) == all;
    while j < |node.content| / 2
      invariant node.Valid() && node.repr == old(node.repr) && 2 * j <= |node.content|
      invariant Dropping(node.tree.content, j, key) == all
      decreases |node.content| - 2 * j
    {
      DroppingStep(node.tree.content, j, key);
      if node.content[j * 2].value == key {
        assert node.content[j * 2].Valid();
        DropPair(node, j);
        continue;
      }
      assert node.content[j * 2].Valid();
      j := j + 1;
    }
    DroppingEnd(node.tree.content, j, key);
  }
}
