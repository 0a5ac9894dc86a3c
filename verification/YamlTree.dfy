/** The YAML tree as the encrypter holds it: linked nodes whose text it overwrites in
    place (processYAMLNode and EncryptConfig in internal/config/secrets.go). */
module YamlTree {
  import opened Wrappers
  import opened Text
  import KeyFiles
  import opened Secrets
  import opened AtomicFile

  type Recipient = KeyFiles.Recipient

  datatype Kind = ScalarNode | MappingNode | SequenceNode | DocumentNode | AliasNode

  class YamlNode {
    const kind: Kind
    var value: string           // of a scalar, or the anchor an alias names
    const keys: seq<string>     // of a mapping, one for each node in content
    const content: seq<YamlNode>
    ghost var tree: Node        // the document this node stands for
    ghost const Repr: set<YamlNode>

    ghost predicate Valid()
      reads this, Repr
      decreases Repr
      ensures Valid() ==> this in Repr
    {
      && this in Repr
      && Linked()
      && (forall i :: 0 <= i < |content| ==> content[i].Repr < Repr && content[i].Valid())
      && match kind
         case ScalarNode => tree == Scalar(value)
         case AliasNode => tree == Alias(value)
         case MappingNode =>
           && tree.Mapping? && |tree.entries| == |content| == |keys|
           && forall i :: 0 <= i < |content| ==> tree.entries[i] == Entry(keys[i], content[i].tree)
         case SequenceNode => tree.Sequence? && TreesOf(tree.items)
         case DocumentNode => tree.Document? && TreesOf(tree.children)
    }

    /** The subtrees share no node with each other or with this one. */
    ghost predicate Linked() {
      && (forall i :: 0 <= i < |content| ==> content[i] in Repr && this !in content[i].Repr)
      && (forall i, j :: 0 <= i < j < |content| ==> content[i].Repr !! content[j].Repr)
    }

    ghost predicate TreesOf(trees: seq<Node>)
      reads content
    {
      |trees| == |content| && forall i :: 0 <= i < |trees| ==> trees[i] == content[i].tree
    }
  }

  /** The closure EncryptConfig passes down. The nonce is whatever age draws; works says
      that no call of age fails. */
  method EncryptScalar(c: Crypto, r: Recipient, value: string, works: bool) returns (out: Option<string>)
    ensures out.Some? ==> SealsTo(c, r, value, out.value)
    ensures works || !Plaintext(value) ==> out.Some?
  {
    if TrimSpace(value) == "" || IsEncrypted(value) {
      return Some(value);
    }
    var failed: bool := *;
    if !works && failed {
      return None;
    }
    var nonce: nat :| true;
    out := Some(Sealed(c, r, value, nonce));
  }

  /** Walks the tree and overwrites the secret scalars. On an error the walk stops and
      the half-changed tree is dropped by the caller. */
  method ProcessNode(c: Crypto, r: Recipient, node: YamlNode, works: bool) returns (ok: bool)
    requires node.Valid()
    modifies node.Repr
    ensures works ==> ok
    ensures ok ==> node.Valid() && Encrypts(c, r, old(node.tree), node.tree)
    decreases node.Repr, 2
  {
    match node.kind {
      case MappingNode => ok := ProcessMapping(c, r, node, works);
      case SequenceNode => ok := ProcessList(c, r, node, works);
      case DocumentNode => ok := ProcessList(c, r, node, works);
      case ScalarNode => ok := true;
      case AliasNode => ok := true;
    }
  }

  /** The tree with child number i exchanged. */
  ghost function WithChild(n: Node, i: nat, child: Node): (m: Node)
    requires i < |Children(n)|
    ensures SameShape(n, m) && Children(m) == Children(n)[i := child]
  {
    match n
    case Mapping(es) =>
      var m := Mapping(es[i := Entry(es[i].key, child)]);
      assert Children(m) == Children(n)[i := child];
      m
    case Sequence(items) => Sequence(items[i := child])
    case Document(children) => Document(children[i := child])
  }

  method ProcessChild(c: Crypto, r: Recipient, node: YamlNode, i: nat, works: bool) returns (ok: bool)
    requires node.Valid() && i < |node.content| && node.kind in {MappingNode, SequenceNode, DocumentNode}
    requires i < |Children(node.tree)|
    modifies node`tree, node.content[i].Repr
    ensures works ==> ok
    ensures ok ==> node.Valid() && node.tree == WithChild(old(node.tree), i, node.content[i].tree)
    ensures ok ==> Encrypts(c, r, Children(old(node.tree))[i], node.content[i].tree)
    decreases node.Repr, 0
  {
    var child := node.content[i];
    ok := ProcessNode(c, r, child, works);
    if ok {
      node.tree := WithChild(node.tree, i, child.tree);
    }
  }

  method ProcessList(c: Crypto, r: Recipient, node: YamlNode, works: bool) returns (ok: bool)
    requires node.Valid() && node.kind in {SequenceNode, DocumentNode}
    modifies node.Repr
    ensures works ==> ok
    ensures ok ==> node.Valid() && Encrypts(c, r, old(node.tree), node.tree)
    decreases node.Repr, 1
  {
    ghost var before := Children(node.tree);
    for i := 0 to |node.content|
      invariant node.Valid() && SameShape(old(node.tree), node.tree)
      invariant forall k :: 0 <= k < i ==> Encrypts(c, r, before[k], Children(node.tree)[k])
      invariant forall k :: i <= k < |node.content| ==> Children(node.tree)[k] == before[k]
    {
      ok := ProcessChild(c, r, node, i, works);
      if !ok {
        return;
      }
    }
    ok := true;
  }

  method ProcessMapping(c: Crypto, r: Recipient, node: YamlNode, works: bool) returns (ok: bool)
    requires node.Valid() && node.kind == MappingNode
    modifies node.Repr
    ensures works ==> ok
    ensures ok ==> node.Valid() && Encrypts(c, r, old(node.tree), node.tree)
    decreases node.Repr, 1
  {
    ghost var before := node.tree.entries;
    for i := 0 to |node.content|
      invariant node.Valid() && SameShape(old(node.tree), node.tree)
      invariant forall k :: 0 <= k < i ==> EncryptsEntry(c, r, before[k], node.tree.entries[k])
      invariant forall k :: i <= k < |node.content| ==> node.tree.entries[k] == before[k]
    {
      if !IsSecretField(node.keys[i]) {
        ok := ProcessChild(c, r, node, i, works);
      } else {
        ok := ProcessSecret(c, r, node, i, works);
      }
      if !ok {
        return;
      }
    }
    ok := true;
  }

  method ProcessSecret(c: Crypto, r: Recipient, node: YamlNode, i: nat, works: bool) returns (ok: bool)
    requires node.Valid() && node.kind == MappingNode && i < |node.content|
    requires i < |Children(node.tree)| && IsSecretField(node.keys[i])
    modifies node`tree, node.content[i].Repr
    ensures works ==> ok
    ensures ok ==> node.Valid() && node.tree == WithChild(old(node.tree), i, node.content[i].tree)
    ensures ok ==> EncryptsEntry(c, r, old(node.tree.entries[i]), node.tree.entries[i])
    decreases node.Repr, 0
  {
    var valNode := node.content[i];
    ok := SealNode(c, r, valNode, works);
    if ok {
      node.tree := WithChild(node.tree, i, valNode.tree);
    }
  }

  /** A value under a secret key: a scalar is overwritten, anything else is left alone. */
  method SealNode(c: Crypto, r: Recipient, valNode: YamlNode, works: bool) returns (ok: bool)
    requires valNode.Valid()
    modifies valNode.Repr
    ensures works ==> ok
    ensures ok ==> valNode.Valid() && SealsNode(c, r, old(valNode.tree), valNode.tree)
  {
    if valNode.kind != ScalarNode {
      return true;
    }
    var newVal := EncryptScalar(c, r, valNode.value, works);
    if newVal.None? {
      return false;
    }
    valNode.value := newVal.value;
    valNode.tree := Scalar(newVal.value);
    ok := true;
  }

  /** The document that encoding the nodes writes. */
  function Encode(node: YamlNode): (d: Node)
    requires node.Valid()
    reads node, node.Repr
    ensures d == node.tree
    decreases node.Repr, |node.content| + 1
  {
    var children := EncodeFirst(node, |node.content|);
    match node.kind
    case ScalarNode => Scalar(node.value)
    case AliasNode => Alias(node.value)
    case MappingNode => Mapping(Entries(node.keys, children))
    case SequenceNode => Sequence(children)
    case DocumentNode => Document(children)
  }

  function EncodeFirst(node: YamlNode, n: nat): (ds: seq<Node>)
    requires node.Valid() && n <= |node.content|
    reads node, node.Repr
    ensures |ds| == n && forall i :: 0 <= i < n ==> ds[i] == node.content[i].tree
    decreases node.Repr, n
  {
    if n == 0 then [] else EncodeFirst(node, n - 1) + [Encode(node.content[n - 1])]
  }

  function Entries(keys: seq<string>, values: seq<Node>): (es: seq<Entry>)
    requires |keys| == |values|
    ensures |es| == |values| && forall i :: 0 <= i < |values| ==> es[i] == Entry(keys[i], values[i])
  {
    seq(|values|, i requires 0 <= i < |values| => Entry(keys[i], values[i]))
  }

  /** config.yaml with its temporary file, as the documents they hold. */
  class ConfigFile {
    var disk: Disk<Node>

    constructor (content: Node)
      ensures disk == Disk(Whole(Synced, content), None)
    {
      disk := Disk(Whole(Synced, content), None);
    }

    /** The nodes are those of the old file. The encrypted document replaces it, or the
        file stays as it was; the ghost run records each moment of the replacement. */
    method EncryptConfig(c: Crypto, r: Recipient, root: YamlNode, works: bool, writes: bool)
      returns (ok: bool, ghost run: seq<Moment<Node>>)
      requires root.Valid() && disk.target == Whole(Synced, root.tree)
      modifies this, root.Repr
      ensures works && writes ==> ok
      ensures if ok then disk.target == Whole(Synced, root.tree) && Encrypts(c, r, old(root.tree), root.tree)
              else disk.target == old(disk.target)
      ensures IsRun(Synced, root.tree, run) && run[0] == Moment(old(disk), Create) && run[|run| - 1].disk == disk
    {
      ok := ProcessNode(c, r, root, works);
      if !ok {
        run := [Moment(disk, Create)];
        return;
      }
      ok, run := Replace(Encode(root), writes);
      OldOrWholeNew(Synced, root.tree, run, |run| - 1);
    }

    /** Open, write, sync, close and rename; any of them may fail unless writes says
        that none does. */
    method Replace(v: Node, writes: bool) returns (ok: bool, ghost run: seq<Moment<Node>>)
      modifies this
      ensures writes ==> ok
      ensures IsRun(Synced, v, run) && run[0] == Moment(old(disk), Create)
      ensures run[|run| - 1] == Moment(disk, if ok then Replaced else Abandoned)
    {
      run := [Moment(disk, Create)];
      var strikes: bool := *;
      if !writes && strikes {
        run := Extend(Synced, v, run, Moment(disk, Abandoned));
        return false, run;
      }
      disk := disk.(temp := Some(Copy(v, false, false)));
      run := Extend(Synced, v, run, Moment(disk, Write));
      strikes := *;
      if !writes && strikes {
        ok, run := GiveUp(v, run);
        return;
      }
      disk := disk.(temp := Some(Copy(v, true, false)));
      run := Extend(Synced, v, run, Moment(disk, Sync));
      strikes := *;
      if !writes && strikes {
        ok, run := GiveUp(v, run);
        return;
      }
      disk := disk.(temp := Some(Copy(v, true, true)));
      run := Extend(Synced, v, run, Moment(disk, CloseTemp));
      ok, run := Swap(v, writes, run);
    }

    method Swap(v: Node, writes: bool, ghost before: seq<Moment<Node>>) returns (ok: bool, ghost run: seq<Moment<Node>>)
      requires IsRun(Synced, v, before) && before[|before| - 1] == Moment(disk, CloseTemp)
      modifies this
      ensures writes ==> ok
      ensures IsRun(Synced, v, run) && run[0] == before[0]
      ensures run[|run| - 1] == Moment(disk, if ok then Replaced else Abandoned)
    {
      run := before;
      var strikes: bool := *;
      if !writes && strikes {
        ok, run := GiveUp(v, run);
        return;
      }
      run := Extend(Synced, v, run, Moment(disk, Rename));
      strikes := *;
      if !writes && strikes {
        ok, run := GiveUp(v, run);
        return;
      }
      disk := Disk(disk.temp, None);
      run := Extend(Synced, v, run, Moment(disk, Replaced));
      ok := true;
    }

    /** Removes the temporary file, as far as that works. */
    method GiveUp(v: Node, ghost before: seq<Moment<Node>>) returns (ok: bool, ghost run: seq<Moment<Node>>)
      requires IsRun(Synced, v, before) && before[|before| - 1].disk == disk
      requires Running(before[|before| - 1].pc) && !before[|before| - 1].pc.Create?
      modifies this
      ensures !ok && IsRun(Synced, v, run) && run[0] == before[0] && run[|run| - 1] == Moment(disk, Abandoned)
    {
      run := Extend(Synced, v, before, Moment(disk, CleanUp));
      var removed: bool := *;
      if removed {
        disk := disk.(temp := None);
      }
      run := Extend(Synced, v, run, Moment(disk, Abandoned));
      ok := false;
    }
  }
}
